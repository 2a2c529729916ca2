/** The calc store: a connection to the calc database, whose `calcs` table
    the write operations change in place. Each operation runs the same
    steps as the store does (existence check, query, insert or delete) on
    the table held in `rows`, and its contract ties what it answers and
    the new table to the history-based answers of CalcTable. */
module CalcDB {
  import opened StringHelpers
  import opened Numerals
  import opened CalcTable
  import opened Storage

  class CalcStore {
    /** Whether the database handle `_db` is non-null. */
    const hasDb: bool
    /** The `calcs` table, in insertion order. */
    var rows: seq<CalcRow>

    /** Every keyword's versions run 0, 1, 2, ... in insertion order. */
    ghost predicate Valid()
      reads this
    {
      Contiguous(rows)
    }

    /** Opens the store over an existing table; `isOpen` is false when
        `sqlite3_open` left the handle null. */
    constructor (isOpen: bool, table: seq<CalcRow>)
      requires Contiguous(table)
      ensures Valid() && hasDb == isOpen && rows == table
    {
      hasDb := isOpen;
      rows := table;
    }

    /** getCalc(keyword): the newest revision's content. */
    method GetCalc(k: string) returns (res: CalcResponse, response: string)
      requires Valid()
      ensures Answer(res, response) == LatestAnswer(hasDb, rows, k)
    {
      if !hasDb {
        return NoDb, "";
      }
      LatestIsNewestRevision(rows, k);
      match SelectLatest(rows, k)
      case None =>
        res, response := NoCalc, "";
      case Some(row) =>
        res, response := Ok, row.content;
    }

    /** getLatestVersionNumber(keyword, version): the highest version of an
        existing keyword; `version` is left as it was otherwise. */
    method GetLatestVersionNumber(k: string, version: int) returns (res: CalcResponse, version': int)
      requires Valid()
      ensures var h := History(rows, k);
        if !hasDb then res == NoDb && version' == version
        else if h == [] then res == NoCalc && version' == version
        else res == VersionOk && version' == |h| - 1
    {
      version' := version;
      if !hasDb {
        return NoDb, version';
      }
      var r, _ := GetCalc(k);
      if r == NoCalc {
        return NoCalc, version';
      }
      MaxVersionIsNewest(rows, k);
      version' := MaxVersion(rows, k);
      res := VersionOk;
    }

    /** getWrapAroundVersion(keyword, version, str_version): writes the
        decimal text of latest + version + 1 into `strVersion` (latest
        being 0 for a keyword without revisions); VERSION_OK only for an
        existing keyword and a result that is not negative. */
    method GetWrapAroundVersion(k: string, v: int, strVersion: string) returns (res: CalcResponse, strVersion': string)
      requires Valid()
      ensures var h := History(rows, k);
        if !hasDb then res == NoDb && strVersion' == strVersion
        else
          && strVersion' == IntToString(if h == [] then v + 1 else |h| + v)
          && (res == VersionOk <==> h != [] && |h| + v >= 0)
          && (res != VersionOk ==> res == NoCalc)
    {
      if !hasDb {
        return NoDb, strVersion;
      }
      var maxVersion;
      res, maxVersion := GetLatestVersionNumber(k, 0);
      strVersion' := IntToString(maxVersion + v + 1);
      if maxVersion + v + 1 < 0 {
        res := NoCalc;
      }
    }

    /** Resolves the version a request names as the store does: itoa of
        `v`, replaced by the wrap-around version when `v` is negative, read
        back with atoi. None when the wrap-around reports no calc. */
    method ResolveVersion(k: string, v: int) returns (addressed: Option<int>)
      requires Valid() && hasDb
      ensures var h := History(rows, k);
        if v < 0 && (h == [] || |h| + v < 0) then addressed == None
        else addressed == Some(Addressed(rows, k, v))
    {
      var strVersion := IntToString(v);
      AtoiOfIntToString(v);
      if v < 0 {
        var w;
        w, strVersion := GetWrapAroundVersion(k, v, strVersion);
        if w != VersionOk {
          return None;
        }
        AtoiOfIntToString(|History(rows, k)| + v);
      }
      addressed := Some(Atoi(strVersion));
    }

    /** getCalc(keyword, version): the content of the addressed revision;
        -1 is the newest, -2 the one before, and so on. */
    method GetCalcAt(k: string, v: int) returns (res: CalcResponse, response: string)
      requires Valid()
      ensures Answer(res, response) == VersionAnswer(hasDb, rows, k, v)
    {
      if !hasDb {
        return NoDb, "";
      }
      var addressed := ResolveVersion(k, v);
      if addressed.None? {
        return NoCalc, "";
      }
      VersionIsRevision(rows, k, addressed.value);
      match SelectVersion(rows, k, addressed.value)
      case None =>
        res, response := NoCalc, "";
      case Some(row) =>
        res, response := Ok, row.content;
    }

    /** getVersionInfo(keyword, version): who changed the addressed
        revision and when. */
    method GetVersionInfo(k: string, v: int) returns (res: CalcResponse, response: string)
      requires Valid()
      ensures Answer(res, response) == VersionInfoAnswer(hasDb, rows, k, v)
    {
      if !hasDb {
        return NoDb, "";
      }
      var addressed := ResolveVersion(k, v);
      if addressed.None? {
        return NoCalc, "";
      }
      VersionIsRevision(rows, k, addressed.value);
      match SelectVersion(rows, k, addressed.value)
      case None =>
        res, response := NoCalc, "";
      case Some(row) =>
        res, response := Ok, VersionInfoText(k, row);
    }

    /** apropos(searchterm, response): steps through the matching keywords,
        the first one as it is and each later one after ", ". */
    method Apropos(term: string) returns (res: CalcResponse, response: string)
      ensures Answer(res, response) == AproposAnswer(hasDb, rows, term)
    {
      if !hasDb {
        return NoDb, "";
      }
      var keys := AproposKeys(rows, term);
      res, response := NoSearchMatches, "";
      if keys == [] {
        return;
      }
      res, response := Ok, keys[0];
      assert keys[..1] == [keys[0]];
      var i := 1;
      while i < |keys|
        invariant 1 <= i <= |keys|
        invariant response == Join(keys[..i], ", ")
      {
        JoinPrefixStep(keys, i, ", ");
        response := response + ", " + keys[i];
        i := i + 1;
      }
      assert keys[..i] == keys;
    }

    /** apropos_all(searchterm, response): steps through the matching
        (keyword, version) pairs, writing each as "(v<version> <keyword>)". */
    method AproposAll(term: string) returns (res: CalcResponse, response: string)
      ensures Answer(res, response) == AproposAllAnswer(hasDb, rows, term)
    {
      if !hasDb {
        return NoDb, "";
      }
      var es := AproposAllEntries(rows, term);
      var texts := EntryTexts(es);
      res, response := NoSearchMatches, "";
      if es == [] {
        return;
      }
      res, response := Ok, texts[0];
      assert texts[..1] == [texts[0]];
      var i := 1;
      while i < |texts|
        invariant 1 <= i <= |texts|
        invariant response == Join(texts[..i], ", ")
      {
        JoinPrefixStep(texts, i, ", ");
        response := response + ", " + texts[i];
        i := i + 1;
      }
      assert texts[..i] == texts;
    }

    /** makeCalc(keyword, newcalc, author): a keyword with any revision
        already exists; otherwise the trimmed text is inserted as version
        0, stamped with `now`, when the insert's step completes. */
    method MakeCalc(k: string, newcalc: string, author: string, now: string, step: StepResult) returns (res: CalcResponse)
      requires Valid()
      modifies this
      ensures Valid()
      ensures res == MakeCode(hasDb, old(rows), k, step)
      ensures rows == if res == CalcChanged then old(rows) + [CalcRow(k, 0, Trimmed(newcalc), author, now)] else old(rows)
      ensures res == CalcChanged ==> History(rows, k) == [CalcRow(k, 0, Trimmed(newcalc), author, now)]
      ensures forall k' :: k' != k ==> History(rows, k') == History(old(rows), k')
    {
      if !hasDb {
        return NoDb;
      }
      var found, _ := GetCalc(k);
      if found == Ok {
        return CalcAlreadyExists;
      }
      var content := Trim(newcalc);
      match step
      case StepDone =>
        var row := CalcRow(k, 0, content, author, now);
        AppendRevision(rows, row);
        rows := rows + [row];
        res := CalcChanged;
      case StepBusy =>
        res := DbBusy;
      case StepFailed =>
        res := CalcAlreadyExists;
    }

    /** changeCalc(keyword, newcalc, author): inserts the trimmed text as
        the version after the latest one, stamped with `now`, when the
        keyword exists and the insert's step completes. */
    method ChangeCalc(k: string, newcalc: string, author: string, now: string, step: StepResult) returns (res: CalcResponse)
      requires Valid()
      modifies this
      ensures Valid()
      ensures res == ChangeCode(hasDb, old(rows), k, step)
      ensures var row := CalcRow(k, |History(old(rows), k)|, Trimmed(newcalc), author, now);
        rows == if res == CalcChanged then old(rows) + [row] else old(rows)
      ensures res == CalcChanged ==>
        History(rows, k) == History(old(rows), k) + [CalcRow(k, |History(old(rows), k)|, Trimmed(newcalc), author, now)]
      ensures forall k' :: k' != k ==> History(rows, k') == History(old(rows), k')
    {
      if !hasDb {
        return NoDb;
      }
      var found, latest := GetLatestVersionNumber(k, 0);
      if found == NoCalc {
        return NoCalc;
      }
      var strVersion := IntToString(latest + 1);
      var content := Trim(newcalc);
      match step
      case StepDone =>
        AtoiOfIntToString(latest + 1);
        var row := CalcRow(k, Atoi(strVersion), content, author, now);
        AppendRevision(rows, row);
        rows := rows + [row];
        res := CalcChanged;
      case StepBusy =>
        res := DbBusy;
      case StepFailed =>
        res := NoCalc;
    }

    /** removeCalc(keyword): deletes every revision of an existing keyword
        when the delete's step completes. */
    method RemoveCalc(k: string, step: StepResult) returns (res: CalcResponse)
      requires Valid()
      modifies this
      ensures Valid()
      ensures res == RemoveCode(hasDb, old(rows), k, step)
      ensures rows == if res == Ok then WithoutKeyword(old(rows), k) else old(rows)
      ensures res == Ok ==> History(rows, k) == []
      ensures forall k' :: k' != k ==> History(rows, k') == History(old(rows), k')
    {
      if !hasDb {
        return NoDb;
      }
      var found, _ := GetCalc(k);
      if found == NoCalc {
        return NoCalc;
      }
      res := NoCalc;
      if step == StepDone {
        RemoveKeepsContiguous(rows, k);
        rows := WithoutKeyword(rows, k);
        res := Ok;
      }
    }
  }
}
