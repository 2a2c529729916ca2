/** The `calcs` table of the calc database as a sequence of rows in
    insertion order, the SELECT queries the store runs on it, and what
    each store operation answers, stated through each keyword's
    revision history. */
module CalcTable {
  import opened StringHelpers
  import opened Numerals
  import opened Ordering
  import opened Storage

  /** One row of `calcs(keyword, version, calc, author, added)`. */
  datatype CalcRow = CalcRow(keyword: string, version: int, content: string, author: string, added: string)

  /** The response codes of the calc store. */
  datatype CalcResponse =
    | Ok
    | NoCalc
    | VersionOk
    | NoSearchMatches
    | CalcChanged
    | CalcAlreadyExists
    | NoDb
    | DbBusy

  /** A response code together with the text the operation hands back
      through its `response` argument ("" when it hands back nothing). */
  datatype Answer = Answer(code: CalcResponse, text: string)

  // ---------------------------------------------------------------------------
  // Revision histories and the contiguity invariant
  // ---------------------------------------------------------------------------

  /** The rows of keyword `k`, in the order they were inserted. */
  function History(rows: seq<CalcRow>, k: string): seq<CalcRow> {
    if rows == [] then []
    else
      var init, last := rows[..|rows| - 1], rows[|rows| - 1];
      assert rows == init + [last];
      History(init, k) + (if last.keyword == k then [last] else [])
  }

  /** A keyword's history holds exactly the table's rows with that
      keyword. */
  lemma {:induction false} HistoryMembers(rows: seq<CalcRow>, k: string)
    ensures forall r :: r in History(rows, k) <==> r in rows && r.keyword == k
  {
    if rows != [] {
      var init, last := rows[..|rows| - 1], rows[|rows| - 1];
      assert rows == init + [last];
      HistoryMembers(init, k);
    }
  }

  /** The newest of a non-empty list of revisions. */
  function Last<T>(s: seq<T>): T
    requires s != []
  {
    s[|s| - 1]
  }

  /** Every keyword's rows, in insertion order, carry the versions
      0, 1, 2, ...: versions are contiguous from 0 with no gap and no
      duplicate, and the newest row has the highest version. */
  ghost predicate Contiguous(rows: seq<CalcRow>) {
    forall k, i :: 0 <= i < |History(rows, k)| ==> History(rows, k)[i].version == i
  }

  /** Inserting a row extends the history of its keyword only. */
  lemma HistoryAppend(rows: seq<CalcRow>, row: CalcRow, k: string)
    ensures History(rows + [row], k) == History(rows, k) + (if row.keyword == k then [row] else [])
  {
    assert (rows + [row])[..|rows|] == rows;
  }

  /** Inserting a row for `k` whose version is the number of revisions `k`
      already has keeps every keyword's versions contiguous, appends the
      row to `k`'s history and leaves every other history as it was. */
  lemma AppendRevision(rows: seq<CalcRow>, row: CalcRow)
    requires Contiguous(rows)
    requires row.version == |History(rows, row.keyword)|
    ensures Contiguous(rows + [row])
    ensures History(rows + [row], row.keyword) == History(rows, row.keyword) + [row]
    ensures forall k :: k != row.keyword ==> History(rows + [row], k) == History(rows, k)
  {
    forall k ensures History(rows + [row], k) == History(rows, k) + (if row.keyword == k then [row] else []) {
      HistoryAppend(rows, row, k);
    }
  }

  /** DELETE FROM calcs WHERE keyword = k. */
  function WithoutKeyword(rows: seq<CalcRow>, k: string): seq<CalcRow> {
    if rows == [] then []
    else
      var init, last := rows[..|rows| - 1], rows[|rows| - 1];
      assert rows == init + [last];
      WithoutKeyword(init, k) + (if last.keyword != k then [last] else [])
  }

  /** DELETE keeps exactly the rows of the other keywords. */
  lemma {:induction false} WithoutKeywordMembers(rows: seq<CalcRow>, k: string)
    ensures forall x :: x in WithoutKeyword(rows, k) <==> x in rows && x.keyword != k
  {
    if rows != [] {
      var init, last := rows[..|rows| - 1], rows[|rows| - 1];
      assert rows == init + [last];
      WithoutKeywordMembers(init, k);
    }
  }

  /** Deleting keyword `k` empties its history and leaves the history of
      every other keyword exactly as it was. */
  lemma {:induction false} HistoryWithoutKeyword(rows: seq<CalcRow>, k: string, k': string)
    ensures History(WithoutKeyword(rows, k), k') == if k' == k then [] else History(rows, k')
  {
    if rows != [] {
      var init, last := rows[..|rows| - 1], rows[|rows| - 1];
      HistoryWithoutKeyword(init, k, k');
      var kept := if last.keyword != k then [last] else [];
      HistoryAppend(WithoutKeyword(init, k), last, k');
      if kept == [] {
        assert WithoutKeyword(rows, k) == WithoutKeyword(init, k);
      }
    }
  }

  /** Deleting a keyword keeps every remaining keyword contiguous. */
  lemma RemoveKeepsContiguous(rows: seq<CalcRow>, k: string)
    requires Contiguous(rows)
    ensures Contiguous(WithoutKeyword(rows, k))
    ensures History(WithoutKeyword(rows, k), k) == []
    ensures forall k' :: k' != k ==> History(WithoutKeyword(rows, k), k') == History(rows, k')
  {
    forall k' ensures History(WithoutKeyword(rows, k), k') == if k' == k then [] else History(rows, k') {
      HistoryWithoutKeyword(rows, k, k');
    }
  }

  // ---------------------------------------------------------------------------
  // The SELECT queries
  // ---------------------------------------------------------------------------

  /** SELECT calc FROM calcs WHERE keyword = ? ORDER BY version DESC
      LIMIT 0,1: a row of `k` with the highest version, or none. */
  function SelectLatest(rows: seq<CalcRow>, k: string): (r: Option<CalcRow>)
    ensures r.None? <==> forall x :: x in rows ==> x.keyword != k
    ensures r.Some? ==> r.value in rows && r.value.keyword == k
    ensures r.Some? ==> forall x :: x in rows && x.keyword == k ==> x.version <= r.value.version
  {
    if rows == [] then None
    else
      var rest := SelectLatest(rows[1..], k);
      assert forall x :: x in rows <==> x == rows[0] || x in rows[1..];
      if rows[0].keyword != k then rest
      else if rest.Some? && rest.value.version > rows[0].version then rest
      else Some(rows[0])
  }

  /** SELECT ... FROM calcs WHERE keyword = ? AND version = ? LIMIT 0,1. */
  function SelectVersion(rows: seq<CalcRow>, k: string, v: int): (r: Option<CalcRow>)
    ensures r.None? <==> forall x :: x in rows ==> !(x.keyword == k && x.version == v)
    ensures r.Some? ==> r.value in rows && r.value.keyword == k && r.value.version == v
  {
    if rows == [] then None
    else if rows[0].keyword == k && rows[0].version == v then Some(rows[0])
    else
      assert forall x :: x in rows <==> x == rows[0] || x in rows[1..];
      SelectVersion(rows[1..], k, v)
  }

  /** SELECT MAX(version) FROM calcs WHERE keyword = ?, read with
      sqlite3_column_int (a NULL maximum reads as 0). */
  function MaxVersion(rows: seq<CalcRow>, k: string): int {
    match SelectLatest(rows, k)
    case Some(r) => r.version
    case None => 0
  }

  /** A row of `k` is an entry of `k`'s history, found at the index given
      by its version. */
  lemma RowIsRevision(rows: seq<CalcRow>, k: string, x: CalcRow)
    requires Contiguous(rows) && x in rows && x.keyword == k
    ensures 0 <= x.version < |History(rows, k)| && History(rows, k)[x.version] == x
  {
    var h := History(rows, k);
    HistoryMembers(rows, k);
    assert x in h;
    var i :| 0 <= i < |h| && h[i] == x;
  }

  /** On a contiguous table the newest-version query returns the newest
      revision, and nothing for a keyword without rows. */
  lemma LatestIsNewestRevision(rows: seq<CalcRow>, k: string)
    requires Contiguous(rows)
    ensures History(rows, k) == [] ==> SelectLatest(rows, k) == None
    ensures History(rows, k) != [] ==> SelectLatest(rows, k) == Some(Last(History(rows, k)))
  {
    var h := History(rows, k);
    var r := SelectLatest(rows, k);
    HistoryMembers(rows, k);
    assert r.None? ==> h == [] by {
      if h != [] { assert h[0] in h; }
    }
    if r.Some? {
      var x := r.value;
      RowIsRevision(rows, k, x);
      var newest := Last(h);
      assert newest in h;
      assert newest.version == |h| - 1;
      assert x.version == |h| - 1;
      assert r == Some(newest);
    } else {
      assert r == None;
    }
  }

  /** On a contiguous table MAX(version) is the number of revisions less
      one (0 when there are none). */
  lemma MaxVersionIsNewest(rows: seq<CalcRow>, k: string)
    requires Contiguous(rows)
    ensures MaxVersion(rows, k) == if History(rows, k) == [] then 0 else |History(rows, k)| - 1
  {
    LatestIsNewestRevision(rows, k);
  }

  /** On a contiguous table the exact-version query returns revision `v`
      of the history when there is one, and nothing otherwise. */
  lemma VersionIsRevision(rows: seq<CalcRow>, k: string, v: int)
    requires Contiguous(rows)
    ensures var h := History(rows, k);
      SelectVersion(rows, k, v) == if 0 <= v < |h| then Some(h[v]) else None
  {
    var h := History(rows, k);
    var r := SelectVersion(rows, k, v);
    HistoryMembers(rows, k);
    assert r.None? ==> !(0 <= v < |h|) by {
      if 0 <= v < |h| { assert h[v] in h; }
    }
    if r.Some? {
      RowIsRevision(rows, k, r.value);
    }
  }

  // ---------------------------------------------------------------------------
  // What the read operations answer
  // ---------------------------------------------------------------------------

  /** getCalc(keyword): the content of the newest revision. */
  function LatestAnswer(hasDb: bool, rows: seq<CalcRow>, k: string): Answer {
    var h := History(rows, k);
    if !hasDb then Answer(NoDb, "")
    else if h == [] then Answer(NoCalc, "")
    else Answer(Ok, h[|h| - 1].content)
  }

  /** The revision a request for version `v` addresses: `v` itself when it
      is not negative, otherwise counted back from the newest one, -1
      being the newest (latest + v + 1). */
  function Addressed(rows: seq<CalcRow>, k: string, v: int): int {
    if v >= 0 then v else |History(rows, k)| + v
  }

  /** getCalc(keyword, version): the content of the addressed revision. */
  function VersionAnswer(hasDb: bool, rows: seq<CalcRow>, k: string, v: int): Answer {
    var h := History(rows, k);
    var a := Addressed(rows, k, v);
    if !hasDb then Answer(NoDb, "")
    else if 0 <= a < |h| then Answer(Ok, h[a].content)
    else Answer(NoCalc, "")
  }

  /** The line getVersionInfo reports for a revision. */
  function VersionInfoText(k: string, row: CalcRow): (t: string)
    ensures |t| > 6 + |k| && t[..6] == "Calc '" && t[6..6 + |k|] == k
    ensures |t| >= |row.author| && t[|t| - |row.author|..] == row.author
  {
    var t := "Calc '" + k + "' changed at " + row.added + " by " + row.author;
    assert t == "Calc '" + (k + ("' changed at " + row.added + " by " + row.author));
    t
  }

  /** getVersionInfo(keyword, version): who wrote the addressed revision
      and when. */
  function VersionInfoAnswer(hasDb: bool, rows: seq<CalcRow>, k: string, v: int): Answer {
    var h := History(rows, k);
    var a := Addressed(rows, k, v);
    if !hasDb then Answer(NoDb, "")
    else if 0 <= a < |h| then Answer(Ok, VersionInfoText(k, h[a]))
    else Answer(NoCalc, "")
  }

  /** Version -1 is the newest revision: getCalc(k, -1) answers exactly
      what getCalc(k) answers. */
  lemma MinusOneIsLatest(hasDb: bool, rows: seq<CalcRow>, k: string)
    ensures VersionAnswer(hasDb, rows, k, -1) == LatestAnswer(hasDb, rows, k)
  {
  }

  /** Counting back past version 0 finds nothing: with revisions 0..n,
      version -(n+2) is not found, and neither is any version of a keyword
      without revisions. */
  lemma TooFarBackIsNotFound(rows: seq<CalcRow>, k: string, v: int)
    requires v < 0 && |History(rows, k)| + v < 0
    ensures VersionAnswer(true, rows, k, v) == Answer(NoCalc, "")
    ensures VersionInfoAnswer(true, rows, k, v) == Answer(NoCalc, "")
  {
  }

  /** A new revision becomes what getCalc answers; every earlier version
      still reads back as before, and -2 now addresses the revision that
      was the newest. */
  lemma NewRevisionReadsBack(rows: seq<CalcRow>, row: CalcRow)
    ensures LatestAnswer(true, rows + [row], row.keyword) == Answer(Ok, row.content)
    ensures forall v :: 0 <= v < |History(rows, row.keyword)| ==>
      VersionAnswer(true, rows + [row], row.keyword, v) == VersionAnswer(true, rows, row.keyword, v)
    ensures History(rows, row.keyword) != [] ==>
      VersionAnswer(true, rows + [row], row.keyword, -2) == LatestAnswer(true, rows, row.keyword)
  {
    var h := History(rows, row.keyword);
    HistoryAppend(rows, row, row.keyword);
    assert History(rows + [row], row.keyword) == h + [row];
  }

  /** Tables in which a keyword has the same history answer every
      request for it alike. */
  lemma SameHistorySameAnswers(rows: seq<CalcRow>, rows': seq<CalcRow>, k: string, v: int)
    requires History(rows, k) == History(rows', k)
    ensures VersionAnswer(true, rows, k, v) == VersionAnswer(true, rows', k, v)
  {
  }

  /** After a keyword is removed getCalc finds nothing for it, and every
      other keyword answers every request as before. */
  lemma RemovedReadsNothing(rows: seq<CalcRow>, k: string)
    ensures LatestAnswer(true, WithoutKeyword(rows, k), k) == Answer(NoCalc, "")
    ensures forall k', v :: k' != k ==>
      VersionAnswer(true, WithoutKeyword(rows, k), k', v) == VersionAnswer(true, rows, k', v)
  {
    HistoryWithoutKeyword(rows, k, k);
    forall k', v | k' != k
      ensures VersionAnswer(true, WithoutKeyword(rows, k), k', v) == VersionAnswer(true, rows, k', v)
    {
      HistoryWithoutKeyword(rows, k, k');
      SameHistorySameAnswers(WithoutKeyword(rows, k), rows, k', v);
    }
  }

  // ---------------------------------------------------------------------------
  // The searches
  // ---------------------------------------------------------------------------

  /** keyword LIKE '%term%' OR calc LIKE '%term%', read as case-sensitive
      substring containment. */
  predicate Matches(term: string, row: CalcRow) {
    IsSubstring(term, row.keyword) || IsSubstring(term, row.content)
  }

  /** The keywords of the matching rows, in row order. */
  function MatchingKeywords(rows: seq<CalcRow>, term: string): (ks: seq<string>)
    ensures forall k :: k in ks <==> exists r :: r in rows && r.keyword == k && Matches(term, r)
  {
    if rows == [] then []
    else
      assert forall x :: x in rows <==> x == rows[0] || x in rows[1..];
      (if Matches(term, rows[0]) then [rows[0].keyword] else []) + MatchingKeywords(rows[1..], term)
  }

  /** SELECT keyword ... GROUP BY keyword ORDER BY keyword. */
  function AproposKeys(rows: seq<CalcRow>, term: string): seq<string> {
    SortDistinct(MatchingKeywords(rows, term), StringLess)
  }

  /** apropos lists each matching keyword once, in keyword order, and
      nothing else. */
  lemma AproposKeysSpec(rows: seq<CalcRow>, term: string)
    ensures SortedBy(AproposKeys(rows, term), StringLess)
    ensures forall k :: k in AproposKeys(rows, term) <==>
      exists r :: r in rows && r.keyword == k && Matches(term, r)
  {
    StringLessIsStrictTotalOrder();
    SortDistinctSpec(MatchingKeywords(rows, term), StringLess);
  }

  /** A (keyword, version) pair of a search result. */
  datatype Entry = Entry(keyword: string, version: int)

  /** ORDER BY keyword, version. */
  predicate EntryLess(a: Entry, b: Entry) {
    StringLess(a.keyword, b.keyword) || (a.keyword == b.keyword && a.version < b.version)
  }

  lemma EntryLessIsStrictTotalOrder()
    ensures StrictTotalOrder(EntryLess)
  {
    StringLessIsStrictTotalOrder();
    forall a: Entry, b: Entry | a != b ensures EntryLess(a, b) || EntryLess(b, a) {
      if a.keyword != b.keyword {
        assert StringLess(a.keyword, b.keyword) || StringLess(b.keyword, a.keyword);
      }
    }
  }

  /** The (keyword, version) pairs of the matching rows, in row order. */
  function MatchingEntries(rows: seq<CalcRow>, term: string): (es: seq<Entry>)
    ensures forall e :: e in es <==> exists r :: r in rows && Entry(r.keyword, r.version) == e && Matches(term, r)
  {
    if rows == [] then []
    else
      assert forall x :: x in rows <==> x == rows[0] || x in rows[1..];
      (if Matches(term, rows[0]) then [Entry(rows[0].keyword, rows[0].version)] else [])
        + MatchingEntries(rows[1..], term)
  }

  /** SELECT keyword, version ... GROUP BY keyword, version ORDER BY
      keyword, version. */
  function AproposAllEntries(rows: seq<CalcRow>, term: string): seq<Entry> {
    SortDistinct(MatchingEntries(rows, term), EntryLess)
  }

  /** apropos_all lists each matching (keyword, version) once, ordered by
      keyword and then version. */
  lemma AproposAllEntriesSpec(rows: seq<CalcRow>, term: string)
    ensures SortedBy(AproposAllEntries(rows, term), EntryLess)
    ensures forall e :: e in AproposAllEntries(rows, term) <==>
      exists r :: r in rows && Entry(r.keyword, r.version) == e && Matches(term, r)
  {
    EntryLessIsStrictTotalOrder();
    SortDistinctSpec(MatchingEntries(rows, term), EntryLess);
  }

  /** How apropos_all writes one entry: "(v<version> <keyword>)". */
  function EntryText(e: Entry): string {
    "(v" + IntToString(e.version) + " " + e.keyword + ")"
  }

  function EntryTexts(es: seq<Entry>): (ts: seq<string>)
    ensures |ts| == |es| && forall i :: 0 <= i < |es| ==> ts[i] == EntryText(es[i])
  {
    seq(|es|, i requires 0 <= i < |es| => EntryText(es[i]))
  }

  /** apropos(term): the matching keywords joined by ", ". */
  function AproposAnswer(hasDb: bool, rows: seq<CalcRow>, term: string): Answer {
    var keys := AproposKeys(rows, term);
    if !hasDb then Answer(NoDb, "")
    else if keys == [] then Answer(NoSearchMatches, "")
    else Answer(Ok, Join(keys, ", "))
  }

  /** apropos_all(term): the matching entries joined by ", ". */
  function AproposAllAnswer(hasDb: bool, rows: seq<CalcRow>, term: string): Answer {
    var es := AproposAllEntries(rows, term);
    if !hasDb then Answer(NoDb, "")
    else if es == [] then Answer(NoSearchMatches, "")
    else Answer(Ok, Join(EntryTexts(es), ", "))
  }

  /** Both searches report "no matches" exactly when no row matches. */
  lemma NoSearchMatchesIff(rows: seq<CalcRow>, term: string)
    ensures AproposAnswer(true, rows, term).code == NoSearchMatches <==> forall r :: r in rows ==> !Matches(term, r)
    ensures AproposAllAnswer(true, rows, term).code == NoSearchMatches <==> forall r :: r in rows ==> !Matches(term, r)
  {
    AproposKeysSpec(rows, term);
    AproposAllEntriesSpec(rows, term);
    var keys, es := AproposKeys(rows, term), AproposAllEntries(rows, term);
    if keys == [] {
      forall r | r in rows ensures !Matches(term, r) {
        assert r.keyword !in keys;
      }
    } else {
      assert keys[0] in keys;
    }
    if es == [] {
      forall r | r in rows ensures !Matches(term, r) {
        assert Entry(r.keyword, r.version) !in es;
      }
    } else {
      assert es[0] in es;
    }
  }

  // ---------------------------------------------------------------------------
  // What the write operations answer
  // ---------------------------------------------------------------------------

  /** makeCalc's response: a keyword that has any revision already exists;
      otherwise the insert's step decides, and a failure other than BUSY
      is reported as "already exists" too. */
  function MakeCode(hasDb: bool, rows: seq<CalcRow>, k: string, step: StepResult): CalcResponse {
    if !hasDb then NoDb
    else if History(rows, k) != [] then CalcAlreadyExists
    else match step
      case StepDone => CalcChanged
      case StepBusy => DbBusy
      case StepFailed => CalcAlreadyExists
  }

  /** changeCalc's response: a keyword without revisions has no calc;
      otherwise the insert's step decides, and a failure other than BUSY
      is reported as "no calc". */
  function ChangeCode(hasDb: bool, rows: seq<CalcRow>, k: string, step: StepResult): CalcResponse {
    if !hasDb then NoDb
    else if History(rows, k) == [] then NoCalc
    else match step
      case StepDone => CalcChanged
      case StepBusy => DbBusy
      case StepFailed => NoCalc
  }

  /** removeCalc's response: OK only when the keyword had revisions and the
      delete completed. */
  function RemoveCode(hasDb: bool, rows: seq<CalcRow>, k: string, step: StepResult): CalcResponse {
    if !hasDb then NoDb
    else if History(rows, k) == [] then NoCalc
    else if step == StepDone then Ok
    else NoCalc
  }

  /** The rows successive successful writes of `contents` to `k` append:
      each gets the next version after those `k` already has. */
  function Revisions(rows: seq<CalcRow>, k: string, contents: seq<string>, author: string, added: string): seq<CalcRow>
    decreases |contents|
  {
    if contents == [] then rows
    else
      var row := CalcRow(k, |History(rows, k)|, contents[0], author, added);
      Revisions(rows + [row], k, contents[1..], author, added)
  }

  /** The revisions successive writes of `contents` add to a history
      that already holds `start` of them. */
  function NewRevisions(start: nat, k: string, contents: seq<string>, author: string, added: string): (rs: seq<CalcRow>)
    ensures |rs| == |contents|
    ensures forall i :: 0 <= i < |contents| ==> rs[i] == CalcRow(k, start + i, contents[i], author, added)
  {
    seq(|contents|, i requires 0 <= i < |contents| => CalcRow(k, start + i, contents[i], author, added))
  }

  /** The first of the new revisions, then the rest numbered on from it. */
  lemma NewRevisionsCons(start: nat, k: string, contents: seq<string>, author: string, added: string)
    requires contents != []
    ensures NewRevisions(start, k, contents, author, added)
         == [CalcRow(k, start, contents[0], author, added)] + NewRevisions(start + 1, k, contents[1..], author, added)
  {
    var lhs := NewRevisions(start, k, contents, author, added);
    var rhs := [CalcRow(k, start, contents[0], author, added)] + NewRevisions(start + 1, k, contents[1..], author, added);
    assert |lhs| == |rhs|;
    forall i | 0 <= i < |lhs| ensures lhs[i] == rhs[i] {
      if i > 0 {
        assert rhs[i] == NewRevisions(start + 1, k, contents[1..], author, added)[i - 1];
      }
    }
  }

  /** Successive writes append their revisions, numbered on from the
      existing ones, to the keyword's history and keep every keyword
      contiguous. */
  lemma {:induction false} RevisionsHistory(rows: seq<CalcRow>, k: string, contents: seq<string>, author: string, added: string)
    requires Contiguous(rows)
    ensures Contiguous(Revisions(rows, k, contents, author, added))
    ensures History(Revisions(rows, k, contents, author, added), k)
         == History(rows, k) + NewRevisions(|History(rows, k)|, k, contents, author, added)
    decreases |contents|
  {
    var h := History(rows, k);
    if contents == [] {
      assert NewRevisions(|h|, k, contents, author, added) == [];
    } else {
      var row := CalcRow(k, |h|, contents[0], author, added);
      AppendRevision(rows, row);
      RevisionsHistory(rows + [row], k, contents[1..], author, added);
      NewRevisionsCons(|h|, k, contents, author, added);
      SnocThenAppend(h, row, NewRevisions(|h| + 1, k, contents[1..], author, added));
    }
  }

  /** Appending a row and then more rows is appending all of them. */
  lemma SnocThenAppend(h: seq<CalcRow>, row: CalcRow, rest: seq<CalcRow>)
    ensures (h + [row]) + rest == h + ([row] + rest)
  {
  }

  /** After a keyword is created and then revised, version i reads back
      the i-th content written, for every i. */
  lemma RevisionsReadBack(k: string, contents: seq<string>, author: string, added: string, rows: seq<CalcRow>)
    requires Contiguous(rows) && History(rows, k) == []
    ensures forall i :: 0 <= i < |contents| ==>
      VersionAnswer(true, Revisions(rows, k, contents, author, added), k, i) == Answer(Ok, contents[i])
  {
    RevisionsHistory(rows, k, contents, author, added);
  }
}
