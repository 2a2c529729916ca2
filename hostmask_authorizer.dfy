/** The hostmask authorizer: two tables of hostmasks, the authorized ones
    and the banned ones, each row a (id, nick, hostmask) triple. A host
    matches a mask when every '*'-separated piece of the mask occurs
    somewhere in the host. */
module HostmaskAuthorizer {
  import opened StringHelpers
  import opened Numerals
  import opened Storage

  /** Which of the two tables an operation works on. */
  datatype HostmaskType = Banned | Authorized

  /** The response codes of the hostmask operations. */
  datatype HostmaskResponse = NoDb | Ok | NoRow | Busy

  /** One row of `authorized_hostmasks` or `banned_hostmasks`. */
  datatype HostmaskRow = HostmaskRow(id: int, nick: string, hostmask: string)

  // ---------------------------------------------------------------------------
  // Matching a host against masks
  // ---------------------------------------------------------------------------

  /** The check isAuthorized and isBanned apply to each stored mask: the
      pieces of the mask between '*'s all occur in the host, in any order
      and anywhere. */
  predicate MaskMatches(host: string, mask: string): (r: bool)
    ensures mask != [] && '*' !in mask ==> (r <==> IsSubstring(mask, host))
  {
    if mask != [] && '*' !in mask then
      TokenizeSingle(mask, '*');
      assert Tokenize(mask, '*')[0] == mask;
      ContainsAll(host, Tokenize(mask, '*'))
    else
      ContainsAll(host, Tokenize(mask, '*'))
  }

  /** Some row of the table has a mask the host matches. */
  predicate AnyMatches(table: seq<HostmaskRow>, host: string) {
    exists i :: 0 <= i < |table| && MaskMatches(host, table[i].hostmask)
  }

  /** A piece found in a suffix of `s` is found in `s`. */
  lemma SubstringOfSuffix(p: string, s: string, j: nat)
    requires j <= |s| && IsSubstring(p, s[j..])
    ensures IsSubstring(p, s)
  {
    var i: nat :| i <= |s[j..]| && OccursAt(p, s[j..], i);
    assert s[j + i..j + i + |p|] == s[j..][i..i + |p|];
    assert OccursAt(p, s, j + i);
  }

  /** Every piece tokenizing `s` yields occurs in `s`. */
  lemma {:induction false} TokensOccur(s: string, d: char)
    ensures ContainsAll(s, Tokenize(s, d))
    decreases |s|
  {
    var ts := Tokenize(s, d);
    if s == [] {
    } else if s[0] == d {
      TokensOccur(s[1..], d);
      forall i | 0 <= i < |ts| ensures IsSubstring(ts[i], s) {
        SubstringOfSuffix(ts[i], s, 1);
      }
    } else {
      var k := FirstIndexOf(s, d);
      TokensOccur(s[k..], d);
      forall i | 0 <= i < |ts| ensures IsSubstring(ts[i], s) {
        if i == 0 {
          assert OccursAt(s[..k], s, 0);
        } else {
          assert ts[i] == Tokenize(s[k..], d)[i - 1];
          SubstringOfSuffix(ts[i], s, k);
        }
      }
    }
  }

  /** A mask matches the host it was written from: in particular a mask
      without '*' matches exactly the hosts that contain it. */
  lemma MaskMatchesItself(mask: string)
    ensures MaskMatches(mask, mask)
  {
    TokensOccur(mask, '*');
  }

  /** A mask with nothing but '*'s (or nothing at all) matches every host. */
  lemma EmptyPatternMatchesAll(mask: string, host: string)
    requires forall i :: 0 <= i < |mask| ==> mask[i] == '*'
    ensures MaskMatches(host, mask)
  {
    TokenizeEmptyIff(mask, '*');
  }

  /** The pieces are looked for independently, so their order in the mask
      does not matter: "a*b" and "b*a" match the same hosts (a mask is not
      a glob pattern). */
  lemma SwappedPiecesMatchAlike(a: string, b: string, host: string)
    requires a != [] && '*' !in a && b != [] && '*' !in b
    ensures MaskMatches(host, a + "*" + b) == MaskMatches(host, b + "*" + a)
  {
    TokenizeAfterToken(a, '*', b);
    TokenizeAfterToken(b, '*', a);
    TokenizeSingle(a, '*');
    TokenizeSingle(b, '*');
    assert Tokenize(a + "*" + b, '*') == [a, b];
    assert Tokenize(b + "*" + a, '*') == [b, a];
    ContainsAllOrderFree(host, [a, b], [b, a]);
  }

  /** isAuthorized / isBanned's loop: steps through the rows of the table,
      tokenizes each mask on '*' and stops at the first the host matches. */
  method MatchesAnyMask(table: seq<HostmaskRow>, host: string) returns (found: bool)
    ensures found == AnyMatches(table, host)
  {
    var i := 0;
    while i < |table|
      invariant 0 <= i <= |table|
      invariant forall j :: 0 <= j < i ==> !MaskMatches(host, table[j].hostmask)
    {
      var tokens := TokenizeString(table[i].hostmask, '*');
      var all := StringContainsAllTokens(host, tokens);
      if all {
        return true;
      }
      i := i + 1;
    }
    return false;
  }

  // ---------------------------------------------------------------------------
  // Row identifiers and listings
  // ---------------------------------------------------------------------------

  /** No two rows share an id. */
  predicate UniqueIds(table: seq<HostmaskRow>) {
    forall i, j :: 0 <= i < j < |table| ==> table[i].id != table[j].id
  }

  /** The id SQLite gives the next inserted row: one more than the largest
      id in the table, 1 for an empty table. */
  function NextId(table: seq<HostmaskRow>): (n: int)
    ensures forall i :: 0 <= i < |table| ==> table[i].id < n
    ensures table == [] ==> n == 1
    ensures table != [] ==> exists i :: 0 <= i < |table| && n == table[i].id + 1
  {
    if table == [] then 1
    else if |table| == 1 then table[0].id + 1
    else
      var rest := NextId(table[1..]);
      assert forall i :: 1 <= i < |table| ==> table[i] == table[1..][i - 1];
      if table[0].id + 1 > rest then table[0].id + 1 else rest
  }

  /** Inserting a row with the next id keeps ids unique. */
  lemma InsertKeepsUniqueIds(table: seq<HostmaskRow>, nick: string, mask: string)
    requires UniqueIds(table)
    ensures UniqueIds(table + [HostmaskRow(NextId(table), nick, mask)])
  {
  }

  /** DELETE FROM ... WHERE id = ?. */
  function WithoutId(table: seq<HostmaskRow>, id: int): (r: seq<HostmaskRow>)
    ensures forall x :: x in r <==> x in table && x.id != id
  {
    if table == [] then []
    else
      assert forall x :: x in table <==> x == table[0] || x in table[1..];
      (if table[0].id != id then [table[0]] else []) + WithoutId(table[1..], id)
  }

  /** With unique ids, the DELETE removes exactly one row when some row
      has the id, and none otherwise. */
  lemma {:induction false} WithoutIdCount(table: seq<HostmaskRow>, id: int)
    requires UniqueIds(table)
    ensures (exists i :: 0 <= i < |table| && table[i].id == id) ==> |WithoutId(table, id)| == |table| - 1
    ensures (forall i :: 0 <= i < |table| ==> table[i].id != id) ==> WithoutId(table, id) == table
  {
    if table != [] {
      var t := table[1..];
      assert forall i :: 0 <= i < |t| ==> t[i] == table[i + 1];
      WithoutIdCount(t, id);
      if table[0].id == id {
        assert forall i :: 0 <= i < |t| ==> t[i].id != id;
      } else if exists i :: 0 <= i < |table| && table[i].id == id {
        var i :| 0 <= i < |table| && table[i].id == id;
        assert t[i - 1].id == id;
      }
    }
  }

  /** SELECT id, hostmask ... WHERE nick = ?: the rows of a nick, in table
      order. */
  function ByNick(table: seq<HostmaskRow>, nick: string): (r: seq<HostmaskRow>)
    ensures forall x :: x in r <==> x in table && x.nick == nick
  {
    if table == [] then []
    else
      assert forall x :: x in table <==> x == table[0] || x in table[1..];
      (if table[0].nick == nick then [table[0]] else []) + ByNick(table[1..], nick)
  }

  /** How getHostmasksByNick writes a row: "<id>) <hostmask>". */
  function ListingLine(row: HostmaskRow): (line: string)
    ensures |line| > |row.hostmask| + 2 && line[|line| - |row.hostmask| - 2..] == ") " + row.hostmask
  {
    IntToString(row.id) + ") " + row.hostmask
  }

  /** atoi of a listed line reads back the row's id: the number a user
      copies from the listing into rmhostmask addresses that row. */
  lemma ListingLineReadsId(row: HostmaskRow)
    ensures Atoi(ListingLine(row)) == row.id
  {
    AtoiOfIntToStringThen(row.id, ") " + row.hostmask);
    assert ListingLine(row) == IntToString(row.id) + (") " + row.hostmask);
  }

  /** One listing line per row, in order. */
  function Lines(rs: seq<HostmaskRow>): (lines: seq<string>)
    ensures |lines| == |rs|
    ensures forall i :: 0 <= i < |rs| ==> lines[i] == ListingLine(rs[i])
  {
    seq(|rs|, i requires 0 <= i < |rs| => ListingLine(rs[i]))
  }

  /** The lines getHostmasksByNick adds for a nick, one per row. */
  function Listing(table: seq<HostmaskRow>, nick: string): seq<string> {
    Lines(ByNick(table, nick))
  }

  /** getHostmasksByNick's loop: pushes one line per returned row onto
      `masks`. */
  method PushLines(rs: seq<HostmaskRow>, masks: seq<string>) returns (masks': seq<string>)
    ensures masks' == masks + Lines(rs)
  {
    masks' := masks;
    var i := 0;
    while i < |rs|
      invariant 0 <= i <= |rs|
      invariant masks' == masks + Lines(rs)[..i]
    {
      assert Lines(rs)[..i + 1] == Lines(rs)[..i] + [ListingLine(rs[i])];
      masks' := masks' + [ListingLine(rs[i])];
      i := i + 1;
    }
    assert Lines(rs)[..i] == Lines(rs);
  }

  // ---------------------------------------------------------------------------
  // The stored mask
  // ---------------------------------------------------------------------------

  /** The mask addHostmask stores as written: the hostmask text is bound
      with the length of the nick, so only the first |nick| characters are
      stored; a nick longer than the mask reads past its end (None). */
  function StoredMaskAsWritten(nick: string, mask: string): (stored: Option<string>)
    ensures stored.Some? <==> |nick| <= |mask|
    ensures stored.Some? ==> |stored.value| == |nick| && mask[..|nick|] == stored.value
  {
    if |nick| <= |mask| then Some(mask[..|nick|]) else None
  }

  /** The truncation widens a ban or an authorization: nick "bob" adding
      "*!*@ok" stores "*!*", which matches the host "x!y", while the full
      mask does not. */
  lemma StoredMaskWidens()
    ensures StoredMaskAsWritten("bob", "*!*@ok") == Some("*!*")
    ensures MaskMatches("x!y", "*!*")
    ensures !MaskMatches("x!y", "*!*@ok")
  {
    var short, full := "*!*", "*!*@ok";
    assert short[..3] == short;
    assert full[..3] == short;
    TokenizeAfterToken("!", '*', "");
    TokenizeAfterToken("!", '*', "@ok");
    TokenizeSingle("@ok", '*');
    assert short[1..] == "!" + "*" + "";
    assert full[1..] == "!" + "*" + "@ok";
    assert Tokenize(short, '*') == ["!"];
    assert Tokenize(full, '*') == ["!", "@ok"];
    assert OccursAt("!", "x!y", 1);
    assert !IsSubstring("@ok", "x!y") by {
      forall i: nat | i <= 3 ensures !OccursAt("@ok", "x!y", i) {
        if i == 0 {
          assert "x!y"[0] != "@ok"[0];
        }
      }
    }
    assert Tokenize(full, '*')[1] == "@ok";
  }

  // ---------------------------------------------------------------------------
  // The authorizer
  // ---------------------------------------------------------------------------

  class Authorizer {
    /** Whether the database handle `_db` is non-null. */
    const hasDb: bool
    /** `authorized_hostmasks`, in table order. */
    var authorized: seq<HostmaskRow>
    /** `banned_hostmasks`, in table order. */
    var banned: seq<HostmaskRow>

    /** The table an operation of the given type works on. */
    function Table(kind: HostmaskType): seq<HostmaskRow>
      reads this
    {
      if kind == Authorized then authorized else banned
    }

    /** Ids are unique in each table. */
    ghost predicate Valid()
      reads this
    {
      UniqueIds(authorized) && UniqueIds(banned)
    }

    constructor (isOpen: bool, authorizedRows: seq<HostmaskRow>, bannedRows: seq<HostmaskRow>)
      requires UniqueIds(authorizedRows) && UniqueIds(bannedRows)
      ensures Valid() && hasDb == isOpen && authorized == authorizedRows && banned == bannedRows
    {
      hasDb := isOpen;
      authorized := authorizedRows;
      banned := bannedRows;
    }

    /** isAuthorized(host): some authorized mask matches the host; false
        without a database. */
    method IsAuthorized(host: string) returns (b: bool)
      ensures b <==> hasDb && AnyMatches(authorized, host)
    {
      if !hasDb {
        return false;
      }
      b := MatchesAnyMask(authorized, host);
    }

    /** isBanned(host): some banned mask matches the host; false without a
        database. */
    method IsBanned(host: string) returns (b: bool)
      ensures b <==> hasDb && AnyMatches(banned, host)
    {
      if !hasDb {
        return false;
      }
      b := MatchesAnyMask(banned, host);
    }

    /** addHostmask(nick, hostmask, type): inserts (nick, hostmask) with the
        next id; any outcome of the insert's step other than completion is
        reported as busy. The whole mask is stored. */
    method AddHostmask(nick: string, mask: string, kind: HostmaskType, step: StepResult) returns (res: HostmaskResponse)
      requires Valid()
      modifies this
      ensures Valid()
      ensures res == if !hasDb then NoDb else if step == StepDone then Ok else Busy
      ensures Table(kind) == if res == Ok then old(Table(kind)) + [HostmaskRow(NextId(old(Table(kind))), nick, mask)]
                             else old(Table(kind))
      ensures kind == Authorized ==> banned == old(banned)
      ensures kind == Banned ==> authorized == old(authorized)
    {
      if !hasDb {
        return NoDb;
      }
      res := Ok;
      if step != StepDone {
        return Busy;
      }
      if kind == Authorized {
        InsertKeepsUniqueIds(authorized, nick, mask);
        authorized := authorized + [HostmaskRow(NextId(authorized), nick, mask)];
      } else {
        InsertKeepsUniqueIds(banned, nick, mask);
        banned := banned + [HostmaskRow(NextId(banned), nick, mask)];
      }
    }

    /** removeHostmaskByID(id, type): deletes the row with that id; OK
        whenever the delete's step completes, whether or not a row had
        that id. */
    method RemoveHostmaskById(id: int, kind: HostmaskType, step: StepResult) returns (res: HostmaskResponse)
      requires Valid()
      modifies this
      ensures Valid()
      ensures res == if !hasDb then NoDb else if step == StepDone then Ok else NoRow
      ensures Table(kind) == if res == Ok then WithoutId(old(Table(kind)), id) else old(Table(kind))
      ensures res == Ok && (exists i :: 0 <= i < |old(Table(kind))| && old(Table(kind))[i].id == id)
        ==> |Table(kind)| == |old(Table(kind))| - 1
      ensures kind == Authorized ==> banned == old(banned)
      ensures kind == Banned ==> authorized == old(authorized)
    {
      if !hasDb {
        return NoDb;
      }
      res := NoRow;
      if step == StepDone {
        if kind == Authorized {
          WithoutIdKeepsUniqueIds(authorized, id);
          WithoutIdCount(authorized, id);
          authorized := WithoutId(authorized, id);
        } else {
          WithoutIdKeepsUniqueIds(banned, id);
          WithoutIdCount(banned, id);
          banned := WithoutId(banned, id);
        }
        res := Ok;
      }
    }

    /** getHostmasksByNick(nick, type, masks): appends one line per row of
        the nick to `masks`; OK whenever there is a database. */
    method GetHostmasksByNick(nick: string, kind: HostmaskType, masks: seq<string>) returns (res: HostmaskResponse, masks': seq<string>)
      ensures !hasDb ==> res == NoDb && masks' == masks
      ensures hasDb ==> res == Ok && masks' == masks + Listing(Table(kind), nick)
    {
      masks' := masks;
      if !hasDb {
        return NoDb, masks';
      }
      masks' := PushLines(ByNick(Table(kind), nick), masks);
      res := Ok;
    }
  }

  /** Deleting by id keeps ids unique. */
  lemma {:induction false} WithoutIdKeepsUniqueIds(table: seq<HostmaskRow>, id: int)
    requires UniqueIds(table)
    ensures UniqueIds(WithoutId(table, id))
  {
    if table != [] {
      WithoutIdKeepsUniqueIds(table[1..], id);
      var rest := WithoutId(table[1..], id);
      forall j | 0 <= j < |rest| ensures rest[j].id != table[0].id {
        assert rest[j] in table[1..];
      }
    }
  }

  /** A host the added mask matches is authorized (or banned) once the add
      completes; rows already there keep matching as before. */
  lemma AddedMaskMatches(table: seq<HostmaskRow>, row: HostmaskRow, host: string)
    ensures AnyMatches(table + [row], host) <==> AnyMatches(table, host) || MaskMatches(host, row.hostmask)
  {
    var t := table + [row];
    if AnyMatches(table, host) {
      var i :| 0 <= i < |table| && MaskMatches(host, table[i].hostmask);
      assert t[i] == table[i];
    }
    if MaskMatches(host, row.hostmask) {
      assert t[|table|] == row;
    }
    if AnyMatches(t, host) {
      var i :| 0 <= i < |t| && MaskMatches(host, t[i].hostmask);
      if i < |table| {
        assert t[i] == table[i];
      }
    }
  }

  /** An added row comes last in its nick's rows. */
  lemma {:induction false} ByNickSnoc(table: seq<HostmaskRow>, row: HostmaskRow, nick: string)
    ensures ByNick(table + [row], nick) == ByNick(table, nick) + (if row.nick == nick then [row] else [])
  {
    if table == [] {
      assert table + [row] == [row];
      assert [row][1..] == [];
    } else {
      assert (table + [row])[1..] == table[1..] + [row];
      ByNickSnoc(table[1..], row, nick);
    }
  }

  /** Listing a nick after one of its masks is added shows the new mask
      last, under its id. */
  lemma ListingAfterAdd(table: seq<HostmaskRow>, row: HostmaskRow)
    ensures Listing(table + [row], row.nick) == Listing(table, row.nick) + [ListingLine(row)]
  {
    ByNickSnoc(table, row, row.nick);
    var a, b := ByNick(table, row.nick), [row];
    assert Lines(a + b) == Lines(a) + Lines(b);
  }

  /** Once the row with an id is removed, no remaining row has it. */
  lemma RemovedIdGone(table: seq<HostmaskRow>, id: int)
    ensures forall i :: 0 <= i < |WithoutId(table, id)| ==> WithoutId(table, id)[i].id != id
  {
    var r := WithoutId(table, id);
    forall i | 0 <= i < |r| ensures r[i].id != id {
      assert r[i] in r;
    }
  }
}
