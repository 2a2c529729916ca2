/** The string helpers every other component is built on: whitespace
    trimming, splitting on a delimiter, joining tokens back together and
    substring containment of a list of tokens. */
module StringHelpers {

  // ---------------------------------------------------------------------------
  // Whitespace trimming
  // ---------------------------------------------------------------------------

  /** The characters C's isspace accepts in the "C" locale: space, and
      tab, line feed, vertical tab, form feed and carriage return. */
  predicate IsSpace(c: char) {
    c == ' ' || ('\t' <= c <= '\r')
  }

  /** `s` with its leading whitespace removed: the longest suffix of `s`
      that does not start with whitespace, everything before it being
      whitespace. */
  function LTrimmed(s: string): (r: string)
    ensures |r| <= |s|
    ensures forall i :: 0 <= i < |s| - |r| ==> IsSpace(s[i])
    ensures r == [] || !IsSpace(r[0])
  {
    if s != [] && IsSpace(s[0]) then LTrimmed(s[1..]) else s
  }

  /** `s` with its trailing whitespace removed. */
  function RTrimmed(s: string): (r: string)
    ensures |r| <= |s| && r == s[..|r|]
    ensures forall i :: |r| <= i < |s| ==> IsSpace(s[i])
    ensures r == [] || !IsSpace(r[|r| - 1])
  {
    if s != [] && IsSpace(s[|s| - 1]) then RTrimmed(s[..|s| - 1]) else s
  }

  /** Both ends trimmed, the trailing end first, as trim does. */
  function Trimmed(s: string): string {
    LTrimmed(RTrimmed(s))
  }

  /** The string has no whitespace at either end. */
  predicate NoEdgeSpace(s: string) {
    s == [] || (!IsSpace(s[0]) && !IsSpace(s[|s| - 1]))
  }

  /** The left-trimmed string is the suffix of `s` left after its
      leading whitespace. */
  lemma {:induction false} LTrimmedIsSuffix(s: string)
    ensures LTrimmed(s) == s[|s| - |LTrimmed(s)|..]
  {
    if s != [] && IsSpace(s[0]) {
      LTrimmedIsSuffix(s[1..]);
      assert s[1..][|s| - 1 - |LTrimmed(s)|..] == s[|s| - |LTrimmed(s)|..];
    }
  }

  /** ltrim: erases the leading run of whitespace. */
  method LTrim(s: string) returns (r: string)
    ensures r == LTrimmed(s)
  {
    var i := 0;
    while i < |s| && IsSpace(s[i])
      invariant 0 <= i <= |s|
      invariant LTrimmed(s[i..]) == LTrimmed(s)
    {
      assert s[i..][1..] == s[i + 1..];
      i := i + 1;
    }
    r := s[i..];
  }

  /** rtrim: erases the trailing run of whitespace. */
  method RTrim(s: string) returns (r: string)
    ensures r == RTrimmed(s)
  {
    var j := |s|;
    while j > 0 && IsSpace(s[j - 1])
      invariant 0 <= j <= |s|
      invariant RTrimmed(s[..j]) == RTrimmed(s)
    {
      RTrimmedStep(s, j);
      j := j - 1;
    }
    r := s[..j];
  }

  /** Dropping a trailing whitespace character of a prefix of `s` leaves
      its right-trimmed form alone. */
  lemma RTrimmedStep(s: string, j: nat)
    requires 0 < j <= |s| && IsSpace(s[j - 1])
    ensures RTrimmed(s[..j - 1]) == RTrimmed(s[..j])
  {
    assert s[..j][..j - 1] == s[..j - 1];
  }

  /** trim: rtrim, then ltrim. */
  method Trim(s: string) returns (r: string)
    ensures r == Trimmed(s)
  {
    r := RTrim(s);
    r := LTrim(r);
  }

  /** The trimmed string has no whitespace at its ends. */
  lemma TrimmedNoEdgeSpace(s: string)
    ensures NoEdgeSpace(Trimmed(s))
  {
    var r := RTrimmed(s);
    var t := LTrimmed(r);
    LTrimmedIsSuffix(r);
    if t != [] {
      assert t[|t| - 1] == r[|r| - 1];
    }
  }

  /** The trimmed string is the part of `s` between a leading and a
      trailing run of whitespace. */
  lemma TrimmedIsCore(s: string) returns (i: nat, j: nat)
    ensures i <= j <= |s| && Trimmed(s) == s[i..j]
    ensures forall k :: 0 <= k < i ==> IsSpace(s[k])
    ensures forall k :: j <= k < |s| ==> IsSpace(s[k])
  {
    var r := RTrimmed(s);
    var t := LTrimmed(r);
    i, j := |r| - |t|, |r|;
    LTrimmedIsSuffix(r);
    assert t == s[i..j] by {
      forall x | 0 <= x < |t| ensures t[x] == s[i..j][x] {
        assert t[x] == r[i + x];
      }
    }
    forall k | 0 <= k < i ensures IsSpace(s[k]) {
      assert IsSpace(r[k]);
    }
  }

  /** A string trims to itself exactly when it has no whitespace at
      either end. */
  lemma TrimmedUnchangedIff(s: string)
    ensures Trimmed(s) == s <==> NoEdgeSpace(s)
  {
    TrimmedNoEdgeSpace(s);
    if NoEdgeSpace(s) {
      assert RTrimmed(s) == s;
      assert LTrimmed(s) == s;
    }
  }

  /** Trimming twice is trimming once. */
  lemma TrimIdempotent(s: string)
    ensures Trimmed(Trimmed(s)) == Trimmed(s)
  {
    TrimmedNoEdgeSpace(s);
    TrimmedUnchangedIff(Trimmed(s));
  }

  // ---------------------------------------------------------------------------
  // Tokenizing on a delimiter
  // ---------------------------------------------------------------------------

  /** Index of the first `d` in `s`, or |s| when `s` has none. */
  function FirstIndexOf(s: string, d: char): (k: nat)
    ensures k <= |s| && d !in s[..k]
    ensures k < |s| ==> s[k] == d
  {
    if s == [] || s[0] == d then 0
    else
      var k' := FirstIndexOf(s[1..], d);
      assert s[..1 + k'] == [s[0]] + s[1..][..k'];
      1 + k'
  }

  /** The pieces of `s` between occurrences of `d`, in order, with the
      empty pieces (from leading, trailing or repeated delimiters) dropped.
      No piece is empty and none contains the delimiter. */
  function Tokenize(s: string, d: char): (ts: seq<string>)
    ensures forall i :: 0 <= i < |ts| ==> ts[i] != [] && d !in ts[i]
    decreases |s|
  {
    if s == [] then []
    else if s[0] == d then Tokenize(s[1..], d)
    else
      var k := FirstIndexOf(s, d);
      [s[..k]] + Tokenize(s[k..], d)
  }

  /** `s` with every occurrence of `c` removed (the erase/remove idiom). */
  function Strip(s: string, c: char): (r: string)
    ensures c !in r && |r| <= |s|
  {
    if s == [] then [] else (if s[0] == c then [] else [s[0]]) + Strip(s[1..], c)
  }

  /** Removing one character keeps out any character already absent. */
  lemma {:induction false} StripKeepsAbsent(s: string, c: char, other: char)
    requires other !in s
    ensures other !in Strip(s, c)
  {
    if s != [] {
      assert other !in s[1..];
      StripKeepsAbsent(s[1..], c, other);
    }
  }

  /** The tokens written one after another. */
  function Concat(ts: seq<string>): string {
    if ts == [] then [] else ts[0] + Concat(ts[1..])
  }

  lemma {:induction false} StripAppend(a: string, b: string, c: char)
    ensures Strip(a + b, c) == Strip(a, c) + Strip(b, c)
  {
    if a != [] {
      assert (a + b)[1..] == a[1..] + b;
      StripAppend(a[1..], b, c);
    } else {
      assert a + b == b;
    }
  }

  lemma {:induction false} StripAbsent(a: string, c: char)
    requires c !in a
    ensures Strip(a, c) == a
  {
    if a != [] {
      StripAbsent(a[1..], c);
    }
  }

  /** Concatenating the tokens in order gives the input with every
      delimiter removed: tokenizing loses nothing but delimiters. */
  lemma {:induction false} TokenizeConcat(s: string, d: char)
    ensures Concat(Tokenize(s, d)) == Strip(s, d)
    decreases |s|
  {
    if s == [] {
    } else if s[0] == d {
      TokenizeConcat(s[1..], d);
    } else {
      var k := FirstIndexOf(s, d);
      TokenizeConcat(s[k..], d);
      assert s == s[..k] + s[k..];
      StripAppend(s[..k], s[k..], d);
      StripAbsent(s[..k], d);
      assert Tokenize(s, d)[1..] == Tokenize(s[k..], d);
    }
  }

  /** A string tokenizes to nothing exactly when it is empty or made only
      of delimiters. */
  lemma {:induction false} TokenizeEmptyIff(s: string, d: char)
    ensures Tokenize(s, d) == [] <==> forall i :: 0 <= i < |s| ==> s[i] == d
    decreases |s|
  {
    if s != [] && s[0] == d {
      TokenizeEmptyIff(s[1..], d);
      assert forall i :: 1 <= i < |s| ==> s[i] == s[1..][i - 1];
    }
  }

  /** A delimiter-free prefix shifts the first delimiter by its length. */
  lemma {:induction false} FirstIndexOfAfter(p: string, r: string, d: char)
    requires d !in p
    ensures FirstIndexOf(p + r, d) == |p| + FirstIndexOf(r, d)
  {
    if p == [] {
      assert p + r == r;
    } else {
      assert (p + r)[1..] == p[1..] + r;
      FirstIndexOfAfter(p[1..], r, d);
    }
  }

  /** A non-empty, delimiter-free prefix belongs to the first token, which
      ends where the rest's first delimiter is; the rest is tokenized on
      from there. */
  lemma TokenizePrefixed(p: string, r: string, d: char)
    requires p != [] && d !in p
    ensures var k := FirstIndexOf(r, d);
      Tokenize(p + r, d) == [p + r[..k]] + Tokenize(r[k..], d)
  {
    var s, k := p + r, FirstIndexOf(r, d);
    FirstIndexOfAfter(p, r, d);
    assert s[0] == p[0];
    assert s[..|p| + k] == p + r[..k];
    assert s[|p| + k..] == r[k..];
  }

  /** A non-empty piece free of the delimiter is its own single token. */
  lemma TokenizeSingle(t: string, d: char)
    requires d !in t
    ensures Tokenize(t, d) == if t == [] then [] else [t]
  {
    if t != [] {
      var k := FirstIndexOf(t, d);
      assert k == |t|;
      assert t[..k] == t;
    }
  }

  /** A token followed by the delimiter splits off as the first token. */
  lemma TokenizeAfterToken(t: string, d: char, rest: string)
    requires t != [] && d !in t
    ensures Tokenize(t + [d] + rest, d) == [t] + Tokenize(rest, d)
  {
    var s := t + [d] + rest;
    var k := FirstIndexOf(s, d);
    assert s[|t|] == d;
    assert k == |t|;
    assert s[..k] == t;
    assert s[k..] == [d] + rest;
    assert ([d] + rest)[1..] == rest;
  }

  /** At a delimiter the pending token, if any, is complete, and
      tokenizing goes on after the delimiter. */
  lemma TokenizeAtDelimiter(token: string, d: char, rest: string)
    requires d !in token
    ensures Tokenize(token + [d] + rest, d) == (if token == [] then [] else [token]) + Tokenize(rest, d)
  {
    if token == [] {
      assert token + [d] + rest == [d] + rest;
      assert ([d] + rest)[1..] == rest;
    } else {
      TokenizeAfterToken(token, d, rest);
    }
  }

  /** One step of tokenizeString's loop at position i, with `token` pending:
      a delimiter completes the token, any other character extends it. */
  lemma TokenizeLoopStep(s: string, i: nat, token: string, d: char)
    requires i < |s| && d !in token
    ensures s[i] == d ==>
      Tokenize(token + s[i..], d) == (if token == [] then [] else [token]) + Tokenize(s[i + 1..], d)
    ensures s[i] != d ==> Tokenize(token + s[i..], d) == Tokenize((token + [s[i]]) + s[i + 1..], d)
  {
    assert s[i..] == [s[i]] + s[i + 1..];
    if s[i] == d {
      assert token + s[i..] == token + [d] + s[i + 1..];
      TokenizeAtDelimiter(token, d, s[i + 1..]);
    } else {
      assert token + s[i..] == (token + [s[i]]) + s[i + 1..];
    }
  }

  /** tokenizeString: walks the input once, collecting characters into the
      current token and pushing it at every delimiter and at the end. */
  method TokenizeString(s: string, delimiter: char) returns (tokens: seq<string>)
    ensures tokens == Tokenize(s, delimiter)
  {
    var token := "";
    tokens := [];
    var i := 0;
    assert token + s[i..] == s;
    while i < |s|
      invariant 0 <= i <= |s|
      invariant delimiter !in token
      invariant tokens + Tokenize(token + s[i..], delimiter) == Tokenize(s, delimiter)
    {
      TokenizeLoopStep(s, i, token, delimiter);
      if s[i] == delimiter {
        if |token| > 0 {
          tokens := tokens + [token];
        }
        token := "";
        assert token + s[i + 1..] == s[i + 1..];
      } else {
        token := token + [s[i]];
      }
      i := i + 1;
    }
    assert token + s[i..] == token;
    TokenizeSingle(token, delimiter);
    if |token| > 0 {
      tokens := tokens + [token];
    }
  }

  // ---------------------------------------------------------------------------
  // Joining tokens
  // ---------------------------------------------------------------------------

  /** The tokens with `sep` between consecutive ones. */
  function Join(ts: seq<string>, sep: string): string {
    if ts == [] then [] else if |ts| == 1 then ts[0] else ts[0] + sep + Join(ts[1..], sep)
  }

  /** Appending a token to a non-empty list appends the separator and the
      token to the joined string. */
  lemma {:induction false} JoinSnoc(ts: seq<string>, t: string, sep: string)
    requires ts != []
    ensures Join(ts + [t], sep) == Join(ts, sep) + sep + t
  {
    if |ts| == 1 {
      assert (ts + [t])[1..] == [t];
    } else {
      assert (ts + [t])[1..] == ts[1..] + [t];
      JoinSnoc(ts[1..], t, sep);
    }
  }

  /** One step of a joining loop over ts: the prefix of length i + 1 is the
      prefix of length i, the separator and ts[i]. */
  lemma JoinPrefixStep(ts: seq<string>, i: nat, sep: string)
    requires 1 <= i < |ts|
    ensures Join(ts[..i + 1], sep) == Join(ts[..i], sep) + sep + ts[i]
  {
    assert ts[..i + 1] == ts[..i] + [ts[i]];
    JoinSnoc(ts[..i], ts[i], sep);
  }

  /** detokenizeString: the tokens from index `start` on, joined with
      `combiner`; the empty string when there are none. */
  function Detokenize(ts: seq<string>, combiner: char, start: nat): (r: string)
    ensures |ts| < start + 1 ==> r == []
    ensures start < |ts| ==> r == Join(ts[start..], [combiner])
  {
    if |ts| == 0 || |ts| < start + 1 then "" else Join(ts[start..], [combiner])
  }

  /** Detokenizing from index 1 on does not look at the first token. */
  lemma DetokenizeIgnoresHead(t1: seq<string>, t2: seq<string>, c: char, start: nat)
    requires 1 <= start && t1 != [] && t2 != [] && t1[1..] == t2[1..]
    ensures Detokenize(t1, c, start) == Detokenize(t2, c, start)
  {
    assert |t1| == |t2|;
    if start < |t1| {
      assert t1[start..] == t1[1..][start - 1..];
      assert t2[start..] == t2[1..][start - 1..];
    }
  }

  /** detokenizeString's loop: starts with tokens[start] and appends the
      combiner and each later token. */
  method DetokenizeString(ts: seq<string>, combiner: char, start: nat) returns (combined: string)
    ensures combined == Detokenize(ts, combiner, start)
  {
    if |ts| == 0 || |ts| < start + 1 {
      return "";
    }
    combined := ts[start];
    assert ts[start..start + 1] == [ts[start]];
    var i := start + 1;
    while i < |ts|
      invariant start + 1 <= i <= |ts|
      invariant combined == Join(ts[start..i], [combiner])
    {
      assert ts[start..i + 1] == ts[start..i] + [ts[i]];
      JoinSnoc(ts[start..i], ts[i], [combiner]);
      combined := combined + [combiner] + ts[i];
      i := i + 1;
    }
    assert ts[start..i] == ts[start..];
  }

  /** Joining non-empty, delimiter-free tokens and tokenizing the result
      gives the tokens back. */
  lemma {:induction false} TokenizeJoin(ts: seq<string>, c: char)
    requires forall i :: 0 <= i < |ts| ==> ts[i] != [] && c !in ts[i]
    ensures Tokenize(Join(ts, [c]), c) == ts
  {
    if ts == [] {
    } else if |ts| == 1 {
      TokenizeSingle(ts[0], c);
    } else {
      TokenizeJoin(ts[1..], c);
      TokenizeAfterToken(ts[0], c, Join(ts[1..], [c]));
      assert ts[0] + [c] + Join(ts[1..], [c]) == Join(ts, [c]);
    }
  }

  /** detokenizeString from index 0 undone by tokenizeString: tokens that
      are non-empty and free of the combiner come back unchanged. */
  lemma TokenizeDetokenize(ts: seq<string>, c: char)
    requires forall i :: 0 <= i < |ts| ==> ts[i] != [] && c !in ts[i]
    ensures Tokenize(Detokenize(ts, c, 0), c) == ts
  {
    if ts != [] {
      assert ts[0..] == ts;
      TokenizeJoin(ts, c);
    } else {
      assert Detokenize(ts, c, 0) == [];
    }
  }

  /** Joining non-empty, delimiter-free tokens with a single delimiter
      gives a string that neither starts nor ends with the delimiter and
      never has two delimiters in a row. */
  lemma {:induction false} JoinNormalised(ts: seq<string>, c: char)
    requires forall i :: 0 <= i < |ts| ==> ts[i] != [] && c !in ts[i]
    ensures var r := Join(ts, [c]);
      (r == [] || (r[0] != c && r[|r| - 1] != c))
      && forall i :: 0 <= i < |r| - 1 ==> !(r[i] == c && r[i + 1] == c)
  {
    if |ts| > 1 {
      JoinNormalised(ts[1..], c);
      var t, rest := ts[0], Join(ts[1..], [c]);
      var r := t + [c] + rest;
      assert r == Join(ts, [c]);
      assert rest != [] by { assert rest[..|ts[1]|] == ts[1] || |ts[1..]| > 1; }
      forall i | 0 <= i < |r| - 1
        ensures !(r[i] == c && r[i + 1] == c)
      {
        if i < |t| - 1 {
          assert r[i] == t[i];
        } else if i == |t| - 1 {
          assert r[i] == t[i];
        } else if i == |t| {
          assert r[i + 1] == rest[0];
        } else {
          assert r[i] == rest[i - |t| - 1] && r[i + 1] == rest[i - |t|];
        }
      }
    } else if |ts| == 1 {
      assert Join(ts, [c]) == ts[0];
      assert ts[0][0] in ts[0];
      assert ts[0][|ts[0]| - 1] in ts[0];
    }
  }

  // ---------------------------------------------------------------------------
  // Substring containment
  // ---------------------------------------------------------------------------

  /** `p` occurs in `h` starting at index `i`. */
  predicate OccursAt(p: string, h: string, i: nat) {
    i + |p| <= |h| && h[i..i + |p|] == p
  }

  /** std::string::find finds `p` somewhere in `h` (the empty string is
      found everywhere). */
  predicate IsSubstring(p: string, h: string) {
    exists i: nat | i <= |h| :: OccursAt(p, h, i)
  }

  /** Every token occurs somewhere in the haystack. */
  predicate ContainsAll(haystack: string, tokens: seq<string>) {
    forall i | 0 <= i < |tokens| :: IsSubstring(tokens[i], haystack)
  }

  /** stringContainsAllTokens: checks the tokens one by one and stops at
      the first one that does not occur. */
  method StringContainsAllTokens(haystack: string, tokens: seq<string>) returns (b: bool)
    ensures b <==> forall i :: 0 <= i < |tokens| ==> IsSubstring(tokens[i], haystack)
  {
    var i := 0;
    while i < |tokens|
      invariant 0 <= i <= |tokens|
      invariant forall j :: 0 <= j < i ==> IsSubstring(tokens[j], haystack)
    {
      if !IsSubstring(tokens[i], haystack) {
        return false;
      }
      i := i + 1;
    }
    return true;
  }

  /** Containment of all tokens depends only on which tokens there are,
      not on their order or repetition. */
  lemma ContainsAllOrderFree(haystack: string, ts: seq<string>, us: seq<string>)
    requires forall t :: t in ts <==> t in us
    ensures ContainsAll(haystack, ts) == ContainsAll(haystack, us)
  {
    if ContainsAll(haystack, ts) {
      forall j | 0 <= j < |us| ensures IsSubstring(us[j], haystack) {
        assert us[j] in ts;
      }
    }
    if ContainsAll(haystack, us) {
      forall j | 0 <= j < |ts| ensures IsSubstring(ts[j], haystack) {
        assert ts[j] in us;
      }
    }
  }
}
