/** The bot controller: routes channel messages from authorized hosts to
    the calc and hostmask commands, moderates joining users, and runs the
    names -> whois -> moderate flow. The IRC commands the bot issues are
    recorded, in order, in an outgoing log. */
module BotController {
  import opened StringHelpers
  import opened Numerals
  import opened Storage
  import opened CalcTable
  import opened CalcDB
  import Acl = HostmaskAuthorizer

  /** An IRC command the bot sends. */
  datatype Action =
    | Msg(target: string, text: string)      // irc_cmd_msg
    | Mode(channel: string, text: string)    // irc_cmd_channel_mode
    | Whois(nick: string)                    // irc_cmd_whois

  /** How handling a channel message ends: normally, or with the
      std::out_of_range that tokens.at(0) throws for a message without
      any word. */
  datatype Outcome = Completed | OutOfRange

  /** The contents of both stores. */
  datatype World = World(
    calcDb: bool, rows: seq<CalcRow>,
    aclDb: bool, authorized: seq<Acl.HostmaskRow>, banned: seq<Acl.HostmaskRow>)

  /** The stores after a command, and the commands it sent. */
  datatype Effect = Effect(world: World, actions: seq<Action>)

  /** The stores after a channel message, the commands it sent, and how
      handling it ended. */
  datatype Reaction = Reaction(outcome: Outcome, world: World, actions: seq<Action>)

  // ---------------------------------------------------------------------------
  // Words of a message
  // ---------------------------------------------------------------------------

  /** irc_target_get_nick: the nick part of "nick!user@host" (the whole
      text when it has no '!'). */
  function NickOf(host: string): (nick: string)
    ensures |nick| <= |host| && nick == host[..|nick|] && '!' !in nick
    ensures |nick| < |host| ==> host[|nick|] == '!'
  {
    host[..FirstIndexOf(host, '!')]
  }

  /** tolower on one character: only 'A'..'Z' change. */
  function LowerChar(c: char): char {
    if 'A' <= c <= 'Z' then (c as int + 32) as char else c
  }

  function Lower(s: string): (r: string)
    ensures |r| == |s| && forall i :: 0 <= i < |s| ==> r[i] == LowerChar(s[i])
  {
    seq(|s|, i requires 0 <= i < |s| => LowerChar(s[i]))
  }

  /** parseMessage's loop lowering the command word one character at a
      time. */
  method LowerCase(s: string) returns (cmd: string)
    ensures cmd == Lower(s)
  {
    cmd := s;
    var i := 0;
    while i < |cmd|
      invariant 0 <= i <= |cmd| == |s|
      invariant forall j :: 0 <= j < i ==> cmd[j] == LowerChar(s[j])
      invariant forall j :: i <= j < |s| ==> cmd[j] == s[j]
    {
      cmd := cmd[i := LowerChar(cmd[i])];
      i := i + 1;
    }
  }

  /** The hostmask type a word names: exactly "authorized" or "banned". */
  function KindOf(word: string): Option<Acl.HostmaskType> {
    if word == "authorized" then Some(Acl.Authorized)
    else if word == "banned" then Some(Acl.Banned)
    else None
  }

  /** The keyword of "chcalc keyword = newcalc" / "mkcalc ...": the words
      before the '=' after the command word, joined by single spaces. */
  function EqKeyword(eqParams: seq<string>): string
    requires eqParams != []
  {
    Detokenize(Tokenize(eqParams[0], ' '), ' ', 1)
  }

  // ---------------------------------------------------------------------------
  // What each command does to the stores and sends
  // ---------------------------------------------------------------------------

  function TableOf(w: World, kind: Acl.HostmaskType): seq<Acl.HostmaskRow> {
    if kind == Acl.Authorized then w.authorized else w.banned
  }

  function WithTable(w: World, kind: Acl.HostmaskType, t: seq<Acl.HostmaskRow>): World {
    if kind == Acl.Authorized then w.(authorized := t) else w.(banned := t)
  }

  /** doCalc's reply to `params` given what getCalc answered. */
  function CalcText(params: seq<string>, a: Answer): string {
    var k := Detokenize(params, ' ', 1);
    if |params| == 1 then "Usage: calc keyword"
    else if |params| >= 2 then
      if a.code == Ok then k + " = " + a.text else "Calc '" + k + "' not found."
    else ""
  }

  /** calc <keyword>. */
  function CalcEffect(w: World, chan: string, params: seq<string>): Effect {
    var a := LatestAnswer(w.calcDb, w.rows, Detokenize(params, ' ', 1));
    Effect(w, [Msg(chan, CalcText(params, a))])
  }

  /** version [-]<version> <keyword>: the revision's author and date, then
      its content. The version argument is read only when there is one. */
  function VersionEffect(w: World, chan: string, params: seq<string>): Effect {
    if |params| <= 2 then Effect(w, [Msg(chan, "Usage: version [-]version keyword")])
    else
      var k := Detokenize(params, ' ', 2);
      var v := Atoi(params[1]);
      var info := VersionInfoAnswer(w.calcDb, w.rows, k, v);
      if info.code == Ok then
        var c := VersionAnswer(w.calcDb, w.rows, k, v);
        Effect(w, [Msg(chan, info.text)] + (if c.code == Ok then [Msg(chan, k + " v" + params[1] + " = " + c.text)] else []))
      else
        Effect(w, [Msg(chan, "Calc '" + k + "' v" + params[1] + " not found.")])
  }

  /** The reply of both searches given what the store answered. */
  function SearchText(params: seq<string>, a: Answer): string {
    var t := Detokenize(params, ' ', 1);
    if |params| == 1 then "Usage: apropos search_term"
    else if |params| >= 2 then
      if a.code != NoSearchMatches then "Search results for '" + t + "': " + a.text
      else "No matches found for '" + t + "'."
    else ""
  }

  /** apropos <term>. */
  function AproposEffect(w: World, chan: string, params: seq<string>): Effect {
    Effect(w, [Msg(chan, SearchText(params, AproposAnswer(w.calcDb, w.rows, Detokenize(params, ' ', 1))))])
  }

  /** apropos_all <term>. */
  function AproposAllEffect(w: World, chan: string, params: seq<string>): Effect {
    Effect(w, [Msg(chan, SearchText(params, AproposAllAnswer(w.calcDb, w.rows, Detokenize(params, ' ', 1))))])
  }

  /** rmcalc <keyword>: every store answer but "no calc" is reported as a
      deletion. */
  function RemoveCalcEffect(w: World, chan: string, params: seq<string>, step: StepResult): Effect {
    var k := Detokenize(params, ' ', 1);
    if |params| == 1 then Effect(w, [Msg(chan, "Usage: rmcalc keyword")])
    else if |params| >= 2 then
      var code := RemoveCode(w.calcDb, w.rows, k, step);
      Effect(if code == Ok then w.(rows := WithoutKeyword(w.rows, k)) else w,
             [Msg(chan, if code != NoCalc then "Calc '" + k + "' has been deleted." else "Calc '" + k + "' not found.")])
    else Effect(w, [Msg(chan, "")])
  }

  /** chcalc <keyword> = <newcalc>, `eqParams` being the message split on
      '='. */
  function ChangeCalcEffect(w: World, chan: string, host: string, eqParams: seq<string>, step: StepResult, now: string): Effect {
    if |eqParams| != 2 then Effect(w, [Msg(chan, "Usage: chcalc keyword = newcalc")])
    else
      var k, nick := EqKeyword(eqParams), NickOf(host);
      var code := ChangeCode(w.calcDb, w.rows, k, step);
      var row := CalcRow(k, |History(w.rows, k)|, Trimmed(eqParams[1]), nick, now);
      Effect(if code == CalcChanged then w.(rows := w.rows + [row]) else w,
             [Msg(chan, if code == CalcChanged then "Calc " + k + " changed by " + nick
                        else if code == DbBusy then "CalcDB could not lock DB for writing, busy."
                        else "Calc " + k + " does not exist")])
  }

  /** mkcalc <keyword> = <newcalc>. */
  function MakeCalcEffect(w: World, chan: string, host: string, eqParams: seq<string>, step: StepResult, now: string): Effect {
    if |eqParams| != 2 then Effect(w, [Msg(chan, "Usage: mkcalc keyword = newcalc")])
    else
      var k, nick := EqKeyword(eqParams), NickOf(host);
      var code := MakeCode(w.calcDb, w.rows, k, step);
      var row := CalcRow(k, 0, Trimmed(eqParams[1]), nick, now);
      Effect(if code == CalcChanged then w.(rows := w.rows + [row]) else w,
             [Msg(chan, if code == CalcChanged then "Calc " + k + " added by " + nick
                        else if code == DbBusy then "CalcDB could not lock DB for writing, busy."
                        else "Calc " + k + " already exists (use chcalc)")])
  }

  /** One indented line per listed hostmask. */
  function Indented(chan: string, lines: seq<string>): (ms: seq<Action>)
    ensures |ms| == |lines| && forall i :: 0 <= i < |lines| ==> ms[i] == Msg(chan, "  " + lines[i])
  {
    seq(|lines|, i requires 0 <= i < |lines| => Msg(chan, "  " + lines[i]))
  }

  /** view_hostmasks_for <nick> <authorized|banned>. */
  function ViewHostmasksEffect(w: World, chan: string, params: seq<string>): Effect {
    if |params| < 3 then Effect(w, [Msg(chan, "Usage: view_hostmasks_for [nick] [authorized|banned]")])
    else
      var nick, kind := params[1], params[2];
      match KindOf(kind)
      case None => Effect(w, [Msg(chan, kind + " is not a valid hostmask type.")])
      case Some(t) =>
        Effect(w, ListingReply(chan, nick, kind, HostmaskLines(w, t, nick)))
  }

  /** The listing lines getHostmasksByNick fills in: none when the hostmask
      database is not open. */
  function HostmaskLines(w: World, t: Acl.HostmaskType, nick: string): seq<string> {
    if w.aclDb then Acl.Listing(TableOf(w, t), nick) else []
  }

  /** The reply to a listing of `nick`'s hostmasks of type `kind`: a header,
      one indented line per hostmask and a reminder of rm_hostmask, or a
      single line when there is nothing to list. */
  function ListingReply(chan: string, nick: string, kind: string, lines: seq<string>): seq<Action> {
    if lines == [] then [Msg(chan, "Nick '" + nick + "' has no " + kind + " hostmasks.")]
    else [Msg(chan, "Displaying " + kind + " hostmasks for '" + nick + "': ")]
         + Indented(chan, lines)
         + [Msg(chan, "Use rm_hostmask [id] [authorized|banned] to remove a hostmask.")]
  }

  /** rm_hostmask <id> <authorized|banned>: the id is read with atoi. */
  function RemoveHostmaskEffect(w: World, chan: string, params: seq<string>, step: StepResult): Effect {
    if |params| < 3 then Effect(w, [Msg(chan, "Usage: rm_hostmask [id] [authorized|banned]")])
    else
      match KindOf(params[2])
      case None => Effect(w, [Msg(chan, params[2] + " is not a valid hostmask type.")])
      case Some(t) =>
        var removed := w.aclDb && step == StepDone;
        Effect(if removed then WithTable(w, t, Acl.WithoutId(TableOf(w, t), Atoi(params[1]))) else w,
               [Msg(chan, if removed then "Hostmask removed." else "Hostmask not removed (are you sure that id exists?)")])
  }

  /** add_hostmask <nick> <mask> <authorized|banned>: a failed insert sends
      an empty line. */
  function AddHostmaskEffect(w: World, chan: string, params: seq<string>, step: StepResult): Effect {
    if |params| < 4 then Effect(w, [Msg(chan, "Usage: add_hostmask [nick] [mask] [authorized|banned]")])
    else
      match KindOf(params[3])
      case None => Effect(w, [Msg(chan, params[3] + " is not a valid hostmask type.")])
      case Some(t) =>
        var added := w.aclDb && step == StepDone;
        var row := Acl.HostmaskRow(Acl.NextId(TableOf(w, t)), params[1], params[2]);
        Effect(if added then WithTable(w, t, TableOf(w, t) + [row]) else w,
               [Msg(chan, if added then "Hostmask added." else "")])
  }

  /** Whether a host may give commands: an authorized mask matches it. */
  predicate MayCommand(w: World, host: string) {
    w.aclDb && Acl.AnyMatches(w.authorized, host)
  }

  /** doUserJoined: op an authorized host, otherwise ban a banned one. */
  function JoinActions(w: World, chan: string, host: string): seq<Action> {
    if MayCommand(w, host) then [Mode(chan, "+o " + NickOf(host))]
    else if w.aclDb && Acl.AnyMatches(w.banned, host) then [Mode(chan, "+b " + NickOf(host))]
    else []
  }

  /** One whois request per nick. */
  function WhoisRequests(nicks: seq<string>): (ws: seq<Action>)
    ensures |ws| == |nicks| && forall i :: 0 <= i < |nicks| ==> ws[i] == Whois(nicks[i])
  {
    seq(|nicks|, i requires 0 <= i < |nicks| => Whois(nicks[i]))
  }

  /** The nicks of a names reply: the list with every '+' and then every
      '@' removed, split on spaces. */
  function NamesReplyNicks(nicklist: string): seq<string> {
    Tokenize(Strip(Strip(nicklist, '+'), '@'), ' ')
  }

  /** parseMessage: a message from a host no authorized mask matches is
      dropped; otherwise its first word selects the command. */
  function Handle(w: World, chan: string, host: string, msg: string, step: StepResult, now: string): Reaction {
    if !MayCommand(w, host) then Reaction(Completed, w, [])
    else
      var tokens := Tokenize(msg, ' ');
      if tokens == [] then Reaction(OutOfRange, w, [])
      else
        var e := CommandEffect(w, chan, host, msg, tokens, step, now);
        Reaction(Completed, e.world, e.actions)
  }

  /** The if-chain on the lowered first word, in three stretches: calc,
      chcalc, rmcalc and mkcalc here, then version and the apropos commands,
      then the hostmask commands. */
  function CommandEffect(w: World, chan: string, host: string, msg: string, tokens: seq<string>,
                         step: StepResult, now: string): Effect
    requires tokens != []
  {
    var cmd := Lower(tokens[0]);
    if cmd == "calc" then CalcEffect(w, chan, tokens)
    else if cmd == "chcalc" then ChangeCalcEffect(w, chan, host, Tokenize(msg, '='), step, now)
    else if cmd == "rmcalc" then RemoveCalcEffect(w, chan, tokens, step)
    else if cmd == "mkcalc" then MakeCalcEffect(w, chan, host, Tokenize(msg, '='), step, now)
    else VersionOrAproposEffect(w, chan, tokens, step)
  }

  /** The middle stretch of the if-chain: version, apropos, apropos_all. */
  function VersionOrAproposEffect(w: World, chan: string, tokens: seq<string>, step: StepResult): Effect
    requires tokens != []
  {
    var cmd := Lower(tokens[0]);
    if cmd == "version" then VersionEffect(w, chan, tokens)
    else if cmd == "apropos" then AproposEffect(w, chan, tokens)
    else if cmd == "apropos_all" then AproposAllEffect(w, chan, tokens)
    else HostmaskCommandEffect(w, chan, tokens, step)
  }

  /** The hostmask commands at the end of the if-chain; any other word does
      nothing. */
  function HostmaskCommandEffect(w: World, chan: string, tokens: seq<string>, step: StepResult): Effect
    requires tokens != []
  {
    var cmd := Lower(tokens[0]);
    if cmd == "view_hostmasks_for" then ViewHostmasksEffect(w, chan, tokens)
    else if cmd == "rm_hostmask" then RemoveHostmaskEffect(w, chan, tokens, step)
    else if cmd == "add_hostmask" then AddHostmaskEffect(w, chan, tokens, step)
    else Effect(w, [])
  }

  // ---------------------------------------------------------------------------
  // Properties of the dispatcher
  // ---------------------------------------------------------------------------

  /** Nothing a host no authorized mask matches sends changes a store or
      makes the bot say anything. */
  lemma UnauthorizedIsSilent(w: World, chan: string, host: string, msg: string, step: StepResult, now: string)
    requires !MayCommand(w, host)
    ensures Handle(w, chan, host, msg, step, now) == Reaction(Completed, w, [])
  {
  }

  /** The ten command words parseMessage compares the lowered first word
      with. */
  const CommandWords: set<string> :=
    {"calc", "chcalc", "rmcalc", "mkcalc", "version", "apropos", "apropos_all",
     "view_hostmasks_for", "rm_hostmask", "add_hostmask"}

  /** A first word that is none of the command words does nothing: no
      store changes and nothing is sent. */
  lemma UnknownCommandIsSilent(w: World, chan: string, host: string, msg: string, step: StepResult, now: string)
    requires Tokenize(msg, ' ') != [] && Lower(Tokenize(msg, ' ')[0]) !in CommandWords
    ensures Handle(w, chan, host, msg, step, now) == Reaction(Completed, w, [])
  {
  }

  /** Word lists that agree after their first word. */
  predicate SameArguments(t1: seq<string>, t2: seq<string>) {
    t1 != [] && t2 != [] && t1[1..] == t2[1..]
  }

  /** Word lists that agree after their first word have the same length and
      the same words from index 1 on. */
  lemma SameArgumentsWords(t1: seq<string>, t2: seq<string>)
    requires SameArguments(t1, t2)
    ensures |t1| == |t2| && forall i :: 1 <= i < |t1| ==> t1[i] == t2[i]
    ensures Detokenize(t1, ' ', 1) == Detokenize(t2, ' ', 1)
    ensures Detokenize(t1, ' ', 2) == Detokenize(t2, ' ', 2)
  {
    DetokenizeIgnoresHead(t1, t2, ' ', 1);
    DetokenizeIgnoresHead(t1, t2, ' ', 2);
    forall i | 1 <= i < |t1|
      ensures t1[i] == t2[i]
    {
      assert t1[i] == t1[1..][i - 1] && t2[i] == t2[1..][i - 1];
    }
  }

  /** calc and rmcalc do not look at the first word. */
  lemma SameCalcEffects(w: World, chan: string, t1: seq<string>, t2: seq<string>, step: StepResult)
    requires SameArguments(t1, t2)
    ensures CalcEffect(w, chan, t1) == CalcEffect(w, chan, t2)
    ensures RemoveCalcEffect(w, chan, t1, step) == RemoveCalcEffect(w, chan, t2, step)
  {
    SameArgumentsWords(t1, t2);
  }

  /** version does not look at the first word. */
  lemma SameVersionEffect(w: World, chan: string, t1: seq<string>, t2: seq<string>)
    requires SameArguments(t1, t2)
    ensures VersionEffect(w, chan, t1) == VersionEffect(w, chan, t2)
  {
    SameArgumentsWords(t1, t2);
  }

  /** apropos and apropos_all do not look at the first word. */
  lemma SameAproposEffects(w: World, chan: string, t1: seq<string>, t2: seq<string>)
    requires SameArguments(t1, t2)
    ensures AproposEffect(w, chan, t1) == AproposEffect(w, chan, t2)
    ensures AproposAllEffect(w, chan, t1) == AproposAllEffect(w, chan, t2)
  {
    SameArgumentsWords(t1, t2);
  }

  /** view_hostmasks_for does not look at the first word. */
  lemma SameViewHostmasksEffect(w: World, chan: string, t1: seq<string>, t2: seq<string>)
    requires SameArguments(t1, t2)
    ensures ViewHostmasksEffect(w, chan, t1) == ViewHostmasksEffect(w, chan, t2)
  {
    SameArgumentsWords(t1, t2);
  }

  /** rm_hostmask does not look at the first word. */
  lemma SameRemoveHostmaskEffect(w: World, chan: string, t1: seq<string>, t2: seq<string>, step: StepResult)
    requires SameArguments(t1, t2)
    ensures RemoveHostmaskEffect(w, chan, t1, step) == RemoveHostmaskEffect(w, chan, t2, step)
  {
    SameArgumentsWords(t1, t2);
  }

  /** add_hostmask does not look at the first word. */
  lemma SameAddHostmaskEffect(w: World, chan: string, t1: seq<string>, t2: seq<string>, step: StepResult)
    requires SameArguments(t1, t2)
    ensures AddHostmaskEffect(w, chan, t1, step) == AddHostmaskEffect(w, chan, t2, step)
  {
    SameArgumentsWords(t1, t2);
  }

  /** The hostmask commands do not look at the first word, and neither does
      the rest of the if-chain from view_hostmasks_for on. */
  lemma SameHostmaskCommandEffect(w: World, chan: string, t1: seq<string>, t2: seq<string>, step: StepResult)
    requires SameArguments(t1, t2) && Lower(t1[0]) == Lower(t2[0])
    ensures HostmaskCommandEffect(w, chan, t1, step) == HostmaskCommandEffect(w, chan, t2, step)
  {
    SameViewHostmasksEffect(w, chan, t1, t2);
    SameRemoveHostmaskEffect(w, chan, t1, t2, step);
    SameAddHostmaskEffect(w, chan, t1, t2, step);
  }

  /** The same for the if-chain from version on. */
  lemma SameVersionOrAproposEffect(w: World, chan: string, t1: seq<string>, t2: seq<string>, step: StepResult)
    requires SameArguments(t1, t2) && Lower(t1[0]) == Lower(t2[0])
    ensures VersionOrAproposEffect(w, chan, t1, step) == VersionOrAproposEffect(w, chan, t2, step)
  {
    SameHostmaskCommandEffect(w, chan, t1, t2, step);
    SameVersionEffect(w, chan, t1, t2);
    SameAproposEffects(w, chan, t1, t2);
  }

  /** chcalc and mkcalc read only the keyword before the '=' and the parts
      after it. */
  lemma SameEqArgumentsSameEffect(w: World, chan: string, host: string, e1: seq<string>, e2: seq<string>,
                                  step: StepResult, now: string)
    requires SameArguments(e1, e2) && EqKeyword(e1) == EqKeyword(e2)
    ensures ChangeCalcEffect(w, chan, host, e1, step, now) == ChangeCalcEffect(w, chan, host, e2, step, now)
    ensures MakeCalcEffect(w, chan, host, e1, step, now) == MakeCalcEffect(w, chan, host, e2, step, now)
  {
    assert |e1| == |e2|;
    if |e1| == 2 {
      assert e1[1] == e1[1..][0] && e2[1] == e2[1..][0];
    }
  }

  /** A message "<cmd> <rest>": the space-separated words are `cmd` and the
      words of `rest`; the '='-separated parts are `cmd` with the text of
      `rest` up to its first '=', and the parts of what follows; and the
      keyword before the '=' is read from `rest` alone. */
  lemma CommandLine(cmd: string, rest: string)
    requires cmd != [] && ' ' !in cmd && '=' !in cmd
    ensures Tokenize(cmd + " " + rest, ' ') == [cmd] + Tokenize(rest, ' ')
    ensures var k := FirstIndexOf(rest, '=');
      Tokenize(cmd + " " + rest, '=') == [cmd + " " + rest[..k]] + Tokenize(rest[k..], '=')
    ensures var k := FirstIndexOf(rest, '=');
      EqKeyword(Tokenize(cmd + " " + rest, '=')) == Detokenize([cmd] + Tokenize(rest[..k], ' '), ' ', 1)
  {
    FirstWord(cmd, rest);
    var k := FirstIndexOf(rest, '=');
    assert '=' !in cmd + " " by {
      assert cmd + " " == cmd + [' '];
    }
    TokenizePrefixed(cmd + " ", rest, '=');
    FirstWord(cmd, rest[..k]);
  }

  /** Two messages whose words agree after the first, whose first words
      lower alike, and whose '='-separated parts name the same keyword and
      agree after the first part, have the same effect. */
  lemma SameCommandEffect(w: World, chan: string, host: string, m1: string, m2: string,
                          t1: seq<string>, t2: seq<string>, step: StepResult, now: string)
    requires SameArguments(t1, t2) && Lower(t1[0]) == Lower(t2[0])
    requires SameArguments(Tokenize(m1, '='), Tokenize(m2, '='))
    requires EqKeyword(Tokenize(m1, '=')) == EqKeyword(Tokenize(m2, '='))
    ensures CommandEffect(w, chan, host, m1, t1, step, now) == CommandEffect(w, chan, host, m2, t2, step, now)
  {
    SameVersionOrAproposEffect(w, chan, t1, t2, step);
    SameEqArgumentsSameEffect(w, chan, host, Tokenize(m1, '='), Tokenize(m2, '='), step, now);
    SameCalcEffects(w, chan, t1, t2, step);
  }

  /** A command is recognised whatever its case: two spellings of the first
      word that lower to the same text have the same effect on any message. */
  lemma CommandIgnoresCase(w: World, chan: string, host: string, a: string, b: string, rest: string,
                           step: StepResult, now: string)
    requires a != [] && ' ' !in a && '=' !in a
    requires b != [] && ' ' !in b && '=' !in b
    requires Lower(a) == Lower(b)
    ensures Handle(w, chan, host, a + " " + rest, step, now) == Handle(w, chan, host, b + " " + rest, step, now)
  {
    var ma, mb := a + " " + rest, b + " " + rest;
    CommandLine(a, rest);
    CommandLine(b, rest);
    var ta, tb := Tokenize(ma, ' '), Tokenize(mb, ' ');
    var ea, eb := Tokenize(ma, '='), Tokenize(mb, '=');
    var k := FirstIndexOf(rest, '=');
    assert SameArguments(ta, tb) by {
      assert ta[1..] == Tokenize(rest, ' ') == tb[1..];
    }
    assert SameArguments(ea, eb) by {
      assert ea[1..] == Tokenize(rest[k..], '=') == eb[1..];
    }
    DetokenizeIgnoresHead([a] + Tokenize(rest[..k], ' '), [b] + Tokenize(rest[..k], ' '), ' ', 1);
    SameCommandEffect(w, chan, host, ma, mb, ta, tb, step, now);
  }

  /** Two words separated by one delimiter split into those words. */
  lemma TwoWords(a: string, b: string, d: char)
    requires a != [] && d !in a && b != [] && d !in b
    ensures Tokenize(a + [d] + b, d) == [a, b]
  {
    TokenizeAfterToken(a, d, b);
    TokenizeSingle(b, d);
  }

  /** Three words separated by single delimiters split into those words. */
  lemma ThreeWords(a: string, b: string, c: string, d: char)
    requires a != [] && d !in a && b != [] && d !in b && c != [] && d !in c
    ensures Tokenize(a + [d] + b + [d] + c, d) == [a, b, c]
  {
    assert a + [d] + b + [d] + c == a + [d] + (b + [d] + c);
    TokenizeAfterToken(a, d, b + [d] + c);
    TwoWords(b, c, d);
  }

  /** A keyword: one word without '='. */
  predicate IsKeyword(k: string) {
    k != [] && ' ' !in k && '=' !in k
  }

  /** The first word of a message is the text before its first space. */
  lemma FirstWord(cmd: string, rest: string)
    requires cmd != [] && ' ' !in cmd
    ensures Tokenize(cmd + " " + rest, ' ') == [cmd] + Tokenize(rest, ' ')
  {
    assert cmd + " " + rest == cmd + [' '] + rest;
    TokenizeAfterToken(cmd, ' ', rest);
  }

  /** "mkcalc <k> =<c>" splits on '=' into the part naming the keyword and
      the content. */
  lemma EqSplit(cmd: string, k: string, c: string)
    requires IsKeyword(cmd) && IsKeyword(k) && c != [] && '=' !in c
    ensures Tokenize(cmd + " " + k + " =" + c, '=') == [cmd + " " + k + " ", c]
  {
    var lhs := cmd + " " + k + " ";
    assert cmd + " " + k + " =" + c == lhs + ['='] + c;
    assert '=' !in lhs by {
      assert lhs == cmd + [' '] + k + [' '];
    }
    TwoWords(lhs, c, '=');
  }

  /** The part before '=' names keyword `k`. */
  lemma EqLeftNamesKeyword(cmd: string, k: string, c: string)
    requires IsKeyword(cmd) && IsKeyword(k)
    ensures EqKeyword([cmd + " " + k + " ", c]) == k
  {
    assert cmd + " " + k + " " == cmd + " " + (k + " ");
    FirstWord(cmd, k + " ");
    assert k + " " == k + [' '] + "";
    TokenizeAfterToken(k, ' ', "");
    assert Tokenize(cmd + " " + k + " ", ' ') == [cmd, k];
    assert [cmd, k][1..] == [k];
  }

  /** "mkcalc <k> =<c>" and "chcalc <k> =<c>" name keyword `k` and content
      `c`. */
  lemma EqCommandWords(cmd: string, k: string, c: string)
    requires IsKeyword(cmd) && IsKeyword(k) && c != [] && '=' !in c
    ensures Tokenize(cmd + " " + k + " =" + c, ' ')[0] == cmd
    ensures Tokenize(cmd + " " + k + " =" + c, '=') == [cmd + " " + k + " ", c]
    ensures EqKeyword(Tokenize(cmd + " " + k + " =" + c, '=')) == k
  {
    FirstWord(cmd, k + " =" + c);
    assert cmd + " " + (k + " =" + c) == cmd + " " + k + " =" + c;
    EqSplit(cmd, k, c);
    EqLeftNamesKeyword(cmd, k, c);
  }

  /** A message whose first word is "mkcalc", from a host that may
      command, is handled by mkcalc's effect on the message split at '='. */
  lemma DispatchMakeWords(w: World, chan: string, host: string, msg: string, eq: seq<string>, step: StepResult, now: string)
    requires MayCommand(w, host) && Tokenize(msg, ' ') != [] && Tokenize(msg, '=') == eq
    requires Lower(Tokenize(msg, ' ')[0]) == "mkcalc"
    ensures var e := MakeCalcEffect(w, chan, host, eq, step, now);
      Handle(w, chan, host, msg, step, now) == Reaction(Completed, e.world, e.actions)
  {
  }

  /** The same for "chcalc". */
  lemma DispatchChangeWords(w: World, chan: string, host: string, msg: string, eq: seq<string>, step: StepResult, now: string)
    requires MayCommand(w, host) && Tokenize(msg, ' ') != [] && Tokenize(msg, '=') == eq
    requires Lower(Tokenize(msg, ' ')[0]) == "chcalc"
    ensures var e := ChangeCalcEffect(w, chan, host, eq, step, now);
      Handle(w, chan, host, msg, step, now) == Reaction(Completed, e.world, e.actions)
  {
  }

  /** "mkcalc <k> =<c>" from a host that may command. */
  lemma DispatchMake(w: World, chan: string, host: string, k: string, c: string, step: StepResult, now: string)
    requires MayCommand(w, host) && IsKeyword(k) && c != [] && '=' !in c
    ensures var e := MakeCalcEffect(w, chan, host, ["mkcalc " + k + " ", c], step, now);
      Handle(w, chan, host, "mkcalc " + k + " =" + c, step, now) == Reaction(Completed, e.world, e.actions)
  {
    var msg := "mkcalc " + k + " =" + c;
    assert "mkcalc" + " " == "mkcalc ";
    EqCommandWords("mkcalc", k, c);
    assert Lower("mkcalc") == "mkcalc";
    DispatchMakeWords(w, chan, host, msg, ["mkcalc " + k + " ", c], step, now);
  }

  /** "chcalc <k> =<c>" from a host that may command. */
  lemma DispatchChange(w: World, chan: string, host: string, k: string, c: string, step: StepResult, now: string)
    requires MayCommand(w, host) && IsKeyword(k) && c != [] && '=' !in c
    ensures var e := ChangeCalcEffect(w, chan, host, ["chcalc " + k + " ", c], step, now);
      Handle(w, chan, host, "chcalc " + k + " =" + c, step, now) == Reaction(Completed, e.world, e.actions)
  {
    var msg := "chcalc " + k + " =" + c;
    assert "chcalc" + " " == "chcalc ";
    EqCommandWords("chcalc", k, c);
    assert Lower("chcalc") == "chcalc";
    DispatchChangeWords(w, chan, host, msg, ["chcalc " + k + " ", c], step, now);
  }

  /** "<cmd> <k>" from a host that may command, for the one-argument calc
      commands. */
  lemma DispatchOneWord(w: World, chan: string, host: string, cmd: string, k: string, step: StepResult, now: string)
    requires MayCommand(w, host) && IsKeyword(k) && (cmd == "calc" || cmd == "rmcalc")
    ensures Tokenize(cmd + " " + k, ' ') == [cmd, k]
    ensures cmd == "calc" ==>
      Handle(w, chan, host, cmd + " " + k, step, now) == Reaction(Completed, w, CalcEffect(w, chan, [cmd, k]).actions)
    ensures var e := RemoveCalcEffect(w, chan, [cmd, k], step);
      cmd == "rmcalc" ==> Handle(w, chan, host, cmd + " " + k, step, now) == Reaction(Completed, e.world, e.actions)
  {
    assert cmd + " " + k == cmd + [' '] + k;
    TwoWords(cmd, k, ' ');
    assert Lower("calc") == "calc" && Lower("rmcalc") == "rmcalc";
  }

  /** Any message whose first word lowers to "version" reaches the version
      stretch of the if-chain, which leaves the stores alone. */
  lemma DispatchVersionWords(w: World, chan: string, host: string, msg: string, step: StepResult, now: string)
    requires MayCommand(w, host) && Tokenize(msg, ' ') != []
    requires Lower(Tokenize(msg, ' ')[0]) == "version"
    ensures Handle(w, chan, host, msg, step, now)
      == Reaction(Completed, w, VersionEffect(w, chan, Tokenize(msg, ' ')).actions)
  {
  }

  /** "version <n> <k>" from a host that may command. */
  lemma DispatchVersion(w: World, chan: string, host: string, n: string, k: string, step: StepResult, now: string)
    requires MayCommand(w, host) && IsKeyword(k) && n != [] && ' ' !in n
    ensures Handle(w, chan, host, "version " + n + " " + k, step, now)
      == Reaction(Completed, w, VersionEffect(w, chan, ["version", n, k]).actions)
  {
    assert Lower("version") == "version";
    assert "version " + n + " " + k == "version" + [' '] + n + [' '] + k;
    ThreeWords("version", n, k, ' ');
    DispatchVersionWords(w, chan, host, "version " + n + " " + k, step, now);
  }

  /** calc <k> names keyword `k`. */
  lemma OneWordKeyword(cmd: string, k: string)
    ensures Detokenize([cmd, k], ' ', 1) == k
  {
    assert [cmd, k][1..] == [k];
  }

  /** The part before '=' of "mkcalc <k> =<c>" and "chcalc <k> =<c>" names
      `k`. */
  lemma EqCommandKeyword(k: string, c: string)
    requires IsKeyword(k)
    ensures EqKeyword(["mkcalc " + k + " ", c]) == k
    ensures EqKeyword(["chcalc " + k + " ", c]) == k
  {
    assert IsKeyword("mkcalc") && IsKeyword("chcalc");
    assert "mkcalc" + " " == "mkcalc ";
    EqLeftNamesKeyword("mkcalc", k, c);
    assert "chcalc" + " " == "chcalc ";
    EqLeftNamesKeyword("chcalc", k, c);
  }

  /** mkcalc of a keyword without revisions, when the insert completes. */
  lemma MakeNewKeyword(w: World, chan: string, host: string, eq: seq<string>, now: string)
    requires |eq| == 2 && w.calcDb && History(w.rows, EqKeyword(eq)) == []
    ensures var k := EqKeyword(eq);
      MakeCalcEffect(w, chan, host, eq, StepDone, now)
      == Effect(w.(rows := w.rows + [CalcRow(k, 0, Trimmed(eq[1]), NickOf(host), now)]),
                [Msg(chan, "Calc " + k + " added by " + NickOf(host))])
  {
  }

  /** chcalc of a keyword with revisions, when the insert completes. */
  lemma ChangeExistingKeyword(w: World, chan: string, host: string, eq: seq<string>, now: string)
    requires |eq| == 2 && w.calcDb && History(w.rows, EqKeyword(eq)) != []
    ensures var k := EqKeyword(eq);
      ChangeCalcEffect(w, chan, host, eq, StepDone, now)
      == Effect(w.(rows := w.rows + [CalcRow(k, |History(w.rows, k)|, Trimmed(eq[1]), NickOf(host), now)]),
                [Msg(chan, "Calc " + k + " changed by " + NickOf(host))])
  {
  }

  /** "mkcalc <k> =<c>" on a keyword without revisions, when the insert
      completes, adds revision 0 with the trimmed content. */
  lemma MakeStep(w: World, chan: string, host: string, k: string, c: string, now: string)
    requires MayCommand(w, host) && w.calcDb
    requires IsKeyword(k) && c != [] && '=' !in c && History(w.rows, k) == []
    ensures Handle(w, chan, host, "mkcalc " + k + " =" + c, StepDone, now)
      == Reaction(Completed, w.(rows := w.rows + [CalcRow(k, 0, Trimmed(c), NickOf(host), now)]),
                  [Msg(chan, "Calc " + k + " added by " + NickOf(host))])
  {
    DispatchMake(w, chan, host, k, c, StepDone, now);
    EqCommandKeyword(k, c);
    MakeNewKeyword(w, chan, host, ["mkcalc " + k + " ", c], now);
  }

  /** "chcalc <k> =<c>" on a keyword with revisions, when the insert
      completes, adds the next revision with the trimmed content. */
  lemma ChangeStep(w: World, chan: string, host: string, k: string, c: string, now: string)
    requires MayCommand(w, host) && w.calcDb
    requires IsKeyword(k) && c != [] && '=' !in c && History(w.rows, k) != []
    ensures Handle(w, chan, host, "chcalc " + k + " =" + c, StepDone, now)
      == Reaction(Completed, w.(rows := w.rows + [CalcRow(k, |History(w.rows, k)|, Trimmed(c), NickOf(host), now)]),
                  [Msg(chan, "Calc " + k + " changed by " + NickOf(host))])
  {
    DispatchChange(w, chan, host, k, c, StepDone, now);
    EqCommandKeyword(k, c);
    ChangeExistingKeyword(w, chan, host, ["chcalc " + k + " ", c], now);
  }

  /** "rmcalc <k>" on a keyword with revisions, when the delete
      completes, deletes them all and says so. */
  lemma RemoveStep(w: World, chan: string, host: string, k: string, now: string)
    requires MayCommand(w, host) && w.calcDb
    requires IsKeyword(k) && History(w.rows, k) != []
    ensures Handle(w, chan, host, "rmcalc " + k, StepDone, now)
      == Reaction(Completed, w.(rows := WithoutKeyword(w.rows, k)), [Msg(chan, "Calc '" + k + "' has been deleted.")])
  {
    assert "rmcalc" + " " == "rmcalc ";
    DispatchOneWord(w, chan, host, "rmcalc", k, StepDone, now);
    OneWordKeyword("rmcalc", k);
  }

  /** "calc <k>" answers with the newest revision's content, or says that
      there is none. */
  lemma CalcStep(w: World, chan: string, host: string, k: string, step: StepResult, now: string)
    requires MayCommand(w, host) && w.calcDb && IsKeyword(k)
    ensures var h := History(w.rows, k);
      Handle(w, chan, host, "calc " + k, step, now)
      == Reaction(Completed, w, [Msg(chan, if h == [] then "Calc '" + k + "' not found." else k + " = " + Last(h).content)])
  {
    assert "calc" + " " == "calc ";
    DispatchOneWord(w, chan, host, "calc", k, step, now);
    OneWordKeyword("calc", k);
  }

  /** "version -1 <k>" from a host that may command is handled by
      version's effect on the words "version", "-1" and `k`. */
  lemma DispatchVersionMinusOne(w: World, chan: string, host: string, k: string, step: StepResult, now: string)
    requires MayCommand(w, host) && IsKeyword(k)
    ensures Handle(w, chan, host, "version -1 " + k, step, now)
      == Reaction(Completed, w, VersionEffect(w, chan, ["version", "-1", k]).actions)
  {
    assert Lower("version") == "version";
    assert "version -1 " + k == "version" + [' '] + "-1" + [' '] + k;
    ThreeWords("version", "-1", k, ' ');
    DispatchVersionWords(w, chan, host, "version -1 " + k, step, now);
  }

  /** "version -1 <k>" on a keyword with revisions reports who wrote the
      newest one and when, then its content. */
  lemma VersionMinusOneStep(w: World, chan: string, host: string, k: string, step: StepResult, now: string)
    requires MayCommand(w, host) && w.calcDb && IsKeyword(k) && History(w.rows, k) != []
    ensures var h := History(w.rows, k);
      Handle(w, chan, host, "version -1 " + k, step, now)
      == Reaction(Completed, w, [Msg(chan, VersionInfoText(k, Last(h))), Msg(chan, k + " v-1 = " + Last(h).content)])
  {
    var c := Last(History(w.rows, k)).content;
    assert k + " v" + "-1" + " = " + c == k + " v-1 = " + c by {
      assert " v" + "-1" + " = " == " v-1 = ";
      assert k + " v" + "-1" + " = " + c == k + (" v" + "-1" + " = ") + c;
    }
    assert Atoi("-1") == -1 by {
      AtoiOfIntToString(-1);
      assert IntToString(-1) == "-1";
    }
    VersionNewest(w, chan, "-1", k);
    DispatchVersionMinusOne(w, chan, host, k, step, now);
  }

  /** mkcalc on a new keyword adds it, and calc then answers with the
      trimmed content: "mkcalc greeting =  hi there  " followed by "calc
      greeting" replies "greeting = hi there". */
  lemma MakeThenCalc(w: World, chan: string, host: string, k: string, c: string, now: string, step: StepResult)
    requires MayCommand(w, host) && w.calcDb
    requires IsKeyword(k) && c != [] && '=' !in c && History(w.rows, k) == []
    ensures var r := Handle(w, chan, host, "mkcalc " + k + " =" + c, StepDone, now);
      && r.actions == [Msg(chan, "Calc " + k + " added by " + NickOf(host))]
      && Handle(r.world, chan, host, "calc " + k, step, now).actions == [Msg(chan, k + " = " + Trimmed(c))]
  {
    MakeStep(w, chan, host, k, c, now);
    var row := CalcRow(k, 0, Trimmed(c), NickOf(host), now);
    var w' := w.(rows := w.rows + [row]);
    HistoryAppend(w.rows, row, k);
    assert History(w'.rows, k) == [row];
    CalcStep(w', chan, host, k, step, now);
  }

  /** chcalc adds a revision, and "version -1" then reports who changed it
      and when, followed by its content. */
  lemma ChangeThenVersion(w: World, chan: string, host: string, k: string, c: string, now: string, step: StepResult)
    requires MayCommand(w, host) && w.calcDb
    requires IsKeyword(k) && c != [] && '=' !in c && History(w.rows, k) != []
    ensures var r := Handle(w, chan, host, "chcalc " + k + " =" + c, StepDone, now);
      && r.actions == [Msg(chan, "Calc " + k + " changed by " + NickOf(host))]
      && Handle(r.world, chan, host, "version -1 " + k, step, now).actions
         == [Msg(chan, "Calc '" + k + "' changed at " + now + " by " + NickOf(host)),
             Msg(chan, k + " v-1 = " + Trimmed(c))]
  {
    ChangeStep(w, chan, host, k, c, now);
    var row := CalcRow(k, |History(w.rows, k)|, Trimmed(c), NickOf(host), now);
    var w' := w.(rows := w.rows + [row]);
    HistoryAppend(w.rows, row, k);
    assert Last(History(w'.rows, k)) == row;
    VersionMinusOneStep(w', chan, host, k, step, now);
  }

  /** "version <n> <k>", n reading as -1, on a keyword with revisions: who
      wrote the newest one and when, then its content. */
  lemma VersionNewest(w: World, chan: string, n: string, k: string)
    requires w.calcDb && History(w.rows, k) != [] && Atoi(n) == -1
    ensures var h := History(w.rows, k);
      VersionEffect(w, chan, ["version", n, k]).actions
      == [Msg(chan, VersionInfoText(k, h[|h| - 1])), Msg(chan, k + " v" + n + " = " + h[|h| - 1].content)]
  {
    var h := History(w.rows, k);
    assert Detokenize(["version", n, k], ' ', 2) == k by {
      assert ["version", n, k][2..] == [k];
    }
    assert VersionInfoAnswer(true, w.rows, k, -1) == Answer(Ok, VersionInfoText(k, h[|h| - 1]));
    assert VersionAnswer(true, w.rows, k, -1) == Answer(Ok, h[|h| - 1].content);
  }

  /** rmcalc forgets a keyword: calc then finds nothing, and mkcalc starts
      its history again at version 0. */
  lemma RemoveThenRemake(w: World, chan: string, host: string, k: string, c: string, now: string, step: StepResult)
    requires MayCommand(w, host) && w.calcDb
    requires IsKeyword(k) && c != [] && '=' !in c && History(w.rows, k) != []
    ensures var r := Handle(w, chan, host, "rmcalc " + k, StepDone, now);
      && r.actions == [Msg(chan, "Calc '" + k + "' has been deleted.")]
      && Handle(r.world, chan, host, "calc " + k, step, now).actions == [Msg(chan, "Calc '" + k + "' not found.")]
      && History(Handle(r.world, chan, host, "mkcalc " + k + " =" + c, StepDone, now).world.rows, k)
         == [CalcRow(k, 0, Trimmed(c), NickOf(host), now)]
  {
    RemoveStep(w, chan, host, k, now);
    var w' := w.(rows := WithoutKeyword(w.rows, k));
    HistoryWithoutKeyword(w.rows, k, k);
    CalcStep(w', chan, host, k, step, now);
    MakeStep(w', chan, host, k, c, now);
    var row := CalcRow(k, 0, Trimmed(c), NickOf(host), now);
    HistoryAppend(w'.rows, row, k);
  }

  /** rmcalc reports a deletion exactly when there is no database or the
      keyword existed and the delete completed; only the latter deletes. */
  lemma RemoveReplyClaimsDeletion(w: World, chan: string, params: seq<string>, step: StepResult)
    requires |params| >= 2
    ensures var k := Detokenize(params, ' ', 1);
      var e := RemoveCalcEffect(w, chan, params, step);
      && (e.actions == [Msg(chan, "Calc '" + k + "' has been deleted.")]
          <==> !w.calcDb || (History(w.rows, k) != [] && step == StepDone))
      && (e.world != w <==> w.calcDb && History(w.rows, k) != [] && step == StepDone)
  {
    var k := Detokenize(params, ' ', 1);
    var e := RemoveCalcEffect(w, chan, params, step);
    if w.calcDb && History(w.rows, k) != [] && step == StepDone {
      assert History(e.world.rows, k) == [] by {
        HistoryWithoutKeyword(w.rows, k, k);
      }
    }
    if e.actions == [Msg(chan, "Calc '" + k + "' has been deleted.")] {
      assert e.actions[0].text != "Calc '" + k + "' not found." by {
        assert ("Calc '" + k + "' has been deleted.")[|k| + 8] == 'h';
        assert ("Calc '" + k + "' not found.")[|k| + 8] == 'n';
      }
    }
  }

  /** A found revision always has its content as well: version answers
      with two lines exactly when the revision exists, one otherwise. */
  lemma VersionRepliesTwoLinesIffFound(w: World, chan: string, params: seq<string>)
    requires |params| > 2
    ensures var k := Detokenize(params, ' ', 2);
      var info := VersionInfoAnswer(w.calcDb, w.rows, k, Atoi(params[1]));
      && |VersionEffect(w, chan, params).actions| == (if info.code == Ok then 2 else 1)
      && (info.code == Ok ==> VersionAnswer(w.calcDb, w.rows, k, Atoi(params[1])).code == Ok)
  {
  }

  /** add_hostmask for the authorized table lets every host the new mask
      matches give commands from then on, and takes the right away from
      nobody. */
  lemma AddedMaskMayCommand(w: World, chan: string, params: seq<string>, other: string)
    requires |params| >= 4 && params[3] == "authorized" && w.aclDb
    ensures MayCommand(AddHostmaskEffect(w, chan, params, StepDone).world, other)
      <==> MayCommand(w, other) || Acl.MaskMatches(other, params[2])
  {
    var row := Acl.HostmaskRow(Acl.NextId(w.authorized), params[1], params[2]);
    assert AddHostmaskEffect(w, chan, params, StepDone).world.authorized == w.authorized + [row];
    Acl.AddedMaskMatches(w.authorized, row, other);
  }

  /** add_hostmask for the banned table makes every host the new mask
      matches, and that may not give commands, banned when it joins; nobody
      gains or loses the right to give commands. */
  lemma AddedMaskBans(w: World, chan: string, params: seq<string>, other: string)
    requires |params| >= 4 && params[3] == "banned" && w.aclDb
    ensures var w' := AddHostmaskEffect(w, chan, params, StepDone).world;
      && (MayCommand(w', other) <==> MayCommand(w, other))
      && (Acl.AnyMatches(w'.banned, other) <==> Acl.AnyMatches(w.banned, other) || Acl.MaskMatches(other, params[2]))
      && (!MayCommand(w, other) && Acl.MaskMatches(other, params[2]) ==>
            JoinActions(w', chan, other) == [Mode(chan, "+b " + NickOf(other))])
  {
    var row := Acl.HostmaskRow(Acl.NextId(w.banned), params[1], params[2]);
    var w' := AddHostmaskEffect(w, chan, params, StepDone).world;
    assert w' == w.(banned := w.banned + [row]);
    Acl.AddedMaskMatches(w.banned, row, other);
  }

  /** A non-empty listing reply ends with the last line, indented, and then
      the reminder of rm_hostmask. */
  lemma ListingReplyLast(chan: string, nick: string, kind: string, lines: seq<string>)
    requires lines != []
    ensures var r := ListingReply(chan, nick, kind, lines);
      |r| >= 3 && r[|r| - 2] == Msg(chan, "  " + lines[|lines| - 1])
  {
  }

  /** After add_hostmask, view_hostmasks_for the same nick and table lists
      the new mask last, under the id it was given, for either table. */
  lemma AddThenView(w: World, chan: string, params: seq<string>)
    requires |params| >= 4 && KindOf(params[3]).Some? && w.aclDb
    ensures var t := KindOf(params[3]).value;
      var w' := AddHostmaskEffect(w, chan, params, StepDone).world;
      var row := Acl.HostmaskRow(Acl.NextId(TableOf(w, t)), params[1], params[2]);
      var v := ViewHostmasksEffect(w', chan, [params[0], params[1], params[3]]);
      && v.world == w'
      && |v.actions| >= 3
      && v.actions[|v.actions| - 2] == Msg(chan, "  " + Acl.ListingLine(row))
  {
    var t := KindOf(params[3]).value;
    var row := Acl.HostmaskRow(Acl.NextId(TableOf(w, t)), params[1], params[2]);
    var w' := AddHostmaskEffect(w, chan, params, StepDone).world;
    assert TableOf(w', t) == TableOf(w, t) + [row];
    Acl.ListingAfterAdd(TableOf(w, t), row);
    var lines := Acl.Listing(TableOf(w', t), params[1]);
    assert lines != [] && lines[|lines| - 1] == Acl.ListingLine(row);
    assert HostmaskLines(w', t, params[1]) == lines;
    ListingReplyLast(chan, params[1], params[3], lines);
  }

  /** A status character never ends up in a nick of a names reply, and no
      nick is empty; a list without status characters is split as it is. */
  lemma NamesReplyNicksClean(nicklist: string)
    ensures forall i :: 0 <= i < |NamesReplyNicks(nicklist)| ==>
      var n := NamesReplyNicks(nicklist)[i];
      n != [] && ' ' !in n && '+' !in n && '@' !in n
    ensures '+' !in nicklist && '@' !in nicklist ==> NamesReplyNicks(nicklist) == Tokenize(nicklist, ' ')
  {
    var s := Strip(Strip(nicklist, '+'), '@');
    StripKeepsAbsent(Strip(nicklist, '+'), '@', '+');
    var ns := NamesReplyNicks(nicklist);
    Acl.TokensOccur(s, ' ');
    forall i | 0 <= i < |ns| ensures '+' !in ns[i] && '@' !in ns[i] {
      var j: nat :| j <= |s| && OccursAt(ns[i], s, j);
      assert ns[i] == s[j..j + |ns[i]|];
      forall x | 0 <= x < |ns[i]| ensures ns[i][x] != '+' && ns[i][x] != '@' {
        assert ns[i][x] == s[j + x];
      }
    }
    if '+' !in nicklist && '@' !in nicklist {
      StripAbsent(nicklist, '+');
      StripAbsent(nicklist, '@');
    }
  }

  // ---------------------------------------------------------------------------
  // The version argument as written
  // ---------------------------------------------------------------------------

  /** doCalcVersion as written reads params[1] before it checks how many
      words there are: None stands for the out-of-range read. */
  function VersionArgumentAsWritten(params: seq<string>): Option<int> {
    if |params| >= 2 then Some(Atoi(params[1])) else None
  }

  /** "version" alone (in any case), from an authorized host, reaches
      doCalcVersion with one word, where the code as written reads past the end of the words;
      the model answers with the usage line instead. */
  lemma VersionAloneReadsPastEnd(w: World, chan: string, host: string, word: string, step: StepResult, now: string)
    requires MayCommand(w, host) && Lower(word) == "version"
    ensures Tokenize(word, ' ') == [word]
    ensures VersionArgumentAsWritten([word]) == None
    ensures Handle(w, chan, host, word, step, now).actions == [Msg(chan, "Usage: version [-]version keyword")]
  {
    assert ' ' !in word by {
      forall i | 0 <= i < |word| ensures word[i] != ' ' {
        assert LowerChar(word[i]) == "version"[i];
      }
    }
    TokenizeSingle(word, ' ');
    DispatchVersionWords(w, chan, host, word, step, now);
  }

  // ---------------------------------------------------------------------------
  // The bot
  // ---------------------------------------------------------------------------

  class Bot {
    /** The calc database. */
    const calcs: CalcStore
    /** The hostmask database. */
    const acl: Acl.Authorizer
    /** The channel of the last names reply (_last_chan). */
    var lastChan: string
    /** Every IRC command sent so far, in order. */
    var sent: seq<Action>

    ghost predicate Valid()
      reads calcs, acl
    {
      calcs.Valid() && acl.Valid()
    }

    /** The contents of both stores. */
    function State(): World
      reads calcs, acl
    {
      World(calcs.hasDb, calcs.rows, acl.hasDb, acl.authorized, acl.banned)
    }

    constructor (calcStore: CalcStore, authorizer: Acl.Authorizer)
      requires calcStore.Valid() && authorizer.Valid()
      ensures Valid() && calcs == calcStore && acl == authorizer && lastChan == "" && sent == []
    {
      calcs := calcStore;
      acl := authorizer;
      lastChan := "";
      sent := [];
    }

    /** sendMessageToNick. */
    method Send(target: string, text: string)
      modifies this
      ensures sent == old(sent) + [Msg(target, text)] && lastChan == old(lastChan)
    {
      sent := sent + [Msg(target, text)];
    }

    method DoCalc(chan: string, params: seq<string>)
      requires Valid()
      modifies this
      ensures Valid() && lastChan == old(lastChan)
      ensures var e := CalcEffect(old(State()), chan, params);
        State() == e.world && sent == old(sent) + e.actions
    {
      var keyword := DetokenizeString(params, ' ', 1);
      var msg := "";
      if |params| == 1 {
        msg := "Usage: calc keyword";
      } else if |params| >= 2 {
        var r, response := calcs.GetCalc(keyword);
        if r == Ok {
          msg := keyword + " = " + response;
        } else {
          msg := "Calc '" + keyword + "' not found.";
        }
      }
      Send(chan, msg);
    }

    method DoCalcVersion(chan: string, params: seq<string>)
      requires Valid()
      modifies this
      ensures Valid() && lastChan == old(lastChan)
      ensures var e := VersionEffect(old(State()), chan, params);
        State() == e.world && sent == old(sent) + e.actions
    {
      if |params| <= 2 {
        Send(chan, "Usage: version [-]version keyword");
        return;
      }
      var keyword := DetokenizeString(params, ' ', 2);
      var version := Atoi(params[1]);
      var msg1, msg2 := "", "";
      var r, response := calcs.GetVersionInfo(keyword, version);
      if r == Ok {
        msg1 := response;
        var r2, response2 := calcs.GetCalcAt(keyword, version);
        if r2 == Ok {
          msg2 := keyword + " v" + params[1] + " = " + response2;
        }
      } else {
        msg1 := "Calc '" + keyword + "' v" + params[1] + " not found.";
      }
      Send(chan, msg1);
      if |msg2| > 0 {
        Send(chan, msg2);
      }
    }

    method DoCalcApropos(chan: string, params: seq<string>)
      requires Valid()
      modifies this
      ensures Valid() && lastChan == old(lastChan)
      ensures var e := AproposEffect(old(State()), chan, params);
        State() == e.world && sent == old(sent) + e.actions
    {
      var term := DetokenizeString(params, ' ', 1);
      var msg := "";
      if |params| == 1 {
        msg := "Usage: apropos search_term";
      } else if |params| >= 2 {
        var r, response := calcs.Apropos(term);
        if r != NoSearchMatches {
          msg := "Search results for '" + term + "': " + response;
        } else {
          msg := "No matches found for '" + term + "'.";
        }
      }
      Send(chan, msg);
    }

    method DoCalcAproposAll(chan: string, params: seq<string>)
      requires Valid()
      modifies this
      ensures Valid() && lastChan == old(lastChan)
      ensures var e := AproposAllEffect(old(State()), chan, params);
        State() == e.world && sent == old(sent) + e.actions
    {
      var term := DetokenizeString(params, ' ', 1);
      var msg := "";
      if |params| == 1 {
        msg := "Usage: apropos search_term";
      } else if |params| >= 2 {
        var r, response := calcs.AproposAll(term);
        if r != NoSearchMatches {
          msg := "Search results for '" + term + "': " + response;
        } else {
          msg := "No matches found for '" + term + "'.";
        }
      }
      Send(chan, msg);
    }

    method DoCalcRemove(chan: string, params: seq<string>, step: StepResult)
      requires Valid()
      modifies this, calcs
      ensures Valid() && lastChan == old(lastChan)
      ensures var e := RemoveCalcEffect(old(State()), chan, params, step);
        State() == e.world && sent == old(sent) + e.actions
    {
      var keyword := DetokenizeString(params, ' ', 1);
      var msg := "";
      if |params| == 1 {
        msg := "Usage: rmcalc keyword";
      } else if |params| >= 2 {
        var r := calcs.RemoveCalc(keyword, step);
        if r != NoCalc {
          msg := "Calc '" + keyword + "' has been deleted.";
        } else {
          msg := "Calc '" + keyword + "' not found.";
        }
      }
      Send(chan, msg);
    }

    method DoChangeCalc(chan: string, host: string, eqParams: seq<string>, step: StepResult, now: string)
      requires Valid()
      modifies this, calcs
      ensures Valid() && lastChan == old(lastChan)
      ensures var e := ChangeCalcEffect(old(State()), chan, host, eqParams, step, now);
        State() == e.world && sent == old(sent) + e.actions
    {
      var nick := NickOf(host);
      var msg := "";
      if |eqParams| != 2 {
        msg := "Usage: chcalc keyword = newcalc";
      } else {
        var words := TokenizeString(eqParams[0], ' ');
        var keyword := DetokenizeString(words, ' ', 1);
        var r := calcs.ChangeCalc(keyword, eqParams[1], nick, now, step);
        if r == CalcChanged {
          msg := "Calc " + keyword + " changed by " + nick;
        } else if r == DbBusy {
          msg := "CalcDB could not lock DB for writing, busy.";
        } else {
          msg := "Calc " + keyword + " does not exist";
        }
      }
      Send(chan, msg);
    }

    method DoMakeCalc(chan: string, host: string, eqParams: seq<string>, step: StepResult, now: string)
      requires Valid()
      modifies this, calcs
      ensures Valid() && lastChan == old(lastChan)
      ensures var e := MakeCalcEffect(old(State()), chan, host, eqParams, step, now);
        State() == e.world && sent == old(sent) + e.actions
    {
      var nick := NickOf(host);
      var msg := "";
      if |eqParams| != 2 {
        msg := "Usage: mkcalc keyword = newcalc";
      } else {
        var words := TokenizeString(eqParams[0], ' ');
        var keyword := DetokenizeString(words, ' ', 1);
        var r := calcs.MakeCalc(keyword, eqParams[1], nick, now, step);
        if r == CalcChanged {
          msg := "Calc " + keyword + " added by " + nick;
        } else if r == DbBusy {
          msg := "CalcDB could not lock DB for writing, busy.";
        } else {
          msg := "Calc " + keyword + " already exists (use chcalc)";
        }
      }
      Send(chan, msg);
    }

    method ViewHostmasksFor(chan: string, params: seq<string>)
      modifies this
      ensures lastChan == old(lastChan) && State() == old(State())
      ensures sent == old(sent) + ViewHostmasksEffect(old(State()), chan, params).actions
    {
      if |params| < 3 {
        Send(chan, "Usage: view_hostmasks_for [nick] [authorized|banned]");
        return;
      }
      var nick, kind := params[1], params[2];
      var t := KindOf(kind);
      if t.None? {
        Send(chan, kind + " is not a valid hostmask type.");
        return;
      }
      ShowHostmasks(chan, nick, kind, t.value);
    }

    /** Looks up `nick`'s hostmasks of type `t` and sends the listing. */
    method ShowHostmasks(chan: string, nick: string, kind: string, t: Acl.HostmaskType)
      modifies this
      ensures lastChan == old(lastChan) && State() == old(State())
      ensures sent == old(sent) + ListingReply(chan, nick, kind, HostmaskLines(old(State()), t, nick))
    {
      var _, hostmasks := acl.GetHostmasksByNick(nick, t, []);
      assert hostmasks == HostmaskLines(State(), t, nick);
      SendListing(chan, nick, kind, hostmasks);
    }

    /** Sends the listing reply for `lines`, one message at a time. */
    method SendListing(chan: string, nick: string, kind: string, lines: seq<string>)
      modifies this
      ensures sent == old(sent) + ListingReply(chan, nick, kind, lines) && lastChan == old(lastChan)
    {
      if |lines| == 0 {
        Send(chan, "Nick '" + nick + "' has no " + kind + " hostmasks.");
        return;
      }
      var header := "Displaying " + kind + " hostmasks for '" + nick + "': ";
      var footer := "Use rm_hostmask [id] [authorized|banned] to remove a hostmask.";
      Send(chan, header);
      SendIndented(chan, lines);
      Send(chan, footer);
      assert sent == old(sent) + ([Msg(chan, header)] + Indented(chan, lines) + [Msg(chan, footer)]);
    }

    method SendIndented(chan: string, lines: seq<string>)
      modifies this
      ensures sent == old(sent) + Indented(chan, lines) && lastChan == old(lastChan)
    {
      var i := 0;
      while i < |lines|
        invariant 0 <= i <= |lines|
        invariant sent == old(sent) + Indented(chan, lines[..i])
        invariant lastChan == old(lastChan)
      {
        assert Indented(chan, lines[..i + 1]) == Indented(chan, lines[..i]) + [Msg(chan, "  " + lines[i])];
        Send(chan, "  " + lines[i]);
        i := i + 1;
      }
      assert lines[..i] == lines;
    }

    method RmHostmask(chan: string, params: seq<string>, step: StepResult)
      requires Valid()
      modifies this, acl
      ensures Valid() && lastChan == old(lastChan)
      ensures var e := RemoveHostmaskEffect(old(State()), chan, params, step);
        State() == e.world && sent == old(sent) + e.actions
    {
      if |params| < 3 {
        Send(chan, "Usage: rm_hostmask [id] [authorized|banned]");
        return;
      }
      var id, kind := params[1], params[2];
      var t := KindOf(kind);
      if t.None? {
        Send(chan, kind + " is not a valid hostmask type.");
        return;
      }
      var r := acl.RemoveHostmaskById(Atoi(id), t.value, step);
      if r == Acl.Ok {
        Send(chan, "Hostmask removed.");
      } else {
        Send(chan, "Hostmask not removed (are you sure that id exists?)");
      }
    }

    method AddHostmask(chan: string, params: seq<string>, step: StepResult)
      requires Valid()
      modifies this, acl
      ensures Valid() && lastChan == old(lastChan)
      ensures var e := AddHostmaskEffect(old(State()), chan, params, step);
        State() == e.world && sent == old(sent) + e.actions
    {
      if |params| < 4 {
        Send(chan, "Usage: add_hostmask [nick] [mask] [authorized|banned]");
        return;
      }
      var nick, mask, kind := params[1], params[2], params[3];
      var t := KindOf(kind);
      if t.None? {
        Send(chan, kind + " is not a valid hostmask type.");
        return;
      }
      var msg := "";
      var r := acl.AddHostmask(nick, mask, t.value, step);
      if r == Acl.Ok {
        msg := "Hostmask added.";
      }
      Send(chan, msg);
    }

    /** parseMessage(chan, host, msg): `step` is what the write the
        command makes (if any) reports, `now` the time stamp of a new calc
        revision. */
    method ParseMessage(chan: string, host: string, msg: string, step: StepResult, now: string) returns (outcome: Outcome)
      requires Valid()
      modifies this, calcs, acl
      ensures Valid() && lastChan == old(lastChan)
      ensures var r := Handle(old(State()), chan, host, msg, step, now);
        outcome == r.outcome && State() == r.world && sent == old(sent) + r.actions
    {
      var authorized := acl.IsAuthorized(host);
      if !authorized {
        return Completed;
      }
      var tokens := TokenizeString(msg, ' ');
      if |tokens| == 0 {
        return OutOfRange;
      }
      RunCommand(chan, host, msg, tokens, step, now);
      outcome := Completed;
    }

    /** parseMessage's if-chain on the lowered first word: calc, chcalc,
        rmcalc and mkcalc here, the rest further on. */
    method RunCommand(chan: string, host: string, msg: string, tokens: seq<string>, step: StepResult, now: string)
      requires Valid() && tokens != []
      modifies this, calcs, acl
      ensures Valid() && lastChan == old(lastChan)
      ensures var e := CommandEffect(old(State()), chan, host, msg, tokens, step, now);
        State() == e.world && sent == old(sent) + e.actions
    {
      var cmd := LowerCase(tokens[0]);
      if cmd == "calc" {
        DoCalc(chan, tokens);
      } else if cmd == "chcalc" {
        var params := TokenizeString(msg, '=');
        DoChangeCalc(chan, host, params, step, now);
      } else if cmd == "rmcalc" {
        DoCalcRemove(chan, tokens, step);
      } else if cmd == "mkcalc" {
        var params := TokenizeString(msg, '=');
        DoMakeCalc(chan, host, params, step, now);
      } else {
        RunVersionOrApropos(chan, tokens, cmd, step);
      }
    }

    /** The if-chain goes on: version, apropos, apropos_all. */
    method RunVersionOrApropos(chan: string, tokens: seq<string>, cmd: string, step: StepResult)
      requires Valid() && tokens != [] && cmd == Lower(tokens[0])
      modifies this, acl
      ensures Valid() && lastChan == old(lastChan)
      ensures var e := VersionOrAproposEffect(old(State()), chan, tokens, step);
        State() == e.world && sent == old(sent) + e.actions
    {
      if cmd == "version" {
        DoCalcVersion(chan, tokens);
      } else if cmd == "apropos" {
        DoCalcApropos(chan, tokens);
      } else if cmd == "apropos_all" {
        DoCalcAproposAll(chan, tokens);
      } else {
        RunHostmaskCommand(chan, tokens, cmd, step);
      }
    }

    /** The hostmask commands at the end of parseMessage's if-chain. */
    method RunHostmaskCommand(chan: string, tokens: seq<string>, cmd: string, step: StepResult)
      requires Valid() && tokens != [] && cmd == Lower(tokens[0])
      modifies this, acl
      ensures Valid() && lastChan == old(lastChan)
      ensures var e := HostmaskCommandEffect(old(State()), chan, tokens, step);
        State() == e.world && sent == old(sent) + e.actions
    {
      if cmd == "view_hostmasks_for" {
        ViewHostmasksFor(chan, tokens);
      } else if cmd == "rm_hostmask" {
        RmHostmask(chan, tokens, step);
      } else if cmd == "add_hostmask" {
        AddHostmask(chan, tokens, step);
      }
    }

    /** doUserJoined(chan, host). */
    method DoUserJoined(chan: string, host: string)
      requires Valid()
      modifies this
      ensures Valid() && lastChan == old(lastChan)
      ensures sent == old(sent) + JoinActions(State(), chan, host)
    {
      var nick := NickOf(host);
      var authorized := acl.IsAuthorized(host);
      if authorized {
        sent := sent + [Mode(chan, "+o " + nick)];
        return;
      }
      var banned := acl.IsBanned(host);
      if banned {
        sent := sent + [Mode(chan, "+b " + nick)];
      }
    }

    /** doWhoisNicklist(chan, nicklist): remembers the channel and asks
        for a whois of every nick. */
    method DoWhoisNicklist(chan: string, nicklist: string)
      modifies this
      ensures lastChan == chan
      ensures sent == old(sent) + WhoisRequests(Tokenize(nicklist, ' '))
    {
      lastChan := chan;
      var nicks := TokenizeString(nicklist, ' ');
      var i := 0;
      while i < |nicks|
        invariant 0 <= i <= |nicks|
        invariant lastChan == chan
        invariant sent == old(sent) + WhoisRequests(nicks[..i])
      {
        assert WhoisRequests(nicks[..i + 1]) == WhoisRequests(nicks[..i]) + [Whois(nicks[i])];
        sent := sent + [Whois(nicks[i])];
        i := i + 1;
      }
      assert nicks[..i] == nicks;
    }

    /** doWhoisReceivedCheckAuth(host): moderates the host on the channel
        of the last names reply. */
    method DoWhoisReceivedCheckAuth(host: string)
      requires Valid()
      modifies this
      ensures Valid() && lastChan == old(lastChan)
      ensures sent == old(sent) + JoinActions(State(), old(lastChan), host)
    {
      DoUserJoined(lastChan, host);
    }

    /** The RPL_NAMREPLY branch of event_numeric: strips the '+' and '@'
        status prefixes and hands the list to doWhoisNicklist. */
    method OnNamesReply(chan: string, nicklist: string)
      modifies this
      ensures lastChan == chan
      ensures sent == old(sent) + WhoisRequests(NamesReplyNicks(nicklist))
    {
      var stripped := Strip(nicklist, '+');
      stripped := Strip(stripped, '@');
      DoWhoisNicklist(chan, stripped);
    }
  }
}
