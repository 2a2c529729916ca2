# IRC-Optotron in Dafny

IRC-Optotron is an IRC bot that keeps a small "calc" database: a calc is a
keyword with a text, and every change of a keyword adds a revision, so old
versions can be read back. Only users whose host matches one of the
*authorized* hostmasks may give it commands. The bot ops them when they join
a channel and bans users whose host matches a *banned* hostmask.

This project models the core of the bot in four parts:

- `StringHelpers` (`string_helpers.dfy`): trimming, tokenizing on a
  delimiter, joining tokens back, and the "every token occurs" test that
  hostmask matching relies on.
- `CalcTable` (`calc_table.dfy`) and `CalcDB` (`calc_db.dfy`): the calc
  store.
  - `CalcTable` is the pure meaning of the `calcs` table:
    - each keyword's history, whose versions run 0, 1, 2, … in insertion
      order;
    - the answers each query gives;
    - the response codes of the writes.
  - `CalcDB.CalcStore` is a class over the table. Its methods run the
    store's own steps, and each method's contract ties its answer and the
    new table to `CalcTable`.
- `HostmaskAuthorizer` (`hostmask_authorizer.dfy`): the two hostmask tables
  as fields of the class `Authorizer`, mask matching, ids, and the per-nick
  listing.
- `BotController` (`bot_controller.dfy`): the command dispatcher and its
  handlers, the join, whois and names-reply flow, and the class `Bot`.
  - Everything the bot sends is appended to `sent`.
  - `World` is a snapshot of both stores.
  - `Handle` is the pure meaning of one message: what it does to the
    `World` and what it sends.
  - Every handler method is proved to do what its pure effect function
    says.

Helper modules:

- `Numerals`: `itoa` and `atoi`, and the round trip between them.
- `Ordering`: byte-wise string order, and the sorted, duplicate-free lists
  that `GROUP BY … ORDER BY` returns.
- `Storage`: the outcome of a database write (`sqlite3_step`) and `Option`.

What the environment decides is passed in as a parameter:

- whether each database handle is non-null after `sqlite3_open` (`hasDb`,
  `calcDb`, `aclDb`). A failed open usually still returns a handle, so
  its errors show up as the statement-preparation failures left out below;
- the outcome of a write (`StepResult`: done, busy or failed);
- the current time (`now`).

The model follows the code where it departs from the behaviour documented
for the bot:

- Replies go to the channel the command came from.
- `removeHostmaskByID` reports success whether or not a row with that id
  existed.
- `rmcalc` says "has been deleted." when the calc database is not open.
- A search without a database answers "Search results for '…': " with
  nothing after it.

## Model

| member | source | states |
|---|---|---|
| StringHelpers.LTrimmed | StringHelpers.cpp:8-11 | ltrim never lengthens the string; everything it drops is whitespace and the result does not start with whitespace |
| StringHelpers.LTrimmedIsSuffix | StringHelpers.cpp:8-11 | what ltrim keeps is a suffix of the string: it only cuts from the front |
| StringHelpers.LTrim | StringHelpers.cpp:8-11 | the erase loop yields exactly `LTrimmed(s)` |
| StringHelpers.RTrimmed | StringHelpers.cpp:14-17 | rtrim keeps a prefix; everything it drops is whitespace and the result does not end with whitespace |
| StringHelpers.RTrim | StringHelpers.cpp:14-17 | the erase loop yields exactly `RTrimmed(s)` |
| StringHelpers.RTrimmedStep | StringHelpers.cpp:14-17 | one erase step of trailing whitespace leaves the right-trimmed form unchanged |
| StringHelpers.Trim | StringHelpers.cpp:20-22 | trim is rtrim followed by ltrim |
| StringHelpers.TrimmedNoEdgeSpace | StringHelpers.cpp:20-22 | a trimmed string neither starts nor ends with whitespace |
| StringHelpers.TrimmedIsCore | StringHelpers.cpp:20-22 | the trimmed string is a contiguous slice of the input with only whitespace cut on either side |
| StringHelpers.TrimmedUnchangedIff | StringHelpers.cpp:20-22 | trim leaves a string unchanged exactly when it has no whitespace at either end |
| StringHelpers.TrimIdempotent | StringHelpers.cpp:20-22 | trimming twice is trimming once |
| StringHelpers.FirstIndexOf | StringHelpers.cpp:29-42 | the position where the current token ends: the first delimiter, or the end of the string |
| StringHelpers.FirstIndexOfAfter | StringHelpers.cpp:29-42 | a delimiter-free prefix moves the first delimiter by its length |
| StringHelpers.TokenizePrefixed | StringHelpers.cpp:24-48 | a non-empty, delimiter-free prefix joins the first token, which ends at the rest's first delimiter |
| StringHelpers.Tokenize | StringHelpers.cpp:24-48 | every token is non-empty and free of the delimiter |
| StringHelpers.TokenizeString | StringHelpers.cpp:24-48 | the character loop with its pending token yields exactly `Tokenize(s, d)` |
| StringHelpers.TokenizeLoopStep | StringHelpers.cpp:31-42 | at a delimiter the pending token, when non-empty, is complete and tokenizing resumes after it; any other character extends the pending token |
| StringHelpers.TokenizeConcat | StringHelpers.cpp:24-48 | the tokens concatenated are the input with every delimiter removed, so no other character is lost, added or reordered |
| StringHelpers.TokenizeEmptyIff | StringHelpers.cpp:24-48 | there are no tokens exactly when the string holds only delimiters |
| StringHelpers.TokenizeSingle | StringHelpers.cpp:24-48 | a string without delimiters is one token, or none when empty |
| StringHelpers.TokenizeAfterToken | StringHelpers.cpp:24-48 | a token followed by a delimiter is the first token, and the rest is tokenized on its own |
| StringHelpers.Detokenize | StringHelpers.cpp:50-62 | empty when `start` is past the last token; otherwise the tokens from `start` joined by the combiner |
| StringHelpers.DetokenizeString | StringHelpers.cpp:50-62 | the appending loop yields exactly `Detokenize(ts, c, start)` |
| StringHelpers.DetokenizeIgnoresHead | StringHelpers.cpp:50-62 | detokenizing from index 1 or later does not depend on the first token |
| StringHelpers.JoinSnoc | StringHelpers.cpp:56-59 | one more loop step appends the combiner and the next token |
| StringHelpers.JoinPrefixStep | StringHelpers.cpp:56-59 | joining one more token of a prefix adds the separator and that token |
| StringHelpers.TokenizeJoin | StringHelpers.cpp:24-62 | round trip: tokens that are non-empty and free of the combiner, joined with the combiner and then tokenized again, come back unchanged |
| StringHelpers.TokenizeDetokenize | StringHelpers.cpp:24-62 | round trip: tokens that are non-empty and free of the combiner, detokenized from index 0 and then tokenized again, come back unchanged |
| StringHelpers.JoinNormalised | StringHelpers.cpp:50-62 | joined tokens never start or end with the combiner and never hold two combiners in a row |
| StringHelpers.StringContainsAllTokens | StringHelpers.cpp:64-73 | true exactly when every token occurs somewhere in the haystack (the loop stops at the first token that does not) |
| StringHelpers.ContainsAllOrderFree | StringHelpers.cpp:64-73 | the answer depends only on which tokens there are, not on their order or repetition |
| StringHelpers.Strip | BotController.cpp:575-576 | the erase(remove(…)) idiom leaves no copy of the character and never lengthens the string |
| StringHelpers.StripAppend | BotController.cpp:575-576 | removing a character from a concatenation removes it from each part |
| StringHelpers.StripAbsent | BotController.cpp:575-576 | removing an absent character changes nothing |
| StringHelpers.StripKeepsAbsent | BotController.cpp:575-576 | removing '@' cannot bring back a '+' that was removed before |
| Numerals.NatToStringDigits | CalcDB.cpp:72 | itoa writes a non-empty run of decimal digits |
| Numerals.IntToString | CalcDB.cpp:72 | itoa writes a non-empty text that starts with '-' exactly when the number is negative |
| Numerals.LeadingDigits | BotController.cpp:203 | atoi reads the longest run of digits after the sign |
| Numerals.Atoi | BotController.cpp:458 | atoi is negative only when the text after leading whitespace starts with '-', and is 0 when that text is empty or starts with neither a sign nor a digit |
| Numerals.DigitsValueOfNat | CalcDB.cpp:72 | reading back the digits itoa wrote gives the number |
| Numerals.LeadingDigitsOf | CalcDB.cpp:183 | atoi stops at the first character that is not a digit |
| Numerals.AtoiOfIntToStringThen | CalcDB.cpp:183 | atoi of itoa(i) followed by a non-digit gives i back |
| Numerals.AtoiOfIntToString | CalcDB.cpp:167-183 | round trip: atoi(itoa(i)) == i for every integer, negative ones included |
| Ordering.StringLessIsStrictTotalOrder | CalcDB.cpp:88 | ORDER BY keyword compares strings lexicographically, which is a strict total order |
| Ordering.InsertSorted | CalcDB.cpp:88 | inserting into a sorted, duplicate-free list keeps it sorted and adds exactly that element |
| Ordering.SortDistinctSpec | CalcDB.cpp:88 | GROUP BY … ORDER BY returns a sorted list holding exactly the distinct input elements |
| Ordering.SortedUnique | CalcDB.cpp:88 | two sorted lists with the same elements are equal, so that result is unique |
| CalcTable.HistoryMembers | CalcDB.cpp:212 | the rows of a keyword, in insertion order: exactly the table's rows with that keyword |
| CalcTable.AppendRevision | CalcDB.cpp:174-183 | inserting the next version keeps every history contiguous; it extends that keyword's history by the row and leaves every other keyword's history alone |
| CalcTable.WithoutKeywordMembers | CalcDB.cpp:378 | DELETE keeps exactly the rows of other keywords |
| CalcTable.HistoryAppend | CalcDB.cpp:174-183 | inserting a row extends its own keyword's history by that row and no other history |
| CalcTable.HistoryWithoutKeyword | CalcDB.cpp:378 | after the delete the keyword's history is empty and every other history is unchanged |
| CalcTable.RemoveKeepsContiguous | CalcDB.cpp:366-396 | removing a keyword keeps the version invariant |
| CalcTable.SelectLatest | CalcDB.cpp:212 | ORDER BY version DESC LIMIT 1: none exactly when the keyword has no row; otherwise a row of the keyword with the greatest version |
| CalcTable.SelectVersion | CalcDB.cpp:254 | a row with that keyword and version, none exactly when there is no such row |
| CalcTable.RowIsRevision | CalcDB.cpp:254 | under the invariant, a row of version v is entry v of its keyword's history |
| CalcTable.LatestIsNewestRevision | CalcDB.cpp:205-234 | the newest row is the last entry of the history, and there is none when the history is empty |
| CalcTable.MaxVersionIsNewest | CalcDB.cpp:32-61 | MAX(version) is the history's length minus one |
| CalcTable.VersionIsRevision | CalcDB.cpp:236-277 | the row selected for version v is entry v of the history, none when v is out of range |
| CalcTable.MinusOneIsLatest | CalcDB.cpp:63-78 | version -1 addresses the newest revision: `getCalc(k, -1)` answers what `getCalc(k)` answers |
| CalcTable.TooFarBackIsNotFound | CalcDB.cpp:63-78 | counting back past version 0 finds nothing, neither content nor version info |
| CalcTable.NewRevisionReadsBack | CalcDB.cpp:156-234 | after a new revision, `getCalc` returns its content, older versions answer as before, and -2 gives the previous newest content |
| CalcTable.RemovedReadsNothing | CalcDB.cpp:366-396 | after removal `getCalc` finds nothing for the keyword, and every other keyword answers every request as before |
| CalcTable.MatchingKeywords | CalcDB.cpp:88 | exactly the keywords of rows whose keyword or text contains the term |
| CalcTable.AproposKeysSpec | CalcDB.cpp:80-116 | apropos lists each matching keyword once, sorted, and nothing else |
| CalcTable.EntryLessIsStrictTotalOrder | CalcDB.cpp:126 | ORDER BY keyword, version is a strict total order on pairs |
| CalcTable.MatchingEntries | CalcDB.cpp:126 | exactly the (keyword, version) pairs of matching rows |
| CalcTable.AproposAllEntriesSpec | CalcDB.cpp:118-154 | apropos_all lists each matching pair once, sorted by keyword and then by version |
| CalcTable.EntryTexts | CalcDB.cpp:135-144 | one "(v<version> <keyword>)" text per pair, in order |
| CalcTable.NoSearchMatchesIff | CalcDB.cpp:80-154 | both searches report no matches exactly when no row contains the term |
| CalcTable.NewRevisions | CalcDB.cpp:156-203 | a run of changes gives consecutive versions counting up from the start |
| CalcTable.NewRevisionsCons | CalcDB.cpp:156-203 | the first change takes the start version, and the rest count up from the next one |
| CalcTable.RevisionsHistory | CalcDB.cpp:156-203 | successive changes keep the invariant and append versions \|h\|, \|h\|+1, … to the history |
| CalcTable.RevisionsReadBack | CalcDB.cpp:156-277 | after writing texts c0, c1, … to a new keyword, version i reads back ci |
| CalcDB.CalcStore.GetCalc | CalcDB.cpp:205-234 | no database gives NODB; no row gives NOCALC; otherwise OK with the newest revision's text |
| CalcDB.CalcStore.GetLatestVersionNumber | CalcDB.cpp:32-61 | VERSION_OK with the history's length minus one; NODB or NOCALC leave `version` as it was |
| CalcDB.CalcStore.GetWrapAroundVersion | CalcDB.cpp:63-78 | writes itoa(latest + v + 1); VERSION_OK exactly when the keyword exists and the result is not negative, NOCALC otherwise |
| CalcDB.CalcStore.ResolveVersion | CalcDB.cpp:244-251 | the version a request addresses, or none when counting back goes past version 0 |
| CalcDB.CalcStore.GetCalcAt | CalcDB.cpp:236-277 | the text of the addressed revision, or NOCALC or NODB |
| CalcDB.CalcStore.GetVersionInfo | CalcDB.cpp:279-319 | "Calc 'k' changed at <added> by <author>" for the addressed revision, or NOCALC or NODB |
| CalcTable.VersionInfoText | CalcDB.cpp:309 | the info line starts with "Calc '" followed by the keyword, and ends with the author |
| CalcDB.CalcStore.Apropos | CalcDB.cpp:80-116 | the loop's text is the matching keywords joined by ", "; NOSEARCHMATCHES when there are none |
| CalcDB.CalcStore.AproposAll | CalcDB.cpp:118-154 | the loop's text is the matching "(vN k)" entries joined by ", " |
| CalcDB.CalcStore.MakeCalc | CalcDB.cpp:321-364 | CALCALREADYEXISTS when the keyword has a row; otherwise the trimmed text is inserted as version 0 once the step completes, DB_BUSY when busy; other keywords are untouched and the version invariant is kept |
| CalcDB.CalcStore.ChangeCalc | CalcDB.cpp:156-203 | NOCALC for an unknown keyword; otherwise the trimmed text is appended as version latest + 1; other keywords are untouched |
| CalcDB.CalcStore.RemoveCalc | CalcDB.cpp:366-396 | every revision of an existing keyword is deleted once the step completes; OK only then |
| HostmaskAuthorizer.TokensOccur | StringHelpers.cpp:24-73 | every token of a string occurs in that string |
| HostmaskAuthorizer.MaskMatches | HostmaskAuthorizer.cpp:147 | a non-empty mask without '*' matches exactly the hosts that contain it |
| HostmaskAuthorizer.MaskMatchesItself | HostmaskAuthorizer.cpp:134-161 | a host matches a mask equal to itself |
| HostmaskAuthorizer.EmptyPatternMatchesAll | HostmaskAuthorizer.cpp:134-161 | a mask made only of '*' matches every host |
| HostmaskAuthorizer.SwappedPiecesMatchAlike | HostmaskAuthorizer.cpp:134-161 | matching ignores piece order: "a*b" and "b*a" match the same hosts |
| HostmaskAuthorizer.MatchesAnyMask | HostmaskAuthorizer.cpp:144-155 | the loop over the table's masks finds a match exactly when some row's mask matches |
| HostmaskAuthorizer.NextId | HostmaskAuthorizer.cpp:78-90 | a new row's id is one more than the largest id in the table (greater than every id, and equal to some id + 1), and 1 for an empty table |
| HostmaskAuthorizer.InsertKeepsUniqueIds | HostmaskAuthorizer.cpp:65-99 | inserting with the next id keeps ids unique |
| HostmaskAuthorizer.WithoutId | HostmaskAuthorizer.cpp:43 | DELETE keeps exactly the rows with other ids |
| HostmaskAuthorizer.WithoutIdCount | HostmaskAuthorizer.cpp:43 | with unique ids, the DELETE removes exactly one row when the id is present and leaves the table as it is otherwise |
| HostmaskAuthorizer.ByNick | HostmaskAuthorizer.cpp:112 | exactly the rows with that nick |
| HostmaskAuthorizer.Lines | HostmaskAuthorizer.cpp:119-122 | one "<id>) <hostmask>" line per row, in order |
| HostmaskAuthorizer.PushLines | HostmaskAuthorizer.cpp:119-122 | the step loop appends exactly those lines to `masks` |
| HostmaskAuthorizer.ListingLine | HostmaskAuthorizer.cpp:121 | a listing line is the id's text followed by ") " and the whole mask |
| HostmaskAuthorizer.ListingLineReadsId | BotController.cpp:458 | atoi of a listing line gives back the row's id, so a listed id can be passed to rm_hostmask |
| HostmaskAuthorizer.StoredMaskAsWritten | HostmaskAuthorizer.cpp:84 | as written, the mask is bound with the nick's length: only its first \|nick\| characters are stored |
| HostmaskAuthorizer.StoredMaskWidens | HostmaskAuthorizer.cpp:84 | with nick "bob", the mask "\*!\*@ok" is stored as "\*!\*", which matches "x!y" although the full mask does not |
| HostmaskAuthorizer.Authorizer.IsAuthorized | HostmaskAuthorizer.cpp:134-161 | true exactly when the database is open and some authorized mask matches the host |
| HostmaskAuthorizer.Authorizer.IsBanned | HostmaskAuthorizer.cpp:163-185 | true exactly when the database is open and some banned mask matches the host |
| HostmaskAuthorizer.Authorizer.AddHostmask | HostmaskAuthorizer.cpp:65-99 | NODB, OK or BUSY; on OK the selected table gains the row (next id, nick, whole mask) and the other table is unchanged |
| HostmaskAuthorizer.Authorizer.RemoveHostmaskById | HostmaskAuthorizer.cpp:30-63 | NODB, OK (step done, id present or not) or NOROW; on OK the row with that id is gone, the table is one row shorter when such a row existed, and the other table is unchanged |
| HostmaskAuthorizer.Authorizer.GetHostmasksByNick | HostmaskAuthorizer.cpp:101-132 | NODB leaves `masks` alone; otherwise OK and the nick's listing lines are appended |
| HostmaskAuthorizer.WithoutIdKeepsUniqueIds | HostmaskAuthorizer.cpp:30-63 | removal keeps ids unique |
| HostmaskAuthorizer.AddedMaskMatches | HostmaskAuthorizer.cpp:65-161 | after an add, a host matches the table exactly when it matched before or matches the new mask |
| HostmaskAuthorizer.RemovedIdGone | HostmaskAuthorizer.cpp:30-63 | after the removal no row has that id |
| HostmaskAuthorizer.ByNickSnoc | HostmaskAuthorizer.cpp:112 | an added row comes last among its nick's rows |
| HostmaskAuthorizer.ListingAfterAdd | HostmaskAuthorizer.cpp:65-132 | listing a nick after adding one of its masks shows the new mask last, under its id |
| BotController.NickOf | BotController.cpp:157-158 | the nick is the part of the host before the first '!' (all of it when there is no '!') |
| BotController.Lower | BotController.cpp:84-85 | tolower on every character |
| BotController.LowerCase | BotController.cpp:84-85 | the loop lowers the command word in place, character by character |
| BotController.CommandIgnoresCase | BotController.cpp:82-130 | a command is recognised whatever its case: two spellings of the first word (without space or '=') that lower alike give the same `Handle` result for the same rest of the message |
| BotController.UnknownCommandIsSilent | BotController.cpp:82-130 | a first word that lowers to none of the ten command words changes no store and sends nothing |
| BotController.SameCommandEffect | BotController.cpp:88-129 | the if-chain's effect depends on the first word only through its lowered form, and on the '='-split only through the keyword and the parts after the first |
| BotController.SameCalcEffects | BotController.cpp:88-100 | calc and rmcalc read only the words after the command word |
| BotController.SameVersionEffect | BotController.cpp:106-109 | version reads only the words after the command word |
| BotController.SameAproposEffects | BotController.cpp:110-117 | apropos and apropos_all read only the words after the command word |
| BotController.SameViewHostmasksEffect | BotController.cpp:118-121 | view_hostmasks_for reads only the words after the command word |
| BotController.SameRemoveHostmaskEffect | BotController.cpp:122-125 | rm_hostmask reads only the words after the command word |
| BotController.SameAddHostmaskEffect | BotController.cpp:126-129 | add_hostmask reads only the words after the command word |
| BotController.SameEqArgumentsSameEffect | BotController.cpp:92-105 | chcalc and mkcalc read only the keyword before the '=' and the parts after it |
| BotController.CommandLine | BotController.cpp:82-105 | "<cmd> <rest>" splits on spaces into `cmd` and the words of `rest`; the '=' split's first part is `cmd` with `rest` up to its first '=', and the keyword is read from `rest` alone |
| BotController.UnauthorizedIsSilent | BotController.cpp:79-80 | a message from a host no authorized mask matches changes nothing and sends nothing |
| BotController.Bot.ParseMessage | BotController.cpp:77-130 | does to both stores and the send log exactly what `Handle` says for the message |
| BotController.Bot.RunCommand | BotController.cpp:83-129 | the if-chain on the lowered first word: calc, chcalc, rmcalc, mkcalc and the rest further on, each doing what `CommandEffect` says |
| BotController.Bot.RunVersionOrApropos | BotController.cpp:106-129 | the middle of the chain: version, apropos and apropos_all, then the hostmask commands |
| BotController.Bot.RunHostmaskCommand | BotController.cpp:118-129 | the end of the chain: view_hostmasks_for, rm_hostmask, add_hostmask; any other word does nothing |
| BotController.Bot.DoCalc | BotController.cpp:172-195 | the usage line for a bare "calc"; otherwise "k = text" or "Calc 'k' not found." |
| BotController.Bot.DoCalcVersion | BotController.cpp:197-227 | usage with fewer than two arguments; otherwise the version info line, then "k vN = text" |
| BotController.Bot.DoCalcApropos | BotController.cpp:229-252 | usage, "Search results for 't': …" or "No matches found for 't'." |
| BotController.Bot.DoCalcAproposAll | BotController.cpp:254-277 | the same for apropos_all |
| BotController.Bot.DoCalcRemove | BotController.cpp:279-302 | removes the calc and reports it; every code except NOCALC is reported as a deletion |
| BotController.Bot.DoChangeCalc | BotController.cpp:304-339 | the keyword is the words before '=', the text the part after it; replies changed, busy or does not exist |
| BotController.Bot.DoMakeCalc | BotController.cpp:341-376 | the same with mkcalc's replies: added, busy or already exists |
| BotController.Bot.ViewHostmasksFor | BotController.cpp:378-429 | usage, invalid type, "no … hostmasks", or a header, one indented line per mask and a footer; neither store changes |
| BotController.Bot.ShowHostmasks | BotController.cpp:408-428 | sends the listing reply for exactly the lines getHostmasksByNick fills in (none without a database) |
| BotController.Bot.SendListing | BotController.cpp:410-428 | "no … hostmasks" for an empty listing; otherwise the header, one indented line per listing line and the footer |
| BotController.Bot.SendIndented | BotController.cpp:420-424 | sends each listing line with two spaces in front |
| BotController.Bot.RmHostmask | BotController.cpp:431-468 | usage, invalid type, or removes the id read with atoi; replies removed or not removed |
| BotController.Bot.AddHostmask | BotController.cpp:470-504 | usage, invalid type, or adds nick and mask to the table; replies "Hostmask added." or an empty line |
| BotController.Bot.DoUserJoined | BotController.cpp:155-170 | +o for an authorized host; otherwise +b for a banned one; otherwise nothing |
| BotController.Bot.DoWhoisNicklist | BotController.cpp:506-515 | remembers the channel and sends one whois per nick of the list |
| BotController.Bot.DoWhoisReceivedCheckAuth | BotController.cpp:517-520 | treats the whois'd host as joining the remembered channel |
| BotController.Bot.OnNamesReply | BotController.cpp:569-578 | strips '+' and '@' from the names list, then runs doWhoisNicklist |
| BotController.NamesReplyNicksClean | BotController.cpp:569-578 | every nick asked about is non-empty and has no space, '+' or '@'; a list without status characters is split as it is |
| BotController.MakeThenCalc | BotController.cpp:77-195 | "mkcalc k =c" on a new keyword replies "Calc k added by <nick>", and "calc k" then replies "k = <trimmed c>" |
| BotController.ChangeThenVersion | BotController.cpp:77-130 | "chcalc k =c" replies "Calc k changed by <nick>", and "version -1 k" then reports who changed it and when, followed by "k v-1 = <trimmed c>" |
| BotController.MakeStep | BotController.cpp:341-376 | "mkcalc k =c" on a keyword with no revision appends version 0 with the trimmed text, author and time, and replies "Calc k added by <nick>" |
| BotController.ChangeStep | BotController.cpp:304-339 | "chcalc k =c" on an existing keyword appends the next version with the trimmed text and replies "Calc k changed by <nick>" |
| BotController.RemoveStep | BotController.cpp:279-302 | "rmcalc k" on an existing keyword deletes all its revisions and replies "Calc 'k' has been deleted." |
| BotController.CalcStep | BotController.cpp:172-195 | "calc k" changes nothing and replies with the newest text, or "not found" when k has no revision |
| BotController.VersionMinusOneStep | BotController.cpp:197-227 | "version -1 k" on an existing keyword replies with the newest revision's info line and "k v-1 = <text>" |
| BotController.RemoveThenRemake | BotController.cpp:279-376 | "rmcalc k" replies deleted; "calc k" then finds nothing; a new mkcalc restarts k's history at version 0 |
| BotController.RemoveReplyClaimsDeletion | BotController.cpp:279-302 | the deletion reply is sent exactly when there is no database, or when k existed and the delete completed; the store changes only in the latter case |
| BotController.VersionRepliesTwoLinesIffFound | BotController.cpp:211-225 | version sends two lines exactly when the revision exists, one otherwise |
| BotController.VersionNewest | BotController.cpp:197-227 | for an argument reading -1, the reply is the newest revision's info line and its text |
| BotController.AddedMaskMayCommand | BotController.cpp:470-504 | after add_hostmask … authorized, exactly the hosts that could command before, plus those the new mask matches, may command |
| BotController.AddThenView | BotController.cpp:378-504 | after add_hostmask for either table, view_hostmasks_for for that nick and table lists the new mask last, under its id |
| BotController.AddedMaskBans | BotController.cpp:470-504 | after add_hostmask … banned, no host gains or loses the right to command, exactly the hosts that were banned before plus those the new mask matches are banned, and such a host that may not command gets +b when it joins |
| BotController.VersionAloneReadsPastEnd | BotController.cpp:197-209 | "version" alone (in any case), from an authorized host, reaches doCalcVersion with one word, where `params[1]` does not exist; the model answers with the usage line |

## Left out

- The IRC session is not modelled: `start`, connecting, joining channels, the libircclient event callbacks other than the names-reply and whois branches, and `main.cpp`. Everything the bot would send is recorded as an `Action` instead.
- SQLite itself is not modelled. Each table is a sequence of rows, each query a function over it, and the outcome of a write's `sqlite3_step` is a parameter.
  - Failures of `sqlite3_prepare` and of read queries are not modelled, nor is BUSY on reads.
  - The store's handle is never released.
  - That `getVersionInfo` does not finalize its statement has no effect on the model.
- The `added` timestamp (`strftime(… 'now')`) is the parameter `now`.
- The hostmask ids SQLite assigns are modelled as one more than the largest id in the table, or 1 for an empty table.
- `HostmaskAuthorizer.ByNick`: the query `SELECT id, hostmask … WHERE nick = ?` has no `ORDER BY`. The model returns rows in insertion order, which is SQLite's rowid order for a plain table scan but is not guaranteed by SQL. So "the new mask is listed last" (`HostmaskAuthorizer.ByNickSnoc`, `HostmaskAuthorizer.ListingAfterAdd`, `BotController.AddThenView`) rests on that order.
- `LIKE` in the searches is modelled as a case-sensitive substring test, with no `%`/`_` wildcards in the term. SQLite's `LIKE` ignores ASCII case.
- `ORDER BY keyword` is modelled as byte-wise lexicographic order.
- `BotController.NickOf`: does not model the 32-byte (doUserJoined) or 256-byte buffer of `irc_target_get_nick`, so a longer nick is not cut short.
- `CalcDB.CalcStore.constructor`: requires the opened table to be contiguous, with every keyword's versions running 0, 1, 2, ... in insertion order. The source opens whatever `calc.db` it is given and checks nothing. A table edited outside the bot, with gaps or repeats in a keyword's versions, is not modelled. The model only shows that the bot's own writes keep the invariant (`CalcTable.AppendRevision`, `CalcTable.RemoveKeepsContiguous`).
- `Numerals.AtoiOfIntToString`: integers are unbounded, so the overflow of `int` in `atoi`/`itoa` and the width of the 32-byte `str_version` buffer are not modelled.
- `StringHelpers.LTrimmed`: whitespace is the ASCII set `std::isspace` uses in the "C" locale (space and '\t' to '\r').
- The response in/out parameters of the store's methods are taken to start empty, as every caller passes them.
- The WHOISUSER branch passes the whois reply's host field (`params[3]`) to doWhoisReceivedCheckAuth. The model takes that text as the host to check.
- `_last_chan` is one shared field. The interleaving of whois replies from two names replies in flight is not modelled, since the model handles one event at a time.
- `parseMessage` on a message with no words (`tokens.at(0)` throws) ends with the outcome `OutOfRange` and changes nothing.

## Findings

| source | as written | input that shows it | evidently intended | confidence | as-written member | corrected member |
|---|---|---|---|---|---|---|
| HostmaskAuthorizer.cpp:84 | the mask is bound with length `nick.size()`, so only its first \|nick\| characters are stored (or more bytes than the mask has are read) | add_hostmask bob \*!\*@ok authorized stores "\*!\*", which authorizes every host | bind the whole mask (`hostmask.size()`) | high, not executed | HostmaskAuthorizer.StoredMaskWidens | HostmaskAuthorizer.Authorizer.AddHostmask |
| BotController.cpp:203 | `atoi(params[1])` runs before the word count is checked | "version" alone from an authorized host (one word) reads past the end of `params` | read the version only when there are more than two words, so the usage line is sent | high, not executed | BotController.VersionAloneReadsPastEnd | BotController.Bot.DoCalcVersion |
