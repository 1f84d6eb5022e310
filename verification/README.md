# Planning-poker session engine, modelled in Dafny

This project models the server core of a planning-poker game: the `CardServer`
session (connected clients, admin list, round history, settings, card set), the
`Client` socket handlers and their reflective dispatch, the per-round vote
bookkeeping of `Round` and `Vote`, the plurality rule of `Utilities.Majority`,
the display order of `VoteComparer`, the comma-separated forms of `CardSet`, and
the command-line checks and discovery line of the server's `Program`.

The model is purely functional. A `CardServer.Session` value stands for the
server's mutable state. Every operation returns an `Outcome`, which is one of:

- `Done(next state, boolean result, messages sent, whether the delayed flip was scheduled)`;
- `Threw(fault)`, for the .NET exceptions the code can raise:
  - `SingleOrDefault` meeting two undecided rounds;
  - the comparer reading the first character of an empty vote value;
  - `MethodInfo.Invoke` with the wrong number of arguments;
  - the delayed flip dereferencing a missing round.

The `Round` and `Vote` classes (PokerServer/Data Objects/Round.cs and Vote.cs)
are modelled from their own code in `Rounds`. The table below cites the lines of
`CardServer` and `Client` that call them.

Handlers act for "the client at index `me`", because a `Client` object only
receives socket events while it is in `Clients`. The `Engine` module closes the
loop. It takes a sequence of events (connect, disconnect, message, a delayed flip
falling due), applies them one at a time, and proves that every reachable
session keeps the invariant `SessionInvariant.Valid`:

- at most one undecided round;
- every vote carries a card, and no (id, name) pair votes twice in a round;
- decided rounds hold no votes;
- client ids are distinct;
- the card set has at least two non-blank cards;
- each client's `IsAdmin` flag agrees with the admin list.

Modules and files:

| file | module | models |
|---|---|---|
| wrappers.dfy | Wrappers | `Option` and `Result` |
| strings.dfy | Strings | `Char.IsWhiteSpace`, `Trim`, `Split`, `Join`, `ToUpper`, regex anchors |
| numbers.dfy | Numbers | `Int32.TryParse` (NumberStyles.Integer) and `Int32.ToString` |
| cardset.dfy | CardSets | `CardSet` |
| rounds.dfy | Rounds | `Round`, `Vote` |
| sorting.dfy | Sorting | a key sort standing in for `List.Sort` |
| vote_comparer.dfy | VoteOrder | `VoteComparer` |
| majority.dfy | Majority | `Utilities.Majority` |
| cardserver.dfy | CardServer | `CardServer`, `ClientInfo` |
| invariant.dfy | SessionInvariant | the session invariant and the server operations that keep it |
| client.dfy | Handlers | the `Client` socket handlers |
| dispatch.dfy | Dispatch | `Client.ReceiveMessage` |
| handler_invariant.dfy | HandlerInvariant | the handlers and the dispatcher keep the invariant |
| engine.dfy | Engine | event sequences over a running server |
| startup.dfy | Startup | `Program.Main` argument checks, the pipe reply, the server manager's parse |

Where the code and its own doc comments disagree, the model follows the code.
The comment on `CheckVoteCount` (PokerServer/CardServer.cs:346) says it waits for
"everyone who is logged in, and is playing", but:

- Completion matches clients to votes by id only. A spectator who voted before
  switching sides still counts. `SessionInvariant.SpectatorVoteCompletesEarly`
  shows voting "complete" while a player has not voted.
- Completion is checked after every vote that passes the guards, including a
  refused duplicate vote.
- The undo lock compares the vote count with all connected clients, spectators
  included.
- The sort is `List.Sort`, which is not stable. Only a permutation in comparer
  order is promised.
- The delayed flip does not re-check completion when it fires. It flips whatever
  round is active a second later, and it throws when there is none (see
  Findings). The engine runs this thread as written. The corrected
  `CardServer.DelayedFlip` adds only the missing null check. It still flips a
  restarted round.
- `SetCards` reports an active round but does not return (see Findings). The
  dispatcher runs the handler as written. The corrected `Handlers.SetCards` is
  the proposed fix.

## Model

| member | source | states |
|---|---|---|
| CardServer.Init | PokerServer/CardServer.cs:57-64 | a new server has no clients, admins, rounds or settings, keeps the given password, and starts from the default card set |
| CardServer.ActiveRound | PokerServer/CardServer.cs:43-51 | no round when none is undecided; the exception exactly when two are undecided; otherwise the index of the one undecided round, all others decided |
| CardServer.RemoveFirst | PokerServer/CardServer.cs:89-92 | List.Remove drops exactly one occurrence of the element when present, and nothing otherwise |
| CardServer.Others | PokerServer/CardServer.cs:137-147 | the recipients are exactly the connected clients other than the origin |
| CardServer.BroadcastMessage | PokerServer/CardServer.cs:137-147 | a client receives the message iff it is connected and is not the origin; a null origin reaches every client in order |
| CardServer.BroadcastError | PokerServer/CardServer.cs:156-166 | as BroadcastMessage, except that sendBack also reaches the origin |
| CardServer.UpdateSetting | PokerServer/CardServer.cs:190-200 | both branches store the value under the name, so it reads back; other keys keep their values; only the settings change, and the key set gains the name |
| CardServer.GetSetting | PokerServer/CardServer.cs:208-218 | the stored value when the key exists, the default otherwise |
| CardServer.SettingsActAsMap | PokerServer/CardServer.cs:190-218 | reading a setting back gives what was written; other keys read as before |
| CardServer.CheckVoteCount | PokerServer/CardServer.cs:348-359 | the undo lock is broadcast and the flip scheduled exactly when a round is active and the id-matched voter count equals the non-spectator count |
| CardServer.RemoveClient | PokerServer/CardServer.cs:81-109 | the client leaves the list and one admin entry; its (id, name) votes leave the active round; when only spectators remain the round is discarded and the game state and a RoundStopped error go to everyone; the vote count is re-checked afterwards, so the flip is scheduled, with the undo lock sent last, exactly when the remaining players have all voted; deck, settings and password are untouched |
| CardServer.VotingComplete | PokerServer/CardServer.cs:351 | voting can only be complete while a round is active (the id-matched count against players is stated by SessionInvariant.CompleteIffPlayersVoted) |
| CardServer.RegisterAdmin | PokerServer/CardServer.cs:118-129 | succeeds iff the password matches, then appends the client to the admin list; otherwise nothing changes |
| CardServer.BeginNewRound | PokerServer/CardServer.cs:253-266 | refused while a round is active; otherwise appends a fresh round, which becomes the only active one |
| CardServer.RegisterVote | PokerServer/CardServer.cs:274-299 | accepted iff a round is active and face down, the card is in the deck, the caller is a player, and their (id, name) has not voted; accepted appends the vote; the flip is scheduled iff the guards pass and voting is complete |
| CardServer.UndoVote | PokerServer/CardServer.cs:306-325 | succeeds iff the caller has a vote in the active round and there are fewer votes than connected clients, then removes that vote; never schedules a flip |
| CardServer.SortCards | PokerServer/CardServer.cs:331-343 | only a flipped active round is sorted; the result is a permutation of its votes in comparer order; an empty value among two or more votes throws |
| CardServer.DiscardActiveRound | PokerServer/CardServer.cs:364-371 | removes the active round, after which none is active; without one nothing changes |
| CardServer.AutoSortOnFlip | PokerServer/CardServer.cs:376-382 | sorts only when the AutoSort setting is exactly "1"; otherwise nothing changes |
| CardServer.AutoSortKeepsShape | PokerServer/CardServer.cs:376-382 | sorting on flip changes nothing but the order of votes: every round keeps its title, flip state, decision and multiset of votes |
| CardServer.FlipRound | PokerServer/CardServer.cs:357 | the round is turned face up and keeps its votes as a multiset; other rounds change at most in vote order; without AutoSort nothing else changes |
| CardServer.FlipAndBroadcast | PokerServer/CardServer.cs:357 | the flip, followed by the game state sent to every client |
| CardServer.DelayedFlipAsWritten | PokerServer/CardServer.cs:357 | the timer thread as written: with no active round it throws a null dereference |
| CardServer.DelayedFlip | PokerServer/CardServer.cs:357 | the timer thread with a null check: with no active round nothing happens; otherwise as written |
| Rounds.NewRound | PokerServer/CardServer.cs:260-261 | a new round is active, face down, without votes, and carries its title |
| Rounds.RegisterVote | PokerServer/CardServer.cs:289 | accepted iff no vote with the same (id, name) exists; accepting appends, refusing changes nothing |
| Rounds.VotesNotFrom | PokerServer/CardServer.cs:86 | keeps exactly the votes whose (id, name) differ from the client's; shorter iff the client had voted |
| Rounds.UndoVote | PokerServer/CardServer.cs:316 | afterwards the client has no vote in the round and nothing else changes |
| Rounds.SecondVoteRejected | PokerServer/CardServer.cs:289 | a second vote from the same (id, name) is refused and leaves the round as it was |
| Rounds.RegisterKeepsVotersDistinct | PokerServer/CardServer.cs:289 | registering keeps every (id, name) pair at most once in a round |
| Rounds.UndoAfterRegister | PokerServer/CardServer.cs:316 | undoing an accepted vote restores the round exactly |
| Rounds.DecideVote | PokerServer/Client.cs:292 | records the decision and drops the votes; the round stays active iff the decision is blank |
| Rounds.FlipCards | PokerServer/Client.cs:346 | turns the round face up and keeps its votes; whether it is active does not change |
| Rounds.Restart | PokerServer/Client.cs:330 | the round becomes a fresh round with the same title: active, face down, no votes |
| Rounds.DecideEndsRound | PokerServer/Client.cs:314 | a non-blank decision makes the round inactive and clears its votes |
| Rounds.RestartReopens | PokerServer/Client.cs:330 | a restarted round is active, face down, without votes, with its title kept |
| Sorting.SortBy | PokerServer/CardServer.cs:335 | the result is a permutation of the input, ordered by the key |
| VoteOrder.FirstCodeUnit | PokerServer/Utilities/VoteComparer.cs:52-53 | the numeric value of the first UTF-16 code unit: the code point inside the BMP, and a high surrogate (0xD800 to 0xDBFF) above it |
| VoteOrder.SortKey | PokerServer/Utilities/VoteComparer.cs:44-53 | keys below 1000 are exactly the parsed Int32 value; an unparsable value gets a key of 1000 or more; the exact key is stated by NumberKey, NegativeKey, ZeroKey, LeadingSymbolKey and SymbolKey, while padded, '+'-signed or leading-zero forms get only these bounds |
| VoteOrder.NulPaddedNumberKey | PokerServer/Utilities/VoteComparer.cs:48-53 | a positive number card with NULs after it keys to the number, as int.TryParse accepts the NULs |
| VoteOrder.NumberKey | PokerServer/Utilities/VoteComparer.cs:48-53 | any written positive Int32, of any length, keys to its value, so "13", "20" and "100" sort after "8" |
| VoteOrder.NegativeKey | PokerServer/Utilities/VoteComparer.cs:48-53 | a minus sign before any written positive Int32 magnitude, down to -2147483648, keys to the negative value |
| VoteOrder.LeadingSymbolKey | PokerServer/Utilities/VoteComparer.cs:48-53 | a value of any length whose first character is not a digit, a sign or white space keys by that character's code plus 1000 |
| VoteOrder.ZeroKey | PokerServer/Utilities/VoteComparer.cs:52-53 | "0" parses to zero and so keys by its character, '0' + 1000 = 1048 |
| VoteOrder.Compare | PokerServer/Utilities/VoteComparer.cs:42-68 | -1, 0 or 1, agreeing in sign with the difference of the two keys |
| VoteOrder.CompareAntisymmetric | PokerServer/Utilities/VoteComparer.cs:56-67 | swapping the arguments negates the result |
| VoteOrder.CompareTransitive | PokerServer/Utilities/VoteComparer.cs:56-67 | the order is transitive, so List.Sort's contract on comparers holds |
| VoteOrder.SortVotes | PokerServer/CardServer.cs:335 | the sorted votes are a permutation of the input with every pair in comparer order |
| VoteOrder.SortKeepsVotersDistinct | PokerServer/CardServer.cs:335 | sorting keeps every (id, name) pair unique |
| VoteOrder.DigitKey | PokerServer/Utilities/VoteComparer.cs:48-53 | a single card "1" to "9" sorts by its value |
| VoteOrder.SymbolKey | PokerServer/Utilities/VoteComparer.cs:48-53 | a single character that cannot start a number sorts by its code plus 1000 |
| VoteOrder.DigitsInOrder | PokerServer/Utilities/VoteComparer.cs:42-68 | a smaller single-digit card sorts before a larger one |
| VoteOrder.DigitBeforeSymbol | PokerServer/Utilities/VoteComparer.cs:42-68 | a single-digit card sorts before a one-character symbol such as "?" or "½" |
| VoteOrder.SameValueComparesEqual | PokerServer/Utilities/VoteComparer.cs:42-68 | equal values compare equal |
| Majority.Majority | PokerServer/Utilities/Utilities.cs:17-34 | a non-null result is a qualifying token that occurs among the votes (its exact value is stated by MajorityIsPlurality) |
| Majority.Counted | PokerServer/Utilities/Utilities.cs:20 | keeps each qualifying non-null token as often as it occurs in the input, and nothing else |
| Majority.MajorityIsPlurality | PokerServer/Utilities/Utilities.cs:17-34 | the result is v iff v is a qualifying token (-?digits or "½") that strictly outnumbers every other qualifying token |
| Majority.MajorityNoneIffNoPlurality | PokerServer/Utilities/Utilities.cs:24-32 | null exactly when there is no qualifying token or the top count is tied |
| Majority.PluralityUnique | PokerServer/Utilities/Utilities.cs:29-32 | there is at most one plurality token |
| Majority.MajorityPermutationInvariant | PokerServer/Utilities/Utilities.cs:17-34 | the result does not depend on the order of the votes |
| Majority.MajorityComesFromInput | PokerServer/Utilities/Utilities.cs:20 | a winner is one of the input values and qualifies |
| Majority.ClearWinnerExample | PokerServer/Utilities/Utilities.cs:17-34 | ["3","3","5"] gives "3" |
| Majority.TieExample | PokerServer/Utilities/Utilities.cs:29-32 | ["3","3","5","5"] gives null |
| Majority.NonNumericExample | PokerServer/Utilities/Utilities.cs:20 | ["?","?"] gives null, since "?" is not counted |
| Majority.EmptyExample | PokerServer/Utilities/Utilities.cs:24-27 | an empty list gives null |
| CardSets.DefaultDeckShape | PokerServer/CardSet.cs:18-28 | the default set has twelve distinct cards from "½" to "?", none blank, padded or holding a comma |
| CardSets.ToString | PokerServer/CardSet.cs:47-50 | splitting the comma-joined list on ',' gives the cards back when none holds a comma |
| CardSets.ToHumanString | PokerServer/CardSet.cs:55-58 | splitting the ", "-joined list on ',' gives the first card, then each later card with one leading space |
| CardSets.HumanStringAddsSpaces | PokerServer/CardSet.cs:47-58 | the human form is longer by exactly one space per separator |
| Strings.Trim | PokerServer/Client.cs:403 | the result has no white space at either end, and is empty iff the input is blank |
| Strings.Split | PokerServer/Client.cs:398 | one more piece than separators, none holding the separator |
| Strings.SplitJoin | PokerServer/CardSet.cs:47-50 | splitting a joined list of separator-free pieces gives them back |
| Strings.ToUpper | PokerServer/Client.cs:105 | upper-cases character by character and keeps the length |
| Numbers.TryParseInt32 | PokerServer/Program.cs:55 | a parse succeeds only within the Int32 range and only when the text holds a digit |
| Numbers.NumberTextFromInput | PokerServer/Program.cs:55 | the parser reads only characters of its input once trailing NULs and surrounding white space are dropped |
| Numbers.ParseIgnoresTrailingNuls | PokerServer/Utilities/VoteComparer.cs:48-49 | NUL characters after the text never change what int.TryParse returns |
| Numbers.NulsAfterNumber | PokerServer/Utilities/VoteComparer.cs:48-49 | a written number followed by any run of NULs parses to the number |
| Numbers.NulBeforeWhiteSpaceRejected | PokerServer/Utilities/VoteComparer.cs:48-49 | NULs are accepted only at the very end: "8\0 " does not parse |
| Numbers.ParseWritten | PokerServer/Program.cs:55 | parsing a written non-negative Int32 gives it back |
| Numbers.NatToString | PokerServer/Program.cs:93 | the shortest decimal form: its digits denote the number, with no leading zero |
| Numbers.ParseNatToString | PokerServerManager/ServerManager.cs:46 | parsing a written port, followed by any white space, gives the port back |
| Handlers.Reply | PokerServer/Client.cs:230-237 | the server's verdict is passed on, followed by a confirmation to the caller on success and an error on failure |
| Handlers.Disconnected | PokerServer/Client.cs:72-79 | the server removes the client, then the client list and game state go to everyone |
| Handlers.RegisterClient | PokerServer/Client.cs:166-180 | sets the caller's name, sets the spectator flag on "1" and never clears it, changes nothing else, and confirms first |
| Handlers.SwapSpectator | PokerServer/Client.cs:186-202 | toggles only the caller's spectator flag; discards the active round exactly when every client is then a spectator |
| Handlers.SwapSpectatorTwice | PokerServer/Client.cs:186-202 | swapping twice restores the client list |
| Handlers.RegisterAdmin | PokerServer/Client.cs:209-221 | with the right password the caller is both on the admin list and flagged as admin; otherwise only an error is sent |
| Handlers.RegisterVote | PokerServer/Client.cs:228-238 | the server's vote outcome, answered to the caller by a confirmation iff it was accepted |
| Handlers.UndoVote | PokerServer/Client.cs:244-254 | the server's undo outcome, answered to the caller by a confirmation iff it succeeded |
| Handlers.NewRoundRequest | PokerServer/Client.cs:265-271 | the server's new-round outcome; only a refusal is reported to the caller |
| Handlers.Ballots | PokerServer/Client.cs:284 | the vote values, one per vote, in order |
| Handlers.QualifiedNotBlank | PokerServer/Client.cs:284-292 | a token Majority can return is never blank, so deciding on it closes the round |
| Handlers.DecideActive | PokerServer/Client.cs:292 | deciding the active round on a non-blank card leaves no active round |
| Handlers.TakeMajority | PokerServer/Client.cs:277-294 | succeeds iff a round is active and its votes have a plurality; then the round is decided on that plurality and its votes dropped; otherwise only an error |
| Handlers.FinalizeVote | PokerServer/Client.cs:301-316 | succeeds iff a round is active and the card is in the deck; then decides on that card; otherwise only an error |
| Handlers.RestartRound | PokerServer/Client.cs:322-332 | with an active round, its votes, flip and decision are cleared; otherwise only an error |
| Handlers.FlipCards | PokerServer/Client.cs:338-348 | succeeds iff the active round is face down, and then leaves it face up; otherwise only an error |
| Handlers.DiscardRound | PokerServer/Client.cs:354-357 | with an active round, exactly that round is removed and the game state goes to everyone; without one nothing changes and nothing is sent; afterwards no round is active and nothing but the rounds changed |
| Handlers.SortCards | PokerServer/Client.cs:363-373 | the server's sort outcome, answered to the caller by a confirmation iff it sorted |
| Handlers.GetCardList | PokerServer/Client.cs:379-382 | one message to the caller only, whose text parses back to the deck |
| Handlers.Clean | PokerServer/Client.cs:399-405 | at most one card per piece, none blank or padded |
| Handlers.CleanCount | PokerServer/Client.cs:399-405 | there are exactly as many cards as non-blank pieces |
| Handlers.CleanKeepsPiece | PokerServer/Client.cs:399-405 | each non-blank piece survives trimmed, at the position given by the number of non-blank pieces before it, so order is kept |
| Handlers.CleanCardFromPiece | PokerServer/Client.cs:399-405 | every card is the trimmed text of some non-blank piece |
| Handlers.CleanKeepsOut | PokerServer/Client.cs:399-405 | cleaning adds no characters, so a comma-free split stays comma-free |
| Handlers.ParseCardList | PokerServer/Client.cs:396-405 | every card is non-blank and comma-free; at most one card per comma plus one |
| Handlers.CardListRoundTrip | PokerServer/Client.cs:379-405 | parsing the list GetCardList sends gives the deck back, for decks of plain cards |
| Handlers.SetCardsAsWritten | PokerServer/Client.cs:389-415 | the code as written: an active round draws an error, yet two or more usable pieces still replace the card set |
| Handlers.SetCards | PokerServer/Client.cs:389-415 | with a round active, one error and no change; otherwise two or more usable pieces replace the card set and fewer change nothing |
| Handlers.SetCardsDuringRound | PokerServer/Client.cs:391-394 | during a round the code as written replaces a different card set, while the corrected handler refuses |
| Handlers.SetSetting | PokerServer/Client.cs:423-426 | the key reads back as the value, other keys read as before, nothing is sent |
| Dispatch.TierOf | PokerServer/Client.cs:165-423 | the attribute table: RegisterClient, SwapSpectator, RegisterAdmin, RegisterVote and UndoVote carry WebSocketCall, the ten others WebSocketSecurityCall; Route and AdminOnlyGuarded state what each tier allows |
| Dispatch.Arity | PokerServer/Client.cs:165-423 | the number of string parameters of each handler; Invoke demands exactly that many and Route throws on any other count |
| Dispatch.HandlerIndex | PokerServer/Client.cs:165-423 | the public-method table Methods lists every socket handler |
| Dispatch.HandlerReachable | PokerServer/Client.cs:105-123 | a request naming a handler's method reaches that handler |
| Dispatch.FindIn | PokerServer/Client.cs:105 | a method is found iff one has the requested name ignoring case, and the one found matches |
| Dispatch.NamesDistinct | PokerServer/Client.cs:105 | no two public methods share an upper-cased name, so SingleOrDefault never throws |
| Dispatch.Find | PokerServer/Client.cs:105 | the match, when there is one, is the only public method with that name ignoring case |
| Dispatch.UpperIdempotent | PokerServer/Client.cs:105 | upper-casing twice is upper-casing once |
| Dispatch.Invoke | PokerServer/Client.cs:111-122 | the handler runs with the request's arguments (SetCards as written); it can only throw the active-round ambiguity or the empty-vote comparison, and never changes the admin password |
| Dispatch.Receive | PokerServer/Client.cs:85-128 | a non-JSON message draws a ReceiveMessage error; an unknown or unmarked method is dropped without reply |
| Dispatch.Route | PokerServer/Client.cs:106-127 | an unmarked or unknown method does nothing; an admin-only handler refuses a caller off the admin list with SecurityFailure; a permitted call with the wrong argument count throws, and nothing else can make the call itself throw |
| Dispatch.AdminOnlyGuarded | PokerServer/Client.cs:106-118 | a non-admin calling an admin-only handler gets a SecurityFailure error and nothing changes |
| Dispatch.PermittedCallRuns | PokerServer/Client.cs:106-123 | a permitted call with the right number of arguments runs exactly its handler |
| Dispatch.FindIgnoresCase | PokerServer/Client.cs:105 | looking up the upper-cased name finds the same method |
| Dispatch.CaseInsensitive | PokerServer/Client.cs:105 | a request behaves the same whatever the case of its method name |
| Dispatch.FindsMatching | PokerServer/Client.cs:105 | any table entry whose name matches ignoring case is the one found |
| Dispatch.LowerCaseReachesHandler | PokerServer/Client.cs:105 | "registervote" reaches RegisterVote |
| Dispatch.UnmarkedReachesNothing | PokerServer/Client.cs:119-127 | "dispose" names a public method without a socket attribute and reaches nothing |
| SessionInvariant.InitValid | PokerServer/CardServer.cs:57-64 | a new server satisfies the invariant |
| SessionInvariant.DeckCardsNonEmpty | PokerServer/Utilities/VoteComparer.cs:52-53 | every card of a valid deck has a first character for the comparer to read |
| SessionInvariant.ReplaceRound | PokerServer/CardServer.cs:39-51 | replacing a round by a sound one that is active only if the old one was keeps the round history sound |
| SessionInvariant.KeepSomeVotes | PokerServer/CardServer.cs:86 | keeping a distinct-voter subset of an active round's votes keeps it sound |
| SessionInvariant.RemoveRound | PokerServer/CardServer.cs:364-371 | removing any round keeps the history sound |
| SessionInvariant.RemoveClientKeepsRegistry | PokerServer/CardServer.cs:81-97 | removing a client keeps ids distinct and admin flags in agreement |
| SessionInvariant.RemoveClientKeepsRounds | PokerServer/CardServer.cs:81-109 | removing a client keeps the round history sound |
| SessionInvariant.RemoveClientKeepsValid | PokerServer/CardServer.cs:81-109 | removing a client from a valid session completes and keeps it valid |
| SessionInvariant.BeginNewRoundKeepsValid | PokerServer/CardServer.cs:253-266 | opening a round on a valid session completes and keeps it valid |
| SessionInvariant.RegisterVoteKeepsValid | PokerServer/CardServer.cs:274-299 | voting on a valid session completes and keeps it valid |
| SessionInvariant.UndoVoteKeepsValid | PokerServer/CardServer.cs:306-325 | undoing on a valid session completes and keeps it valid |
| SessionInvariant.SortCardsKeepsValid | PokerServer/CardServer.cs:331-343 | sorting a valid session never throws and keeps it valid |
| SessionInvariant.DiscardActiveRoundKeepsValid | PokerServer/CardServer.cs:364-371 | discarding on a valid session keeps it valid |
| SessionInvariant.FlipRoundKeepsValid | PokerServer/Client.cs:346 | flipping any round of a valid session, with auto-sort, completes and keeps it valid |
| SessionInvariant.DelayedFlipKeepsValid | PokerServer/CardServer.cs:357 | the corrected delayed flip never throws on a valid session and keeps it valid |
| SessionInvariant.DelayedFlipAsWrittenKeepsValid | PokerServer/CardServer.cs:357 | on a valid session the thread as written throws exactly when no round is active, and then only the null dereference; otherwise it keeps the session valid |
| SessionInvariant.DelayedFlipAfterDiscardThrows | PokerServer/CardServer.cs:357 | a valid, fully voted session schedules the flip; if the round is discarded first, the thread as written throws and the corrected one does nothing |
| SessionInvariant.VotingCanComplete | PokerServer/CardServer.cs:351 | a valid one-player session with that player's vote is complete |
| SessionInvariant.DiscardThenBegin | PokerServer/CardServer.cs:253-266 | after a discard a new round can always be opened |
| SessionInvariant.CountStronger | PokerServer/CardServer.cs:351 | counting with a weaker predicate never counts fewer, and counts the same iff the two agree on the list |
| SessionInvariant.CompleteIffPlayersVoted | PokerServer/CardServer.cs:351 | when no spectator holds a vote, completion means every player has voted |
| SessionInvariant.SpectatorVoteCompletesEarly | PokerServer/CardServer.cs:351 | a spectator's leftover vote makes a valid session "complete" while the only player has not voted |
| HandlerInvariant.UpdateClientKeepsRegistry | PokerServer/Client.cs:166-202 | changing a client's name or spectator flag keeps ids distinct and admin flags in agreement |
| HandlerInvariant.CloseOrResetKeepsRounds | PokerServer/Client.cs:292-330 | emptying the votes of the active round, deciding or restarting it, keeps the history sound |
| HandlerInvariant.DisconnectedKeepsValid | PokerServer/Client.cs:72-79 | a disconnect on a valid session completes and keeps it valid |
| HandlerInvariant.SwapSpectatorKeepsValid | PokerServer/Client.cs:186-202 | a spectator swap on a valid session completes and keeps it valid |
| HandlerInvariant.RegisterAdminKeepsValid | PokerServer/Client.cs:209-221 | admin login keeps a valid session valid |
| HandlerInvariant.TakeMajorityKeepsValid | PokerServer/Client.cs:277-294 | TakeMajority on a valid session completes and keeps it valid |
| HandlerInvariant.FinalizeVoteKeepsValid | PokerServer/Client.cs:301-316 | FinalizeVote on a valid session completes and keeps it valid |
| HandlerInvariant.RestartRoundKeepsValid | PokerServer/Client.cs:322-332 | RestartRound on a valid session completes and keeps it valid |
| HandlerInvariant.FlipCardsKeepsValid | PokerServer/Client.cs:338-348 | FlipCards on a valid session completes and keeps it valid |
| HandlerInvariant.SetCardsKeepsValid | PokerServer/Client.cs:389-415 | the corrected SetCards on a valid session completes and keeps the deck at two or more non-blank cards |
| HandlerInvariant.SetCardsAsWrittenKeepsValid | PokerServer/Client.cs:389-415 | SetCards as written, which may swap the deck during a round, also completes on a valid session and keeps it valid |
| HandlerInvariant.InvokeKeepsValid | PokerServer/Client.cs:111-122 | every handler called with the right number of arguments on a valid session completes and keeps it valid |
| HandlerInvariant.ReceiveKeepsValid | PokerServer/Client.cs:85-128 | every message either keeps a valid session valid or throws an argument-count mismatch for a known handler |
| Engine.Start | PokerServer/Program.cs:75 | the server starts from the initial session with no flip pending |
| Engine.NewClient | PokerServer/CardServer.cs:72-75 | a connection appends an unnamed, non-admin player and changes nothing else |
| Engine.Handle | PokerServer/CardServer.cs:357 | a connection appends a client; a flip falling due with no active round throws, as the thread as written does, and otherwise flips the active round and broadcasts; a message for an unknown method changes nothing |
| Engine.Apply | PokerServer/CardServer.cs:348-359 | an event crashes iff its handler throws, including the flip thread's null dereference; the pending-flip count goes down on a flip and up when one is scheduled |
| Engine.StartValid | PokerServer/Program.cs:75 | the starting session is valid |
| Engine.ConnectKeepsValid | PokerServer/Client.cs:41-55 | a connection with a fresh id keeps a valid session valid |
| Engine.StepKeepsValid | PokerServer/CardServer.cs:357 | any enabled event keeps a valid session valid, or crashes in one of two ways: an argument-count mismatch, or a flip falling due when no round is active; a flip crashes exactly then |
| Engine.DiscardBeforeFlipCrashes | PokerServer/CardServer.cs:357 | from a valid session whose vote just completed, an admin's DiscardActiveRound succeeds and the pending flip then crashes the server |
| Engine.Run | PokerServer/Client.cs:41-55 | an empty sequence leaves the server as it is; each event adds at most one pending flip |
| Engine.RunConcat | PokerServer/Client.cs:41-55 | running two event sequences one after the other equals running their concatenation |
| Engine.RunKeepsValid | PokerServer/CardServer.cs:39-51 | with the handlers and the flip thread as written, every event sequence that does not crash keeps a valid session valid |
| Engine.ReachableHasOneActiveRound | PokerServer/CardServer.cs:39-51 | from startup, with the code as written, ActiveRound never meets two undecided rounds |
| Startup.ValidateArgs | PokerServer/Program.cs:49-69 | accepted iff three arguments, an Int32 port in [1000, 65535] and a name of letters, digits, '_', '-' and '.'; the port then fits 16 bits |
| Startup.ValidNameHasNoColon | PokerServer/Program.cs:63 | an accepted name holds no colon or space |
| Startup.SpaceOrColonRejected | PokerServer/Program.cs:63-66 | a name with a space or a colon is rejected |
| Startup.PortTextHasNoColon | PokerServer/Program.cs:93 | the port text and line ending hold no colon |
| Startup.PortChunkParses | PokerServerManager/ServerManager.cs:46 | int.Parse of the second chunk gives the port |
| Startup.DiscoveryLine | PokerServer/Program.cs:93 | the pipe reply starts with the server name and a colon and ends in CR LF |
| Startup.ManagerCommandLine | PokerServerManager/ServerManager.cs:67 | the command line is name, port and password joined by single spaces |
| Startup.DiscoveryLineParses | PokerServerManager/ServerManager.cs:43-46 | splitting the pipe reply on ':' gives exactly the name and the port chunk, which parses to the port |
| Startup.ManagerArgumentsAccepted | PokerServerManager/ServerManager.cs:67 | the manager's space-joined command line splits back into (name, port, password) and passes the server's checks, when the name is valid, the port in range and the password one non-empty word (Program.cs:43) |
| Startup.ManagerPasswordMustBeOneWord | PokerServer/Program.cs:49-51 | an empty password or one with a space never reaches the server as given: the argument count is wrong or the password arrives changed |
| CardSets.ApplyNewCards | PokerServer/CardSet.cs:64-67 | the given list becomes the deck unchanged; no check is made here, so the two-card rule and blank filtering belong to the caller (Handlers.SetCardsAsWritten) |

## Left out

- The socket transport, JSON encoding and decoding, and the `GetRoundState` payload. Messages are modelled as a command name, an error source, or the card-list text.
- A JSON request whose method name or arguments are null. `Receive` takes a method name and a list of string arguments. A message that does not deserialize is `NotJson`.
- The logger, console output under DEBUG, the ASP.NET pages, and the web client.
- The named-pipe I/O and the process lookup in the server manager. Only the pipe reply's text and its parse are modelled.
- Threads and timing. The one-second flip thread is a `FlipDue` event that the engine may deliver at any later point. Concurrent handlers are not modelled; events are applied one at a time.
- The command line the server manager builds is split on single spaces. Quotes and tabs, which the Windows argument parser also treats specially, are not modelled.
- Engine.Run: stops at the first exception. The source's process would keep running other connections after a handler throws.
- Strings.UpperChar: upper-cases ASCII letters and the two non-ASCII characters that map to ASCII ('ı' and 'ſ'). Other characters are left unchanged, because the full culture-dependent Unicode table is outside the model.
- Majority.Qualifies: `\d` is read as the ASCII digits only. .NET's `\d` also matches other Unicode decimal digits.
- Numbers.TryParseInt32: culture-specific sign symbols are not modelled: only '+' and '-' are signs, as under the invariant culture. The accepted form is NumberStyles.Integer as the .NET parser reads it: white space (U+0009 to U+000D and space), a sign, ASCII digits, white space, then any run of NUL characters.
- The `Connected` handler (an empty hook) and `Dispose`. Neither touches the session.
- `SendMessage` and `SendError` as callable socket methods. They are public but carry no socket attribute, so dispatch never reaches them (`Dispatch.UnmarkedReachesNothing`).
- The admin list holds client ids, not client references. Ids are distinct while connected, so the two agree.
- The card set, a process-wide singleton in the source, is a field of the session.

## Findings

| source | as written | input that shows it | evidently intended | confidence | as-written member | corrected member |
|---|---|---|---|---|---|---|
| PokerServer/CardServer.cs:357 | the flip thread calls `ActiveRound.FlipCards()` a second after completion, without checking that a round is still active | every player votes, then an admin sends DiscardActiveRound (or TakeMajority, FinalizeVote) within the second: ActiveRound is null and the thread throws | the thread does nothing when no round is active | high; not executed | CardServer.DelayedFlipAsWritten (shown by SessionInvariant.DelayedFlipAfterDiscardThrows; run by Engine.Handle, crash reached in Engine.DiscardBeforeFlipCrashes) | CardServer.DelayedFlip (proved by SessionInvariant.DelayedFlipKeepsValid) |
| PokerServer/Client.cs:391-394 | `SetCards` sends "cannot modify card settings while a round is active" but has no `return` | a round is open and an admin sends SetCards("1,2,3"): the error is sent, then the card set is replaced and SetCards is confirmed | refuse and change nothing while a round is active | high; not executed | Handlers.SetCardsAsWritten (shown by Handlers.SetCardsDuringRound; run by Dispatch.Invoke) | Handlers.SetCards (proved by HandlerInvariant.SetCardsKeepsValid) |
