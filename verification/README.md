# Skivvy: a verified model of its stores, flood controller and parsers

Skivvy is an IRC bot written in C++. This project models the parts of it whose correctness is not plain from
reading one function, and proves with Dafny what those parts promise.

| files | what they model |
|---|---|
| `Text`, `HexNumbers`, `CharStream` | character classes and searches, hexadecimal numbers, and a character stream with a buffer, a position, eofbit and failbit |
| `Escapes`, `Objects`, `Containers` | the escaping of delimiters, the reader of balanced brace groups, and the text format of containers, pairs and maps of strings |
| `KeyOrder`, `StoreMap`, `StoreFold`, `StoreFile` | the order of keys, the `std::map` from keys to lists, filling it from pairs, and the file of a store |
| `BackupStore`, `StoreRuns`, `CaseSwitch`, `SwitchRuns` | the store that keeps a map in memory and in a file, its refinement of a plain map over whole runs, and the case-insensitivity switch, alone and in runs |
| `FloodController`, `FloodRuns`, `FloodIdle`, `FloodClears` | the round-robin dispatcher of per-channel queues, its conservation and fairness over whole runs, where it stands after idle rounds, and waiting while other channels are cleared |
| `MessageParams`, `MessageGrammar`, `Message`, `MessageLines` | the IRC message parser, the grammar of section 2.3.1 of RFC 2812, and the trip of a message over a stream |
| `Chunked`, `Tokens`, `Ranking` | the decoder of section 4.1 of RFC 7230, the quoted-token reader, and the ranking of the statistics table |

Classes and methods follow the code statement by statement where it changes things step by step: streams are
read through a class whose operations set eofbit and failbit as the C++ standard says, the store and the flood
controller are classes with the fields of the source. The contract of such a method ties it to a function of
the old state, and the theorems are about those functions: over every input, every file and every run.

Main results:

- **Store.** Opened on any file, a `BackupStore` answers every run of clean operations as a plain map from keys
  to lists does; without explicit reloads this holds for any keys and values (`CleanRunsRefine`,
  `UnreloadedRunsRefine`). After any run of any operations a reload is harmless if and only if all that is held
  fits the lines of a file (`RunReloadIff`), and the load of an empty memory that starts every operation never
  changes anything (`LoadingIsIdle`). Any file is a fixed point after one load and save (`FileNormal`).
- **Case switch.** After a save, switching in memory equals loading the file under the new order if and only
  if the file can hold the store (`SwitchIff`); lists are merged in old key order and no value is lost
  (`SwitchMerges`); switching on and off again is harmless if and only if no two keys with values differ in case
  alone (`SwitchBackIff`). After any clean run in which the switch is one of the operations, memory answers as
  the file would if and only if the switch is on, or memory was written or loaded with it off since it was last
  on, or the file has no two keys that differ in case alone (`SwitchedRunsAgree`).
- **Flood controller.** Nothing sent is lost, doubled or reordered; the dispatcher runs exactly one function
  whenever one is queued; the k-th queued function of a channel runs within k rounds of as many ticks as there
  are channels at the end, and no channel is served twice before a waiting one. Clears of other channels can
  make the dispatcher pass over a waiting one, but no more often than there were channels before it, and each
  time costs one more round (`KthServedDespiteClears`; `ClearsDelay` is a run in which it does).
- **Parsers and printers.** Escaping, containers, maps, message lines and parameters are read back as written, each
  with the exact condition under which that is so, and a list of tokens can be written exactly when each of them
  fits a style (`ListIff`). Any chunks of the transfer coding are read back as well.

## What the code does that its text does not say

- `is_nick` accepts more than the nicknames of RFC 2812: any length, and NUL, because `bnf_special` is built with
  `sizeof`, so that the terminating NUL is one of its characters (src/message.cpp:172). `NickIff` says that these
  are the only two differences. The other character classes hold an extra NUL as well, which changes nothing.
- `get_params` appends an empty parameter that the text does not have when the text is empty, and when what
  follows the middles starts with anything but a space: a NUL, CR or LF, or any character at all when there is
  no middle. What follows is lost. `AppendedIff` gives the exact condition, `LostTexts` and `LostTails` give
  inputs, and `TabLosesText` gives a whole line that parses and then loses its parameters.
- `write_container` keeps only the first line of an element, while pairs and maps write theirs whole and lose
  the rest on reading; both round trips hold exactly for text without line breaks (`ContainerLoses` and
  `PairLoses` are texts that come back cut).
- `parse` trims the line, so that parameters whose rendering ends in white space do not come back (`LineRoundTrip`, `EndSpaceLost`).
- `parse` keeps the old fields that a line does not set, so that a message read into one in use may come out
  with an old prefix (`WireIntoUsed`, `StalePrefix`).
- A store written with a key that has a colon loses it on the next load (`RunReloadIff`, `ReloadLoses`).
- The comment on `replace_store` says that it destroys the case of keys (src/include/skivvy/store.h:512):
  `SwitchBackIff` says exactly when that shows, `SwitchBackLoses` and `SwitchedRunLoses` give a file on which it does.
- The ranking loop starts from a previous score of 0.0, so that a top score of zero gets rank 0: `RankingIff` and
  the contract of `Finish` say exactly when, and `ZeroAlone` is a table on which it happens.
- Months count from 0 (src/include/skivvy/cal.h:31-35), and the filter of the ranking asks for June or later in every
  year from 2012 on, not for every month from June 2012 on: they differ exactly in the first five months of later
  years (`FiltersIff`).

## Model

| member | source | states |
|---|---|---|
| Escapes.Escape | src/store.cpp:40-46 | the four replacement passes of `escape` equal one character-by-character encoding |
| Escapes.Unescape | src/store.cpp:55-61 | the four passes of `unescape` equal one left-to-right decoding, on every text |
| Escapes.UnescapeEscape | src/store.cpp:48-68 | unescaping undoes escaping for every text |
| Escapes.EscapedFree | src/store.cpp:40-46 | escaped text never holds a brace or a comma, and gains no line break |
| Escapes.EscapedIs | src/store.cpp:40-46 | what each character is written as, spelled out |
| Escapes.UnescapedIs | src/store.cpp:55-61 | what each escape stands for, spelled out; a backslash before anything else stands for itself |
| Escapes.EscapeUnescape | src/store.cpp:40-61 | escaping undoes unescaping exactly on the texts whose delimiters are all escaped |
| Objects.GetObject | src/store.cpp:70-91 | the depth-counting reader: its result, what it leaves and its flags in every case, an unclosed group and a stream already failed included |
| Objects.ObjectIff | src/store.cpp:70-91 | a group is read from a text exactly when the text is that balanced content in braces and then the rest |
| Objects.ObjectNone | src/store.cpp:70-91 | reading fails exactly when no prefix of the text is a balanced group |
| Containers.WriteContainer | src/include/skivvy/store.h:108-125 | the written text: the first line of each element, escaped and in braces |
| Containers.ReadContainer | src/include/skivvy/store.h:146-166 | the elements of successive groups, unescaped, and failbit with an empty container when there is no group or the stream is not good |
| Containers.ContainerRoundTrip | src/include/skivvy/store.h:108-166 | a written list is read back, consuming exactly its text, exactly when no element has a line break; otherwise its first lines are |
| Containers.ContainerLoses | src/include/skivvy/store.h:108-166 | an element of two lines comes back as its first |
| Containers.ContainerStops | src/include/skivvy/store.h:146-166 | reading ends at the first thing that is not a group and passes over the rest of the container |
| Containers.SetRoundTrip | src/include/skivvy/store.h:241-251 | the same for a set, in whatever order its elements are written |
| Containers.ReadPair | src/include/skivvy/store.h:195-219 | both parts of a written pair, or failbit and the pair left as it was, also on a stream that is not good |
| Containers.PairRoundTrip | src/include/skivvy/store.h:169-219 | a written pair is read back exactly when neither part has a line break |
| Containers.PairLoses | src/include/skivvy/store.h:169-219 | a pair whose key has two lines comes back with the first of them |
| Containers.PairIff | src/include/skivvy/store.h:195-219 | a pair is read exactly where two groups of balanced text stand in a group, and what follows them there is dropped |
| Containers.ReadMap | src/include/skivvy/store.h:221-239 | insertion of the pairs read until one fails; the map is emptied only once its group has been read, so that it stays as it was on a stream that is not good |
| Containers.MapRoundTrip | src/include/skivvy/store.h:183-239 | a written map is read back, in any order of its pairs, exactly when no key and no value has a line break |
| Containers.FirstStays | src/include/skivvy/store.h:221-239 | of two pairs with one key, the first stays |
| Containers.MapStops | src/include/skivvy/store.h:221-239 | a map ends at the first thing that is not a pair |
| KeyOrder.LessIsStrictOrder | src/include/skivvy/store.h:265-287 | the comparator is a strict weak order whose equivalence is equality, up to case when the switch is on |
| KeyOrder.SameIff | src/include/skivvy/store.h:265-287 | two keys are the same exactly when they are equal, and with the switch on exactly when every place has the same character or the two cases of one of the 26 letters |
| KeyOrder.LessIff | src/include/skivvy/store.h:265-287 | on bytes, the order is that of the first place where two keys differ, folded when the switch is on, and then with the bytes above 127 first |
| KeyOrder.LowerIs | src/include/skivvy/store.h:280-283 | folding turns the 26 capital letters into the small ones and changes nothing else |
| StoreMap.LookupPut | src/include/skivvy/store.h:682-696 | writing one key gives it the new list in any spelling and leaves all other keys alone |
| StoreMap.SpellingStays | src/include/skivvy/store.h:634-698 | reading or writing a key enters it as it is spelled, unless it is there: then its spelling stays |
| StoreFold.FillLookup | src/include/skivvy/store.h:515-521 | after pushing pairs in order, each key has its old list and then the values pushed under any spelling of it |
| StoreFold.FillFlatten | src/include/skivvy/store.h:553-566 | refilling an empty map with a map's pairs gives that map without its empty lists |
| StoreFold.FillKeeps | src/include/skivvy/store.h:515-521 | no value is lost or invented, counted with multiplicity |
| BackupStores.BackupStore.LoadFile | src/include/skivvy/store.h:550-559 | memory after a load is the map filled with the pairs of the file's lines |
| BackupStores.BackupStore.SaveFile | src/include/skivvy/store.h:561-571 | the file after a save has one line for each value, in key order |
| BackupStores.BackupStore.GetAt | src/include/skivvy/store.h:634-642 | answer and new state, the load of an empty memory and the entry made for an absent key included |
| BackupStores.BackupStore.GetVec | src/include/skivvy/store.h:644-650 | answer and new state |
| BackupStores.BackupStore.ClearAll | src/include/skivvy/store.h:655-660 | memory and file after clearing everything |
| BackupStores.BackupStore.ClearKey | src/include/skivvy/store.h:665-672 | memory and file after clearing one key |
| BackupStores.BackupStore.Add | src/include/skivvy/store.h:677-684 | memory and file after adding a value |
| BackupStores.BackupStore.SetAt | src/include/skivvy/store.h:689-698 | memory and file after setting one value, as the step that `SetThenGet` spells out |
| BackupStores.BackupStore.constructor | src/include/skivvy/store.h:580-584 | the state after loading the file and saving it again |
| BackupStores.BackupStore.CaseInsensitive | src/include/skivvy/store.h:515-531 | memory refilled under the order that `SameIff` spells out, the file left alone, nothing at all when the switch is already so |
| StoreFile.FilePairsIff | src/include/skivvy/store.h:550-571 | pairs written to a file are read back exactly when no key has a colon or line break and no value a line break |
| StoreFile.LineCases | src/include/skivvy/store.h:550-559 | every line of a file: one without a colon is passed over, one that ends at its colon has an empty value, and the one character after the colon is dropped whatever it is |
| StoreFile.FileNormal | src/include/skivvy/store.h:550-584 | for any file, loading what was saved from a load gives that load again |
| StoreFile.PersistIff | src/include/skivvy/store.h:550-571 | a saved store answers the same once loaded exactly when its pairs fit the lines of a file |
| StoreRuns.StepRefines | src/include/skivvy/store.h:586-698 | each operation answers as the plain map and keeps memory and file in agreement up to empty lists |
| StoreRuns.SetThenGet | src/include/skivvy/store.h:644-698 | after setting place n of a key, its list is the old one place by place, with the new value in place n and empty values in a gap before it; every other list is as it was; the plain map does the same |
| StoreRuns.KeyEntered | src/include/skivvy/store.h:634-698 | every operation on a key, reading included, leaves an entry for it |
| StoreRuns.RunRefines | src/include/skivvy/store.h:580-698 | over every run, every answer is the plain map's, given that the map fits the file at each explicit reload |
| StoreRuns.CleanRunsRefine | src/include/skivvy/store.h:580-698 | from any file, runs of clean operations with reloads answer as the plain map the file describes |
| StoreRuns.UnreloadedRunsRefine | src/include/skivvy/store.h:580-698 | from any file, runs without reload answer as the plain map for any keys and values |
| StoreRuns.ReloadIff | src/include/skivvy/store.h:586-590 | just after a write, reload changes no answer exactly when all that is held fits the file |
| StoreRuns.RunReloadIff | src/include/skivvy/store.h:580-698 | after any run of any operations on any file, reload changes no answer exactly when the file can hold all that is in memory |
| StoreRuns.ReloadLoses | src/include/skivvy/store.h:586-590 | after adding a value under `a:b` to a new store, reload does change an answer |
| StoreRuns.OpenedRepresents | src/include/skivvy/store.h:580-584 | the constructor's save loses nothing that a load could see |
| CaseSwitch.SwitchMerges | src/include/skivvy/store.h:515-531 | each key gets the lists of all keys equal to it under the new order, in old key order, and every value is kept |
| SwitchRuns.RespellingFinds | src/include/skivvy/store.h:265-531 | after any run, switching on lets every respelling of a key find all its values, and exactly its list when no two keys with values differ in case alone |
| CaseSwitch.SwitchIff | src/include/skivvy/store.h:515-559 | after a save, switching equals loading the file under the new order exactly when the file can hold the store |
| CaseSwitch.SwitchAfterRun | src/include/skivvy/store.h:515-698 | after any clean run the switch agrees with the file, and later runs answer as the plain map with case folded |
| CaseSwitch.SwitchBackIff | src/include/skivvy/store.h:512-531 | switching on and off again changes no answer exactly when no two keys with values differ in case alone |
| CaseSwitch.SwitchBackLoses | src/include/skivvy/store.h:512-531 | a file with keys `A` and `a` on which it does |
| SwitchRuns.OffAndOn | src/include/skivvy/store.h:515-531 | a store that does not tell cases apart comes back exactly as it was when it is switched off and on again |
| SwitchRuns.LoadingIsIdle | src/include/skivvy/store.h:550-698 | after any run on any file, with any keys and values, reloads and switches, loading an empty memory changes nothing |
| SwitchRuns.ActsInv | src/include/skivvy/store.h:515-698 | in every clean run with switches, what memory holds up to empty lists follows from the file and from whether its keys have been folded |
| SwitchRuns.SwitchedRunsAgree | src/include/skivvy/store.h:515-698 | after any clean run with switches on any file, memory answers as the file would exactly when the switch is on, or memory was written or loaded with it off since, or the file has no two keys that differ in case alone |
| SwitchRuns.SwitchedRunLoses | src/include/skivvy/store.h:515-531 | a file and a run of two switches after which they differ |
| FloodControllers.FloodController.Dispatch | src/FloodController.cpp:71-91 | one round of the dispatcher as the step that `NextServed` and `IdleTick` spell out, keeping the channels listed once each |
| FloodControllers.FloodController.Enqueue | src/FloodController.cpp:99-109 | the queue and the list of channels after a send |
| FloodControllers.FloodController.Clear | src/FloodController.cpp:111-116 | no queues and no channels, the position left as it is |
| FloodControllers.FloodController.ClearChannel | src/FloodController.cpp:118-127 | one channel and its queue gone, the others and the position left as they are |
| FloodRuns.RunInv | src/FloodController.cpp:71-127 | in every run the channels are listed once each and are exactly those with a queue |
| FloodRuns.Conservation | src/FloodController.cpp:71-127 | in every run and for each channel, functions run since its last clear and then those queued are exactly those sent since, in order |
| FloodRuns.FromStart | src/FloodController.cpp:56-127 | the same from a new controller on |
| FloodRuns.WorkConservation | src/FloodController.cpp:71-91 | a tick runs one function exactly when one is queued, that of the first busy channel going round, with every position in range |
| FloodIdle.IdleTick | src/FloodController.cpp:71-91 | a tick with nothing queued moves the dispatcher on by one position, from the last back to the first, and changes nothing else |
| FloodIdle.IdleTicks | src/FloodController.cpp:71-91 | after j ticks with nothing queued the dispatcher stands j positions on, going round |
| FloodIdle.PositionKept | src/FloodController.cpp:99-127 | only ticks move the dispatcher: sends and clears leave its position alone |
| FloodIdle.IdleThenServed | src/FloodController.cpp:71-109 | after j idle ticks and any sends, the next tick serves the first busy channel after the position j places on from the old one |
| FloodIdle.IdleRun | src/FloodController.cpp:71-109 | such a run on three channels, in which the third and not the second is served |
| FloodIdle.NextServed | src/FloodController.cpp:71-91 | the tick serves the first busy channel after the position where the dispatcher stands, spelled out in positions |
| FloodRuns.TicksBound | src/FloodController.cpp:71-109 | the bound on ticks while a channel has been served fewer than k times |
| FloodRuns.KthServed | src/FloodController.cpp:71-109 | the k-th queued function of a channel runs within k rounds of as many ticks as there are channels at the end |
| FloodRuns.NoneServedTwice | src/FloodController.cpp:71-109 | no other channel is served twice before a waiting one |
| FloodClears.PassedOverBound | src/FloodController.cpp:118-127 | clears of other channels make the dispatcher pass over a channel no more often than there were channels before it |
| FloodClears.KthServedPassedOver | src/FloodController.cpp:71-127 | when any other channels are cleared and there are never more than n, the k-th queued function runs within k rounds of n ticks and one more for each time its channel was passed over |
| FloodClears.KthServedDespiteClears | src/FloodController.cpp:71-127 | hence within k rounds and one more for each channel listed before its own at first |
| FloodClears.ClearsDelay | src/FloodController.cpp:71-127 | a run with a clear in which one round is not enough |
| MessageParams.GetTrailing | src/message.cpp:174-186 | the text up to NUL, CR or LF, and a good stream in the end |
| MessageParams.GetMiddle | src/message.cpp:188-202 | a middle of the grammar, or failbit |
| MessageParams.GetParams | src/message.cpp:204-232 | middles, trailing and failbit as a function of the text |
| MessageGrammar.Soundness | src/message.cpp:188-232 | on any text at most 14 middles, all grammatical and, each after one space, a prefix of the text, and a trailing that the rest alone decides |
| MessageGrammar.ParamsSound | src/message.cpp:311-324 | on any text at most 15 parameters, all but the last of them middles |
| MessageGrammar.GrammarIff | src/message.cpp:168-170 | the middles and trailings meant here are those of RFC 2812, character by character |
| MessageGrammar.MiddlesIff | src/message.cpp:204-232 | up to 14 rendered middles are given back, and nothing added, exactly when all are grammatical |
| MessageGrammar.TrailingIff | src/message.cpp:204-232 | middles and a trailing after a colon are given back exactly when all are grammatical |
| MessageGrammar.TrailingCut | src/message.cpp:174-186 | a trailing ends before the first NUL, CR or LF |
| MessageGrammar.NoColonIff | src/message.cpp:227-229 | after 14 middles the colon is optional exactly when the trailing does not start with one |
| MessageGrammar.ParamsRoundTrip | src/message.cpp:204-232 | parsing any rendering that the grammar allows gives the parameters rendered |
| MessageGrammar.EmptyTrailing | src/message.cpp:316-324 | an empty trailing is a parameter and an absent one is not |
| MessageGrammar.AppendedIff | src/message.cpp:311-324 | on the middles and anything that holds no further middle: nothing is appended exactly when the text ends there or stops at a space that starts no parameter, and where no space follows an empty parameter is appended exactly when something else does or the text is empty |
| MessageGrammar.AppendedAlways | src/message.cpp:311-324 | every text is such middles and such a rest, so that the condition covers all texts |
| MessageGrammar.LostTexts | src/message.cpp:204-232 | the empty text, and a text that starts with a tab, each give one empty parameter |
| MessageGrammar.LostTails | src/message.cpp:204-232 | after a middle, a CR and what follows it become an empty parameter, and a space at the end nothing |
| Messages.Message.Parse | src/message.cpp:342-356 | the fields and the outcome of parsing a line into a message, in every case |
| Messages.NickIff | src/message.cpp:242-252 | `is_nick` accepts exactly the shape of RFC 2812 at any length and with NUL among the specials; within nine characters and without NUL exactly its nicknames |
| Messages.Message.GetParams | src/message.cpp:311-324 | the parameters, the trailing among them unless the stream failed |
| Messages.Message.Write | src/message.cpp:58-61 | the serialised form of a message |
| Messages.Message.Read | src/message.cpp:48-56 | the message, the rest of the stream and failbit after reading, on any stream |
| MessageLines.LineIff | src/message.cpp:342-356 | a rendered line gives back prefix, command and parameter text exactly when that text, set off by any white space, has no line break and does not itself end in white space |
| MessageLines.TabLosesText | src/message.cpp:311-356 | the line `CMD`, tab, `x` parses, and its parameter text becomes one empty parameter |
| MessageLines.LineRoundTrip | src/message.cpp:311-356 | prefix and command come back from a line ended by any white space, and any parameters of the grammar exactly when their rendering does not end in white space |
| MessageLines.EndSpaceLost | src/message.cpp:311-356 | the trailing of a line that ends in a space comes back without it |
| MessageLines.FullPrefix | src/message.cpp:234-309 | for `nick!user@host` the accessors give the host; the nick exactly if it has the shape of a nickname, and otherwise nothing; the user exactly if it has no NUL, space, CR, LF or `@`, and otherwise nothing |
| MessageLines.HostPrefix | src/message.cpp:234-309 | for `nick@host` the accessors give the host, the nick exactly if it has the shape of a nickname, and no user |
| MessageLines.UserPrefix | src/message.cpp:234-309 | for `nick!user` there is neither user nor host |
| MessageLines.LatePrefix | src/message.cpp:234-309 | when the first `@` stands before the first `!` there is neither nick nor user |
| MessageLines.BarePrefix | src/message.cpp:234-309 | a prefix with neither mark is a server name, and a nickname exactly if it has the shape of one |
| MessageLines.WireRoundTrip | src/message.cpp:48-61 | any parsed message is read back from its serialised form into a fresh message with the same fields and outcome |
| MessageLines.WireIntoUsed | src/message.cpp:48-61 | into a used message the same holds, whether the line parsed or not, exactly when the used message had none of the fields that the line leaves unset |
| MessageLines.StalePrefix | src/message.cpp:48-61 | `PING :x` read into a message with a prefix comes back with that prefix |
| Chunked.ReadChunkedEncoding | src/network.cpp:171-186 | the decoded data and what is left of the stream as functions of the text, the data never longer than the text, and nothing from a stream that is not good; the loop ends on any input |
| HexNumbers.WritesIff | src/network.cpp:177 | a string of digits of either case has the number that it writes |
| HexNumbers.NumberRead | src/network.cpp:177 | sizes in digits of either case, signed or not and with `0x` or not: a number of more than 64 bits fails and a negative one wraps round |
| HexNumbers.NoNumber | src/network.cpp:177 | without a digit there is no number, and a sign and an `0x` before it are taken all the same |
| Chunked.ChunkedRoundTrip | src/network.cpp:171-186 | any chunks with any extensions, any bytes and any trailer decode to their data one after the other |
| Chunked.TrailerLeft | src/network.cpp:171-186 | of a whole coding, exactly what follows the last size is left on the stream |
| Chunked.SplitRoundTrip | src/network.cpp:171-186 | any split of a text into non-empty pieces of a 64-bit size, each coded with its size in digits of either case, decodes to the text |
| Chunked.TruncationSafe | src/network.cpp:171-186 | what is decoded from a prefix of a coding is exactly the data that is in it, cut within a chunk or not |
| Tokens.GetString | src/ios.cpp:39-59 | the token at the front and what is left, or failbit and the argument left as it was; a stream at its end or failed stays where it is |
| Tokens.TokensRoundTrip | src/ios.cpp:39-59 | tokens written raw or quoted and set apart by white space are read back by the callers' loop |
| Tokens.TokenCases | src/ios.cpp:39-59 | every text after its white space: quoted, quoted and not closed, raw up to a space, raw to the end, and nothing at all |
| Tokens.ReadAll | src/ircbot.cpp:1083-1085 | the callers' loop gathers the tokens and ends by failing, at once on a stream that is not good |
| Tokens.RepresentableIff | src/ios.cpp:39-59 | some text is read as a token exactly when the token is not empty and fits one of the styles |
| Tokens.ListIff | src/ios.cpp:39-59 | some text is gathered as a given list of tokens exactly when each of them fits a style |
| Ranking.Table.Finish | src/plugin-oastats.cpp:667-697 | the table is a descending order of the entries that passed the filter, scored and ranked; the ranks are those of a competition exactly when the greatest rounded score among them is not zero |
| Ranking.Table.Rank | src/plugin-oastats.cpp:685-697 | the loop gives each entry the rank of its score |
| Ranking.KeptIff | src/plugin-oastats.cpp:668-674 | the filter keeps every entry that passes, as often as it occurs, and nothing else |
| Ranking.EntrantsIff | src/plugin-oastats.cpp:668-674 | everyone is ranked, except those with fewer than 20 opponents when the filter is on |
| Ranking.ScoreIs | src/plugin-oastats.cpp:677-678 | the score is a hundredth of the product of the three figures, rounded, and nothing else of an entry changes |
| Ranking.RankingIff | src/plugin-oastats.cpp:685-697 | ranks are one more than the number of greater scores exactly when the table is empty or its top score is not zero |
| Ranking.ZeroAlone | src/plugin-oastats.cpp:685-697 | a single entry with score zero gets rank 0 |
| Ranking.FiltersIff | src/plugin-oastats.cpp:668 | months counted from 0, the filter is that of June 2012 and later exactly outside the first five months of later years: it is off in January and in May 2013 |

## Left out

- The header-only library behind `hol::replace_all_mute` and `hol::trim_right_mute` is not part of this model. Replacement is taken to go left to right over non-overlapping occurrences and to resume after the inserted text, trimming to drop the white space of the "C" locale.
- Strings that the source changes in place through a reference are results of methods here; aliasing of arguments is not modelled.
- `std::map` and `std::sort` are library code: the map is its entries in key order, and sorting gives some descending order of the same entries.
- Reading a number in hexadecimal follows libstdc++: optional sign, optional `0x`, failure on overflow, wrap-around of a negative number.
- Sizes and indices are unbounded apart from the 64-bit chunk size: `get_at` and `set_at` with the largest `siz`, where `n + 1` wraps round, are not modelled.
- The locale is "C"; bytes above 127 are ordinary characters that are neither letters nor white space.
- The arrival time `when` of a message.
- Floating point: scores are reals, and the rounding to two places is a parameter.
- File failures, other writers of a file, threads, sleeping and the start and stop of the dispatcher: each locked region is one atomic step.
- `has`, `get_keys` and the searches by key pattern of `BackupStore`, whose answers show the empty lists that reads leave behind.
- `CacheStore` and `FileStore`: their save overwrites each line with its key (src/include/skivvy/store.h:745-748), so that they do not agree with their file.
- Containers of anything but strings: nested elements are escaped on writing but not unescaped on reading (src/include/skivvy/store.h:120, src/include/skivvy/store.h:127-132).
- The accessors of a message that look for a user command, a target or a channel, which are short compositions of `get_params`.
- Sockets, HTTP requests, HTML scraping, RPC, plugins, timers and the commands of the bot itself.
