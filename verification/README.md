# DotA statistics of GHost++, modelled in Dafny

This project models the DotA statistics core of the GHost++ game host bot.

- **`CStatsDOTA::ProcessAction`** scans each in-game action buffer for the DotA real-time marker `6b 64 72 2e 78 00`. After the marker it reads a record made of a NUL-terminated namespace, a NUL-terminated key and a four-byte little-endian value. It then updates a fixed table of twelve optional player records, indexed by colour, together with the winner, the reported length and the game start time.
- **`CStatsDOTA::Save`** turns that table into one game row and one row per player.
- **Record types from `ghostdb.cpp`:** the player statistics record `CDBDotAPlayer` and the ban record `CDBBan`.
- **Transactions:** the base `CGHostDB::Begin`/`Commit`.
- **Decision rules of `CGame`:**
  - the game-over latch;
  - the `!tempban` duration table;
  - ban target matching;
  - `!hcl` validation;
  - the `!latency` and `!synclimit` clamps.

Layout (one module per file):

| file | module | contents |
|---|---|---|
| base.dfy | `Base` | `Option`, `uint32_t` as `u32` with explicit wrap-around, bytes |
| util.dfy | `Util` | the util helpers the statistics call, each given an explicit contract |
| ghostdb.dfy | `GhostDb` | `CDBDotAPlayer`, `CDBBan`, `Begin`/`Commit` |
| scanner.dfy | `StatsScan` | marker search, record parsing, the scan cursor, the wire encoding |
| statsdota.dfy | `StatsDota` | the state, the per-record dispatch, `ProcessAction` |
| statsdota_facts.dfy | `StatsDotaFacts` | scan = sequential handling, table invariant, winner report |
| statsdota_records.dfy | `StatsDotaRecords` | the effect of each kind of record |
| statssave.dfy | `StatsSave` | `Save`: length, colour check, outcome, rows |
| statssave_facts.dfy | `StatsSaveFacts` | `Save` on tables built by `ProcessAction`; the discard branch as written |
| game.dfy | `GameRules` | latch, tempban, ban matching, HCL, clamps |

Collaborators become parameters:
- `GetPlayerFromColour` becomes a map from colour to player name.
- `GetTime()` becomes a number.
- The asynchronous database calls become a list of `Submission` rows: game rows, player rows and event rows.

A `Rax` record whose killer slot was never created dereferences a null pointer in the source. The model does not create the slot: it returns the distinct outcome `Crashed`.

Two behaviours of the code worth stating:
- `ProcessAction` returns `m_Winner != 0` after the scan. This is a level that stays true once any nonzero winner is stored, not a one-time edge.
- `Save` computes the game length as `GetTime() - m_GameStart` in `uint32_t`. A clock reading before the start wraps around; it is not clamped.

## Model

| member | source | states |
|---|---|---|
| `Base.MulU32` | trunk/ghost/game.cpp:645-668 | the product is reduced modulo 2^32 and equals the true product when that fits |
| `Util.ExtractCStringIsLongestRun` | ghostgproxy/statsdota.cpp:83-89 | a namespace or key is the longest NUL-free run from its offset: a slice of the buffer, NUL-free, followed by a NUL or the end |
| `Util.ExtractCStringOfTerminated` | ghostgproxy/statsdota.cpp:83-89 | a NUL-terminated string is read back exactly |
| `Util.DecodeEncodeUInt32` | ghostgproxy/statsdota.cpp:96 | decoding the four little-endian bytes of v gives v |
| `Util.EncodeDecodeUInt32` | ghostgproxy/statsdota.cpp:96 | the four value bytes are determined by the decoded value |
| `Util.ToUInt32` | ghostgproxy/statsdota.cpp:422 | a string of digits parses to the number it writes when that fits in 32 bits; a string not starting with a digit parses to 0 |
| `Util.ToUInt32OfDecimal` | ghostgproxy/statsdota.cpp:422 | parsing the decimal rendering of a colour gives the colour back |
| `Util.LowerIdempotent` | trunk/ghost/game.cpp:643 | lower-casing twice is lower-casing once |
| `Util.ReverseInvolution` | ghostgproxy/statsdota.cpp:491 | reversing the value bytes twice restores them |
| `GhostDb.GetItem` | ghostgproxy/ghostdb.cpp:813-819 | a slot number of 6 or more reads as the empty string |
| `GhostDb.SetItem` | ghostgproxy/ghostdb.cpp:821-825 | slot i < 6 receives the item and no other slot or field changes; i >= 6 changes nothing |
| `GhostDb.GetSetItem` | ghostgproxy/ghostdb.cpp:813-825 | reading slot j after storing into slot i < 6 gives the item if j = i and the old content otherwise |
| `GhostDb.NewDotAPlayer` | ghostgproxy/ghostdb.cpp:725-746 | every counter and colour 0, level 1, score 1000, outcome 0, apm 0, every item, hero and name empty |
| `GhostDb.NewDotAPlayerUnranked` | ghostgproxy/ghostdb.cpp:748-775 | the record is the 27-argument one for the same arguments with outcome 0, whatever outcome is passed |
| `GhostDb.UnrankedIgnoresOutcome` | ghostgproxy/ghostdb.cpp:748-775 | two calls that differ only in the outcome argument build the same record |
| `GhostDb.NewDotAPlayerRanked` | ghostgproxy/ghostdb.cpp:777-806 | rank, score, outcome, colour, name and the six items are stored verbatim |
| `GhostDb.NewBan` | ghostgproxy/ghostdb.cpp:543-553 | a ban built without a flag is never an IP ban and has no expiry |
| `GhostDb.NewBanExpiring` | ghostgproxy/ghostdb.cpp:555-566 | the same ban with the given expiry, never an IP ban |
| `GhostDb.NewBanFlagged` | ghostgproxy/ghostdb.cpp:568-582 | an IP ban exactly when the flag is nonzero |
| `GhostDb.NewBanFlaggedExpiring` | ghostgproxy/ghostdb.cpp:584-600 | an IP ban exactly when the flag is nonzero; the expiry is stored |
| `GhostDb.BanFlagNormalisation` | ghostgproxy/ghostdb.cpp:543-600 | a zero flag builds the same record as the flagless constructor; a nonzero one differs only in the flag |
| `GhostDb.Begin` | ghostgproxy/ghostdb.cpp:48-51 | the base class always starts a transaction |
| `GhostDb.Commit` | ghostgproxy/ghostdb.cpp:53-56 | the base class always commits |
| `StatsScan.ParseAt` | ghostgproxy/statsdota.cpp:72-96 | a record is read at offset i exactly when the marker is there and marker, both C strings with their NULs and four value bytes fit; the namespace is the C string at i+6, the key the one at i+7+\|ns\|, the value bytes i+8+\|ns\|+\|key\| up to i+12+\|ns\|+\|key\| |
| `StatsScan.ParseAtTerminated` | ghostgproxy/statsdota.cpp:81-89 | both C strings of a parsed record are NUL-terminated inside the buffer and hold no NUL |
| `StatsScan.Next` | ghostgproxy/statsdota.cpp:517-529 | the cursor moves just past the value after a full parse (12 + \|ns\| + \|key\| bytes) and by one byte otherwise, always forward and never past the end |
| `StatsScan.ParseEncoded` | ghostgproxy/statsdota.cpp:72-96 | a well-formed record written at any offset is parsed back exactly, whatever surrounds it |
| `StatsScan.RecordsAfter` | ghostgproxy/statsdota.cpp:70-529 | well-formed records written back to back after any prefix are found in order, starting at the prefix's end |
| `StatsScan.RecordsOfEncoded` | ghostgproxy/statsdota.cpp:70-529 | the scan finds exactly the well-formed records written back to back, in order |
| `StatsScan.ShortBufferHasNoRecords` | ghostgproxy/statsdota.cpp:70-90 | a buffer shorter than 12 bytes yields no record |
| `StatsScan.RecordsAreWellFormed` | ghostgproxy/statsdota.cpp:81-96 | every record the scan finds has NUL-free strings and four value bytes |
| `StatsDota.Init` | ghostgproxy/statsdota.cpp:38-44 | all twelve slots empty and winner, minutes, seconds and game start 0 |
| `StatsDota.SetWinner` | ghostgproxy/statsdota.h:44 | the winner becomes w and nothing else changes |
| `StatsDota.Upsert` | ghostgproxy/statsdota.cpp:119-121 | slot c holds the update of its record, or of a fresh record if it was empty; no other slot changes |
| `StatsDota.ProcessAction` | ghostgproxy/statsdota.cpp:532 | the report is whether the stored winner is nonzero after the scan |
| `StatsDotaFacts.ScanIsApplyAll` | ghostgproxy/statsdota.cpp:70-529 | the scan from any offset handles, in order, exactly the records found from that offset |
| `StatsDotaFacts.ProcessEncoded` | ghostgproxy/statsdota.cpp:64-67 | several records packed in one action are all handled, in order |
| `StatsDotaFacts.ProcessTwoRecords` | ghostgproxy/statsdota.cpp:64-67 | two records in one action: the second is handled on the state the first left, and the event rows are concatenated |
| `StatsDotaFacts.ShortActionIgnored` | ghostgproxy/statsdota.cpp:70-90 | an action shorter than 12 bytes changes nothing and reports the stored winner |
| `StatsDotaFacts.InitWf` | ghostgproxy/statsdota.cpp:38-44 | the empty table satisfies the table invariant |
| `StatsDotaFacts.UpsertWf` | ghostgproxy/statsdota.cpp:117-121 | updating a player colour's slot without touching its colour keeps the invariant |
| `StatsDotaFacts.OnPlayerKeyKeepsColour` | ghostgproxy/statsdota.cpp:456-512 | no player key changes the colour field |
| `StatsDotaFacts.OnHeroWf` | ghostgproxy/statsdota.cpp:106-159 | a hero kill keeps the invariant |
| `StatsDotaFacts.OnCreepCountWf` | ghostgproxy/statsdota.cpp:340-383 | a creep counter keeps the invariant |
| `StatsDotaFacts.OnDataWf` | ghostgproxy/statsdota.cpp:100-389 | every `Data` record keeps the invariant |
| `StatsDotaFacts.OnPlayerWf` | ghostgproxy/statsdota.cpp:414-428 | a per-player record keeps the invariant: the slot it creates carries its own colour |
| `StatsDotaFacts.DispatchPreservesWf` | ghostgproxy/statsdota.cpp:100-513 | every record keeps the invariant: only colours 1..5 and 7..11 own slots, each carrying colour 0 or its own |
| `StatsDotaFacts.ApplyAllPreservesWf` | ghostgproxy/statsdota.cpp:70-529 | a sequence of records keeps the invariant |
| `StatsDotaFacts.ProcessActionPreservesWf` | ghostgproxy/statsdota.cpp:56-533 | `ProcessAction` keeps the invariant |
| `StatsDotaFacts.OnDataKeepsWinner` | ghostgproxy/statsdota.cpp:100-389 | no `Data` record changes the winner |
| `StatsDotaFacts.DispatchWinner` | ghostgproxy/statsdota.cpp:391-412 | only a `Global`/`Winner` record changes the winner, and it stores the value verbatim |
| `StatsDotaFacts.ApplyAllWinner` | ghostgproxy/statsdota.cpp:391-412 | after several records the winner is the last `Winner` value, or the earlier winner if there is none |
| `StatsDotaFacts.GameOverReport` | ghostgproxy/statsdota.cpp:532 | game over is reported exactly when the last winner record of the action, or else the earlier winner, is nonzero |
| `StatsDotaFacts.NoMarkerNoRecords` | ghostgproxy/statsdota.cpp:72 | a buffer without the marker yields no record |
| `StatsDotaFacts.SetWinnerThenQuietAction` | ghostgproxy/statsdota.h:44 | after a nonzero `SetWinner`, an action without marker changes nothing and still reports game over |
| `StatsDotaRecords.MakeRecord` | ghostgproxy/statsdota.cpp:93-96 | a record built from text is well formed and its strings and value decode to the text and number |
| `StatsDotaRecords.ProcessOne` | ghostgproxy/statsdota.cpp:70-532 | an action holding one record is that record's handling |
| `StatsDotaRecords.DataRoute` | ghostgproxy/statsdota.cpp:100 | a `Data` record goes to the `Data` handler with its key and decoded value |
| `StatsDotaRecords.ColourDigits` | ghostgproxy/statsdota.cpp:414 | a colour's namespace has at most two digits |
| `StatsDotaRecords.ProcessData` | ghostgproxy/statsdota.cpp:70-100 | an action holding one `Data` record crashes or reports exactly as that record's `Data` handling does |
| `StatsDotaRecords.CreepCountEffect` | ghostgproxy/statsdota.cpp:340-383 | a creep counter record rewrites only the named counter of a player colour's slot, creating the slot, and changes nothing for other colours |
| `StatsDotaRecords.CreepKillsRecord` | ghostgproxy/statsdota.cpp:340-353 | `CSK<c>` overwrites the creep kills of a player colour c with the value, creating the slot, and changes nothing for other colours |
| `StatsDotaRecords.CreepDeniesRecord` | ghostgproxy/statsdota.cpp:354-368 | `CSD<c>` overwrites the creep denies of a player colour c with the value, creating the slot, and changes nothing for other colours |
| `StatsDotaRecords.NeutralKillsRecord` | ghostgproxy/statsdota.cpp:370-383 | `NK<c>` overwrites the neutral kills of a player colour c and changes nothing for other colours |
| `StatsDotaRecords.HeroAccounting` | ghostgproxy/statsdota.cpp:106-159 | with both players present the killer gains a kill only for a player colour and different names, and the victim gains a death for a player colour; with only the victim, only the death; without the victim, nothing; one event row when both are present |
| `StatsDotaRecords.HeroRecord` | ghostgproxy/statsdota.cpp:106-114 | the key suffix of `Hero<v>` is the victim and the value the killer |
| `StatsDotaRecords.SelfKillCountsNoKill` | ghostgproxy/statsdota.cpp:115-131 | a kill between two colours held by the same name counts the death but no kill |
| `StatsDotaRecords.LevelSubject` | ghostgproxy/statsdota.cpp:161-179 | `Level<n>` sets level n on the value's colour, only for a present player with a player colour |
| `StatsDotaRecords.AssistSubject` | ghostgproxy/statsdota.cpp:180-199 | `Assist<c>` credits the suffix colour, only when it and the value's colour are present players |
| `StatsDotaRecords.LevelRoute` | ghostgproxy/statsdota.cpp:106-167 | `Level<n>` fails the `Hero` test and reaches the level handler with n taken from the key suffix |
| `StatsDotaRecords.LevelRecord` | ghostgproxy/statsdota.cpp:70-179 | a `Level<n>` record on the wire is the level handling and emits nothing |
| `StatsDotaRecords.AssistRoute` | ghostgproxy/statsdota.cpp:106-186 | `Assist<c>` fails the `Hero` and `Level` tests and reaches the assist handler with c taken from the key suffix |
| `StatsDotaRecords.AssistRecord` | ghostgproxy/statsdota.cpp:70-199 | an `Assist<c>` record on the wire is the assist handling and emits nothing |
| `StatsDotaRecords.CourierRoute` | ghostgproxy/statsdota.cpp:106-227 | a `Courier` key of at least 8 characters fails the earlier tests and reaches the courier handler |
| `StatsDotaRecords.CourierRecord` | ghostgproxy/statsdota.cpp:70-227 | a `Courier` record on the wire is the courier handling and emits nothing |
| `StatsDotaRecords.TowerRoute` | ghostgproxy/statsdota.cpp:106-275 | a `Tower` key of at least 8 characters fails the earlier tests, including `Courier`, and reaches the tower handler |
| `StatsDotaRecords.TowerRecord` | ghostgproxy/statsdota.cpp:70-275 | a `Tower` record on the wire is the tower handling, event row included |
| `StatsDotaRecords.CourierAndTowerCredit` | ghostgproxy/statsdota.cpp:200-275 | courier and tower kills are credited to a player colour before any player lookup; a tower event row only for a present killer |
| `StatsDotaRecords.RaxRecord` | ghostgproxy/statsdota.cpp:276-283 | a rax record crashes exactly when its player colour's slot was never created; otherwise it adds a rax kill, or changes nothing for other colours |
| `StatsDotaRecords.NoOpRecords` | ghostgproxy/statsdota.cpp:326-339 | `Throne`, `Tree` and `CK` keys change nothing and emit nothing |
| `StatsDotaRecords.NoOpRecordWire` | ghostgproxy/statsdota.cpp:70-339 | a `Throne`, `Tree` or `CK` record on the wire leaves the state unchanged, emits nothing and reports the stored winner |
| `StatsDotaRecords.GameStartRecord` | ghostgproxy/statsdota.cpp:384-388 | `GameStart` stores the clock reading and nothing else |
| `StatsDotaRecords.GlobalRecord` | ghostgproxy/statsdota.cpp:391-412 | `Winner`, `m` and `s` overwrite the winner, minutes and seconds verbatim; other keys change nothing |
| `StatsDotaRecords.PlayerRecordRoute` | ghostgproxy/statsdota.cpp:414-428 | a record in the namespace of a player colour creates that slot and stamps its colour before applying the key |
| `StatsDotaRecords.ItemRecord` | ghostgproxy/statsdota.cpp:490-501 | `8_k` stores the four value bytes reversed in item slot k, whatever they are (NUL bytes included), so a byte-reversed item code is stored as the code; nothing else changes but the colour |
| `StatsDotaRecords.EmptyItemRecord` | ghostgproxy/statsdota.cpp:490-501 | the value 0, four NUL bytes, is stored as a string of four NUL characters |
| `StatsDotaRecords.IdRecord` | ghostgproxy/statsdota.cpp:504-512 | `id` sets the new colour to the value, shifted up by one from 6 on |
| `StatsDotaRecords.IgnoredPlayerKeys` | ghostgproxy/statsdota.cpp:456-485 | keys `1`, `2` and `5` change nothing in the record |
| `StatsDotaRecords.CounterPlayerKeys` | ghostgproxy/statsdota.cpp:473-489 | keys `3`, `4`, `6` and `7` overwrite creep kills, creep denies, gold and neutral kills with the value, and nothing else of the record changes |
| `StatsDotaRecords.HeroKeyRecord` | ghostgproxy/statsdota.cpp:502-503 | key `9` stores the four value bytes reversed as the hero, whatever they are (NUL bytes included), so a byte-reversed hero code is stored as the code; nothing else of the record changes |
| `StatsSave.SplitMinutes` | ghostgproxy/statsdota.cpp:546-556 | the subtraction loop leaves minutes and seconds with minutes * 60 + seconds = length and seconds < 60 |
| `StatsSave.SaveDuration` | ghostgproxy/statsdota.cpp:546-556 | the subtraction loop run on the unsigned difference, or the reported values, give exactly `Duration`: the loop's minutes and seconds are the length divided by 60 and its remainder |
| `StatsSave.Duration` | ghostgproxy/statsdota.cpp:546-556 | without a reported length but with a start time, the length is the unsigned difference of clock and start split into minutes and seconds under 60; otherwise the reported values are kept |
| `StatsSave.DurationExample` | ghostgproxy/statsdota.cpp:546-556 | 125 seconds after the start the row says 2 minutes 5 seconds |
| `StatsSave.DurationWraps` | ghostgproxy/statsdota.cpp:548 | a clock one second before the start gives 2^32 - 1 seconds |
| `StatsSave.ClashFromSpec` | ghostgproxy/statsdota.cpp:579-587 | the inner loop finds a later occupied slot with the colour exactly when one exists |
| `StatsSave.DuplicateFromSpec` | ghostgproxy/statsdota.cpp:565-589 | the outer loop finds a pair from slot i on exactly when one exists |
| `StatsSave.DuplicateCheckSound` | ghostgproxy/statsdota.cpp:565-589 | the nested loops abort exactly when two occupied slots share a colour |
| `StatsSave.DeletedFrom` | ghostgproxy/statsdota.cpp:565-589 | the records the colour check deletes are occupied slots with a non-player colour; when no duplicate stops the check, every such slot is deleted |
| `StatsSave.SaveTable` | ghostgproxy/statsdota.cpp:565-616 | in the table left after `Save` a deleted slot is cleared and a remaining record differs from the original at most in name and outcome; when the colour check passes, each kept record carries the game's name for its colour and its outcome, as in its row; otherwise the records are unchanged |
| `StatsSave.NoDoubleFree` | ghostgproxy/statsdota.cpp:47-53 | with deleted slots cleared, the destructor frees every record `Save` did not delete and none that it did; when the colour check passes, the slots left are exactly the kept ones |
| `StatsSave.Outcome` | ghostgproxy/statsdota.cpp:607-612 | 1 exactly for a colour below 6 with winner 1 or above 6 with winner 2, 0 exactly when the winner is 0, else 2 |
| `StatsSave.OutcomeSides` | ghostgproxy/statsdota.cpp:607-612 | with winner 1 or 2 a Sentinel and a Scourge colour get opposite outcomes; a winner above 2 makes everyone lose |
| `StatsSave.NameFor` | ghostgproxy/statsdota.cpp:597-605 | with no game player of the colour the name is kept |
| `StatsSave.NameForFirstMatch` | ghostgproxy/statsdota.cpp:597-605 | the name is that of the first game player with the colour |
| `StatsSave.Row` | ghostgproxy/statsdota.cpp:597-614 | a row differs from the record only in name, outcome and apm, and carries the outcome rule's value |
| `StatsSave.PlayerRowsAreKeptSlots` | ghostgproxy/statsdota.cpp:593-616 | there is one row per kept slot, and row k is the k-th kept slot's record for this game |
| `StatsSave.KeptFromSpec` | ghostgproxy/statsdota.cpp:571-577 | the kept slots are exactly the occupied slots with a player colour, each once, in increasing order |
| `StatsSave.Save` | ghostgproxy/statsdota.cpp:535-631 | without a transaction nothing is written; otherwise the game row comes first, and it is alone when two slots share a colour; otherwise the player rows follow |
| `StatsSave.SaveWithBaseDb` | ghostgproxy/statsdota.cpp:537-560 | with the base database class the game row is always written |
| `StatsSaveFacts.SaveAbortsIffTwoUnstamped` | ghostgproxy/statsdota.cpp:579-587 | for a table built by the scan, the save aborts exactly when two slots still carry colour 0 |
| `StatsSaveFacts.KeptIffStamped` | ghostgproxy/statsdota.cpp:571-577 | for such a table a slot yields a row exactly when it carries its own colour |
| `StatsSaveFacts.SaveAfterRecords` | ghostgproxy/statsdota.cpp:565-616 | after any crash-free run of records from the initial state the game row is written, and it is alone exactly when the colour check fails or no slot is kept |
| `StatsSaveFacts.FirstDiscarded` | ghostgproxy/statsdota.cpp:571-577 | the first occupied slot with a non-player colour, if any |
| `StatsSaveFacts.SaveAsWritten` | ghostgproxy/statsdota.cpp:565-616 | as written, a discarded slot is read after being freed whenever the colour check passes |
| `StatsSaveFacts.SaveAsWrittenAgrees` | ghostgproxy/statsdota.cpp:565-616 | with no slot to discard the source as written and the model agree |
| `StatsSaveFacts.FreedTwiceAsWritten` | ghostgproxy/statsdota.cpp:47-53 | as written, the destructor frees again each record `Save` deleted; when the colour check passes, these are exactly the occupied slots with a non-player colour |
| `StatsSaveFacts.DeletedOnDuplicate` | ghostgproxy/statsdota.cpp:565-589 | when a duplicate is found and shared colours are non-player colours, the check has deleted a record before it returns |
| `StatsSaveFacts.DoubleFreeOnAbort` | ghostgproxy/statsdota.cpp:583-585 | for a table the scan built, a failed colour check returns early with the game row alone, yet a record is freed twice |
| `StatsSaveFacts.LoneDiscardedSlot` | ghostgproxy/statsdota.cpp:565-616 | with a single record under a non-player colour, `Save` as written reads it after deleting it and the destructor frees it again; the model writes the game row alone |
| `StatsSaveFacts.DanglingAfterSentinelKill` | ghostgproxy/statsdota.cpp:571-577 | one `Hero2` record whose killer is colour 0 (the Sentinel, no player) while colour 2 is in the game, then `Save`: as written the row loop reads the slot it just deleted; the model writes the game row alone |
| `GameRules.OnAction` | trunk/ghost/game.cpp:382-387 | the end sequence starts only on a game-over report while no game-over time is stored |
| `GameRules.LatchStaysClosed` | trunk/ghost/game.cpp:382 | once a game-over time is stored nothing changes |
| `GameRules.LatchFiresOnce` | trunk/ghost/game.cpp:382-387 | with a clock that never reads 0, the end message goes out once if game over is ever reported and never otherwise, at the time of the first report |
| `GameRules.SecondsPerUnit` | trunk/ghost/game.cpp:645-670 | exactly the fourteen listed suffixes are valid |
| `GameRules.UnitTable` | trunk/ghost/game.cpp:645-667 | minutes and hours are 3600 seconds per unit, days 86400 and weeks 604800; only "month" and "months" reach 2419200 |
| `GameRules.IntendedSecondsPerUnit` | trunk/ghost/game.cpp:645-649 | the intended unit table accepts the same suffixes as the table as written |
| `GameRules.IntendedUnitTable` | trunk/ghost/game.cpp:645-667 | in the intended table a minute is 60 seconds and an hour 60 minutes, and it differs from the table as written exactly on "minute", "minutes" and "m" |
| `GameRules.MinutesAreHours` | trunk/ghost/game.cpp:645-649 | as written, a ban of 5 "minutes" lasts 18000 seconds, as long as 5 hours, instead of 300 |
| `GameRules.DecideTempBan` | trunk/ghost/game.cpp:619-670 | the request is accepted exactly for a victim, a nonzero amount and a known lower-cased suffix, with length amount times the unit in 32 bits; amount 0 is rejected |
| `GameRules.TempBanIgnoresCase` | trunk/ghost/game.cpp:643 | the decision does not depend on the suffix's case |
| `GameRules.TempBanExamples` | trunk/ghost/game.cpp:643-670 | 2 "Weeks" is 1209600 seconds; 3 "M" is 10800 seconds, the same as 3 hours |
| `GameRules.TempBanRequest` | trunk/ghost/game.cpp:619-726 | once the game has loaded, a ban is requested exactly when the arguments are accepted and exactly one recorded ban matches the victim text |
| `GameRules.TempBanRequestTarget` | trunk/ghost/game.cpp:685-722 | a requested temporary ban is the one recorded ban whose lower-cased name contains the lower-cased victim text, and its length is amount times the unit in 32 bits |
| `GameRules.IsSubstringAt` | trunk/ghost/game.cpp:570 | the search succeeds exactly when the text occurs at some offset |
| `GameRules.MatchingBansSpec` | trunk/ghost/game.cpp:564-574 | a ban matches exactly when it is recorded and its lower-cased name contains the lower-cased victim text |
| `GameRules.BanTarget` | trunk/ghost/game.cpp:557-582 | the loop counts every matching ban, and a target results exactly when one ban matches, and it is that ban |
| `GameRules.FirstNotOf` | trunk/ghost/game.cpp:1317 | the first position outside the alphabet, or none when every character is in it |
| `GameRules.HclCommand` | trunk/ghost/game.cpp:1311-1327 | the handler's length test and `find_first_not_of` alphabet test give the same state as `SetHcl`; the override ends up set exactly when it was set or the payload is a non-empty valid HCL string |
| `GameRules.SetHcl` | trunk/ghost/game.cpp:1311-1327 | a non-empty payload that fits the slots and uses only the HCL alphabet is stored with the override set; anything else leaves the state unchanged |
| `GameRules.SetHclKeepsValid` | trunk/ghost/game.cpp:1311-1327 | a valid stored HCL string stays valid whatever commands follow |
| `GameRules.OverrideSticks` | trunk/ghost/game.cpp:1321 | once set, the override is never cleared by `!hcl` |
| `GameRules.ClampSetting` | trunk/ghost/game.cpp:1403-1417 | an empty payload keeps the value; otherwise the result lies in [lo, hi] and equals the parsed value strictly between the bounds |
| `GameRules.SetLatency` | trunk/ghost/game.cpp:1403-1417 | a set latency lies in [50, 500] |
| `GameRules.SetSyncLimit` | trunk/ghost/game.cpp:1843-1857 | a set sync limit lies in [10, 10000] |
| `GameRules.ClampFixedPoint` | trunk/ghost/game.cpp:1403-1417 | typing back the value that was set sets it again unchanged |
| `GameRules.LatencyOfNumber` | trunk/ghost/game.cpp:1843-1857 | a typed number is kept strictly between the bounds and replaced by the nearer bound otherwise, for both settings |

## Left out

- Logging (`CONSOLE_Print`) and chat output are left out: they are output only.
- `Player->SetTeam` in the per-player namespace is left out: it changes the game's player object, not the statistics.
- `SetForfeitDelayTime` is left out: it is a game-object call, not statistics.
- The concrete database callables (`ThreadedDotAEventAdd`, `ThreadedDotAGameAdd`, `ThreadedDotAPlayerAdd`, `ThreadedBanAdd`), the MySQL back end, its threads and its SQL are left out. They are I/O; the model emits an abstract list of rows instead.
- The util helpers' own source (`UTIL_ExtractCString`, `UTIL_ByteArrayToUInt32`, `UTIL_ToUInt32`, `UTIL_ToString`) is not part of this model. Each is given the contract its name and use imply.
- Util.ToUInt32: does not model leading whitespace or sign handling of the stream extraction it wraps. It reads the leading decimal digits and saturates at 2^32 - 1.
- GhostDb.NewDotAPlayerUnranked: rank and score are left uninitialised by the source. The model gives them the default constructor's values, and the contract says nothing about them.
- GameRules.DecideTempBan: the stringstream tokenisation of the payload is abstracted. The victim, amount and suffix arrive as already-extracted tokens; an empty token or `None` stands for a failed extraction. The reason text and the chat messages are left out.
- GameRules.BanTarget models the branch taken once the game has loaded, which matches against the recorded bans. The lobby branch, which calls `GetPlayerFromNamePartial`, is not part of this model because that function's source is not available.
- GameRules.TempBanRequest: the `Payload.empty()` and `m_BNETs.empty()` guards of `!tempban` (trunk/ghost/game.cpp:604) and of `!ban` (trunk/ghost/game.cpp:534) are left out; the model starts once the command is handled. The ban record's server, IP, game name, admin and reason fields are not modelled.
- GameRules.SetHcl: the `!m_CountDownStarted` guard on `!hcl` (trunk/ghost/game.cpp:1308) is left out; the model describes the command once it is handled.
- GameRules.OnAction: the `m_Stats &&` test before the latch (trunk/ghost/game.cpp:382) is left out; the model assumes a stats object exists.
- GameRules.LatchFiresOnce: requires every clock reading to be nonzero, because the source uses a zero game-over time to mean "not over yet".
- The `!latency` and `!synclimit` chat replies and the `Payload.empty()` report are left out; only the stored value is modelled.
- The remaining `CGHostDB` stubs, the other record constructors and the rating tools are left out: they are trivial field copies, foreign calls or floating point.
- The destructor of `CStatsDOTA` (ghostgproxy/statsdota.cpp:47-53) is modelled only as the set of records it frees (`StatsSave.DestructorFrees`). Heap memory itself is not modelled, so a second free shows up as a slot in `StatsSaveFacts.FreedTwiceAsWritten` rather than as undefined behaviour.
- GameRules.DecideTempBan keeps the unit table as written (a minute counts 3600 seconds), because it states the ban length the program requests; the intended table is `GameRules.IntendedSecondsPerUnit`.

## Findings

| source | as written | input that shows it | evidently intended | confidence | as-written member | corrected member |
|---|---|---|---|---|---|---|
| ghostgproxy/statsdota.cpp:571-577 | a slot whose colour is not a player colour is deleted, but its pointer stays in the table; when the colour check passes, the row loop at 593-616 reads the freed record | one `Hero2` record with killer colour 0 (the Sentinel, no player) while colour 2 is in the game: slot 2 is created with colour 0 for the death; `Save` then deletes it and reads it again, and the destructor frees it a second time | the slot is cleared and writes no row | high (not executed) | `StatsSaveFacts.SaveAsWritten`, `StatsSaveFacts.DanglingAfterSentinelKill` | `StatsSave.Save`, `StatsSave.PlayerRowsAreKeptSlots` |
| ghostgproxy/statsdota.cpp:47-53 | the destructor deletes every slot whose pointer is set, and `Save` leaves the pointers of the records it deleted at 575 set, so those records are freed twice; this also happens when the duplicate check returns early at 583-585 | one `Hero2` record with killer colour 0 while colour 2 is in the game frees slot 2 twice; `Hero2` and `Hero3` records with killer colour 0 leave two unstamped slots, so `Save` returns early after deleting slot 2, and slot 2 is again freed twice | each deleted slot is cleared, and the destructor frees each record once | high (not executed) | `StatsSaveFacts.FreedTwiceAsWritten`, `StatsSaveFacts.DoubleFreeOnAbort`, `StatsSaveFacts.DanglingAfterSentinelKill` | `StatsSave.SaveTable`, `StatsSave.NoDoubleFree` |
| trunk/ghost/game.cpp:645-649 | "minute", "minutes" and "m" give 3600 seconds per unit, the same as an hour; the later month branch's "m" is never reached | `!tempban x 5 minutes` requests a ban of 18000 seconds | a minute counts 60 seconds | medium (not executed; the comment at 640 lists "m" as a month suffix) | `GameRules.UnitTable`, `GameRules.MinutesAreHours` | `GameRules.IntendedSecondsPerUnit`, `GameRules.IntendedUnitTable` |
