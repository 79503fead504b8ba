# Kingdom health ledger — a Dafny model

`sante.py` tracks the health of the players of a Kingdom (muxxu) role-play.
Players post status messages on a Twinoid forum. Each line of a message gives
a player's age and a health label. Labels come from 14 ordered ranks:
born, eight counting ranks, excellent, good, bad, death pending and dead.
From the counting ranks a player moves up one rank per message. From excellent
to bad, a hundred-sided dice decides, against a threshold that grows with the
days since birth.

The program does the following:

- It reads the forum in order. It skips the messages the operator excepts.
- It validates every other message as a whole against the ledger as it stood
  before that message, then commits all of it or rejects all of it.
- It adds the birth events from the map logs.
- It adds an age snapshot for every ranked player it already knows. Unknown ids
  are skipped.
- It writes two reports: a complete one for the next message, and a short
  one with a mood glyph per player.
- It checks how recent the forum data is.

The model covers these parts:

| file | module | what it holds |
|---|---|---|
| `health.dfy` | `Health` | the rank labels, the health step `new_health`, the dice threshold |
| `model.dfy` | `Model` | players, their timestamp-keyed histories, `Player` and `MessageExcept` equality, `last_born` |
| `forum.dfy` | `Forum` | `read_forum_sources`: per-line validation, all-or-nothing commit, the fold over pages and messages, and the loop that implements it |
| `forum_laws.dfy` | `ForumLaws` | laws of the forum fold: exceptions, all-or-nothing, frames, the ledger invariant |
| `births.dfy` | `Births` | the birth-event part of `get_map_histo` |
| `rankings.dfy` | `Rankings` | `read_ranking_sources` |
| `ingestion.dfy` | `Ingestion` | the class `Ledger`, whose methods update the `players` dictionary in place for births and rankings |
| `reports.dfy` | `Reports` | `write_message`, `clean_message`, the name order, `checks` |
| `config.dfy` | `Config` | `get_inputs` line dispatch and the `MuxxuGroup` name rule |
| `text.dfy` | `Text` | `str.partition`, `split`, `between`, integer formatting and parsing, string order |
| `wrappers.dfy` | `Wrappers` | `Option` and `Result` |

Modelling conventions:

- Instants are integer seconds. A calendar day is `t / 86400`.
- Date parsing and formatting (`strptime`, `strftime`, `dateparser`) are
  parameters or pre-parsed fields.
- Forum messages arrive pre-parsed. Each line is a record or a grammar
  failure; the message time and a birth date each parse or fail.
- Looking a player up on the site (`get_player_from_muxxu_id`) is the
  parameter `lookup`.
- Python exceptions are `Result` errors. A validation exception rejects the
  message, and the model records its position (the warning the program logs).
- A `RuntimeError` or `AssertionError` during births or rankings is fatal.
  The model returns the ledger as it stood at that point together with the
  failure.

## Model

| member | source | states |
|---|---|---|
| Health.NewHealth | sante.py:224-233 | below excellent the health goes up by one whatever the dice; dead has no successor (error); death pending stays; from excellent to bad a missing dice or threshold is an error, otherwise the health goes up exactly when dice <= threshold; so a result is always h or h+1 and never dead |
| Health.GetThreshold | sante.py:236-238 | the threshold is a multiple of 3, at least 9 for non-negative days, and 9 for days 0..9 |
| Health.ThresholdValues | sante.py:236-238 | 9 at days 0 and 9, 12 at 10, 15 at 25, 6 at -1 (floor division) |
| Health.ThresholdMonotone | sante.py:236-238 | the threshold never decreases as the days grow |
| Health.ThresholdStep | sante.py:236-238 | ten more days add exactly 3 to the threshold |
| Health.LabelOf | sante.py:183-186 | a label starting with `né le ` is a birth; any other label is the rank whose `SANTE` text it equals, and never rank 0; no rank otherwise (`SANTE.index` fails) |
| Health.SanteBornFirst | sante.py:38-39 | the label of rank 0 starts with `né le ` |
| Health.SanteDistinct | sante.py:38-39 | two different ranks have different labels |
| Health.SanteNotBorn | sante.py:38-39 | no label other than rank 0's starts with `né le ` |
| Health.LabelOfSante | sante.py:38-39 | every rank other than born reads back from its own label as that rank (the labels are distinct) |
| Health.LabelOfBorn | sante.py:183-184 | `né le ` followed by any date reads as a birth |
| Model.PlayerEquals | sante.py:144-148 | a player equals another player or a bare id exactly when the muxxu ids agree |
| Model.PlayerEqualsEquivalence | sante.py:144-148 | player equality is symmetric and transitive, and agrees with comparing against the other player's id |
| Model.ExceptEquals | sante.py:61-69 | an exception equals another exception or a triple exactly when thread, page and position agree; any other operand is an error |
| Model.IsExcepted | sante.py:301 | `(thread, page, i) in excepts` holds exactly when an exception with those coordinates is listed |
| Model.MaxExists | sante.py:316 | a non-empty set of instants has a maximum (`max(p.states)`) |
| Model.MaxTime | sante.py:316 | the maximum belongs to the set and bounds all its members |
| Model.Latest | sante.py:316 | the latest recorded instant of a player; absent exactly when the history is empty (`max` raises) |
| Model.LastBorn | sante.py:153-156 | the latest instant with health 0, bounding all birth instants; absent exactly when no state has health 0 |
| Model.LastClassified | sante.py:413-414 | the latest instant whose health is known; absent exactly when every health is unknown |
| Forum.ReportedHealth | sante.py:181-188 | a birth label reports health 1; an unknown label is rejected; a rank label reports `new_health` of its rank with the line's dice and threshold exactly when that step succeeds, and the step's error otherwise; a reported health is between 1 and death pending |
| Forum.Previous | sante.py:309-316 | the state at the player's latest instant; absent exactly when the player is unknown or has no state |
| Forum.CheckLine | sante.py:307-322 | one line's validation against the ledger before the message; its meaning is stated by Forum.LineAcceptance |
| Forum.LineAcceptance | sante.py:305-322 | a line passes exactly when it parses, its label gives a health, a dice annotation's threshold is the one for the whole days since the player's last birth (the player known and born), a health other than 1 is `new_health` of the latest recorded health, and a birth date parses |
| Forum.CheckLinesAll | sante.py:307-322 | a message passes exactly when every one of its lines passes |
| Forum.PassedLinesCommittable | sante.py:305-344 | every line of a passed message can be written (it parses, has a health and a parsable birth date) |
| Forum.PassedLineCommittable | sante.py:305-322 | a line that passes validation can be written |
| Forum.ValidateBlock | sante.py:305-331 | the validation loop returns exactly the message's first rejection (a bad message time first), or none |
| Forum.CommitBlock | sante.py:334-343 | the commit loop leaves exactly the ledger of writing each line in order |
| Forum.ReadForumSources | sante.py:286-345 | the nested loops over pages and messages return exactly the ledger, last date and rejected positions of the forum fold |
| ForumLaws.ExceptedBlockInert | sante.py:299-303 | an excepted message changes nothing: no state, no last date, no rejection |
| ForumLaws.BlockAllOrNothing | sante.py:305-344 | a rejected message leaves ledger and last date unchanged and is recorded; an accepted one writes every line and moves the last date to the later of the two |
| ForumLaws.BlocksSuffix | sante.py:299 | reading a page from message i on depends only on the messages from i on |
| ForumLaws.ExceptedBlockIgnored | sante.py:299-303 | replacing an excepted message of a page by any other text does not change the result of reading the page |
| ForumLaws.ExceptedMessageIgnored | sante.py:298-303 | replacing an excepted message anywhere in the forum by any other text does not change the result of reading the forum |
| ForumLaws.CommitFrame | sante.py:334-343 | committing lines that do not name a player leaves that player as it was, present or absent |
| Forum.CommitLine | sante.py:335-343 | writing one line of an accepted message; what it writes is stated by ForumLaws.CommitLineWrites, what it adds by ForumLaws.CommitLineEffect, what it keeps by ForumLaws.CommitFrame and ForumLaws.CommitKeepsHistory |
| Forum.CommitLines | sante.py:334-343 | writing every line of an accepted message in order; stated by ForumLaws.CommitLastLine, ForumLaws.CommitLinesAdds, ForumLaws.CommitFrame, ForumLaws.CommitKeepsHistory and ForumLaws.CommitLinesPreserve |
| Forum.StepBlock | sante.py:300-344 | one message of the fold: skipped when excepted, else validated and committed or rejected; stated by ForumLaws.ExceptedBlockInert and ForumLaws.BlockAllOrNothing |
| Forum.Blocks | sante.py:299-344 | the messages of one page in order; stated by ForumLaws.BlocksSuffix, ForumLaws.ExceptedBlockIgnored and ForumLaws.BlocksPreserve |
| Forum.Sources | sante.py:298-344 | the pages in order; stated by ForumLaws.SourcesPreserve and ForumLaws.ExceptedMessageIgnored |
| Forum.ReadForum | sante.py:286-345 | the whole forum read from an empty ledger and 1 January 2000; stated by ForumLaws.ReadForumLedger, and Forum.ReadForumSources is the loop proved equal to it |
| ForumLaws.CommitLineWrites | sante.py:336-343 | writing one line leaves the line's age and health at the message time (the birth state when its birth date is that time) and the birth state at its birth date |
| ForumLaws.CommitLineEffect | sante.py:335-343 | writing one line adds only the line's player, and to it only the message time and the line's birth date; a known player keeps its id, twino id and name, a new one takes them from the line |
| ForumLaws.CommitLinesAdds | sante.py:334-343 | a commit adds no player the message does not name, and gives a player no instant but its own, the message time and the birth dates of the lines naming it |
| ForumLaws.LineNeverLowers | sante.py:315-319 | an accepted line without a newborn label reports the health at the player's latest instant or the next rank, never less |
| ForumLaws.BornLabelRestarts | sante.py:315 | a newborn label is accepted for a known player in bad health, whose health then restarts at 1 |
| ForumLaws.EarlierMessageAccepted | sante.py:305-343 | a message older than the player's latest instant is accepted and written before it |
| ForumLaws.CommitFirstLine | sante.py:334-343 | when no later line of the message names the first line's player, the whole commit keeps what the first line wrote |
| ForumLaws.CommitLastLine | sante.py:334-343 | after a commit, a player's state at the message time is the one its last line reports (or the birth state when that line's birth date is the message time), and a birth date on that line holds the birth state (20 years, 0 months, health 0) |
| ForumLaws.CommitKeepsHistory | sante.py:334-343 | a commit keeps every known player and every recorded instant; an instant other than the message time and the birth dates keeps its state |
| ForumLaws.CommitLinePreserves | sante.py:334-343 | writing a line keeps the ledger keyed by id with non-empty histories whose healths are all known and never dead |
| ForumLaws.CommitLinesPreserve | sante.py:334-343 | writing a whole message keeps that ledger invariant |
| ForumLaws.BlocksPreserve | sante.py:299-344 | reading a page keeps the invariant and never moves the last date back |
| ForumLaws.SourcesPreserve | sante.py:298-344 | reading pages keeps the invariant and never moves the last date back |
| ForumLaws.ReadForumLedger | sante.py:296-345 | the forum's ledger is keyed by id, every history is non-empty with known, non-dead healths, and the last date is at least 1 January 2000 |
| Births.LogBirths | sante.py:354-359 | a map log yields at most as many birth events as it has entries |
| Births.LogBirthsSingle | sante.py:355-359 | a single birth entry yields its event, any other entry nothing |
| Births.LogBirthsAppend | sante.py:354 | the births of the older part of a log (further down the page) come before those of the newer part: the log is read in chronological order |
| Births.LogBirthsMembers | sante.py:354-359 | an event comes out of a log exactly when the log holds a birth entry for that id and instant |
| Births.ApplyBirth | sante.py:360-367 | a birth event fails exactly when the player already has a state at that instant whose health is not 0, and then names that player and instant |
| Births.ApplyBirthEffect | sante.py:360-367 | an event already recorded changes nothing; a successful event adds exactly its instant, with the birth state (20 years, 0 months, health 0), to a known player that otherwise keeps its identity and states, or files an unknown id as the looked-up player with only that state; every other player is kept |
| Births.BirthIdempotent | sante.py:363-367 | applying the same birth event twice equals applying it once |
| Births.ApplyBirths | sante.py:351-367 | the events in order, stopping at the first fatal one; stated by Births.ApplyBirthsExtends, Births.ApplyBirthsRecords, Births.ApplyBirthsTwice and Births.ApplyBirthsKeyed |
| Births.ApplyBirthsExtends | sante.py:351-367 | a run of events never removes a player or a recorded instant, nor changes an existing state |
| Births.ApplyBirthsRecords | sante.py:351-367 | after a run without failure every event's birth state is recorded |
| Births.ApplyBirthsRecorded | sante.py:363-366 | a run whose events are all recorded already changes nothing and does not fail |
| Births.ApplyBirthsTwice | sante.py:351-367 | replaying a successful run of events changes nothing |
| Births.ApplyBirthsKeyed | sante.py:360-361 | a run keeps every player filed under its own id |
| Rankings.ApplyRow | sante.py:394-404 | an unknown id leaves the ledger unchanged; a known player with no state or a state not before `now` is fatal; otherwise exactly the snapshot (years, months or 0, unknown health) is added at `now`, all else unchanged |
| Rankings.SecondRowFatal | sante.py:403-404 | a second row for the same known player in one run is fatal |
| Rankings.RowsFrame | sante.py:393-404 | rows that do not name a player leave that player unchanged |
| Rankings.DuplicateRowsFatal | sante.py:391-404 | two rows anywhere for the same known player make the run fatal |
| Rankings.ApplyRows | sante.py:391-404 | the rows in order, stopping at the first fatal one; stated by Rankings.RowsFrame, Rankings.DuplicateRowsFatal, Rankings.ApplyRowsSplit and Rankings.RowsRecordSnapshots |
| Rankings.ApplyRowsSplit | sante.py:391-404 | running rows is running a prefix, then the rest unless the prefix failed |
| Rankings.RowsRecordSnapshots | sante.py:394-404 | after a run without failure every known player that has a row holds that row's snapshot at `now` |
| Ingestion.Ledger.AddBirthEvents | sante.py:351-367 | the in-place loop over the groups' logs leaves exactly the ledger and failure of the birth-event run |
| Ingestion.Ledger.AddLogBirths | sante.py:354-367 | the in-place loop over one log, oldest first, leaves the ledger of that log's events |
| Ingestion.Ledger.AddBirth | sante.py:360-367 | one in-place birth event ends with the ledger of the event, or with its failure and the ledger unchanged |
| Ingestion.Ledger.AddRankings | sante.py:391-404 | the in-place loops over pages and rows leave exactly the ledger and failure of the snapshot run |
| Reports.KeysAscending | sante.py:410 | one entry per id, each a member of the set |
| Reports.KeyIndex | sante.py:410 | each member of the set has a position among the ordered ids |
| Reports.KeysAscendingCovers | sante.py:410 | the ordered ids hold every member of the set |
| Reports.KeysAscendingIncreasing | sante.py:410 | the ordered ids are strictly increasing |
| Reports.InsertByName | sante.py:410 | inserting into a name-sorted list keeps it sorted and adds exactly that player |
| Reports.SortByName | sante.py:410 | the result is sorted by name and a permutation of the input |
| Reports.Roster | sante.py:410 | `sorted(players.values(), key=name)`; stated by Reports.RosterSpec, Reports.RosterCovers and Reports.RosterFromLedger |
| Reports.LedgerOrder | sante.py:410 | `players.values()` has one entry per player of the ledger |
| Reports.RosterSpec | sante.py:410 | the roster is sorted by name and has as many entries as the ledger has players |
| Reports.RosterCovers | sante.py:410 | every player of the ledger is in the roster |
| Reports.RosterFromLedger | sante.py:410 | every roster entry is a player of the ledger |
| Reports.Present | sante.py:411 | no more players than the roster, each with a state at the given instant |
| Reports.PresentMembers | sante.py:411 | a player is kept exactly when it is in the roster and has a state at the given instant |
| Reports.PresentSorted | sante.py:410-411 | keeping the present players of a name-sorted roster leaves them name-sorted, taken from the roster without repetition beyond it |
| Reports.PresentLinesSpec | sante.py:410-427 | one line per present player, in roster order; rendering fails exactly when one of those lines fails |
| Reports.RenderPresent | sante.py:410-427 | the generator loop yields exactly those lines, stopping at the first failure |
| Reports.IntToStringReadsBack | sante.py:423 | a written threshold reads back as the number: its digits parse to it, after a minus sign when it is negative |
| Reports.HealthTextReadsBack | sante.py:415-418 | the written health reads back as a birth for health 0 and as its own rank otherwise, so re-reading it yields `new_health` of it, not the label |
| Reports.RegimeSuffix | sante.py:419-425 | ` + 1` for ranks 1 to 8; empty for 0, death pending and dead; for excellent to bad the dice placeholder with the threshold for the given days, and nothing exactly when there are no days (no birth) |
| Reports.CompleteLine | sante.py:411-427 | one complete-report line; stated by Reports.CompleteLineSpec |
| Reports.CompleteLineSpec | sante.py:411-427 | a line fails without a classified state, and fails for a dice-regime health exactly when no birth is recorded; otherwise it is the identity, the text of the latest classified health, and ` + 1`, the dice placeholder with the threshold for the days since the last birth, or nothing |
| Reports.WriteMessage | sante.py:407-428 | the complete report; stated by Reports.WriteMessageShape |
| Reports.WriteMessageShape | sante.py:407-428 | the report opens with `Liste des joueurs:`, closes with the footer and the run instant, and holds one line per player present at `now`, in the order of those players, which is name order; it fails exactly when one of those lines does |
| Reports.WriteReport | sante.py:407-428 | running the generator to the end gives exactly the complete report |
| Reports.Glyph | sante.py:439-443 | the mood glyph of a health; stated by Reports.GlyphBands |
| Reports.GlyphBands | sante.py:439-443 | two ranks share a glyph exactly when both are below excellent, both are beyond bad, or they are equal |
| Reports.CleanLine | sante.py:438-445 | a clean line fails exactly when the state's health is unknown |
| Reports.CleanMessage | sante.py:431-445 | the clean report; stated by Reports.CleanMessageShape |
| Reports.CleanMessageShape | sante.py:431-445 | the clean report opens with the dated header and holds one line per player with a state at the last date, in the order of those players, which is name order; it fails exactly when one of those healths is unknown |
| Reports.CleanReport | sante.py:431-445 | running the generator to the end gives exactly the clean report |
| Reports.Checks | sante.py:455-460 | the recency verdict; stated by Reports.ChecksSpec |
| Reports.ChecksSpec | sante.py:455-460 | quiet exactly when `now` falls on the day of the last message or the day after; stale when two or more days later; from the future when earlier; only the calendar days matter |
| Config.FirstBadChar | sante.py:113 | the first character not allowed in a group name, all before it allowed |
| Config.NewMuxxuGroup | sante.py:103-114 | a group is built exactly when every name character is an ASCII letter or digit, `-` or `_`; otherwise the error names the group |
| Config.Dispatch | sante.py:254-260 | group lines first: an unreadable line is an error, otherwise the group built from the parsed name, map and city, or the name error; then thread lines (the id is the rest of the line, an error when not a number); then exception lines (the parsed exception, an error when unreadable); every other line is ignored |
| Config.ThreadLineRoundTrip | sante.py:257-258 | a thread line written from an id is read back as that id |
| Config.CollectSpec | sante.py:254-260 | collecting succeeds exactly when every data line dispatches, and adds one entry per directive line, keeping earlier entries as a prefix |
| Config.CollectLast | sante.py:254-260 | one more data line appends its group, thread id or exception to the list of its kind, adds nothing for any other line, and an error in it or before it ends the collection |
| Config.FirstWith | sante.py:251-252 | the first page line holding the editor marker |
| Config.ReadInputs | sante.py:243-263 | the inputs of the data page: an error without an editor line, else the collected directives; stated by Config.CollectSpec and Config.CollectLast, and Config.GetInputs is the loop proved equal to it |
| Config.GetInputs | sante.py:243-263 | the loop appending to the three lists returns exactly the collected inputs; no editor line is an error |
| Text.Find | sante.py:207 | the first occurrence of a separator, none before it |
| Text.Partition | sante.py:207 | `str.partition`: the three parts concatenate to the text, the separator is found exactly when it occurs, and then at its first occurrence |
| Text.Between | sante.py:206-207 | `between`; stated by Text.BetweenSpec |
| Text.BetweenSpec | sante.py:206-207 | `between` is the text after the first `before` up to the next `after`, holding no `after`; empty when `before` does not occur |
| Text.Split | sante.py:254 | `str.split` gives at least one piece, none holding the separator; the text itself when the separator does not occur, else the text up to its first occurrence followed by the pieces of the rest |
| Text.JoinSplit | sante.py:254 | joining the pieces with the separator gives back the text |
| Text.NatToString | sante.py:426 | decimal digits, non-empty, no leading zero |
| Text.ParseNat | sante.py:258 | a number exactly for a non-empty digit string |
| Text.ParseNatToString | sante.py:258 | a written number parses back to itself |
| Text.Pad2 | sante.py:426 | `{:02d}` is at least two digits |
| Text.Pad2Reads | sante.py:426 | the padded month parses back to the month |
| Text.LessEqTotal | sante.py:410 | the name order is total |
| Text.LessEqTrans | sante.py:410 | the name order is transitive |
| Text.IndexOf | sante.py:186 | `list.index`: the first position holding the value, none before it |

## Left out

- Network access and rate limiting are not modelled: `get_source_code`, `get_from_forum`, `get_rankings`, the fetch in `get_inputs`, and the site lookup in `get_player_from_muxxu_id`, which is the `lookup` parameter.
- Date parsing and formatting (`dateparser.parse`, `strptime`, `strftime`) are parameters or pre-parsed fields. A forum message time or birth date that fails to parse is a failure case of its record.
- A map-log date has no failure case. In the source, `dateparser.parse` returns `None` for a date it cannot read (sante.py:357). The program then files a state under the key `None` (sante.py:367), and a later `max(p.states)` raises. That path is not modelled.
- The HTML regular expressions that pull players, states, dice, ranking rows, map-log entries, group lines and exception lines out of the pages are not modelled. This includes splitting messages on the intro marker. Forum lines, group lines and exception lines arrive as records with a failure case.
- Map-log entries and ranking rows arrive already read and have no failure case. The source crashes on a birth entry without a user link (`datas.group(1)` on no match) and on a ranking row whose id is not a number (`int(...)`). Those crashes are not modelled.
- The dice and threshold come from a single field. The source reads them twice, with two regular expressions; the model takes both to read the same annotation.
- A message's line list may be empty. The source's `split` always yields at least one line, and an empty line fails the grammar.
- A ranking row whose age does not parse is not modelled (the source raises on it). Neither is the informational log line for unknown ids.
- A player's healths are not stated to be non-decreasing in time, because the program does not keep them so. A line with a newborn label is accepted for any player, known or not (sante.py:315), and restarts that player's health at 1 (ForumLaws.BornLabelRestarts). Every other accepted line reports the latest health or the next rank (ForumLaws.LineNeverLowers).
- New instants are not stated to be later than a player's latest one, because the forum reading does not check it. A message older than a player's latest instant is accepted and written (ForumLaws.EarlierMessageAccepted). Only the ranking snapshot checks that the player's latest state is before `now` (Rankings.ApplyRow).
- Players with equal names are ordered by muxxu id. The source's stable sort keeps dictionary insertion order, which the model does not track.
- Config.NewMuxxuGroup: `isalnum` is taken as ASCII letters and digits. The source's Unicode `isalnum` also accepts accented letters.
- Text.ParseNat: `int()` is modelled on plain digit strings. Python also accepts signs, surrounding spaces and underscores.
- `PlayerState.time` is not a field. Every state is stored under its own instant, which is the map key.
- Not modelled:
  - `PlayerState.age`, which is floating point;
  - `PlayerState.__eq__`, which only raises;
  - the `__repr__` methods;
  - `main`, with its simulation offset, printing, sleeps, logging and tracebacks;
  - the plotting imports and all commented-out code.
- The string labels are compared character by character. No Unicode normalisation or case folding is done.
