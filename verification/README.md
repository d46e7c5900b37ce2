# Werewolf GM tool — a Dafny model

The werewolf game-master tool is a single Streamlit page. The game master:

- picks the participant count (9 to 11);
- fixes a role table (役職テーブル) from a preset for that count;
- enters up to thirteen participant names, one by one or as one comma-separated line (反映);
- draws a random speaking order (発言順割り当て);
- deals out the roles at random (役職割り当て);
- draws a prophecy target (お告げ決定);
- copies the speaking order or the role list as text.

This project models the logic behind those buttons as pure functions over immutable data. The random draws of `random.randint` and `random.choice` become parameters: draw sequences with their ranges, and a pick index. The session state becomes explicit inputs and outputs.

Modules:

- `Options`: an optional value, for row fields that may be unset.
- `Seqs`: map, filter and count over sequences, plus the fact that mapping preserves permutations.
- `StableSort`: a stable sort by an integer key. It stands in for Python's guaranteed-stable `list.sort(key=...)`. It is proved ordered, a permutation, and stable: every run of equal keys keeps its order.
- `Text`: Python's `str.strip()` with the full `str.isspace()` character set, `split`, `join`, `startswith`, and the `{n:02}` format.
- `Presets`: the three preset role tables and what they contain.
- `BulkNames`: parsing the comma-separated name line and writing it into the thirteen player slots.
- `Table`: the table rows, the speaking-order button, the role button as written, and a checked variant of the role button.
- `Prophecy`: the prophecy draw.
- `Export`: the two copy texts, and how to read them back line by line.
- `Game`: the buttons used in sequence. This covers the stale role table that crashes the role button.

Points where the script behaves in ways one might not expect (the model follows the script):

- After roles are dealt, the table is listed in draw B order, not in speaking-order label order.
  - Every row still keeps its own label and name (`Table.SpeakingOrderSurvivesRoles`).
  - The display order does change (`Table.RoleTableNotInLabelOrder`).
- The prophecy excludes roles by name: names starting with 人狼, and the exact name 占い. There is no exclusion flag.
- A row with no role prints `None` in the role copy text, not an empty string.
- No check stops a role table whose size differs from the table's row count:
  - fewer roles than rows stops with an IndexError after the table has already been re-sorted in place;
  - more roles than rows silently drops the extra roles.

## Model

| member | source | states |
|---|---|---|
| Presets.RolePreset | werewolf-GMtool.py:62-102 | counts 9, 10 and 11 give a table of exactly that many roles; every other count gives the empty table |
| Presets.PresetComposition | werewolf-GMtool.py:62-102 | each preset for 9 to 11 has as its werewolves exactly its first roles (three for 11, two otherwise), exactly one seer and one medium, a knight exactly when the count is not 11 and the dual-gun role exactly when it is 11 |
| Presets.NineComposition | werewolf-GMtool.py:64-74 | the nine-player table has its first two roles, and no others, as werewolves, one seer, one medium, a knight and no dual-gun |
| Presets.TenComposition | werewolf-GMtool.py:76-87 | the ten-player table has its first two roles, and no others, as werewolves, one seer, one medium, a knight and no dual-gun |
| Presets.ElevenComposition | werewolf-GMtool.py:89-101 | the eleven-player table has its first three roles, and no others, as werewolves, one seer, one medium, the dual-gun and no knight |
| Presets.WerewolfStartsWith | werewolf-GMtool.py:159 | a role is a werewolf exactly when its name starts with 人狼 |
| BulkNames.ParseNames | werewolf-GMtool.py:118 | the names are the comma-separated pieces that are not all whitespace, each stripped, in the order of the line; every name is non-empty, comma-free and has no whitespace at either end |
| BulkNames.TokensStripNamed | werewolf-GMtool.py:118 | the parser keeps exactly the pieces that hold more than whitespace, in order, and strips each |
| BulkNames.ParseTwoNames | werewolf-GMtool.py:118 | the line "Alice, Bob" gives the names Alice and Bob; the space after the comma is not part of a name |
| BulkNames.TokensCount | werewolf-GMtool.py:118 | the number of names is the number of pieces minus the pieces that are all whitespace |
| BulkNames.ParseJoin | werewolf-GMtool.py:118 | joining clean names with commas and parsing gives back the same names in the same order |
| BulkNames.ApplyBulkNames | werewolf-GMtool.py:117-121 | the i-th parsed name overwrites slot i while there are slots; all other slots keep their names; the slot count is unchanged |
| BulkNames.WriteNames | werewolf-GMtool.py:119-121 | the write loop puts names into the leading slots and leaves the rest alone |
| Text.Strip | werewolf-GMtool.py:118 | the result is a contiguous piece of the input that neither starts nor ends with whitespace |
| Text.StripSpaces | werewolf-GMtool.py:118 | only whitespace is cut away on either side |
| Text.StripEmpty | werewolf-GMtool.py:118 | a piece strips to empty exactly when it is all whitespace |
| Text.StripIdempotent | werewolf-GMtool.py:118 | stripping a stripped piece changes nothing |
| Text.Split | werewolf-GMtool.py:118 | splitting gives at least one piece, no piece holds the separator, and joining the pieces restores the text |
| Text.SplitJoin | werewolf-GMtool.py:166 | splitting a join of separator-free pieces gives the pieces back |
| Text.Pad2 | werewolf-GMtool.py:142 | the label of positions 1 to 99 is two decimal digits that read back as the position |
| Text.Pad2Injective | werewolf-GMtool.py:142 | different positions get different labels |
| StableSort.Sort | werewolf-GMtool.py:140 | the result is ordered by key, is a permutation of the input, and keeps elements with equal keys in their input order |
| Table.Selected | werewolf-GMtool.py:135 | the first numPlayers slots, or all slots when there are fewer |
| Table.AssignSpeakingOrder | werewolf-GMtool.py:134-145 | the rows are the selected names with their own draw A in non-decreasing draw A order, with ties kept in slot order; row i is labelled i+1; no row has a draw B or a role |
| Table.SpeakingOrderLabels | werewolf-GMtool.py:141-142 | label i reads back as i+1, so labels are pairwise distinct |
| Table.Stamp | werewolf-GMtool.py:150-151 | forgetting draw B the rows are unchanged, and the draws B read off the rows in table order are the draws, one per row |
| Table.GiveRoles | werewolf-GMtool.py:153-154 | apart from their roles the rows are unchanged; the roles of the leading rows read off in order are the leading roles of the role table, as far as either reaches; the rows past the last role are untouched |
| Table.AssignRoles | werewolf-GMtool.py:148-155 | skipped exactly when roles or table is empty; completes exactly when there are at least as many roles as rows; IndexError exactly when there are fewer; when it runs, the rows are the table re-drawn and stably sorted by draw B with row idx holding roles[idx]; after an IndexError the rows past the roles are untouched stamped rows |
| Table.AssignRolesUsesEveryRole | werewolf-GMtool.py:148-155 | with one role per row, the roles read in table order are exactly the role table, so each role is used once |
| Table.AssignRolesKeepsIdentities | werewolf-GMtool.py:148-155 | the (label, name, draw A) triples of the rows are unchanged as a multiset |
| Table.AssignedRowsComeFromTable | werewolf-GMtool.py:148-155 | each row after dealing carries the label, name and draw A of some row before it |
| Table.SpeakingOrderSurvivesRoles | werewolf-GMtool.py:134-155 | after dealing, each row still pairs a speaking-order label with the name that label was given |
| Table.RoleTableNotInLabelOrder | werewolf-GMtool.py:148-155 | of two rows whose draws B come out decreasing, the second is listed first and gets the first role, so the rows leave speaking-order label order |
| Table.Deal | werewolf-GMtool.py:150-154 | the dealt rows are the table re-drawn and stably sorted by draw B; row idx holds roles[idx] while roles last; rows past the roles are stamped rows untouched |
| Table.AssignRolesChecked | werewolf-GMtool.py:148-155 | the corrected button: it does not run on empty input and reports a mismatch exactly when the counts differ; when it deals, the roles in table order are exactly the role table |
| Table.CheckedUsesEveryRole | werewolf-GMtool.py:153-154 | under the check, every row receives a role and the roles dealt are the role table as a multiset |
| Table.FewerRolesLeaveRowsUnroled | werewolf-GMtool.py:153-154 | with fewer roles than rows the button ends in an IndexError and the last row keeps no role; the checked variant reports a mismatch |
| Table.ExtraRolesDropped | werewolf-GMtool.py:153-154 | with more roles than rows only the leading roles are dealt; the checked variant reports a mismatch |
| Prophecy.Candidates | werewolf-GMtool.py:159 | a role is a candidate exactly when it is in the role table, its name does not start with 人狼 and it is not 占い |
| Prophecy.DrawProphecy | werewolf-GMtool.py:158-160 | with no roles the old prophecy stays; with no candidate it becomes empty; otherwise it is a role of the table that is neither a werewolf nor 占い |
| Prophecy.DrawCoversCandidates | werewolf-GMtool.py:159-160 | every role that is neither a werewolf nor 占い can be drawn |
| Prophecy.EmptyProphecyMeansNoCandidate | werewolf-GMtool.py:159-160 | when no role is named "", the prophecy is empty exactly when every role is a werewolf or 占い |
| Prophecy.MediumInPreset | werewolf-GMtool.py:62-102 | every preset for 9 to 11 contains 霊媒 |
| Prophecy.PresetHasCandidates | werewolf-GMtool.py:159 | every preset offers the medium as a candidate, so the prophecy from a preset is never empty |
| Export.RoleLabel | werewolf-GMtool.py:175 | a row without a role shows as the text None; a row with a role shows that role's name |
| Export.SpeakingOrderText | werewolf-GMtool.py:166 | an empty table copies as empty text |
| Export.RoleListText | werewolf-GMtool.py:174-176 | an empty table copies as empty text |
| Export.SplitFirst | werewolf-GMtool.py:166 | helper used to read a line back: cuts at the first separator, or reports there is none |
| Export.SplitLast | werewolf-GMtool.py:175 | helper used to read a line back: cuts at the last separator, or reports there is none |
| Export.SpeakingLineRoundTrip | werewolf-GMtool.py:166 | a speaking-order line reads back as the label and name, for any name |
| Export.RoleLineRoundTrip | werewolf-GMtool.py:175 | a role line reads back as label, name and role text, where a missing role prints as None |
| Export.SpeakingOrderTextLines | werewolf-GMtool.py:166 | the speaking-order text has one line per row, in table order, each giving back that row's label and name |
| Export.RoleListTextLines | werewolf-GMtool.py:174-176 | the role text has one line per row, in table order, each giving back that row's label, name and role |
| Game.LabelIsDigits | werewolf-GMtool.py:142 | a label contains neither '.' nor a line break |
| Game.SpeakingOrderCopyReadsBack | werewolf-GMtool.py:166 | copying a fresh speaking order gives line i as label i+1 and the name drawn into that place |
| Game.MatchingPresetUsesEveryRole | werewolf-GMtool.py:148-155 | with the preset and the speaking order for the same count, dealing completes and uses every preset role once |
| Game.StaleRoleTableCrashes | werewolf-GMtool.py:148-155 | a nine-role table dealt to a ten-row speaking order ends in an IndexError with the tenth row left unroled; the checked variant reports the mismatch |

## Left out

- Streamlit page layout, widgets, headings and the participant-count input bounds (lines 51-59): these are UI. The model accepts any count, and `RolePreset` returns the empty table outside 9 to 11, as the code does.
- The session-state initialisation (lines 20-34) and the reset button (lines 38-49): these only assign constants to state. The initial player list, thirteen empty names, is the helper `BulkNames.InitialPlayers`.
- The per-slot name inputs (lines 124-131): these are UI that overwrite one slot each.
- Writing the copied text to the clipboard through an embedded script, and the success messages (lines 167-171, 177-181): these are I/O. Only the text is modelled.
- The pandas table display and the prophecy display (lines 184-201): these are presentation.
- The distribution of `random.randint` and `random.choice`: the draws are parameters constrained to their ranges, so every property holds for every outcome of the draws.
- The in-place mutation of the shared table list: the model is pure. `Table.AssignRoles` returns the partly filled table of an IndexError in its outcome instead of leaving it in a session.
- Export.SpeakingOrderText: its own contract only covers the empty table. Line structure and read-back are stated by `Export.SpeakingOrderTextLines`, which needs names without line breaks, because a name containing a line break makes the copied text ambiguous.
- Export.RoleListText: as above, line structure is stated by `Export.RoleListTextLines`. Read-back also needs role texts without `-`.

## Findings

| source | as written | input that shows it | evidently intended | confidence | as-written member | corrected member |
|---|---|---|---|---|---|---|
| werewolf-GMtool.py:148-155 | the role button checks only that the role table and the table are non-empty, then indexes `roles[idx]` for every row | role table fixed for 9 participants, count then set to 10 and the speaking order drawn (10 rows), role button pressed: `roles[9]` raises IndexError after the table was already re-sorted in place, leaving the tenth row without a role | deal only when there is exactly one role per row, and report the mismatch otherwise | medium, not executed | Game.StaleRoleTableCrashes | Table.AssignRolesChecked |
