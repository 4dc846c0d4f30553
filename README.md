# Frostgrave warband builder — the roster and selection rules in Dafny

This project models the rule engine of a single-page warband builder for the
tabletop game Frostgrave. A warband is made up of:
- a wizard;
- an optional apprentice, who costs 200 gold crowns;
- up to 8 soldiers, at most 4 of them specialists;
- a list of spells;
- a budget, 400 by default.

The model covers:

- the catalog lookups and the alignment of a spell's school to the wizard's
  school (`src/utils/dataLoader.js`) — module `DataLoader`;
- the warband state and its handlers (`src/components/WarbandManager.jsx`):
  the totals, the three-part gate on adding a soldier, and the add, remove,
  update, budget, import and reset transitions. This is the module
  `WarbandManager`, whose class `Manager` holds the state cell. Each method
  is proved against a pure transition function, and the lemmas about those
  functions carry the invariants;
- the spell picker (`src/components/SpellList.jsx`) — module `SpellList`:
  - the toggle and the rule that an opposed spell cannot be toggled;
  - the grouping of the catalog by school, a loop method proved against
    `getSpellsBySchool`;
  - the comparator that orders the school sections, with a sort proved
    sorted and a permutation, and a proof that the sorted order is unique;
  - the search filter;
- the wizard and apprentice form (`src/components/WizardForm.jsx`) — module
  `WizardForm`, whose class `Form` holds the four local state cells:
  - stat defaults through `??`;
  - the records the handlers emit;
  - the apprentice check box;
- the printable sheet (`src/components/PrintView.jsx`) — module `PrintView`:
  stats, badge, cost summary with the wizard at 100, and display names;
- the soldier picker (`src/components/SoldierList.jsx`) — module
  `SoldierList`: type filter and search, the Standard/Specialist sections,
  click gating, and the cannot-add message;
- the spell card (`src/components/SpellCard.jsx`) — module `SpellCard`:
  alignment, badge, disabled state, click gating, check mark and remove
  button.

JavaScript's dynamic values are written out:

- A school id is a `SchoolRef`: a number, NaN, a string (the value of the
  school `<select>`) or nothing. Truthiness and strict equality are stated
  explicitly, so that `getSchoolById` matches numbers only.
- `cost || 0`, `??` and the default parameters are explicit conditionals.
- `parseInt` follows section 19.2.5 of ECMA-262 (module `Js`):
  - leading white space is skipped;
  - an optional sign is read;
  - a `0x`/`0X` prefix switches to hexadecimal, so `parseInt("0x1A")` is 26;
  - the longest run of digits is read;
  - NaN is the result when there is no digit.

  `String(n)`, ASCII `toLowerCase` and `includes` are modelled alongside.
- `filter`, `find`, `findIndex` and `some` are defined and proved once
  (module `Lists`).
- The catalog (schools, soldiers, spells), the ids `Date.now()` returns and
  the answer to the reset confirmation are parameters.

## Model

| member | source | states |
|---|---|---|
| Lists.Find | src/utils/dataLoader.js:10 | `find` gives nothing exactly when no element matches, else the first matching element |
| Lists.Filter | src/utils/dataLoader.js:14 | `filter` keeps only matching elements and never grows the list |
| Lists.AnyIffFilterNonEmpty | src/components/SpellList.jsx:34 | `some` holds exactly when the filter by the same predicate is non-empty |
| DataLoader.GetSchoolById | src/utils/dataLoader.js:9-11 | a school is found exactly when the id is a number equal to a catalog id, and it is the first school with that id |
| DataLoader.GetSpellsBySchool | src/utils/dataLoader.js:13-15 | `getSpellsBySchool`: the catalog spells whose school is the given id, in catalog order; stated by `SpellsBySchoolExactly`, and `SpellList.GroupBySchool` is proved to build the same list for every school |
| DataLoader.SpellsBySchoolExactly | src/utils/dataLoader.js:13-15 | the spells of a school are exactly the catalog spells of that school, in catalog order (distributes over concatenation, keeps or drops each spell by its school) |
| DataLoader.GetSpellAlignment | src/utils/dataLoader.js:17-25 | the alignment is `unknown` exactly when the wizard's school id is not found |
| DataLoader.UnknownWizardSchool | src/utils/dataLoader.js:18-19 | a wizard school that is not a catalog id, or not a number, makes every spell `unknown` |
| DataLoader.OwnSchoolFirst | src/utils/dataLoader.js:21 | a known school's own spells are `own`, even if it lists itself as aligned or neutral |
| DataLoader.AlignmentPriority | src/utils/dataLoader.js:21-24 | with a known school, each alignment holds exactly when its test passes and every earlier test fails; opposed means none of own, aligned or neutral |
| DataLoader.GetSoldierByName | src/utils/dataLoader.js:27-29 | nothing exactly when no soldier has the name, else the first soldier with exactly that name |
| DataLoader.BadgeFor | src/components/SpellList.jsx:52-60 | the badge table has no entry exactly for `unknown` |
| Js.ParseIntDecimal | src/components/SpellList.jsx:123-127 | `parseInt(String(n)) == n` for every integer, so the stringified school keys read back as the ids |
| Js.ParseInt | src/components/WarbandManager.jsx:98 | `parseInt` with no radix: white space skipped, optional sign, `0x` prefix, longest digit run, NaN without digits; its behaviour is stated by the `ParseInt…` lemmas below |
| Js.ParseIntDecimalPrefix | src/components/WarbandManager.jsx:98 | `parseInt` reads the decimal text of `n` as `n` and ignores any text after the digits that does not extend them or form a hex prefix |
| Js.ParseIntSkipsWhiteSpace | src/components/WarbandManager.jsx:98 | leading white space does not change `parseInt` |
| Js.ParseIntNoDigits | src/components/WarbandManager.jsx:98 | text without any decimal digit parses to NaN, hexadecimal letters included, since a `0x` prefix needs a "0" |
| Js.ParseIntHexPrefix | src/components/WarbandManager.jsx:98 | after a `0x` or `0X` prefix, a run of hex digits followed by anything that does not extend it is read in base 16, and an empty run is NaN |
| Js.ParseIntHexExample | src/components/WarbandManager.jsx:98 | "0x1A" parses to 26 |
| Js.ParseIntNaNExamples | src/components/WarbandManager.jsx:98 | "0x" and "face" parse to NaN |
| Js.ToLowerCase | src/components/SpellList.jsx:18-19 | lower-casing keeps the length and maps each character on its own |
| Js.IncludesIffOccurs | src/components/SpellList.jsx:18-19 | `includes` holds exactly when the needle occurs at some position |
| Js.IncludesEmpty | src/components/SpellList.jsx:18-19 | every string includes the empty string |
| Characters.FillStats | src/components/WizardForm.jsx:30-41 | a present stat (0 included) is kept and a missing one gets its default |
| Characters.FillStatsIdempotent | src/components/WizardForm.jsx:30-55 | filling the stats a second time, with any default table, changes nothing |
| WarbandManager.CountsWithinSize | src/components/WarbandManager.jsx:36-38 | standard count plus specialist count is at most the soldier count |
| WarbandManager.CostOf | src/components/WarbandManager.jsx:29 | `soldier.cost or 0`, also used by the gate at line 44: a missing cost counts as 0; `AddSoldierOutcome` states that an add lowers the remaining budget by it, and `ReasonWithoutCostExample` shows where the raw cost differs |
| WarbandManager.TotalCost | src/components/WarbandManager.jsx:25-34 | 200 for an apprentice plus the `cost or 0` sum; the loop `Manager.CalculateTotalCost` is proved equal to it |
| WarbandManager.RemainingBudget | src/components/WarbandManager.jsx:35 | the budget minus the total cost; `AddSoldierOutcome` and `UpdateSoldierOutcome` state how each transition moves it |
| WarbandManager.SpecialistCount | src/components/WarbandManager.jsx:37 | the number of Specialist soldiers; bounded by `CountsWithinSize` and kept at 4 or fewer by `CapsKept` |
| WarbandManager.StandardCount | src/components/WarbandManager.jsx:38 | the number of Standard soldiers; bounded by `CountsWithinSize` |
| WarbandManager.CanAddSoldier | src/components/WarbandManager.jsx:41-46 | the gate holds exactly when there are fewer than 8 soldiers, a specialist finds fewer than 4 specialists, and `cost or 0` fits the remaining budget |
| WarbandManager.SumCostsAppend | src/components/WarbandManager.jsx:28-30 | the cost sum of two lists joined is the sum of their cost sums |
| WarbandManager.WithSoldierAdded | src/components/WarbandManager.jsx:48-56 | the add transition; its outcome is stated by `AddSoldierOutcome` |
| WarbandManager.WithSoldierRemoved | src/components/WarbandManager.jsx:58-63 | the remove transition; its outcome is stated by `RemoveSoldierOutcome` |
| WarbandManager.WithSoldierUpdated | src/components/WarbandManager.jsx:65-72 | the update transition; its outcome is stated by `UpdateMatching` and `UpdateSoldierOutcome` |
| WarbandManager.AddSoldierOutcome | src/components/WarbandManager.jsx:41-56 | an unknown name or a failed gate changes nothing; a success appends exactly the catalog entry with the new id, changes nothing else, leaves at most 8 soldiers, lowers the remaining budget by the cost and keeps it non-negative, and keeps the caps |
| WarbandManager.RemoveSoldierOutcome | src/components/WarbandManager.jsx:58-63 | the soldiers left are the filter by another id: no soldier with the id remains, every other one stays, in order and as often as before; an absent id changes nothing; nothing but the soldiers changes; the caps are kept |
| WarbandManager.AddThenRemove | src/components/WarbandManager.jsx:48-63 | with a fresh id, adding then removing by that id restores the warband |
| WarbandManager.Patched | src/components/WarbandManager.jsx:69 | `{ ...s, ...updates }`: a given custom name or notes overrides the soldier's own, and every other field, id and cost included, is kept; an empty patch changes nothing; `UpdateSoldierOutcome` and `PrintView.DisplayNameAfterRename` build on it |
| WarbandManager.UpdateMatching | src/components/WarbandManager.jsx:68-70 | the list keeps its length and position by position patches exactly the entries with the id |
| WarbandManager.UpdateSoldierOutcome | src/components/WarbandManager.jsx:65-72 | an update keeps length, order, every unmatched soldier, the total cost, the remaining budget and both type counts |
| WarbandManager.BudgetFromInput | src/components/WarbandManager.jsx:95-100 | the budget set from any text is never 0 |
| WarbandManager.BudgetFromDecimalText | src/components/WarbandManager.jsx:95-100 | the text of a non-zero integer, negatives included, sets exactly that budget, and "0" sets 400 |
| WarbandManager.BudgetWithoutDigits | src/components/WarbandManager.jsx:95-100 | text with no decimal digit ("Budget", "face", "") sets the budget to 400 |
| WarbandManager.CapsKept | src/components/WarbandManager.jsx:48-100 | add, remove, update, a budget change and a reset all keep at most 8 soldiers and at most 4 specialists |
| WarbandManager.FullRosterRejectsAdd | src/components/WarbandManager.jsx:41-50 | a roster of 8 or more soldiers (after an import) takes no more, whatever the budget |
| WarbandManager.SpendingScenario | src/components/WarbandManager.jsx:25-56 | budget 400, a 150 soldier leaves 250, an apprentice leaves 50, and a 100 soldier is then refused with the roster unchanged |
| WarbandManager.Manager.constructor | src/components/WarbandManager.jsx:13-20 | the state starts empty with budget 400 |
| WarbandManager.Manager.CalculateTotalCost | src/components/WarbandManager.jsx:25-32 | the accumulating loop returns 200 for an apprentice plus each soldier's `cost or 0` |
| WarbandManager.Manager.AddSoldier | src/components/WarbandManager.jsx:48-56 | the new state is the add transition; it keeps the caps and after a change leaves at most 8 soldiers and a non-negative remaining budget |
| WarbandManager.Manager.RemoveSoldier | src/components/WarbandManager.jsx:58-63 | the new state is the remove transition and keeps the caps |
| WarbandManager.Manager.UpdateSoldier | src/components/WarbandManager.jsx:65-72 | the new state is the update transition; total cost and caps are kept |
| WarbandManager.Manager.UpdateWizard | src/components/WarbandManager.jsx:74-79 | only the wizard is replaced |
| WarbandManager.Manager.UpdateApprentice | src/components/WarbandManager.jsx:81-86 | only the apprentice is replaced, ungated, and the remaining budget moves by 200 accordingly |
| WarbandManager.Manager.UpdateSpells | src/components/WarbandManager.jsx:88-93 | only the spell list is replaced |
| WarbandManager.Manager.UpdateBudget | src/components/WarbandManager.jsx:95-100 | only the budget changes, to `parseInt(text) or 400`, never 0 |
| WarbandManager.Manager.UpdateName | src/components/WarbandManager.jsx:158 | only the name changes |
| WarbandManager.Manager.ImportWarband | src/components/WarbandManager.jsx:113-127 | a parsed record replaces the state unchecked; a parse failure keeps it |
| WarbandManager.Manager.ResetWarband | src/components/WarbandManager.jsx:129-140 | a confirmed reset restores the initial state; otherwise nothing changes |
| SpellList.GetSpellByName | src/components/SpellList.jsx:23 | nothing exactly when no catalog spell has the name, else the first catalog spell with that name |
| SpellList.IsSpellOpposed | src/components/SpellList.jsx:42-46 | false for a falsy wizard school, else whether the alignment is `opposed`; characterised by `OpposedMeaning` |
| SpellList.IsSelected | src/components/SpellList.jsx:34 | some selected spell has the name; `Lists.AnyIffFilterNonEmpty` states it is the non-emptiness of the name filter, and `Deselect` and `ToggleOutcome` that deselecting leaves no entry with it |
| SpellList.ToggleSpell | src/components/SpellList.jsx:22-40 | the list handed to `onSpellsChange`, or nothing when the handler returns early; its outcome is stated by `ToggleOutcome` |
| SpellList.OpposedMeaning | src/components/SpellList.jsx:42-46 | a spell is opposed exactly when the wizard's school is truthy and known and the spell's school is neither its own, aligned nor neutral |
| SpellList.ToggleOutcome | src/components/SpellList.jsx:22-40 | nothing is emitted exactly for an unknown name or an opposed spell; a selected spell loses every entry of its name, the list gets shorter, and every other entry stays, in order and as often as before; an unselected one is appended as the catalog entry |
| SpellList.ToggleTwiceRestores | src/components/SpellList.jsx:34-39 | toggling an unselected spell twice gives back the original selection |
| SpellList.ToggleSelectedTwice | src/components/SpellList.jsx:34-39 | toggling a selected spell twice drops its entries and appends the catalog entry at the end |
| SpellList.OpposedSpellIsFrozen | src/components/SpellList.jsx:27-32 | an opposed spell is neither added nor removed, even when it is selected |
| SpellList.ToggleKeepsSelectionSound | src/components/SpellList.jsx:22-40 | a toggle never introduces a duplicate name and never adds an opposed spell |
| SpellList.GroupBySchool | src/components/SpellList.jsx:9-15 | the grouping loop yields one non-empty bucket per school present, each exactly that school's spells in catalog order, and lists each school once |
| SpellList.PrecedesIsStrictTotalOrder | src/components/SpellList.jsx:120-128 | on distinct ids the comparator is asymmetric, total and transitive |
| SpellList.CompareSchools | src/components/SpellList.jsx:120-128 | the comparator: the wizard's truthy school first, else by id difference; `PrecedesIsStrictTotalOrder` and `SectionOrder` state what order it defines |
| SpellList.InsertSchoolSorted | src/components/SpellList.jsx:119-128 | inserting into a sorted list adds exactly that id and stays sorted and duplicate-free |
| SpellList.SortSchools | src/components/SpellList.jsx:119-128 | the section order is a permutation of the schools, sorted by the comparator |
| SpellList.SortedSchoolsUnique | src/components/SpellList.jsx:119-128 | two sorted permutations of the same distinct ids are equal, so the section order does not depend on the starting key order or on the sort algorithm |
| SpellList.SectionOrder | src/components/SpellList.jsx:120-128 | the wizard's school comes first when it is truthy and present, and the other schools follow in ascending id |
| SpellList.SectionContents | src/components/SpellList.jsx:131-136 | a section lists exactly the catalog spells of its school matching the search, in catalog order, and the empty search lists them all |
| SpellList.DrawnSections | src/components/SpellList.jsx:136 | the sections drawn in the listed order: a section with no matching spell renders nothing; stated by `DrawnSectionsExactly` |
| SpellList.DrawnSectionsExactly | src/components/SpellList.jsx:129-136 | a listed school's section is drawn exactly when some catalog spell of that school matches the search |
| SpellList.MatchesSearch | src/components/SpellList.jsx:131-134 | the lower-cased term occurs in the lower-cased name or description; see `SearchIgnoresCase` |
| SpellList.SectionSpells | src/components/SpellList.jsx:131-134 | a section's spells filtered by the search; its contents are stated by `SectionContents` |
| SpellList.SearchIgnoresCase | src/components/SpellList.jsx:131-134 | a search term and its lower-cased form select the same spells |
| SpellList.ListBadgeIsAlignmentBadge | src/components/SpellList.jsx:48-60 | the list's badge is the alignment's badge, absent exactly when the wizard's school is unknown |
| SpellList.ListBadge | src/components/SpellList.jsx:48-60 | the badge of a catalog spell; stated by `ListBadgeIsAlignmentBadge` |
| SpellList.CardClickGuardRedundant | src/components/SpellList.jsx:160 | with distinct spell names the card's opposed guard changes nothing, since the toggle refuses opposed spells itself |
| SpellList.CardClick | src/components/SpellList.jsx:160 | the `!isOpposed && toggleSpell(name)` click of an available card; stated by `CardClickGuardRedundant` |
| SpellList.CheckMarkShown | src/components/SpellList.jsx:166 | the list's check mark: selected and not opposed; `SpellCard.CardCheckMarkAgreesWithList` shows the card agrees |
| WizardForm.Current | src/components/WizardForm.jsx:61 | `wizard or {}` (and `apprentice or {}` at line 91): a missing record reads as an empty name, a missing school and no stats; `ApprenticeNameRecord` and `WizardRecords` state that every stat then takes its default |
| WizardForm.WithStats | src/components/WizardForm.jsx:30-55 | no record gives none; otherwise name and school are kept, present stats kept and missing ones defaulted |
| WizardForm.WithStatsIdempotent | src/components/WizardForm.jsx:30-55 | the stat fillers are idempotent |
| WizardForm.SchoolOfSelect | src/components/WizardForm.jsx:84 | the select's value parses to a number or NaN, never a string |
| WizardForm.SchoolOfSelectOptions | src/components/WizardForm.jsx:149-159 | an option carrying `String(id)` gives back `id`, and the placeholder gives NaN |
| WizardForm.SchoolChangeRecord | src/components/WizardForm.jsx:79-86 | the record the school select emits; stated by `WizardRecords` |
| WizardForm.NameChangeRecordAsWritten | src/components/WizardForm.jsx:71-78 | the record the name input emits, as written; stated by `WizardRecords` and `NameAfterSelectLosesSchool` |
| WizardForm.NameChangeRecord | src/components/WizardForm.jsx:71-78 | the corrected half of the first Findings row: the name record with the held school normalized; `WizardRecords` and `NameAfterSelectKeepsSchool` state that it keeps the id the select emitted and every alignment |
| WizardForm.NormalizedSchool | src/components/WizardForm.jsx:84 | the correction proposed in the first Findings row, not a model of lines 71-78: the held school goes through `parseInt` as the select handler does at line 84, and a school that is not a string is kept as it is |
| WizardForm.WizardRecords | src/components/WizardForm.jsx:60-87 | the wizard records carry the given name and complete stats, present stats kept, missing ones defaulted; the name record as written carries the held school unchanged; the corrected one carries the school the select emitted |
| WizardForm.NameAfterSelectLosesSchool | src/components/WizardForm.jsx:71-78 | as written, a name change after a school selection emits the select's string as the school, which resolves every spell to `unknown` and none to opposed |
| WizardForm.NameAfterSelectExample | src/components/WizardForm.jsx:71-86 | school 1 opposes a school-2 spell; after a name change the record as written no longer does and the corrected one still does |
| WizardForm.NameAfterSelectKeepsSchool | src/components/WizardForm.jsx:71-86 | the corrected name change keeps the school id the select emitted, and with it every spell's alignment |
| WizardForm.ApprenticeNameRecord | src/components/WizardForm.jsx:90-109 | the record carries the new name and the existing school, keeps present stats, and is fully defaulted for a new apprentice |
| WizardForm.ApprenticeToggleRecord | src/components/WizardForm.jsx:111-123 | the record the check box emits; stated by `ApprenticeToggleCost` |
| WizardForm.ApprenticeToggleCost | src/components/WizardForm.jsx:111-123 | checking emits a nameless apprentice with exactly the default stats and unchecking emits nothing; the remaining budget moves by 200 accordingly |
| WizardForm.Form.constructor | src/components/WizardForm.jsx:24-27 | local cells start from the props, the school from a truthy prop school or "" |
| WizardForm.Form.HandleWizardChange | src/components/WizardForm.jsx:60-88 | a name change stores the name and emits the record as written, with the held school unchanged (a string after a selection); a school change stores the select's string and emits the parsed school; any other field does nothing |
| WizardForm.Form.HandleApprenticeChange | src/components/WizardForm.jsx:90-109 | only the name field updates the local name and emits a record |
| WizardForm.Form.ToggleApprentice | src/components/WizardForm.jsx:111-123 | the check box state follows the box, unchecking clears the local name, and the emitted record is the toggle record |
| PrintView.PrintedStats | src/components/PrintView.jsx:26-48 | no record gives none; otherwise the six stats, present ones kept and missing ones defaulted |
| PrintView.PrintedStatsMatchForm | src/components/PrintView.jsx:26-51 | the printed stats are those the form fills in, for wizard and apprentice tables |
| PrintView.PrintBadge | src/components/PrintView.jsx:53-65 | no badge exactly when there is no wizard or the alignment is `unknown` |
| PrintView.PrintBadgeTable | src/components/PrintView.jsx:53-65 | with a wizard the badge is the spell list's, own/aligned/neutral/opposed giving Propre/Alliée/Neutre/Opposée |
| PrintView.PrintTotalCost | src/components/PrintView.jsx:193-197 | the printed total; stated by `PrintTotalCostVersusBudget` |
| PrintView.PrintTotalCostVersusBudget | src/components/PrintView.jsx:195-197 | the printed cost exceeds the budget total by exactly 100 with a wizard and equals it without one |
| PrintView.DisplayName | src/components/PrintView.jsx:142 | a non-empty custom name is printed, else the catalog name |
| PrintView.OrPlaceholder | src/components/PrintView.jsx:98 | the result is the name or the placeholder; it is the name exactly when the name is non-empty (or equals the placeholder), and it is empty only when both are |
| PrintView.DisplayNameAfterRename | src/components/PrintView.jsx:142 | after a rename the printed name is the new name, or the catalog name if the new one is empty |
| SoldierList.FilteredSoldiers | src/components/SoldierList.jsx:10-15 | a catalog soldier is shown exactly when its type passes the filter and its lower-cased name or class contains the lower-cased term |
| SoldierList.GroupsOfCatalog | src/components/SoldierList.jsx:17-20 | each section is the shown soldiers of its type in catalog order, and the two together hold no more than were shown |
| SoldierList.GroupMembership | src/components/SoldierList.jsx:17-20 | a soldier is in a section exactly when shown and of that type; filtering on one type empties the other section |
| SoldierList.GroupedSoldiers | src/components/SoldierList.jsx:17-20 | the two sections; stated by `GroupsOfCatalog` and `GroupMembership` |
| SoldierList.EverythingShownByDefault | src/components/SoldierList.jsx:7-15 | the initial filter and empty search show the whole catalog |
| SoldierList.ClickAddsClickedSoldier | src/components/SoldierList.jsx:96-106 | a click adds only when the gate holds, and then adds exactly the clicked soldier |
| SoldierList.ClickSoldier | src/components/SoldierList.jsx:106 | a click on a catalog soldier; stated by `ClickAddsClickedSoldier` |
| SoldierList.CannotAddReasonAsWritten | src/components/SoldierList.jsx:118-122 | the cannot-add message as written; stated by `ReasonAgreesWithCost` and `ReasonWithoutCostExample` |
| SoldierList.CannotAddReason | src/components/SoldierList.jsx:118-122 | the corrected half of the second Findings row: the budget test uses `cost or 0`; `ReasonNamesFailingGate` states that it names a failing gate, and `ReasonAgreesWithCost` that it agrees with the message as written for a soldier with a cost |
| SoldierList.ReasonNamesFailingGate | src/components/SoldierList.jsx:116-123 | the corrected message names a gate that fails, and the budget message appears exactly when the budget gate fails |
| SoldierList.ReasonAgreesWithCost | src/components/SoldierList.jsx:118-122 | for a soldier with a cost, the message as written and the corrected one agree |
| SoldierList.ReasonWithoutCostExample | src/components/SoldierList.jsx:118-122 | with remaining budget -10 and a costless Standard soldier, the message as written blames the size of an empty roster |
| SoldierList.NegativeBudgetInput | src/components/WarbandManager.jsx:98 | the budget text "-10" sets the budget to -10 |
| SpellCard.CardProps | src/components/SpellCard.jsx:3-11 | undefined `variant`, `isSelected` and `disabled` default to 'available', false and false |
| SpellCard.CardAlignment | src/components/SpellCard.jsx:14 | there is no alignment exactly when the wizard's school is falsy |
| SpellCard.CardBadge | src/components/SpellCard.jsx:16-23 | the card's badge; stated by `NoSchoolNoAlignment` and `CardAgreesWithList` |
| SpellCard.CardOpposed | src/components/SpellCard.jsx:25 | `isOpposed`: the card's alignment is opposed; `CardAgreesWithList` proves it equals the list's `IsSpellOpposed`, and `NoSchoolNoAlignment` that a falsy school is never opposed |
| SpellCard.CardDisabled | src/components/SpellCard.jsx:25-26 | `disabled` or opposed; stated by `NoSchoolNoAlignment` and `ClickGating` |
| SpellCard.ClickInvokes | src/components/SpellCard.jsx:42-46 | whether a click calls `onClick`; stated by `ClickGating` |
| SpellCard.CheckMarkShown | src/components/SpellCard.jsx:69 | the check mark; stated by `ClickGating` and `CardCheckMarkAgreesWithList` |
| SpellCard.RemoveButtonShown | src/components/SpellCard.jsx:57 | the remove button; stated by `ClickGating` |
| SpellCard.SchoolLabel | src/components/SpellCard.jsx:12-13 | the label is never empty; a known, named school shows its name; an unknown or unnamed one shows "École" and the id |
| SpellCard.NoSchoolNoAlignment | src/components/SpellCard.jsx:14-26 | a falsy school gives no badge, no opposition, and a card disabled only by its prop |
| SpellCard.CardAgreesWithList | src/components/SpellCard.jsx:14-25 | the card is opposed exactly when the spell list says so, and its badge is the list's whenever the school is truthy |
| SpellCard.ClickGating | src/components/SpellCard.jsx:42-71 | a click reaches `onClick` exactly for an available, enabled, non-opposed card with a callback; a selected card never passes it on or shows a check mark; check mark and remove button never coexist |
| SpellCard.CardCheckMarkAgreesWithList | src/components/SpellCard.jsx:69 | the list draws its own card markup and does not render this component; the lemma compares the two check-mark conditions: under the props a caller like the list would pass, the card's condition equals the list's own (src/components/SpellList.jsx:166) |

## Left out

- Export (src/components/WarbandManager.jsx:102-111) is left out: it is browser file output.
- Import (src/components/WarbandManager.jsx:113-127) is reduced to its effect. File reading, `JSON.parse` and the alert are browser I/O. A record that parsed is a parameter, and no shape check is modelled because the source does none.
- Only the value of the reset confirmation is modelled. `window.confirm` (src/components/WarbandManager.jsx:130) and `window.print()` (src/components/PrintView.jsx:80) are UI calls.
- WarbandManager.Manager.AddSoldier: the new id is a parameter standing for `Date.now()`, which can repeat within one millisecond. No freshness is required, and only `AddThenRemove` assumes a fresh id.
- React batching and stale closures are not modelled. Each handler is one atomic step on the current state: `canAddSoldier` reads render-time totals while `setWarband` uses the previous state.
- JSX, Tailwind classes, SpellCard's `containerClasses`, the print CSS, render keys, tab and print-view visibility, `StatsDisplay.jsx` and `App.jsx` are presentation. The soldiers' own stat fields are displayed only and are not modelled.
- The catalog JSON files are not part of this model. The catalog is a parameter with integer school ids and integer `aligned`/`neutral` lists.
- Js.ToLowerCase folds ASCII letters only. Full Unicode case mapping (accented capitals such as "É") is not modelled.
- Js.ParseInt uses unbounded integers. The precision loss of JavaScript numbers above 2^53 is not modelled, and -0 is taken as 0, which is falsy like -0.
- Costs, budgets and counts are unbounded integers. JavaScript's double arithmetic agrees with them on the integral values the source uses.
- WarbandManager.Manager.UpdateSoldier merges only `customName` and `notes`. These are the fields the soldier list sends; any other spread field is not modelled.
- The spell list's unused `filteredSpells` (src/components/SpellList.jsx:17-20) has no member of its own. The same test per section is `SectionSpells`, and it is what is rendered.
- The spell list keys its buckets by the strings `String(id)`; the model keys them by the ids. `Js.ParseIntDecimal` shows the two agree.
- The object's own key order is not modelled. `SortedSchoolsUnique` shows that the sorted section order does not depend on it.
- The section header's fallback label at src/components/SpellList.jsx:143 is the same pattern as `SpellCard.SchoolLabel`. It has no member of its own.
- WizardForm.Form.ToggleApprentice emits the locally held school unparsed, as written: a string after a school selection. The apprentice's school is never read for any rule, so this has no consequence.

## Findings

| source | as written | input that shows it | evidently intended | confidence | as-written member | corrected member |
|---|---|---|---|---|---|---|
| src/components/WizardForm.jsx:71-78 | a name change emits `school: wizardSchool`; after a school selection that local value is the select's string | choose school "1" in the select, then type a name: the wizard's school becomes the string "1", no catalog id `===` it, every spell's alignment is `unknown`, and opposed spells become selectable | a name change keeps the numeric school id the select emitted | high, not executed | WizardForm.NameAfterSelectLosesSchool | WizardForm.NameAfterSelectKeepsSchool |
| src/components/SoldierList.jsx:118-122 | the budget message compares `remainingBudget < soldier.cost` on the raw cost, and `x < undefined` is false | budget text "-10", empty roster, a Standard catalog soldier without a cost: the gate fails on the budget, but the message says "Limite de 8 soldats atteinte" | the message uses `soldier.cost || 0`, as the gate at src/components/WarbandManager.jsx:44 does | low (needs a catalog soldier whose `cost` field is absent; a `null` cost compares as 0 and would not show it), not executed | SoldierList.ReasonWithoutCostExample | SoldierList.ReasonNamesFailingGate |
