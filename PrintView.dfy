/** The printable sheet of src/components/PrintView.jsx: the stat lines it
    prints for the wizard and the apprentice, the alignment badge of each
    selected spell, the cost summary and the names it prints. */
module PrintView {
  import opened Lists
  import opened DataLoader
  import opened Characters
  import opened WarbandManager
  import opened WizardForm
  import opened SpellList

  /** `getWizardStats` / `getApprenticeStats`: nothing for no record, else
      exactly the six stats, each taken from the record unless it is null or
      undefined there. */
  function PrintedStats(c: Option<Caster>, defaults: Stats): (r: Option<Stats>)
    ensures r.None? <==> c.None?
    ensures r.Some? ==> forall k: StatName :: c.value.stats.Get(k).Some? ==> r.value.Get(k) == c.value.stats.Get(k).value
    ensures r.Some? ==> forall k: StatName :: c.value.stats.Get(k).None? ==> r.value.Get(k) == defaults.Get(k)
  {
    if c.None? then None else Some(FillStats(c.value.stats, defaults))
  }

  /** The sheet prints the same stats as the form shows: the stat line of
      `getWizardWithStats` is exactly `getWizardStats`, for both tables. */
  lemma PrintedStatsMatchForm(c: Option<Caster>)
    ensures WithStats(c, WIZARD_DEFAULTS).Some? ==>
              WithStats(c, WIZARD_DEFAULTS).value.stats == Present(PrintedStats(c, WIZARD_DEFAULTS).value)
    ensures WithStats(c, APPRENTICE_DEFAULTS).Some? ==>
              WithStats(c, APPRENTICE_DEFAULTS).value.stats == Present(PrintedStats(c, APPRENTICE_DEFAULTS).value)
  {
  }

  /** `getAlignmentBadge(spellSchoolId)` of the sheet: nothing without a
      wizard, else the badge of the alignment against the wizard's school. */
  function PrintBadge(schools: seq<School>, wizard: Option<Caster>, spellSchoolId: int): (r: Option<Badge>)
    ensures r.None? <==> wizard.None? || GetSpellAlignment(schools, spellSchoolId, wizard.value.school) == Unknown
  {
    if wizard.None? then None else BadgeFor(GetSpellAlignment(schools, spellSchoolId, wizard.value.school))
  }

  /** With a wizard, the sheet's badge is the one the spell list shows for
      that wizard's school: own, aligned, neutral and opposed become
      Propre, Alliée, Neutre and Opposée. */
  lemma PrintBadgeTable(schools: seq<School>, wizard: Caster, spellSchoolId: int)
    ensures var b := PrintBadge(schools, Some(wizard), spellSchoolId);
            var a := GetSpellAlignment(schools, spellSchoolId, wizard.school);
      && b == ListBadge(schools, wizard.school, spellSchoolId)
      && (a == Own <==> b == Some(Propre))
      && (a == Aligned <==> b == Some(Alliee))
      && (a == Neutral <==> b == Some(Neutre))
      && (a == Opposed <==> b == Some(Opposee))
  {
  }

  /** The cost summary: the soldiers' `cost || 0` added up by `reduce`,
      plus 100 for a wizard and 200 for an apprentice. */
  function PrintTotalCost(w: Warband): int
  {
    SumCosts(w.soldiers) + (if w.wizard.Some? then 100 else 0) + (if w.apprentice.Some? then APPRENTICE_COST else 0)
  }

  /** The summary counts the wizard at 100 where the budget gate counts it
      at nothing: it exceeds `calculateTotalCost` by exactly 100 with a
      wizard and equals it without one. */
  lemma PrintTotalCostVersusBudget(w: Warband)
    ensures PrintTotalCost(w) == TotalCost(w) + (if w.wizard.Some? then 100 else 0)
    ensures w.wizard.None? ==> PrintTotalCost(w) == TotalCost(w)
  {
  }

  /** `soldier.customName || soldier.name`. */
  function DisplayName(s: Soldier): (r: string)
    ensures s.customName.Some? && s.customName.value != "" ==> r == s.customName.value
    ensures s.customName.None? || s.customName.value == "" ==> r == s.name
  {
    if s.customName.Some? && s.customName.value != "" then s.customName.value else s.name
  }

  /** `warband.name || 'Warband sans nom'`; the same pattern with
      'Sans nom' prints the wizard's and the apprentice's names. */
  function OrPlaceholder(name: string, placeholder: string): (r: string)
    ensures r == name || r == placeholder
    ensures r == name <==> name != "" || name == placeholder
    ensures r != "" <==> name != "" || placeholder != ""
  {
    if name != "" then name else placeholder
  }

  /** A display name is never empty unless the catalog name is; renaming a
      soldier changes what is printed and nothing else about it. */
  lemma DisplayNameAfterRename(s: Soldier, customName: string)
    ensures DisplayName(Patched(s, SoldierPatch(Some(customName), None))) == if customName != "" then customName else s.name
    ensures s.name != "" ==> DisplayName(s) != ""
  {
  }
}
