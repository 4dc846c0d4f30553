/** The wizard and apprentice editor of src/components/WizardForm.jsx. The
    form keeps four local state cells (the wizard's name and school as typed
    or selected, the apprentice's name, and whether there is an apprentice)
    and hands new wizard and apprentice records to its parent. The parent's
    records arrive as the `wizard` and `apprentice` props, passed here to
    each handler. */
module WizardForm {
  import opened Lists
  import opened Js
  import opened DataLoader
  import opened Characters
  import opened SpellList
  import opened WarbandManager

  /** The field a change handler is called with: the inputs pass `'name'`
      and `'school'`; any other string selects neither branch. */
  datatype Field = NameField | SchoolField | OtherField(fieldName: string)

  /** `wiz || {}`: a missing record is read as an empty object, whose name
      and school are undefined and whose stats are all missing. */
  function Current(c: Option<Caster>): Caster
  {
    if c.Some? then c.value else Caster("", Missing, NO_STATS)
  }

  /** `getWizardWithStats` / `getApprenticeWithStats`: nothing for no
      record, else the record with each missing stat replaced by its default. */
  function WithStats(c: Option<Caster>, defaults: Stats): (r: Option<Caster>)
    ensures r.None? <==> c.None?
    ensures r.Some? ==> r.value.name == c.value.name && r.value.school == c.value.school
    ensures r.Some? ==> forall k: StatName ::
      r.value.stats.Get(k) == Some(if c.value.stats.Get(k).Some? then c.value.stats.Get(k).value else defaults.Get(k))
  {
    if c.None? then None else Some(c.value.(stats := Present(FillStats(c.value.stats, defaults))))
  }

  /** Applying the defaults a second time, with any table, changes nothing. */
  lemma WithStatsIdempotent(c: Option<Caster>, d: Stats, d': Stats)
    ensures WithStats(WithStats(c, d), d') == WithStats(c, d)
  {
    if c.Some? {
      FillStatsIdempotent(c.value.stats, d, d');
    }
  }

  /** `parseInt(value)` of the school `<select>`, as a school id value. */
  function SchoolOfSelect(value: string): (r: SchoolRef)
    ensures r.Num? || r.NaN?
  {
    match ParseInt(value)
    case Int(n) => Num(n)
    case NaN => SchoolRef.NaN
  }

  /** An option of the select carries `String(id)`, which comes back as
      `id`; the placeholder option carries "" and comes back as NaN. */
  lemma SchoolOfSelectOptions(id: int)
    ensures SchoolOfSelect(DecimalString(id)) == Num(id)
    ensures SchoolOfSelect("") == SchoolRef.NaN
  {
    ParseIntDecimal(id);
  }

  /** The record the school select emits: the current record with the
      locally held name, the parsed school, and complete stats. */
  function SchoolChangeRecord(wizard: Option<Caster>, localName: string, value: string): Caster
  {
    Caster(localName, SchoolOfSelect(value), Present(FillStats(Current(wizard).stats, WIZARD_DEFAULTS)))
  }

  /** The record the name input emits AS WRITTEN: the new name, the locally
      held school value (after any use of the select, the select's string),
      and complete stats. */
  function NameChangeRecordAsWritten(wizard: Option<Caster>, value: string, localSchool: SchoolRef): Caster
  {
    Caster(value, localSchool, Present(FillStats(Current(wizard).stats, WIZARD_DEFAULTS)))
  }

  /** The locally held school as the select handler would emit it: a string
      goes through `parseInt`, a number is kept. */
  function NormalizedSchool(localSchool: SchoolRef): (r: SchoolRef)
    ensures !localSchool.Text? ==> r == localSchool
  {
    match localSchool
    case Text(s) => SchoolOfSelect(s)
    case _ => localSchool
  }

  /** The record the name input emits, CORRECTED: as written, but with the
      locally held school normalized, so that the school is the id the
      select emitted. */
  function NameChangeRecord(wizard: Option<Caster>, value: string, localSchool: SchoolRef): Caster
  {
    Caster(value, NormalizedSchool(localSchool), Present(FillStats(Current(wizard).stats, WIZARD_DEFAULTS)))
  }

  /** The wizard records keep every stat already present (0 included),
      fill in the default for every missing one, and carry the name they are
      given. The name record as written carries the locally held school
      unchanged; the corrected one carries the very school the select
      emitted, and keeps a numeric school as it is. */
  lemma WizardRecords(wizard: Option<Caster>, name: string, localSchool: SchoolRef, value: string)
    ensures var s := SchoolChangeRecord(wizard, name, value);
            var a := NameChangeRecordAsWritten(wizard, name, localSchool);
            var n := NameChangeRecord(wizard, name, localSchool);
      && s.name == name && a.name == name && n.name == name
      && s.stats == a.stats == n.stats
      && a.school == localSchool
      && (forall k: StatName :: Current(wizard).stats.Get(k).Some? ==> s.stats.Get(k) == Current(wizard).stats.Get(k))
      && (forall k: StatName :: Current(wizard).stats.Get(k).None? ==> s.stats.Get(k) == Some(WIZARD_DEFAULTS.Get(k)))
      && (localSchool == Text(value) ==> n.school == s.school)
      && (localSchool.Num? ==> n.school == localSchool)
  {
  }

  /** The first half of the finding: once a school has been chosen in the
      select, the local school holds that option's string, and a later name
      change hands the parent a wizard whose school is that string. No
      catalog id is strictly equal to a string, so every spell's alignment
      becomes `unknown` and no spell is opposed any more. */
  lemma NameAfterSelectLosesSchool(wizard: Option<Caster>, schools: seq<School>, id: int, name: string, spellSchool: int)
    ensures var r := NameChangeRecordAsWritten(wizard, name, Text(DecimalString(id)));
      && r.school.Truthy()
      && GetSpellAlignment(schools, spellSchool, r.school) == Unknown
      && !IsSpellOpposed(schools, r.school, spellSchool)
  {
  }

  /** The concrete input: a catalog of one school (id 1) that lists no
      aligned or neutral school, and a spell of school 2. Chosen in the
      select, school 1 makes the spell opposed; after a name change the
      record as written makes it selectable, the corrected one does not. */
  lemma NameAfterSelectExample()
    ensures var schools := [School(1, "A", [], [])];
      && IsSpellOpposed(schools, SchoolChangeRecord(None, "", "1").school, 2)
      && !IsSpellOpposed(schools, NameChangeRecordAsWritten(None, "Merlin", Text("1")).school, 2)
      && IsSpellOpposed(schools, NameChangeRecord(None, "Merlin", Text("1")).school, 2)
  {
    var schools := [School(1, "A", [], [])];
    assert DecimalString(1) == "1" by {
      assert NatDigits(1) == [DigitChar(1)];
    }
    SchoolOfSelectOptions(1);
    assert SchoolChangeRecord(None, "", "1").school == Num(1);
    assert NameChangeRecord(None, "Merlin", Text("1")).school == Num(1);
    assert GetSchoolById(schools, Num(1)) == Some(schools[0]);
    assert GetSpellAlignment(schools, 2, Num(1)) == Opposed;
  }

  /** The second half: with the corrected record, a name change after a
      school selection keeps the school id the select emitted, so every
      spell keeps the alignment it had. */
  lemma NameAfterSelectKeepsSchool(wizard: Option<Caster>, schools: seq<School>, id: int, name: string, spellSchool: int)
    ensures var r := NameChangeRecord(wizard, name, Text(DecimalString(id)));
      && r.school == Num(id)
      && GetSpellAlignment(schools, spellSchool, r.school)
         == GetSpellAlignment(schools, spellSchool, SchoolChangeRecord(wizard, name, DecimalString(id)).school)
  {
    SchoolOfSelectOptions(id);
  }

  /** The record the apprentice name input emits: the current apprentice (or
      an empty one) with the new name and complete stats; its school is kept
      as it is, and is missing for a new record. */
  function ApprenticeNameRecord(apprentice: Option<Caster>, value: string): (r: Caster)
    ensures r.name == value && r.school == Current(apprentice).school
    ensures forall k: StatName :: r.stats.Get(k).Some?
    ensures forall k: StatName :: apprentice.Some? && apprentice.value.stats.Get(k).Some? ==>
              r.stats.Get(k) == apprentice.value.stats.Get(k)
    ensures forall k: StatName :: apprentice.None? ==> r.stats.Get(k) == Some(APPRENTICE_DEFAULTS.Get(k))
  {
    Caster(value, Current(apprentice).school, Present(FillStats(Current(apprentice).stats, APPRENTICE_DEFAULTS)))
  }

  /** `toggleApprentice(checked)`: unchecked emits `null`; checked emits a
      new, nameless apprentice with the locally held school and the default
      apprentice stats. */
  function ApprenticeToggleRecord(checked: bool, localSchool: SchoolRef): Option<Caster>
  {
    if checked then Some(Caster("", localSchool, Present(APPRENTICE_DEFAULTS))) else None
  }

  /** Checking the box puts an apprentice on the roster, which costs 200;
      unchecking it takes the apprentice off and gives the 200 back. */
  lemma ApprenticeToggleCost(w: Warband, checked: bool, localSchool: SchoolRef)
    ensures var r := ApprenticeToggleRecord(checked, localSchool);
      && (r.Some? <==> checked)
      && (checked ==> r.value.name == "" && forall k: StatName :: r.value.stats.Get(k) == Some(APPRENTICE_DEFAULTS.Get(k)))
      && RemainingBudget(w.(apprentice := r)) == RemainingBudget(w)
           + (if w.apprentice.Some? then APPRENTICE_COST else 0) - (if checked then APPRENTICE_COST else 0)
  {
  }

  /** The form's local state. */
  class Form {
    var wizardName: string
    var wizardSchool: SchoolRef
    var apprenticeName: string
    var hasApprentice: bool

    /** The initial values: `wizard?.name || ''`, `wizard?.school || ''`,
        `apprentice?.name || ''` and `!!apprentice`. */
    constructor(wizard: Option<Caster>, apprentice: Option<Caster>)
      ensures wizardName == (if wizard.Some? then wizard.value.name else "")
      ensures wizardSchool == (if wizard.Some? && wizard.value.school.Truthy() then wizard.value.school else Text(""))
      ensures apprenticeName == (if apprentice.Some? then apprentice.value.name else "")
      ensures hasApprentice == apprentice.Some?
    {
      wizardName := if wizard.Some? then wizard.value.name else "";
      wizardSchool := if wizard.Some? && wizard.value.school.Truthy() then wizard.value.school else Text("");
      apprenticeName := if apprentice.Some? then apprentice.value.name else "";
      hasApprentice := apprentice.Some?;
    }

    /** `handleWizardChange(field, value)`: the typed value goes to the
        matching local cell, and a new wizard record goes to the parent; any
        other field changes nothing and emits nothing. */
    method HandleWizardChange(wizard: Option<Caster>, field: Field, value: string) returns (emitted: Option<Caster>)
      modifies this
      ensures field == NameField ==>
        && wizardName == value && wizardSchool == old(wizardSchool)
        && emitted == Some(NameChangeRecordAsWritten(wizard, value, old(wizardSchool)))
      ensures field == SchoolField ==>
        && wizardSchool == Text(value) && wizardName == old(wizardName)
        && emitted == Some(SchoolChangeRecord(wizard, old(wizardName), value))
      ensures field.OtherField? ==>
        emitted.None? && wizardName == old(wizardName) && wizardSchool == old(wizardSchool)
      ensures apprenticeName == old(apprenticeName) && hasApprentice == old(hasApprentice)
    {
      var stats := Present(FillStats(Current(wizard).stats, WIZARD_DEFAULTS));
      if field == NameField {
        wizardName := value;
        emitted := Some(Caster(value, wizardSchool, stats));
      } else if field == SchoolField {
        wizardSchool := Text(value);
        var parsed := ParseInt(value);
        emitted := Some(Caster(wizardName, if parsed.Int? then Num(parsed.value) else SchoolRef.NaN, stats));
      } else {
        emitted := None;
      }
    }

    /** `handleApprenticeChange(field, value)`: only the name field does
        anything. */
    method HandleApprenticeChange(apprentice: Option<Caster>, field: Field, value: string) returns (emitted: Option<Caster>)
      modifies this
      ensures field == NameField ==> apprenticeName == value && emitted == Some(ApprenticeNameRecord(apprentice, value))
      ensures field != NameField ==> apprenticeName == old(apprenticeName) && emitted.None?
      ensures wizardName == old(wizardName) && wizardSchool == old(wizardSchool) && hasApprentice == old(hasApprentice)
    {
      if field == NameField {
        apprenticeName := value;
        emitted := Some(ApprenticeNameRecord(apprentice, value));
      } else {
        emitted := None;
      }
    }

    /** `toggleApprentice(checked)`; unchecking also clears the local name. */
    method ToggleApprentice(checked: bool) returns (emitted: Option<Caster>)
      modifies this
      ensures hasApprentice == checked
      ensures apprenticeName == if checked then old(apprenticeName) else ""
      ensures emitted == ApprenticeToggleRecord(checked, old(wizardSchool))
      ensures wizardName == old(wizardName) && wizardSchool == old(wizardSchool)
    {
      hasApprentice := checked;
      if !checked {
        emitted := None;
        apprenticeName := "";
      } else {
        emitted := Some(Caster("", wizardSchool, Present(APPRENTICE_DEFAULTS)));
      }
    }
  }
}
