/** The reference catalog (schools, soldiers, spells) and its lookups, from
    src/utils/dataLoader.js. The catalog is static data; here it is a value
    passed to every lookup. */
module DataLoader {
  import opened Lists

  /** A school of magic. `aligned` and `neutral` list school ids; any other
      school is opposed. */
  datatype School = School(id: int, name: string, aligned: seq<int>, neutral: seq<int>)

  /** A spell of the catalog. `kind` is the JSON field `type`. */
  datatype Spell = Spell(name: string, school: int, targetNumber: int, kind: string, description: string)

  /** A soldier record. Catalog entries carry no `id`, `customName` or
      `notes`; a roster soldier is a catalog entry spread into a new object
      with an `id` (and later a `customName` or `notes`). `kind` is the JSON
      field `type`, `cls` the field `class`; `cost` is `None` when the field
      is missing. */
  datatype Soldier = Soldier(
    name: string, kind: string, cls: string, cost: Option<int>, gear: string,
    id: Option<int>, customName: Option<string>, notes: Option<string>)

  datatype Catalog = Catalog(schools: seq<School>, soldiers: seq<Soldier>, spells: seq<Spell>)

  /** The JavaScript value used as a school id. Catalog ids are numbers; the
      wizard's `school` field can also hold NaN (`parseInt('')`), a string
      (the value of the school `<select>`) or nothing at all. */
  datatype SchoolRef = Num(n: int) | NaN | Text(s: string) | Missing
  {
    /** JavaScript truthiness of a school id value. */
    predicate Truthy()
    {
      match this
      case Num(n) => n != 0
      case NaN => false
      case Text(s) => s != ""
      case Missing => false
    }
  }

  /** What `getSpellAlignment` answers. */
  datatype Alignment = Unknown | Own | Aligned | Neutral | Opposed

  /** `getSchoolById(id)`: the first school whose id is strictly equal to
      `id`. Only a number can be strictly equal to a numeric catalog id. */
  function GetSchoolById(schools: seq<School>, id: SchoolRef): (r: Option<School>)
    ensures r.Some? <==> id.Num? && exists i :: 0 <= i < |schools| && schools[i].id == id.n
    ensures r.Some? ==> r.value.id == id.n && r.value in schools
    ensures r.Some? ==> exists i :: 0 <= i < |schools| && schools[i] == r.value &&
                                    forall j :: 0 <= j < i ==> schools[j].id != id.n
  {
    match id
    case Num(n) => Find(schools, (s: School) => s.id == n)
    case _ => None
  }

  /** `getSpellsBySchool(schoolId)`: the spells of that school. */
  function GetSpellsBySchool(spells: seq<Spell>, schoolId: int): seq<Spell>
  {
    Filter(spells, (s: Spell) => s.school == schoolId)
  }

  /** `getSpellsBySchool` returns exactly the catalog spells of that school,
      in catalog order: it distributes over a split of the catalog, keeps a
      spell of the school and drops any other. */
  lemma SpellsBySchoolExactly(a: seq<Spell>, b: seq<Spell>, schoolId: int, x: Spell)
    ensures GetSpellsBySchool(a + b, schoolId) == GetSpellsBySchool(a, schoolId) + GetSpellsBySchool(b, schoolId)
    ensures GetSpellsBySchool([x], schoolId) == if x.school == schoolId then [x] else []
    ensures x in GetSpellsBySchool(a, schoolId) <==> x in a && x.school == schoolId
  {
    FilterAppend(a, b, (s: Spell) => s.school == schoolId);
    FilterMembership(a, (s: Spell) => s.school == schoolId, x);
    assert [x][1..] == [];
  }

  /** `getSpellAlignment(spellSchoolId, wizardSchoolId)`: the checks run in
      a fixed order (unknown wizard school, own, aligned, neutral), and
      whatever is left is opposed. */
  function GetSpellAlignment(schools: seq<School>, spellSchoolId: int, wizardSchoolId: SchoolRef): (r: Alignment)
    ensures r == Unknown <==> GetSchoolById(schools, wizardSchoolId).None?
  {
    match GetSchoolById(schools, wizardSchoolId)
    case None => Unknown
    case Some(ws) =>
      if ws.id == spellSchoolId then Own
      else if spellSchoolId in ws.aligned then Aligned
      else if spellSchoolId in ws.neutral then Neutral
      else Opposed
  }

  /** A wizard school that is not a catalog id resolves every spell to
      `unknown`, whatever the spell's school; so does any id that is not a
      number. */
  lemma UnknownWizardSchool(schools: seq<School>, spellSchoolId: int, wizardSchoolId: SchoolRef)
    requires !wizardSchoolId.Num? || forall i :: 0 <= i < |schools| ==> schools[i].id != wizardSchoolId.n
    ensures GetSpellAlignment(schools, spellSchoolId, wizardSchoolId) == Unknown
  {
  }

  /** A known school's own spells are `own`, even when the school lists
      itself as aligned or neutral. */
  lemma OwnSchoolFirst(schools: seq<School>, s: int)
    requires exists i :: 0 <= i < |schools| && schools[i].id == s
    ensures GetSpellAlignment(schools, s, Num(s)) == Own
  {
  }

  /** With a known wizard school, the result is the first of own, aligned,
      neutral that applies, else opposed: a school listed as both aligned and
      neutral is aligned, and opposed means exactly "none of the three". */
  lemma AlignmentPriority(schools: seq<School>, spellSchoolId: int, w: int, ws: School)
    requires GetSchoolById(schools, Num(w)) == Some(ws)
    ensures var a := GetSpellAlignment(schools, spellSchoolId, Num(w));
      && (a == Own <==> spellSchoolId == w)
      && (a == Aligned <==> spellSchoolId != w && spellSchoolId in ws.aligned)
      && (a == Neutral <==> spellSchoolId != w && spellSchoolId !in ws.aligned && spellSchoolId in ws.neutral)
      && (a == Opposed <==> spellSchoolId != w && spellSchoolId !in ws.aligned && spellSchoolId !in ws.neutral)
  {
  }

  /** `getSoldierByName(name)`: the first soldier with exactly that name. */
  function GetSoldierByName(soldiers: seq<Soldier>, name: string): (r: Option<Soldier>)
    ensures r.None? <==> forall i :: 0 <= i < |soldiers| ==> soldiers[i].name != name
    ensures r.Some? ==> r.value.name == name && exists i :: 0 <= i < |soldiers| && soldiers[i] == r.value &&
                                                   forall j :: 0 <= j < i ==> soldiers[j].name != name
  {
    Find(soldiers, (s: Soldier) => s.name == name)
  }

  /** The alignment badges the components draw, named after the text they
      show ('Propre', 'Alliée', 'Neutre', 'Opposée'): one per alignment
      except `unknown`, which has no entry in the table. */
  datatype Badge = Propre | Alliee | Neutre | Opposee

  /** The badge table `{ own, aligned, neutral, opposed }` indexed by an
      alignment; `unknown` is not a key, so the lookup gives nothing. */
  function BadgeFor(a: Alignment): (r: Option<Badge>)
    ensures r.None? <==> a == Unknown
  {
    match a
    case Unknown => None
    case Own => Some(Propre)
    case Aligned => Some(Alliee)
    case Neutral => Some(Neutre)
    case Opposed => Some(Opposee)
  }
}
