/** The spell card of src/components/SpellCard.jsx: its alignment and
    badge, whether it is disabled, when a click reaches `onClick`, and when
    the check mark and the remove button appear. The optional props are
    given with their defaults applied by `CardProps`. */
module SpellCard {
  import opened Lists
  import opened Js
  import opened DataLoader
  import opened SpellList

  const AVAILABLE := "available"
  const SELECTED := "selected"

  /** The props that decide behaviour. `hasOnClick` and `hasOnRemove` say
      whether the callbacks were passed (a function is always truthy). */
  datatype Props = Props(
    spell: Spell, wizardSchool: SchoolRef, variant: string, isSelected: bool,
    disabled: bool, hasOnClick: bool, hasOnRemove: bool)

  /** The destructuring defaults: `variant = 'available'`,
      `isSelected = false`, `disabled = false`, each applied only to an
      undefined prop (`None`). */
  function CardProps(spell: Spell, wizardSchool: SchoolRef, variant: Option<string>, isSelected: Option<bool>,
                     disabled: Option<bool>, hasOnClick: bool, hasOnRemove: bool): (p: Props)
    ensures p.variant == if variant.Some? then variant.value else AVAILABLE
    ensures p.isSelected == (isSelected.Some? && isSelected.value)
    ensures p.disabled == (disabled.Some? && disabled.value)
  {
    Props(spell, wizardSchool,
          if variant.Some? then variant.value else AVAILABLE,
          if isSelected.Some? then isSelected.value else false,
          if disabled.Some? then disabled.value else false,
          hasOnClick, hasOnRemove)
  }

  /** `wizardSchool ? getSpellAlignment(spell.school, wizardSchool) : null`. */
  function CardAlignment(schools: seq<School>, p: Props): (r: Option<Alignment>)
    ensures r.None? <==> !p.wizardSchool.Truthy()
  {
    if p.wizardSchool.Truthy() then Some(GetSpellAlignment(schools, p.spell.school, p.wizardSchool)) else None
  }

  /** `alignment ? alignmentBadges[alignment] : null`: every alignment
      string is truthy, and `unknown` has no entry. */
  function CardBadge(schools: seq<School>, p: Props): Option<Badge>
  {
    var a := CardAlignment(schools, p);
    if a.None? then None else BadgeFor(a.value)
  }

  /** `isOpposed`. */
  predicate CardOpposed(schools: seq<School>, p: Props)
  {
    CardAlignment(schools, p) == Some(Opposed)
  }

  /** `cardDisabled = disabled || isOpposed`. */
  predicate CardDisabled(schools: seq<School>, p: Props)
  {
    p.disabled || CardOpposed(schools, p)
  }

  /** `handleClick`: whether `onClick` is called. */
  predicate ClickInvokes(schools: seq<School>, p: Props)
  {
    p.variant == AVAILABLE && !CardDisabled(schools, p) && p.hasOnClick
  }

  /** The check mark: an available, selected card that is not disabled. */
  predicate CheckMarkShown(schools: seq<School>, p: Props)
  {
    p.variant == AVAILABLE && p.isSelected && !CardDisabled(schools, p)
  }

  /** The remove button: the selected variant with an `onRemove`. */
  predicate RemoveButtonShown(p: Props)
  {
    p.variant == SELECTED && p.hasOnRemove
  }

  /** `school?.name || \`École ${spell.school}\``: the school's name, or a
      label built from the id when the school is unknown or unnamed; the
      label is never empty. */
  function SchoolLabel(schools: seq<School>, id: int): (r: string)
    ensures r != ""
    ensures GetSchoolById(schools, Num(id)).Some? && GetSchoolById(schools, Num(id)).value.name != "" ==>
              r == GetSchoolById(schools, Num(id)).value.name
    ensures GetSchoolById(schools, Num(id)).None? || GetSchoolById(schools, Num(id)).value.name == "" ==>
              r == "École " + DecimalString(id)
  {
    var s := GetSchoolById(schools, Num(id));
    if s.Some? && s.value.name != "" then s.value.name else "École " + DecimalString(id)
  }

  /** With a falsy wizard school there is no alignment: no badge, the card
      is not opposed, and it is disabled only by its `disabled` prop. */
  lemma NoSchoolNoAlignment(schools: seq<School>, p: Props)
    requires !p.wizardSchool.Truthy()
    ensures CardBadge(schools, p).None?
    ensures !CardOpposed(schools, p)
    ensures CardDisabled(schools, p) == p.disabled
  {
  }

  /** The card and the spell list agree on what is opposed; on the badge
      they agree whenever the wizard's school is truthy (a school whose id
      is 0 gets a badge in the list and none on a card). */
  lemma CardAgreesWithList(schools: seq<School>, p: Props)
    ensures CardOpposed(schools, p) == IsSpellOpposed(schools, p.wizardSchool, p.spell.school)
    ensures CardBadge(schools, p) == if p.wizardSchool.Truthy() then ListBadge(schools, p.wizardSchool, p.spell.school) else None
    ensures CardBadge(schools, p).None? <==>
              !p.wizardSchool.Truthy() || GetSpellAlignment(schools, p.spell.school, p.wizardSchool) == Unknown
  {
  }

  /** The spell list draws its own cards rather than this component, so
      this compares the two check-mark conditions: given the props a caller
      like the list would pass for a catalog spell (the available variant,
      selected when some selected spell has its name, not disabled), this
      card shows its check mark exactly when the list's own markup does. */
  lemma CardCheckMarkAgreesWithList(schools: seq<School>, spell: Spell, wizardSchool: SchoolRef,
                                    selected: seq<Spell>, hasOnClick: bool, hasOnRemove: bool)
    ensures var p := CardProps(spell, wizardSchool, None, Some(IsSelected(selected, spell.name)), None, hasOnClick, hasOnRemove);
      CheckMarkShown(schools, p) == SpellList.CheckMarkShown(schools, wizardSchool, selected, spell)
  {
    var p := CardProps(spell, wizardSchool, None, Some(IsSelected(selected, spell.name)), None, hasOnClick, hasOnRemove);
    CardAgreesWithList(schools, p);
  }

  /** A click reaches `onClick` exactly for an available card that is
      neither disabled nor opposed and has a callback; a selected card
      never passes it on, and a card with a check mark always does when it
      has a callback. The check mark and the remove button never appear on
      the same card. */
  lemma ClickGating(schools: seq<School>, p: Props)
    ensures ClickInvokes(schools, p) <==>
      p.variant == AVAILABLE && !p.disabled && !IsSpellOpposed(schools, p.wizardSchool, p.spell.school) && p.hasOnClick
    ensures p.variant == SELECTED ==> !ClickInvokes(schools, p) && !CheckMarkShown(schools, p)
    ensures CheckMarkShown(schools, p) && p.hasOnClick ==> ClickInvokes(schools, p)
    ensures !(CheckMarkShown(schools, p) && RemoveButtonShown(p))
  {
    CardAgreesWithList(schools, p);
  }
}
