/** The soldier picker of src/components/SoldierList.jsx: the catalog
    filtered by type and by a search term, split into a Standard and a
    Specialist section, the gate on clicking a catalog soldier, and the
    message explaining why a soldier cannot be added. */
module SoldierList {
  import opened Lists
  import opened Js
  import opened DataLoader
  import opened WarbandManager

  /** The value of the type filter that lets every type through. */
  const ALL := "all"

  /** The test of one catalog soldier: its type passes the type filter, and
      the lower-cased search term occurs in its lower-cased name or class. */
  predicate Shown(s: Soldier, filter: string, term: string)
  {
    (filter == ALL || s.kind == filter) &&
    (Includes(ToLowerCase(s.name), ToLowerCase(term)) || Includes(ToLowerCase(s.cls), ToLowerCase(term)))
  }

  /** `filteredSoldiers`. */
  function FilteredSoldiers(catalog: seq<Soldier>, filter: string, term: string): (r: seq<Soldier>)
    ensures forall s :: s in r <==> s in catalog && Shown(s, filter, term)
  {
    var p := (s: Soldier) => Shown(s, filter, term);
    assert forall s :: s in Filter(catalog, p) <==> s in catalog && p(s) by {
      forall s
        ensures s in Filter(catalog, p) <==> s in catalog && p(s)
      {
        FilterMembership(catalog, p, s);
      }
    }
    Filter(catalog, p)
  }

  /** The two sections of `groupedSoldiers`, Standard first. */
  datatype Groups = Groups(standard: seq<Soldier>, specialist: seq<Soldier>)

  /** `groupedSoldiers`: the filtered list split by type; a soldier of any
      other type is in neither section. */
  function GroupedSoldiers(filtered: seq<Soldier>): Groups
  {
    Groups(Filter(filtered, IsStandard), Filter(filtered, IsSpecialist))
  }

  /** Each section holds exactly the shown soldiers of its type, in catalog
      order; together they hold no more soldiers than were shown. */
  lemma GroupsOfCatalog(catalog: seq<Soldier>, filter: string, term: string)
    ensures var f := FilteredSoldiers(catalog, filter, term);
            var g := GroupedSoldiers(f);
      && g.standard == Filter(catalog, (s: Soldier) => Shown(s, filter, term) && IsStandard(s))
      && g.specialist == Filter(catalog, (s: Soldier) => Shown(s, filter, term) && IsSpecialist(s))
      && |g.standard| + |g.specialist| <= |f|
  {
    var p := (s: Soldier) => Shown(s, filter, term);
    FilterFilter(catalog, p, IsStandard, (s: Soldier) => Shown(s, filter, term) && IsStandard(s));
    FilterFilter(catalog, p, IsSpecialist, (s: Soldier) => Shown(s, filter, term) && IsSpecialist(s));
    FilterDisjointLengths(FilteredSoldiers(catalog, filter, term), IsStandard, IsSpecialist);
  }

  /** A soldier is in a section exactly when it is shown and has that type;
      with the filter on one type, the other section is empty. */
  lemma GroupMembership(catalog: seq<Soldier>, filter: string, term: string, s: Soldier)
    ensures var g := GroupedSoldiers(FilteredSoldiers(catalog, filter, term));
      && (s in g.standard <==> s in catalog && Shown(s, filter, term) && IsStandard(s))
      && (s in g.specialist <==> s in catalog && Shown(s, filter, term) && IsSpecialist(s))
      && (filter == SPECIALIST ==> g.standard == [])
      && (filter == STANDARD ==> g.specialist == [])
  {
    var f := FilteredSoldiers(catalog, filter, term);
    FilterMembership(f, IsStandard, s);
    FilterMembership(f, IsSpecialist, s);
    if filter == SPECIALIST {
      FilterDropsAll(f, IsStandard);
    }
    if filter == STANDARD {
      FilterDropsAll(f, IsSpecialist);
    }
  }

  /** With the filter on all types and an empty search, every catalog
      soldier is shown. */
  lemma EverythingShownByDefault(catalog: seq<Soldier>)
    ensures FilteredSoldiers(catalog, ALL, "") == catalog
  {
    forall i | 0 <= i < |catalog|
      ensures Shown(catalog[i], ALL, "")
    {
      IncludesEmpty(ToLowerCase(catalog[i].name));
    }
    FilterKeepsAll(catalog, (s: Soldier) => Shown(s, ALL, ""));
  }

  /** Clicking a catalog soldier: `canAdd && onAdd(soldier.name)`. The
      warband after the click. */
  function ClickSoldier(w: Warband, catalog: seq<Soldier>, s: Soldier, newId: int): Warband
  {
    if CanAddSoldier(w, s) then WithSoldierAdded(w, catalog, s.name, newId) else w
  }

  /** A click adds a soldier only when the gate holds for the clicked
      soldier; in a catalog whose names are distinct, it then adds exactly
      that soldier. */
  lemma ClickAddsClickedSoldier(w: Warband, catalog: seq<Soldier>, i: int, newId: int)
    requires 0 <= i < |catalog|
    requires forall a, b :: 0 <= a < b < |catalog| ==> catalog[a].name != catalog[b].name
    ensures var s := catalog[i];
      && (!CanAddSoldier(w, s) ==> ClickSoldier(w, catalog, s, newId) == w)
      && (CanAddSoldier(w, s) ==> ClickSoldier(w, catalog, s, newId).soldiers == w.soldiers + [s.(id := Some(newId))])
  {
    var e := GetSoldierByName(catalog, catalog[i].name);
    var j :| 0 <= j < |catalog| && catalog[j] == e.value && forall k :: 0 <= k < j ==> catalog[k].name != catalog[i].name;
    assert j == i;
  }

  /** Why a soldier cannot be added: 'Budget insuffisant',
      'Limite de 4 spécialistes atteinte' or 'Limite de 8 soldats atteinte'. */
  datatype Reason = BudgetShort | SpecialistLimit | SizeLimit

  /** The message AS WRITTEN: the budget test compares with the raw `cost`,
      and `remainingBudget < undefined` is false. */
  function CannotAddReasonAsWritten(remaining: int, s: Soldier, specialists: nat): Reason
  {
    if s.cost.Some? && remaining < s.cost.value then BudgetShort
    else if IsSpecialist(s) && specialists >= MAX_SPECIALISTS then SpecialistLimit
    else SizeLimit
  }

  /** The message, CORRECTED: the budget test uses `cost || 0`, as the gate
      does. */
  function CannotAddReason(remaining: int, s: Soldier, specialists: nat): Reason
  {
    if remaining < CostOf(s) then BudgetShort
    else if IsSpecialist(s) && specialists >= MAX_SPECIALISTS then SpecialistLimit
    else SizeLimit
  }

  /** The corrected message names a gate that fails, and the budget comes
      first: a soldier the budget cannot pay for is reported as such even
      when the roster is also full. */
  lemma ReasonNamesFailingGate(w: Warband, s: Soldier)
    requires !CanAddSoldier(w, s)
    ensures var r := CannotAddReason(RemainingBudget(w), s, SpecialistCount(w.soldiers));
      && (r == BudgetShort <==> RemainingBudget(w) < CostOf(s))
      && (r == SpecialistLimit ==> IsSpecialist(s) && SpecialistCount(w.soldiers) >= MAX_SPECIALISTS)
      && (r == SizeLimit ==> |w.soldiers| >= MAX_WARBAND_SIZE)
  {
  }

  /** The two agree whenever the soldier has a cost. */
  lemma ReasonAgreesWithCost(remaining: int, s: Soldier, specialists: nat)
    requires s.cost.Some?
    ensures CannotAddReasonAsWritten(remaining, s, specialists) == CannotAddReason(remaining, s, specialists)
  {
  }

  /** The finding: a budget typed as "-10" leaves a remaining budget of -10;
      a Standard catalog soldier without a cost then fails the gate on the
      budget alone, yet the message as written blames the size limit of an
      empty roster. */
  lemma ReasonWithoutCostExample()
    ensures var w := INITIAL_WARBAND.(budget := -10);
            var s := Soldier("Thug", STANDARD, "Thug", None, "", None, None, None);
      && !CanAddSoldier(w, s)
      && |w.soldiers| < MAX_WARBAND_SIZE
      && CannotAddReasonAsWritten(RemainingBudget(w), s, SpecialistCount(w.soldiers)) == SizeLimit
      && CannotAddReason(RemainingBudget(w), s, SpecialistCount(w.soldiers)) == BudgetShort
  {
  }

  /** The budget of that example is what the budget input produces from the
      text "-10". */
  lemma NegativeBudgetInput()
    ensures BudgetFromInput("-10") == -10
  {
    assert DecimalString(-10) == "-10" by {
      assert NatDigits(10) == NatDigits(1) + [DigitChar(0)];
    }
    BudgetFromDecimalText(-10, "");
    assert "-10" + "" == "-10";
  }
}
