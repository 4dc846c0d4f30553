/** The roster engine of src/components/WarbandManager.jsx: the warband
    record, its derived totals, the three-part gate on adding a soldier, and
    the transitions that replace the warband. */
module WarbandManager {
  import opened Lists
  import opened Js
  import opened DataLoader
  import opened Characters

  const MAX_WARBAND_SIZE := 8
  const MAX_SPECIALISTS := 4
  const STARTING_BUDGET := 400
  const APPRENTICE_COST := 200

  const SPECIALIST := "Specialist"
  const STANDARD := "Standard"

  /** The warband state: `{ name, wizard, apprentice, soldiers, spells, budget }`. */
  datatype Warband = Warband(
    name: string, wizard: Option<Caster>, apprentice: Option<Caster>,
    soldiers: seq<Soldier>, spells: seq<Spell>, budget: int)

  /** The state a session starts from, and the state a reset restores. */
  const INITIAL_WARBAND := Warband("", None, None, [], [], STARTING_BUDGET)

  /** `soldier.cost || 0`. */
  function CostOf(s: Soldier): int
  {
    match s.cost
    case Some(c) => c
    case None => 0
  }

  /** The soldiers' costs added up from first to last. */
  function SumCosts(soldiers: seq<Soldier>): int
  {
    if soldiers == [] then 0
    else SumCosts(soldiers[..|soldiers| - 1]) + CostOf(soldiers[|soldiers| - 1])
  }

  /** `calculateTotalCost()`: 200 for an apprentice plus the soldiers'
      costs; the wizard costs nothing here. */
  function TotalCost(w: Warband): int
  {
    (if w.apprentice.Some? then APPRENTICE_COST else 0) + SumCosts(w.soldiers)
  }

  /** `remainingBudget`; negative once the budget is edited below the cost
      already spent, or after an import. */
  function RemainingBudget(w: Warband): int
  {
    w.budget - TotalCost(w)
  }

  predicate IsSpecialist(s: Soldier)
  {
    s.kind == SPECIALIST
  }

  predicate IsStandard(s: Soldier)
  {
    s.kind == STANDARD
  }

  /** `soldiers.filter(s => s.type === 'Specialist').length`. */
  function SpecialistCount(soldiers: seq<Soldier>): nat
  {
    |Filter(soldiers, IsSpecialist)|
  }

  /** `soldiers.filter(s => s.type === 'Standard').length`. */
  function StandardCount(soldiers: seq<Soldier>): nat
  {
    |Filter(soldiers, IsStandard)|
  }

  /** Soldiers of any other type are counted in neither total. */
  lemma CountsWithinSize(soldiers: seq<Soldier>)
    ensures StandardCount(soldiers) + SpecialistCount(soldiers) <= |soldiers|
  {
    FilterDisjointLengths(soldiers, IsStandard, IsSpecialist);
  }

  /** `canAddSoldier(soldier)`: the roster has room, the specialist cap is
      not reached for a specialist, and the cost fits the remaining budget. */
  function CanAddSoldier(w: Warband, s: Soldier): (r: bool)
    ensures r <==> && |w.soldiers| < MAX_WARBAND_SIZE
                   && (IsSpecialist(s) ==> SpecialistCount(w.soldiers) < MAX_SPECIALISTS)
                   && CostOf(s) <= RemainingBudget(w)
  {
    if |w.soldiers| >= MAX_WARBAND_SIZE then false
    else if IsSpecialist(s) && SpecialistCount(w.soldiers) >= MAX_SPECIALISTS then false
    else if RemainingBudget(w) < CostOf(s) then false
    else true
  }

  /** `addSoldier(soldierName)` with `newId` for `Date.now()`: an unknown
      name or a failed gate leaves the warband as it is; otherwise a copy of
      the catalog entry with the new id is appended. */
  function WithSoldierAdded(w: Warband, catalog: seq<Soldier>, soldierName: string, newId: int): Warband
  {
    match GetSoldierByName(catalog, soldierName)
    case None => w
    case Some(entry) =>
      if !CanAddSoldier(w, entry) then w
      else w.(soldiers := w.soldiers + [entry.(id := Some(newId))])
  }

  /** `removeSoldier(id)`: every soldier whose id is `id` goes. */
  function WithSoldierRemoved(w: Warband, id: Option<int>): Warband
  {
    w.(soldiers := Filter(w.soldiers, (s: Soldier) => s.id != id))
  }

  /** The fields `updateSoldier` is given: present ones override. */
  datatype SoldierPatch = SoldierPatch(customName: Option<string>, notes: Option<string>)

  /** `{ ...s, ...updates }`: a field the patch gives overrides, and every
      other field, the id and the cost among them, is the soldier's own. */
  function Patched(s: Soldier, u: SoldierPatch): (r: Soldier)
    ensures r.name == s.name && r.kind == s.kind && r.cls == s.cls && r.cost == s.cost
    ensures r.gear == s.gear && r.id == s.id
    ensures r.customName == (if u.customName.Some? then u.customName else s.customName)
    ensures r.notes == (if u.notes.Some? then u.notes else s.notes)
    ensures u == SoldierPatch(None, None) ==> r == s
  {
    s.(customName := if u.customName.Some? then u.customName else s.customName,
       notes := if u.notes.Some? then u.notes else s.notes)
  }

  /** `soldiers.map(s => s.id === id ? { ...s, ...updates } : s)`. */
  function UpdateMatching(soldiers: seq<Soldier>, id: Option<int>, u: SoldierPatch): (r: seq<Soldier>)
    ensures |r| == |soldiers|
    ensures forall i :: 0 <= i < |r| ==>
              r[i] == if soldiers[i].id == id then Patched(soldiers[i], u) else soldiers[i]
  {
    if soldiers == [] then []
    else [if soldiers[0].id == id then Patched(soldiers[0], u) else soldiers[0]]
         + UpdateMatching(soldiers[1..], id, u)
  }

  /** `updateSoldier(id, updates)`. */
  function WithSoldierUpdated(w: Warband, id: Option<int>, u: SoldierPatch): Warband
  {
    w.(soldiers := UpdateMatching(w.soldiers, id, u))
  }

  /** `parseInt(newBudget) || STARTING_BUDGET`. */
  function BudgetFromInput(newBudget: string): (r: int)
    ensures r != 0
  {
    var n := ParseInt(newBudget);
    if n.Truthy() then n.value else STARTING_BUDGET
  }

  /** The roster caps, which every transition but an import keeps. */
  ghost predicate WithinCaps(w: Warband)
  {
    |w.soldiers| <= MAX_WARBAND_SIZE && SpecialistCount(w.soldiers) <= MAX_SPECIALISTS
  }

  lemma {:induction false} SumCostsAppend(a: seq<Soldier>, b: seq<Soldier>)
    ensures SumCosts(a + b) == SumCosts(a) + SumCosts(b)
  {
    if b != [] {
      assert (a + b)[..|a + b| - 1] == a + b[..|b| - 1];
      SumCostsAppend(a, b[..|b| - 1]);
    } else {
      assert a + b == a;
    }
  }

  /** A successful add appends exactly one soldier, the catalog entry with
      the new id, and changes nothing else; afterwards the roster has at most
      8 soldiers, the remaining budget is the old one less the entry's cost
      and is not negative, and the caps still hold if they held before.
      An unknown name or a failed gate leaves the warband unchanged. */
  lemma AddSoldierOutcome(w: Warband, catalog: seq<Soldier>, soldierName: string, newId: int)
    ensures var r := WithSoldierAdded(w, catalog, soldierName, newId);
            var e := GetSoldierByName(catalog, soldierName);
      && (e.None? || !CanAddSoldier(w, e.value) ==> r == w)
      && (e.Some? && CanAddSoldier(w, e.value) ==>
            && r.(soldiers := w.soldiers) == w
            && |r.soldiers| == |w.soldiers| + 1 <= MAX_WARBAND_SIZE
            && r.soldiers[..|w.soldiers|] == w.soldiers
            && r.soldiers[|w.soldiers|] == e.value.(id := Some(newId))
            && RemainingBudget(r) == RemainingBudget(w) - CostOf(e.value)
            && RemainingBudget(r) >= 0)
      && (WithinCaps(w) ==> WithinCaps(r))
  {
    var e := GetSoldierByName(catalog, soldierName);
    if e.Some? && CanAddSoldier(w, e.value) {
      var x := e.value.(id := Some(newId));
      SumCostsAppend(w.soldiers, [x]);
      assert SumCosts([x]) == CostOf(x) by { assert [x][..0] == []; }
      FilterAppend(w.soldiers, [x], IsSpecialist);
    }
  }

  /** Removing keeps exactly the soldiers with another id, in order; a
      missing id changes nothing; the caps still hold if they held before. */
  lemma RemoveSoldierOutcome(w: Warband, id: Option<int>, s: Soldier)
    ensures var r := WithSoldierRemoved(w, id);
      && r.(soldiers := w.soldiers) == w
      && r.soldiers == Filter(w.soldiers, (x: Soldier) => x.id != id)
      && (forall i :: 0 <= i < |r.soldiers| ==> r.soldiers[i].id != id)
      && (s in r.soldiers <==> s in w.soldiers && s.id != id)
      && multiset(r.soldiers)[s] == (if s.id != id then multiset(w.soldiers)[s] else 0)
      && ((forall i :: 0 <= i < |w.soldiers| ==> w.soldiers[i].id != id) ==> r == w)
      && (WithinCaps(w) ==> WithinCaps(r))
  {
    var keep := (x: Soldier) => x.id != id;
    FilterMembership(w.soldiers, keep, s);
    FilterMultiplicity(w.soldiers, keep, s);
    if forall i :: 0 <= i < |w.soldiers| ==> w.soldiers[i].id != id {
      FilterKeepsAll(w.soldiers, keep);
    }
    FilterShrinksCount(w.soldiers, keep, IsSpecialist);
  }

  /** With a fresh id, adding a soldier and removing it by that id restores
      the warband, and with it the remaining budget. */
  lemma AddThenRemove(w: Warband, catalog: seq<Soldier>, soldierName: string, newId: int)
    requires forall i :: 0 <= i < |w.soldiers| ==> w.soldiers[i].id != Some(newId)
    ensures WithSoldierRemoved(WithSoldierAdded(w, catalog, soldierName, newId), Some(newId)) == w
  {
    var keep := (x: Soldier) => x.id != Some(newId);
    var added := WithSoldierAdded(w, catalog, soldierName, newId);
    FilterKeepsAll(w.soldiers, keep);
    if added != w {
      AddSoldierOutcome(w, catalog, soldierName, newId);
      var x := added.soldiers[|w.soldiers|];
      assert added.soldiers == w.soldiers + [x];
      FilterAppend(w.soldiers, [x], keep);
      assert Filter([x], keep) == [];
    }
  }

  lemma {:induction false} SumCostsPointwise(a: seq<Soldier>, b: seq<Soldier>)
    requires |a| == |b|
    requires forall i :: 0 <= i < |a| ==> CostOf(a[i]) == CostOf(b[i])
    ensures SumCosts(a) == SumCosts(b)
  {
    if a != [] {
      SumCostsPointwise(a[..|a| - 1], b[..|b| - 1]);
    }
  }

  /** An update keeps the number of soldiers, their order, every unmatched
      soldier, and every total: cost, remaining budget and type counts. */
  lemma UpdateSoldierOutcome(w: Warband, id: Option<int>, u: SoldierPatch)
    ensures var r := WithSoldierUpdated(w, id, u);
      && r.(soldiers := w.soldiers) == w
      && |r.soldiers| == |w.soldiers|
      && (forall i :: 0 <= i < |w.soldiers| && w.soldiers[i].id != id ==> r.soldiers[i] == w.soldiers[i])
      && TotalCost(r) == TotalCost(w)
      && RemainingBudget(r) == RemainingBudget(w)
      && SpecialistCount(r.soldiers) == SpecialistCount(w.soldiers)
      && StandardCount(r.soldiers) == StandardCount(w.soldiers)
  {
    var r := WithSoldierUpdated(w, id, u);
    SumCostsPointwise(w.soldiers, r.soldiers);
    FilterLengthPointwise(w.soldiers, IsSpecialist, r.soldiers, IsSpecialist);
    FilterLengthPointwise(w.soldiers, IsStandard, r.soldiers, IsStandard);
  }

  /** A budget typed as the decimal text of `n` becomes `n`, negative
      values included, except that 0 falls back to 400. Text after the digits
      (a fraction, an exponent) is ignored. */
  lemma BudgetFromDecimalText(n: int, tail: string)
    requires tail == [] || !IsRadixDigit(tail[0], 10)
    requires n == 0 ==> tail == [] || (tail[0] != 'x' && tail[0] != 'X')
    ensures BudgetFromInput(DecimalString(n) + tail) == if n != 0 then n else STARTING_BUDGET
  {
    ParseIntDecimalPrefix(n, tail);
  }

  /** Text without any digit falls back to the starting budget. */
  lemma BudgetWithoutDigits(text: string)
    requires forall i :: 0 <= i < |text| ==> !IsRadixDigit(text[i], 10)
    ensures BudgetFromInput(text) == STARTING_BUDGET
  {
    ParseIntNoDigits(text);
  }

  /** Along every path but an import, the caps are kept. */
  lemma CapsKept(w: Warband, catalog: seq<Soldier>, soldierName: string, newId: int,
                 id: Option<int>, u: SoldierPatch, text: string)
    requires WithinCaps(w)
    ensures WithinCaps(WithSoldierAdded(w, catalog, soldierName, newId))
    ensures WithinCaps(WithSoldierRemoved(w, id))
    ensures WithinCaps(WithSoldierUpdated(w, id, u))
    ensures WithinCaps(w.(budget := BudgetFromInput(text)))
    ensures WithinCaps(INITIAL_WARBAND)
  {
    AddSoldierOutcome(w, catalog, soldierName, newId);
    RemoveSoldierOutcome(w, id, Soldier("", "", "", None, "", None, None, None));
    UpdateSoldierOutcome(w, id, u);
  }

  /** A roster already at 8 soldiers (after an import, say) takes no more,
      whatever the budget. */
  lemma FullRosterRejectsAdd(w: Warband, catalog: seq<Soldier>, soldierName: string, newId: int)
    requires |w.soldiers| >= MAX_WARBAND_SIZE
    ensures WithSoldierAdded(w, catalog, soldierName, newId) == w
  {
  }

  /** The component's state cell: each handler replaces the warband. */
  class Manager {
    const catalog: seq<Soldier>
    var warband: Warband

    constructor(catalog: seq<Soldier>)
      ensures this.catalog == catalog && warband == INITIAL_WARBAND
    {
      this.catalog := catalog;
      warband := INITIAL_WARBAND;
    }

    /** `calculateTotalCost()`, accumulating over the soldiers. */
    method CalculateTotalCost() returns (total: int)
      ensures total == TotalCost(warband)
    {
      total := 0;
      if warband.apprentice.Some? {
        total := total + APPRENTICE_COST;
      }
      var soldiers := warband.soldiers;
      var i := 0;
      while i < |soldiers|
        invariant 0 <= i <= |soldiers|
        invariant total == (if warband.apprentice.Some? then APPRENTICE_COST else 0) + SumCosts(soldiers[..i])
      {
        assert soldiers[..i + 1][..i] == soldiers[..i];
        total := total + CostOf(soldiers[i]);
        i := i + 1;
      }
      assert soldiers[..i] == soldiers;
    }

    method AddSoldier(soldierName: string, newId: int)
      modifies this
      ensures warband == WithSoldierAdded(old(warband), catalog, soldierName, newId)
      ensures WithinCaps(old(warband)) ==> WithinCaps(warband)
      ensures warband != old(warband) ==> |warband.soldiers| <= MAX_WARBAND_SIZE && RemainingBudget(warband) >= 0
    {
      AddSoldierOutcome(warband, catalog, soldierName, newId);
      var soldier := GetSoldierByName(catalog, soldierName);
      if soldier.None? || !CanAddSoldier(warband, soldier.value) {
        return;
      }
      warband := warband.(soldiers := warband.soldiers + [soldier.value.(id := Some(newId))]);
    }

    method RemoveSoldier(id: Option<int>)
      modifies this
      ensures warband == WithSoldierRemoved(old(warband), id)
      ensures WithinCaps(old(warband)) ==> WithinCaps(warband)
    {
      RemoveSoldierOutcome(warband, id, Soldier("", "", "", None, "", None, None, None));
      warband := warband.(soldiers := Filter(warband.soldiers, (s: Soldier) => s.id != id));
    }

    method UpdateSoldier(id: Option<int>, updates: SoldierPatch)
      modifies this
      ensures warband == WithSoldierUpdated(old(warband), id, updates)
      ensures TotalCost(warband) == TotalCost(old(warband))
      ensures WithinCaps(old(warband)) ==> WithinCaps(warband)
    {
      UpdateSoldierOutcome(warband, id, updates);
      warband := warband.(soldiers := UpdateMatching(warband.soldiers, id, updates));
    }

    method UpdateWizard(wizardData: Option<Caster>)
      modifies this
      ensures warband == old(warband).(wizard := wizardData)
    {
      warband := warband.(wizard := wizardData);
    }

    /** Giving or taking away the apprentice is not gated: it can take the
      remaining budget below zero. */
    method UpdateApprentice(apprenticeData: Option<Caster>)
      modifies this
      ensures warband == old(warband).(apprentice := apprenticeData)
      ensures RemainingBudget(warband) == RemainingBudget(old(warband))
                - (if apprenticeData.Some? then APPRENTICE_COST else 0)
                + (if old(warband).apprentice.Some? then APPRENTICE_COST else 0)
    {
      warband := warband.(apprentice := apprenticeData);
    }

    method UpdateSpells(spellsList: seq<Spell>)
      modifies this
      ensures warband == old(warband).(spells := spellsList)
    {
      warband := warband.(spells := spellsList);
    }

    method UpdateBudget(newBudget: string)
      modifies this
      ensures warband == old(warband).(budget := BudgetFromInput(newBudget))
      ensures warband.budget != 0
    {
      var parsed := ParseInt(newBudget);
      warband := warband.(budget := if parsed.Truthy() then parsed.value else STARTING_BUDGET);
    }

    /** The warband name field's change handler. */
    method UpdateName(name: string)
      modifies this
      ensures warband == old(warband).(name := name)
    {
      warband := warband.(name := name);
    }

    /** `importWarband`: a record that parsed replaces the state unchecked;
      a parse failure (`None`) leaves it as it was. */
    method ImportWarband(parsed: Option<Warband>)
      modifies this
      ensures warband == if parsed.Some? then parsed.value else old(warband)
    {
      if parsed.Some? {
        warband := parsed.value;
      }
    }

    /** `resetWarband`, with `confirmed` for the user's answer to the
      confirmation dialog. */
    method ResetWarband(confirmed: bool)
      modifies this
      ensures warband == if confirmed then INITIAL_WARBAND else old(warband)
    {
      if confirmed {
        warband := INITIAL_WARBAND;
      }
    }
  }

  /** Budget 400; a 150-gold soldier leaves 250; an apprentice leaves 50; a
      100-gold soldier is then refused and the roster stays as it was. */
  lemma SpendingScenario(thug: Soldier, archer: Soldier, apprentice: Caster)
    requires thug.name == "Thug" && thug.kind == STANDARD && thug.cost == Some(150)
    requires archer.name == "Archer" && archer.kind == STANDARD && archer.cost == Some(100)
    ensures var w1 := WithSoldierAdded(INITIAL_WARBAND, [thug, archer], "Thug", 1);
            var w2 := w1.(apprentice := Some(apprentice));
      && w1.soldiers == [thug.(id := Some(1))]
      && RemainingBudget(w1) == 250
      && RemainingBudget(w2) == 50
      && WithSoldierAdded(w2, [thug, archer], "Archer", 2) == w2
  {
    var cat := [thug, archer];
    assert GetSoldierByName(cat, "Thug") == Some(thug);
    assert GetSoldierByName(cat, "Archer") == Some(archer) by {
      assert cat[1].name == "Archer";
      assert cat[0].name != "Archer" by { assert "Thug"[0] != "Archer"[0]; }
    }
    var w1 := WithSoldierAdded(INITIAL_WARBAND, cat, "Thug", 1);
    assert w1.soldiers == [thug.(id := Some(1))];
    assert SumCosts(w1.soldiers) == 150 by {
      assert w1.soldiers[..0] == [];
    }
  }
}
