/** The spell picker of src/components/SpellList.jsx: selecting and
    deselecting a spell, the rule that opposed spells cannot be toggled, the
    grouping of the catalog by school, the order in which the school
    sections are listed, and the search filter. The catalog is passed in as
    a value; the wizard's school is the `wizardSchool` prop. */
module SpellList {
  import opened Lists
  import opened Js
  import opened DataLoader

  /** `spells.find(s => s.name === spellName)`. */
  function GetSpellByName(spells: seq<Spell>, name: string): (r: Option<Spell>)
    ensures r.None? <==> forall i :: 0 <= i < |spells| ==> spells[i].name != name
    ensures r.Some? ==> r.value.name == name && exists i :: 0 <= i < |spells| && spells[i] == r.value &&
                                                   forall j :: 0 <= j < i ==> spells[j].name != name
  {
    Find(spells, (s: Spell) => s.name == name)
  }

  /** `isSpellOpposed(spellSchoolId)`: false while the wizard has no school
      (a falsy value), else whether the alignment is `opposed`. */
  predicate IsSpellOpposed(schools: seq<School>, wizardSchool: SchoolRef, spellSchoolId: int)
  {
    wizardSchool.Truthy() && GetSpellAlignment(schools, spellSchoolId, wizardSchool) == Opposed
  }

  /** A spell is opposed only to a wizard whose school is a catalog id, and
      then exactly when its school is neither the wizard's own nor listed as
      aligned or neutral. */
  lemma OpposedMeaning(schools: seq<School>, wizardSchool: SchoolRef, spellSchoolId: int)
    ensures IsSpellOpposed(schools, wizardSchool, spellSchoolId) <==>
      && wizardSchool.Truthy()
      && GetSchoolById(schools, wizardSchool).Some?
      && var ws := GetSchoolById(schools, wizardSchool).value;
         spellSchoolId != ws.id && spellSchoolId !in ws.aligned && spellSchoolId !in ws.neutral
  {
  }

  /** `selectedSpells.some(s => s.name === spellName)`. */
  predicate IsSelected(selected: seq<Spell>, name: string)
  {
    Any(selected, (s: Spell) => s.name == name)
  }

  /** `toggleSpell(spellName)`: the list handed to `onSpellsChange`, or
      `None` when the handler returns without calling it (an unknown name,
      or an opposed spell while the wizard's school is truthy). A selected
      spell is removed (every entry of that name); any other is appended. */
  function ToggleSpell(catalog: Catalog, wizardSchool: SchoolRef, selected: seq<Spell>, name: string): Option<seq<Spell>>
  {
    match GetSpellByName(catalog.spells, name)
    case None => None
    case Some(spell) =>
      if wizardSchool.Truthy() && GetSpellAlignment(catalog.schools, spell.school, wizardSchool) == Opposed then None
      else if IsSelected(selected, name) then Some(Filter(selected, (s: Spell) => s.name != name))
      else Some(selected + [spell])
  }

  /** The toggle emits nothing exactly for an unknown name or an opposed
      spell; otherwise it removes every entry of that name from a selection
      holding one, keeping the others in order and with their multiplicity,
      and appends the catalog entry to a selection without one. */
  lemma ToggleOutcome(catalog: Catalog, wizardSchool: SchoolRef, selected: seq<Spell>, name: string)
    ensures var r := ToggleSpell(catalog, wizardSchool, selected, name);
            var e := GetSpellByName(catalog.spells, name);
      && (r.None? <==> e.None? || IsSpellOpposed(catalog.schools, wizardSchool, e.value.school))
      && (r.Some? && IsSelected(selected, name) ==>
            && r.value == Filter(selected, (s: Spell) => s.name != name)
            && !IsSelected(r.value, name)
            && |r.value| < |selected|
            && (forall x :: multiset(r.value)[x] == if x.name != name then multiset(selected)[x] else 0))
      && (r.Some? && !IsSelected(selected, name) ==>
            r.value == selected + [e.value] && e.value.name == name && e.value in catalog.spells)
  {
    if ToggleSpell(catalog, wizardSchool, selected, name).Some? && IsSelected(selected, name) {
      Deselect(selected, name);
    }
  }

  /** Deselecting a selected name drops every entry of that name and keeps
      every other entry as often as it occurred, in order. */
  lemma Deselect(selected: seq<Spell>, name: string)
    requires IsSelected(selected, name)
    ensures var r := Filter(selected, (s: Spell) => s.name != name);
      && !IsSelected(r, name)
      && |r| < |selected|
      && (forall x :: multiset(r)[x] == if x.name != name then multiset(selected)[x] else 0)
  {
    var keep := (s: Spell) => s.name != name;
    var drop := (s: Spell) => s.name == name;
    AnyIffFilterNonEmpty(selected, drop);
    FilterComplementLengths(selected, drop, keep);
    forall x
      ensures multiset(Filter(selected, keep))[x] == if x.name != name then multiset(selected)[x] else 0
    {
      FilterMultiplicity(selected, keep, x);
    }
  }

  /** Toggling a spell that is not selected, and then toggling it again,
      gives back the selection it started from. */
  lemma ToggleTwiceRestores(catalog: Catalog, wizardSchool: SchoolRef, selected: seq<Spell>, name: string)
    requires !IsSelected(selected, name)
    requires ToggleSpell(catalog, wizardSchool, selected, name).Some?
    ensures var once := ToggleSpell(catalog, wizardSchool, selected, name).value;
            ToggleSpell(catalog, wizardSchool, once, name) == Some(selected)
  {
    var spell := GetSpellByName(catalog.spells, name).value;
    var once := selected + [spell];
    assert ToggleSpell(catalog, wizardSchool, selected, name) == Some(once);
    var keep := (s: Spell) => s.name != name;
    assert once[|selected|].name == name;
    assert IsSelected(once, name);
    FilterAppend(selected, [spell], keep);
    FilterKeepsAll(selected, keep);
    assert [spell][1..] == [];
    assert Filter([spell], keep) == [];
    assert Filter(once, keep) == selected;
  }

  /** Toggling a selected spell twice does not restore the selection: the
      first toggle drops every entry of that name, the second appends the
      catalog entry at the end. */
  lemma ToggleSelectedTwice(catalog: Catalog, wizardSchool: SchoolRef, selected: seq<Spell>, name: string)
    requires IsSelected(selected, name)
    requires ToggleSpell(catalog, wizardSchool, selected, name).Some?
    ensures var once := ToggleSpell(catalog, wizardSchool, selected, name).value;
            ToggleSpell(catalog, wizardSchool, once, name)
              == Some(Filter(selected, (s: Spell) => s.name != name) + [GetSpellByName(catalog.spells, name).value])
  {
    var once := Filter(selected, (s: Spell) => s.name != name);
    assert ToggleSpell(catalog, wizardSchool, selected, name) == Some(once);
    assert !IsSelected(once, name);
  }

  /** A spell that is opposed to a truthy wizard school can neither be added
      nor removed: the toggle emits nothing, so a selection that holds it
      (one made under another school, or imported) keeps it. */
  lemma OpposedSpellIsFrozen(catalog: Catalog, wizardSchool: SchoolRef, selected: seq<Spell>, name: string)
    requires GetSpellByName(catalog.spells, name).Some?
    requires IsSpellOpposed(catalog.schools, wizardSchool, GetSpellByName(catalog.spells, name).value.school)
    ensures ToggleSpell(catalog, wizardSchool, selected, name).None?
  {
  }

  /** The selection keeps two properties the toggle is there to protect: no
      opposed spell is ever added, and no name appears twice. */
  predicate NamesDistinct(spells: seq<Spell>)
  {
    forall i, j :: 0 <= i < j < |spells| ==> spells[i].name != spells[j].name
  }

  predicate NoneOpposed(schools: seq<School>, wizardSchool: SchoolRef, spells: seq<Spell>)
  {
    forall i :: 0 <= i < |spells| ==> !IsSpellOpposed(schools, wizardSchool, spells[i].school)
  }

  lemma {:induction false} FilterKeepsDistinct(s: seq<Spell>, p: Spell -> bool)
    requires NamesDistinct(s)
    ensures NamesDistinct(Filter(s, p))
  {
    if s != [] {
      FilterKeepsDistinct(s[1..], p);
      var rest := Filter(s[1..], p);
      forall x | x in rest
        ensures x.name != s[0].name
      {
        FilterMembership(s[1..], p, x);
      }
    }
  }

  lemma ToggleKeepsSelectionSound(catalog: Catalog, wizardSchool: SchoolRef, selected: seq<Spell>, name: string)
    requires ToggleSpell(catalog, wizardSchool, selected, name).Some?
    ensures var r := ToggleSpell(catalog, wizardSchool, selected, name).value;
      && (NamesDistinct(selected) ==> NamesDistinct(r))
      && (NoneOpposed(catalog.schools, wizardSchool, selected) ==> NoneOpposed(catalog.schools, wizardSchool, r))
  {
    var r := ToggleSpell(catalog, wizardSchool, selected, name).value;
    var keep := (s: Spell) => s.name != name;
    if IsSelected(selected, name) {
      if NamesDistinct(selected) {
        FilterKeepsDistinct(selected, keep);
      }
      forall i | 0 <= i < |r|
        ensures r[i] in selected
      {
        FilterMembership(selected, keep, r[i]);
      }
    }
  }

  /** `spells.forEach(spell => (spellsBySchool[spell.school] ||= []).push(spell))`:
      the catalog spells grouped by school id. `order` lists the schools in
      the order they first appear; the object's own key order does not
      matter, because the sections are sorted afterwards (see
      `SortedSchoolsUnique`). The keys are the strings `String(id)`, which
      `parseInt` reads back as `id` (`Js.ParseIntDecimal`); here they are the
      ids themselves. */
  method GroupBySchool(spells: seq<Spell>) returns (groups: map<int, seq<Spell>>, order: seq<int>)
    ensures forall k :: k in groups <==> HasSchool(spells, k)
    ensures forall k :: k in groups ==> groups[k] == GetSpellsBySchool(spells, k) && groups[k] != []
    ensures forall k :: k in order <==> k in groups
    ensures forall i, j :: 0 <= i < j < |order| ==> order[i] != order[j]
  {
    groups := map[];
    order := [];
    var i := 0;
    while i < |spells|
      invariant 0 <= i <= |spells|
      invariant forall k :: k in groups <==> HasSchool(spells[..i], k)
      invariant forall k :: k in groups ==> groups[k] == GetSpellsBySchool(spells[..i], k) && groups[k] != []
      invariant forall k :: k in order <==> k in groups
      invariant forall a, b :: 0 <= a < b < |order| ==> order[a] != order[b]
    {
      var spell := spells[i];
      assert spells[..i + 1] == spells[..i] + [spell];
      GroupStep(spells[..i], spell, groups);
      if spell.school !in groups {
        assert spell.school !in order;
        order := order + [spell.school];
      }
      groups := groups[spell.school := (if spell.school in groups then groups[spell.school] else []) + [spell]];
      i := i + 1;
    }
    assert spells[..i] == spells;
  }

  /** Some spell of the list belongs to school `k`. */
  predicate HasSchool(spells: seq<Spell>, k: int)
  {
    exists i :: 0 <= i < |spells| && spells[i].school == k
  }

  /** One step of `GroupBySchool`: appending a spell to its school's group
      keeps the keys equal to the schools seen so far, and every group equal
      to `getSpellsBySchool` on the longer prefix. */
  lemma GroupStep(prefix: seq<Spell>, spell: Spell, groups: map<int, seq<Spell>>)
    requires forall k :: k in groups <==> HasSchool(prefix, k)
    requires forall k :: k in groups ==> groups[k] == GetSpellsBySchool(prefix, k) && groups[k] != []
    ensures var g := groups[spell.school := (if spell.school in groups then groups[spell.school] else []) + [spell]];
      && (forall k :: k in g <==> HasSchool(prefix + [spell], k))
      && (forall k :: k in g ==> g[k] == GetSpellsBySchool(prefix + [spell], k) && g[k] != [])
  {
    var g := groups[spell.school := (if spell.school in groups then groups[spell.school] else []) + [spell]];
    if spell.school !in groups {
      FilterDropsAll(prefix, (s: Spell) => s.school == spell.school);
    }
    forall k | k in g
      ensures g[k] == GetSpellsBySchool(prefix + [spell], k)
    {
      SpellsBySchoolExactly(prefix, [spell], k, spell);
    }
    forall k
      ensures k in g <==> HasSchool(prefix + [spell], k)
    {
      HasSchoolAppend(prefix, spell, k);
    }
  }

  /** A school occurs in a list with one more spell exactly when it occurs
      in the list or is that spell's school. */
  lemma HasSchoolAppend(prefix: seq<Spell>, spell: Spell, k: int)
    ensures HasSchool(prefix + [spell], k) <==> HasSchool(prefix, k) || spell.school == k
  {
    var p := prefix + [spell];
    if HasSchool(prefix, k) {
      var j :| 0 <= j < |prefix| && prefix[j].school == k;
      assert p[j] == prefix[j];
    }
    if spell.school == k {
      assert p[|prefix|] == spell;
    }
    if HasSchool(p, k) {
      var j :| 0 <= j < |p| && p[j].school == k;
      if j < |prefix| {
        assert prefix[j] == p[j];
      }
    }
  }

  /** The comparator of the school sections: with a truthy wizard school,
      `parseInt(a) === wizardSchool` sorts `a` first and
      `parseInt(b) === wizardSchool` sorts `b` first; otherwise the ids are
      compared by subtraction. */
  function CompareSchools(wizardSchool: SchoolRef, a: int, b: int): int
  {
    if wizardSchool.Truthy() && wizardSchool == Num(a) then -1
    else if wizardSchool.Truthy() && wizardSchool == Num(b) then 1
    else a - b
  }

  predicate Precedes(wizardSchool: SchoolRef, a: int, b: int)
  {
    CompareSchools(wizardSchool, a, b) < 0
  }

  /** On distinct ids the comparator is a strict total order: exactly one
      of two distinct ids precedes the other, and precedence is transitive. */
  lemma PrecedesIsStrictTotalOrder(w: SchoolRef, a: int, b: int, c: int)
    ensures a != b ==> (Precedes(w, a, b) <==> !Precedes(w, b, a))
    ensures Precedes(w, a, b) && Precedes(w, b, c) ==> Precedes(w, a, c)
  {
  }

  /** Every pair in order: the list is sorted by the comparator. */
  predicate SortedBy(w: SchoolRef, s: seq<int>)
  {
    forall i, j :: 0 <= i < j < |s| ==> Precedes(w, s[i], s[j])
  }

  predicate Distinct(s: seq<int>)
  {
    forall i, j :: 0 <= i < j < |s| ==> s[i] != s[j]
  }

  /** Insert `x` into a sorted list, before the first id it precedes. */
  function InsertSchool(w: SchoolRef, x: int, s: seq<int>): seq<int>
  {
    if s == [] then [x]
    else if Precedes(w, x, s[0]) then [x] + s
    else [s[0]] + InsertSchool(w, x, s[1..])
  }

  /** An id that precedes, and differs from, every id of a sorted list
      can be put in front of it. */
  lemma PrependSorted(w: SchoolRef, h: int, t: seq<int>)
    requires SortedBy(w, t) && Distinct(t)
    requires forall k :: 0 <= k < |t| ==> Precedes(w, h, t[k]) && h != t[k]
    ensures SortedBy(w, [h] + t) && Distinct([h] + t)
  {
    var r := [h] + t;
    forall a, b | 0 <= a < b < |r|
      ensures Precedes(w, r[a], r[b]) && r[a] != r[b]
    {
      assert r[b] == t[b - 1];
      if a > 0 {
        assert r[a] == t[a - 1];
      }
    }
  }

  /** Inserting a new id into a sorted, duplicate-free list adds exactly
      that id, and the list stays sorted and duplicate-free. */
  lemma {:induction false} InsertSchoolSorted(w: SchoolRef, x: int, s: seq<int>)
    requires SortedBy(w, s) && Distinct(s) && x !in s
    ensures multiset(InsertSchool(w, x, s)) == multiset(s) + multiset{x}
    ensures SortedBy(w, InsertSchool(w, x, s)) && Distinct(InsertSchool(w, x, s))
  {
    if s == [] {
    } else if Precedes(w, x, s[0]) {
      InsertBeforeHead(w, x, s);
    } else {
      InsertSchoolSorted(w, x, s[1..]);
      InsertAfterHead(w, x, s, InsertSchool(w, x, s[1..]));
    }
  }

  /** `x` goes in front when it precedes the head of a sorted list. */
  lemma InsertBeforeHead(w: SchoolRef, x: int, s: seq<int>)
    requires s != [] && SortedBy(w, s) && Distinct(s) && x !in s && Precedes(w, x, s[0])
    ensures SortedBy(w, [x] + s) && Distinct([x] + s)
  {
    forall j | 0 <= j < |s|
      ensures Precedes(w, x, s[j]) && x != s[j]
    {
      PrecedesIsStrictTotalOrder(w, x, s[0], s[j]);
    }
    PrependSorted(w, x, s);
  }

  /** `x` goes after the head when it does not precede it: the head then
      precedes `x` and everything of the insertion into the tail. */
  lemma InsertAfterHead(w: SchoolRef, x: int, s: seq<int>, t: seq<int>)
    requires s != [] && SortedBy(w, s) && Distinct(s) && x !in s && !Precedes(w, x, s[0])
    requires multiset(t) == multiset(s[1..]) + multiset{x} && SortedBy(w, t) && Distinct(t)
    ensures multiset([s[0]] + t) == multiset(s) + multiset{x}
    ensures SortedBy(w, [s[0]] + t) && Distinct([s[0]] + t)
  {
    PrecedesIsStrictTotalOrder(w, x, s[0], x);
    assert s == [s[0]] + s[1..];
    forall j | 0 <= j < |s[1..]|
      ensures Precedes(w, s[0], s[1..][j]) && s[0] != s[1..][j]
    {
      assert s[1..][j] == s[j + 1];
    }
    PrependToInsertion(w, s[0], x, s[1..], t);
  }

  /** An id that precedes every id of a list, and the inserted id, can be
      put in front of the list after the insertion. */
  lemma PrependToInsertion(w: SchoolRef, h: int, x: int, rest: seq<int>, t: seq<int>)
    requires forall j :: 0 <= j < |rest| ==> Precedes(w, h, rest[j]) && h != rest[j]
    requires Precedes(w, h, x) && h != x
    requires multiset(t) == multiset(rest) + multiset{x} && SortedBy(w, t) && Distinct(t)
    ensures SortedBy(w, [h] + t) && Distinct([h] + t)
  {
    forall k | 0 <= k < |t|
      ensures Precedes(w, h, t[k]) && h != t[k]
    {
      assert t[k] in multiset(t);
      if t[k] != x {
        assert t[k] in multiset(rest);
        var j :| 0 <= j < |rest| && rest[j] == t[k];
      }
    }
    PrependSorted(w, h, t);
  }

  /** `Object.entries(spellsBySchool).sort(comparator)`, as insertion sort. */
  function SortSchools(w: SchoolRef, ids: seq<int>): (r: seq<int>)
    requires Distinct(ids)
    ensures multiset(r) == multiset(ids)
    ensures SortedBy(w, r) && Distinct(r)
  {
    if ids == [] then []
    else
      assert ids == [ids[0]] + ids[1..];
      assert ids[0] !in multiset(ids[1..]);
      var t := SortSchools(w, ids[1..]);
      InsertSchoolSorted(w, ids[0], t);
      InsertSchool(w, ids[0], t)
  }

  /** The head of a sorted list precedes every other element of it. */
  lemma SortedHeadFirst(w: SchoolRef, a: seq<int>, x: int)
    requires SortedBy(w, a) && x in a && x != a[0]
    ensures Precedes(w, a[0], x)
  {
    var k :| 0 <= k < |a| && a[k] == x;
  }

  /** A list of distinct ids has one sorted order only: whatever order the
      sections start in, and whatever algorithm the engine's sort uses, the
      outcome is `SortSchools`. */
  lemma {:induction false} SortedSchoolsUnique(w: SchoolRef, a: seq<int>, b: seq<int>)
    requires SortedBy(w, a) && Distinct(a)
    requires SortedBy(w, b) && Distinct(b)
    requires multiset(a) == multiset(b)
    ensures a == b
  {
    if a != [] {
      SortedHeadsAgree(w, a, b);
      SortedTail(w, a);
      SortedTail(w, b);
      SortedSchoolsUnique(w, a[1..], b[1..]);
      assert a == [a[0]] + a[1..] && b == [b[0]] + b[1..];
    }
  }

  /** Two sorted lists with the same elements start with the same id. */
  lemma SortedHeadsAgree(w: SchoolRef, a: seq<int>, b: seq<int>)
    requires a != [] && SortedBy(w, a) && SortedBy(w, b)
    requires multiset(a) == multiset(b)
    ensures b != [] && a[0] == b[0]
  {
    assert a[0] in multiset(b);
    assert b != [] && b[0] in multiset(a);
    if a[0] != b[0] {
      SortedHeadFirst(w, a, b[0]);
      SortedHeadFirst(w, b, a[0]);
      PrecedesIsStrictTotalOrder(w, a[0], b[0], a[0]);
      assert false;
    }
  }

  /** The tail of a sorted, duplicate-free list is sorted and duplicate-free
      and holds the other elements. */
  lemma SortedTail(w: SchoolRef, a: seq<int>)
    requires a != [] && SortedBy(w, a) && Distinct(a)
    ensures SortedBy(w, a[1..]) && Distinct(a[1..])
    ensures multiset(a[1..]) == multiset(a) - multiset{a[0]}
  {
    assert a == [a[0]] + a[1..];
  }

  /** The listed order: the wizard's own school first when it has spells,
      then the others by ascending id. This holds of every list sorted by
      the comparator, `SortSchools` among them. */
  lemma SectionOrder(w: SchoolRef, r: seq<int>)
    requires SortedBy(w, r)
    ensures w.Truthy() && w.Num? && w.n in r ==> r[0] == w.n
    ensures forall i, j :: 0 <= i < j < |r| && (!w.Truthy() || w != Num(r[i])) ==> r[i] < r[j]
  {
    if w.Truthy() && w.Num? && w.n in r {
      var k :| 0 <= k < |r| && r[k] == w.n;
      if k > 0 {
        assert Precedes(w, r[0], r[k]);
      }
    }
  }

  /** The search test of one spell: the lower-cased search term occurs in
      the lower-cased name or description. */
  predicate MatchesSearch(spell: Spell, term: string)
  {
    Includes(ToLowerCase(spell.name), ToLowerCase(term)) ||
    Includes(ToLowerCase(spell.description), ToLowerCase(term))
  }

  /** The spells of one section that the search lets through. */
  function SectionSpells(group: seq<Spell>, term: string): seq<Spell>
  {
    Filter(group, (s: Spell) => MatchesSearch(s, term))
  }

  /** A section lists exactly the catalog spells of its school that match
      the search, in catalog order; with an empty search it lists the whole
      school. */
  lemma SectionContents(spells: seq<Spell>, k: int, term: string)
    ensures SectionSpells(GetSpellsBySchool(spells, k), term)
         == Filter(spells, (s: Spell) => s.school == k && MatchesSearch(s, term))
    ensures term == [] ==> SectionSpells(GetSpellsBySchool(spells, k), term) == GetSpellsBySchool(spells, k)
  {
    FilterFilter(spells, (s: Spell) => s.school == k, (s: Spell) => MatchesSearch(s, term),
                 (s: Spell) => s.school == k && MatchesSearch(s, term));
    if term == [] {
      var g := GetSpellsBySchool(spells, k);
      forall i | 0 <= i < |g|
        ensures MatchesSearch(g[i], term)
      {
        IncludesEmpty(ToLowerCase(g[i].name));
      }
      FilterKeepsAll(g, (s: Spell) => MatchesSearch(s, term));
    }
  }

  /** The sections drawn, in the listed order: a section whose filtered
      spells are empty renders nothing. */
  function DrawnSections(spells: seq<Spell>, order: seq<int>, term: string): seq<int>
  {
    Filter(order, (k: int) => SectionSpells(GetSpellsBySchool(spells, k), term) != [])
  }

  /** A listed school's section is drawn exactly when some catalog spell of
      that school matches the search. */
  lemma DrawnSectionsExactly(spells: seq<Spell>, order: seq<int>, term: string, k: int)
    ensures k in DrawnSections(spells, order, term) <==>
              k in order && exists i :: 0 <= i < |spells| && spells[i].school == k && MatchesSearch(spells[i], term)
  {
    SectionContents(spells, k, term);
    FilterMembership(order, (k: int) => SectionSpells(GetSpellsBySchool(spells, k), term) != [], k);
    AnyIffFilterNonEmpty(spells, (s: Spell) => s.school == k && MatchesSearch(s, term));
  }

  /** The search ignores the case of ASCII letters. */
  lemma SearchIgnoresCase(spell: Spell, term: string)
    ensures MatchesSearch(spell, ToLowerCase(term)) == MatchesSearch(spell, term)
  {
    ToLowerCaseIdempotent(term);
  }

  /** `getAlignmentBadge(spellSchoolId)`: nothing while the wizard's school
      is not a catalog school, else the entry of the badge table. */
  function ListBadge(schools: seq<School>, wizardSchool: SchoolRef, spellSchoolId: int): Option<Badge>
  {
    if GetSchoolById(schools, wizardSchool).None? then None
    else BadgeFor(GetSpellAlignment(schools, spellSchoolId, wizardSchool))
  }

  /** The badge is the alignment's badge: the guard on the wizard's school
      only anticipates `unknown`, which has no badge anyway. */
  lemma ListBadgeIsAlignmentBadge(schools: seq<School>, wizardSchool: SchoolRef, spellSchoolId: int)
    ensures ListBadge(schools, wizardSchool, spellSchoolId)
         == BadgeFor(GetSpellAlignment(schools, spellSchoolId, wizardSchool))
    ensures ListBadge(schools, wizardSchool, spellSchoolId).None? <==> GetSchoolById(schools, wizardSchool).None?
  {
  }

  /** A card of the available list calls the toggle only when its spell is
      not opposed (`!isOpposed && toggleSpell(name)`); the remove button of
      the selected list calls it unconditionally. */
  function CardClick(catalog: Catalog, wizardSchool: SchoolRef, selected: seq<Spell>, spell: Spell): Option<seq<Spell>>
  {
    if IsSpellOpposed(catalog.schools, wizardSchool, spell.school) then None
    else ToggleSpell(catalog, wizardSchool, selected, spell.name)
  }

  /** For a card of the catalog, the click guard changes nothing: the toggle
      itself already refuses opposed spells. */
  lemma CardClickGuardRedundant(catalog: Catalog, wizardSchool: SchoolRef, selected: seq<Spell>, i: int)
    requires 0 <= i < |catalog.spells|
    requires NamesDistinct(catalog.spells)
    ensures CardClick(catalog, wizardSchool, selected, catalog.spells[i])
         == ToggleSpell(catalog, wizardSchool, selected, catalog.spells[i].name)
  {
    var e := GetSpellByName(catalog.spells, catalog.spells[i].name);
    var j :| 0 <= j < |catalog.spells| && catalog.spells[j] == e.value;
    assert j == i;
  }

  /** The check mark of an available card: selected and not opposed. */
  predicate CheckMarkShown(schools: seq<School>, wizardSchool: SchoolRef, selected: seq<Spell>, spell: Spell)
  {
    IsSelected(selected, spell.name) && !IsSpellOpposed(schools, wizardSchool, spell.school)
  }
}
