/** Wizard and apprentice records and their default stat tables, which
    src/components/WizardForm.jsx and src/components/PrintView.jsx each
    declare (with the same values). */
module Characters {
  import opened Lists
  import opened DataLoader

  /** The six stats of a figure. */
  datatype StatName = Move | Fight | Shoot | Armour | Will | Health

  /** A complete stat line. */
  datatype Stats = Stats(move: int, fight: int, shoot: int, armour: int, will: int, health: int)
  {
    function Get(k: StatName): int
    {
      match k
      case Move => move
      case Fight => fight
      case Shoot => shoot
      case Armour => armour
      case Will => will
      case Health => health
    }
  }

  /** The stats as a record stores them: each may be null or undefined
      (`None`). */
  datatype StatBlock = StatBlock(
    move: Option<int>, fight: Option<int>, shoot: Option<int>,
    armour: Option<int>, will: Option<int>, health: Option<int>)
  {
    function Get(k: StatName): Option<int>
    {
      match k
      case Move => move
      case Fight => fight
      case Shoot => shoot
      case Armour => armour
      case Will => will
      case Health => health
    }
  }

  /** A wizard or apprentice record: `{ name, school, move, ..., health }`. */
  datatype Caster = Caster(name: string, school: SchoolRef, stats: StatBlock)

  const WIZARD_DEFAULTS := Stats(6, 2, 0, 10, 4, 14)
  const APPRENTICE_DEFAULTS := Stats(7, 0, 0, 10, 2, 12)

  const NO_STATS := StatBlock(None, None, None, None, None, None)

  /** `v ?? d`: only a null or undefined value is replaced. */
  function Coalesce(v: Option<int>, d: int): int
  {
    match v
    case Some(x) => x
    case None => d
  }

  /** Each stat of `b` that is present, 0 included, and the default for
      each stat that is missing. */
  function FillStats(b: StatBlock, defaults: Stats): (r: Stats)
    ensures forall k: StatName :: b.Get(k).Some? ==> r.Get(k) == b.Get(k).value
    ensures forall k: StatName :: b.Get(k).None? ==> r.Get(k) == defaults.Get(k)
  {
    Stats(
      Coalesce(b.move, defaults.move), Coalesce(b.fight, defaults.fight),
      Coalesce(b.shoot, defaults.shoot), Coalesce(b.armour, defaults.armour),
      Coalesce(b.will, defaults.will), Coalesce(b.health, defaults.health))
  }

  /** A complete stat line stored in a record: every stat present. */
  function Present(s: Stats): (b: StatBlock)
    ensures forall k: StatName :: b.Get(k) == Some(s.Get(k))
  {
    StatBlock(Some(s.move), Some(s.fight), Some(s.shoot), Some(s.armour), Some(s.will), Some(s.health))
  }

  /** Filling is idempotent: once every stat is present, no default table
      changes anything. */
  lemma FillStatsIdempotent(b: StatBlock, d: Stats, d': Stats)
    ensures FillStats(Present(FillStats(b, d)), d') == FillStats(b, d)
  {
  }
}
