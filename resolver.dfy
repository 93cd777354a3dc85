/// The reference data of the advisor (hero registry, counter, synergy and map
/// tables) and the pure lookups into it (script.js, "data access & helpers").
module Resolver {

  datatype Option<+T> = None | Some(value: T)

  /** A hero identifier. The source tests ids for truthiness, so the empty
      string can never name a hero; with this type, `Some(id)` is exactly a
      truthy slot. */
  type HeroId = s: string | s != "" witness "ana"

  /** A role name; empty roles are refused for the same reason as empty ids. */
  type Role = s: string | s != "" witness "tank"

  /** One team slot: a hero, or empty (`null` in the source). */
  type Slot = Option<HeroId>

  datatype Hero = Hero(id: HeroId, name: string, role: Role)

  /** A sparse two-level table `table[a][b]`, the shape of counters.json and
      synergy.json. */
  type Table = map<HeroId, map<HeroId, real>>

  datatype MapInfo = MapInfo(name: string, heroAffinity: map<HeroId, real>)

  datatype GameData = GameData(
    heroes: seq<Hero>,
    counters: Table,
    synergy: Table,
    maps: map<string, MapInfo>)

  /** The table holds an entry for a against b. */
  predicate Stored(t: Table, a: HeroId, b: HeroId) {
    a in t && b in t[a]
  }

  /** The table keeps at most one direction of every pair. */
  ghost predicate OneDirectional(t: Table) {
    forall a, b :: Stored(t, a, b) ==> !Stored(t, b, a)
  }

  // ---------------------------------------------------------------------------
  // Relation lookups

  /** getCounterScore on two heroes: the direct entry, else the negated
      mirrored entry, else 0. */
  function Counter(t: Table, a: HeroId, b: HeroId): real {
    if Stored(t, a, b) then t[a][b]
    else if Stored(t, b, a) then -t[b][a]
    else 0.0
  }

  /** getSynergyScore on two heroes: the direct entry, else the mirrored entry
      unnegated, else 0. */
  function Synergy(t: Table, a: HeroId, b: HeroId): real {
    if Stored(t, a, b) then t[a][b]
    else if Stored(t, b, a) then t[b][a]
    else 0.0
  }

  /** getMapScore: the hero's affinity on the map, or 0 when the map or the
      hero's entry is absent (`|| 0` also turns a stored 0 into 0). */
  function MapScore(maps: map<string, MapInfo>, hero: HeroId, mapId: string): real {
    if mapId in maps && hero in maps[mapId].heroAffinity then maps[mapId].heroAffinity[hero]
    else 0.0
  }

  /** The counter lookup answers the same pair with opposite signs whenever the
      table does not store both directions of it. */
  lemma CounterAntisymmetric(t: Table, a: HeroId, b: HeroId)
    requires !(Stored(t, a, b) && Stored(t, b, a))
    ensures Counter(t, a, b) == -Counter(t, b, a)
  {
  }

  /** With both directions stored, each lookup returns its own entry, so
      antisymmetry fails as soon as the entries are not opposite. */
  lemma CounterBothStored(t: Table, a: HeroId, b: HeroId)
    requires Stored(t, a, b) && Stored(t, b, a) && t[a][b] != -t[b][a]
    ensures Counter(t, a, b) != -Counter(t, b, a)
  {
  }

  /** The synergy lookup is symmetric whenever the table does not store both
      directions of the pair with different values. */
  lemma SynergySymmetric(t: Table, a: HeroId, b: HeroId)
    requires Stored(t, a, b) && Stored(t, b, a) ==> t[a][b] == t[b][a]
    ensures Synergy(t, a, b) == Synergy(t, b, a)
  {
  }

  /** A one-directional table gives an antisymmetric counter relation. */
  lemma OneDirectionalCounter(t: Table)
    requires OneDirectional(t)
    ensures forall a, b :: Counter(t, a, b) == -Counter(t, b, a)
  {
  }

  /** A map with no entry for the map id, or no entry for the hero, scores 0. */
  lemma MapScoreAbsent(maps: map<string, MapInfo>, hero: HeroId, mapId: string)
    requires mapId !in maps || hero !in maps[mapId].heroAffinity
    ensures MapScore(maps, hero, mapId) == 0.0
  {
  }

  // ---------------------------------------------------------------------------
  // The hero registry

  /** The registry knows the id. */
  predicate Known(heroes: seq<Hero>, id: HeroId) {
    exists h :: h in heroes && h.id == id
  }

  /** getHeroById: the first registry entry with this id. */
  function HeroById(heroes: seq<Hero>, id: HeroId): (r: Option<Hero>)
    ensures r.Some? ==> r.value in heroes && r.value.id == id
    ensures r.None? <==> !Known(heroes, id)
    ensures r.Some? ==> exists k :: 0 <= k < |heroes| && heroes[k] == r.value && forall m :: 0 <= m < k ==> heroes[m].id != id
  {
    if heroes == [] then None
    else if heroes[0].id == id then Some(heroes[0])
    else
      var r := HeroById(heroes[1..], id);
      assert forall h :: h in heroes ==> h == heroes[0] || h in heroes[1..];
      if r.Some? then
        var k :| 0 <= k < |heroes[1..]| && heroes[1..][k] == r.value && forall m :: 0 <= m < k ==> heroes[1..][m].id != id;
        assert heroes[k + 1] == r.value && forall m :: 0 <= m < k + 1 ==> heroes[m].id != id;
        r
      else r
  }

  /** The role of a registered hero. */
  function RoleOf(heroes: seq<Hero>, id: HeroId): Option<Role> {
    match HeroById(heroes, id)
    case Some(h) => Some(h.role)
    case None => None
  }

  /** Every filled slot of the team names a registered hero. */
  ghost predicate AllKnown(heroes: seq<Hero>, team: seq<Slot>) {
    forall i :: 0 <= i < |team| && team[i].Some? ==> Known(heroes, team[i].value)
  }
}
