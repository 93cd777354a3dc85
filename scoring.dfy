/// The scoring engine: candidate eligibility and return scores
/// (calculateReturnScores) and the force balance of two teams
/// (calculateTeamPower, calculateForceDifference).
module Scoring {
  import opened Resolver
  import opened Teams

  /** An analysis mode with its target: the threat list for the two per-ally
      modes, one enemy for Threat-Elimination, nothing for the global mode. */
  datatype Analysis =
    | SelfAnalysis(threats: seq<HeroId>)
    | AllySupport(threats: seq<HeroId>)
    | ThreatElimination(target: HeroId)
    | StrategicOptimization

  /** A scored candidate: the hero and its composite return. */
  datatype Candidate = Candidate(heroId: HeroId, ret: real)

  // ---------------------------------------------------------------------------
  // Sums (the `reduce` calls of the source)

  /** Sum of counter(c, x) over xs. */
  function SumCounter(t: Table, c: HeroId, xs: seq<HeroId>): real {
    if xs == [] then 0.0 else Counter(t, c, xs[0]) + SumCounter(t, c, xs[1..])
  }

  /** Sum of counter(x, c) over xs: how the heroes of xs fare against c. */
  function SumCounterAgainst(t: Table, xs: seq<HeroId>, c: HeroId): real {
    if xs == [] then 0.0 else Counter(t, xs[0], c) + SumCounterAgainst(t, xs[1..], c)
  }

  /** Sum of synergy(c, x) over xs. */
  function SumSynergy(t: Table, c: HeroId, xs: seq<HeroId>): real {
    if xs == [] then 0.0 else Synergy(t, c, xs[0]) + SumSynergy(t, c, xs[1..])
  }

  /** Sum of the map affinities of xs. */
  function MapSum(maps: map<string, MapInfo>, mapId: string, xs: seq<HeroId>): real {
    if xs == [] then 0.0 else MapScore(maps, xs[0], mapId) + MapSum(maps, mapId, xs[1..])
  }

  /** The ids other than me, each copy kept, in order. */
  function Others(ids: seq<HeroId>, me: HeroId): (r: seq<HeroId>)
    ensures |r| <= |ids|
    ensures forall x :: x in r <==> x in ids && x != me
  {
    if ids == [] then []
    else
      var rest := Others(ids[1..], me);
      assert forall x :: x in ids <==> x == ids[0] || x in ids[1..];
      if ids[0] != me then [ids[0]] + rest else rest
  }

  /** Filtering two runs of ids gives the filtered first run followed by the
      filtered second: each copy of an ally other than me is kept. */
  lemma {:induction false} OthersAppend(a: seq<HeroId>, b: seq<HeroId>, me: HeroId)
    ensures Others(a + b, me) == Others(a, me) + Others(b, me)
  {
    if a == [] {
      assert a + b == b;
    } else {
      assert (a + b)[1..] == a[1..] + b;
      OthersAppend(a[1..], b, me);
    }
  }

  // ---------------------------------------------------------------------------
  // Return scores

  /** The hero in the self slot, if the slot is filled with a registered id. */
  function MyHero(data: GameData, b: Board): Option<Hero> {
    if b.selfIndex < |b.ally| && b.ally[b.selfIndex].Some? then HeroById(data.heroes, b.ally[b.selfIndex].value)
    else None
  }

  /** The candidate filter of calculateReturnScores: the self hero's role, not
      banned, not the self hero, and not already on the ally team unless team
      duplicates are allowed. */
  predicate Eligible(b: Board, me: Hero, h: Hero) {
    && h.role == me.role
    && h.id !in b.bans
    && h.id != me.id
    && (b.settings.allowTeamDuplicates || Some(h.id) !in b.ally)
  }

  /** The mode-dependent counter part of a candidate's return. */
  function CounterTerm(data: GameData, b: Board, a: Analysis, c: HeroId): real {
    match a
    case SelfAnalysis(threats) => SumCounter(data.counters, c, threats)
    case AllySupport(threats) => SumCounter(data.counters, c, threats)
    case ThreatElimination(target) => Counter(data.counters, c, target)
    case StrategicOptimization => SumCounter(data.counters, c, FilledIds(b.enemy))
  }

  /** The composite return of candidate c: counter part, map affinity, and the
      synergy with every picked ally other than the self hero. */
  function ReturnScore(data: GameData, b: Board, a: Analysis, me: HeroId, c: HeroId): real {
    CounterTerm(data, b, a, c)
    + MapScore(data.maps, c, b.currentMap)
    + SumSynergy(data.synergy, c, Others(FilledIds(b.ally), me))
  }

  /** Some hero of hs with this id passes the filter. */
  ghost predicate EligibleIn(b: Board, me: Hero, hs: seq<Hero>, id: HeroId) {
    exists h :: h in hs && h.id == id && Eligible(b, me, h)
  }

  /** The id has an entry in the candidate list. */
  predicate Listed(r: seq<Candidate>, id: HeroId) {
    exists i :: 0 <= i < |r| && r[i].heroId == id
  }

  /** The filter-then-map of calculateReturnScores over a slice of the
      registry. */
  function ScoreHeroes(data: GameData, b: Board, a: Analysis, me: Hero, hs: seq<Hero>): (r: seq<Candidate>)
    ensures |r| <= |hs|
    ensures forall i :: 0 <= i < |r| ==> EligibleIn(b, me, hs, r[i].heroId)
    ensures forall i :: 0 <= i < |r| ==> r[i].ret == ReturnScore(data, b, a, me.id, r[i].heroId)
    ensures forall h :: h in hs && Eligible(b, me, h) ==> Listed(r, h.id)
  {
    if hs == [] then []
    else
      var rest := ScoreHeroes(data, b, a, me, hs[1..]);
      var h := hs[0];
      EligibleInCons(b, me, hs, rest);
      if Eligible(b, me, h) then
        var r := [Candidate(h.id, ReturnScore(data, b, a, me.id, h.id))] + rest;
        ListedCons(hs, rest, r, b, me);
        r
      else
        assert forall x :: x in hs ==> x == h || x in hs[1..];
        rest
  }

  lemma EligibleInCons(b: Board, me: Hero, hs: seq<Hero>, rest: seq<Candidate>)
    requires hs != []
    requires forall i :: 0 <= i < |rest| ==> EligibleIn(b, me, hs[1..], rest[i].heroId)
    ensures forall i :: 0 <= i < |rest| ==> EligibleIn(b, me, hs, rest[i].heroId)
    ensures Eligible(b, me, hs[0]) ==> EligibleIn(b, me, hs, hs[0].id)
  {
    forall i | 0 <= i < |rest| ensures EligibleIn(b, me, hs, rest[i].heroId) {
      assert EligibleIn(b, me, hs[1..], rest[i].heroId);
      var x :| x in hs[1..] && x.id == rest[i].heroId && Eligible(b, me, x);
      assert x in hs;
    }
    assert hs[0] in hs;
  }

  lemma ListedCons(hs: seq<Hero>, rest: seq<Candidate>, r: seq<Candidate>, b: Board, me: Hero)
    requires hs != [] && |r| == |rest| + 1 && r[0].heroId == hs[0].id && r[1..] == rest
    requires forall h :: h in hs[1..] && Eligible(b, me, h) ==> Listed(rest, h.id)
    ensures forall h :: h in hs && Eligible(b, me, h) ==> Listed(r, h.id)
  {
    forall h | h in hs && Eligible(b, me, h) ensures Listed(r, h.id) {
      if h == hs[0] {
        assert r[0].heroId == h.id;
      } else {
        assert h in hs[1..];
        var i :| 0 <= i < |rest| && rest[i].heroId == h.id;
        assert r[i + 1].heroId == h.id;
      }
    }
  }

  /** Entry i of r comes from the eligible registry entry at position pos[i]. */
  predicate FromEligible(b: Board, me: Hero, hs: seq<Hero>, r: seq<Candidate>, pos: seq<int>) {
    |pos| == |r| && forall i :: 0 <= i < |r| ==> 0 <= pos[i] < |hs| && Eligible(b, me, hs[pos[i]]) && r[i].heroId == hs[pos[i]].id
  }

  predicate Increasing(pos: seq<int>) {
    forall i, j :: 0 <= i < j < |pos| ==> pos[i] < pos[j]
  }

  /** Every eligible registry position is used. */
  predicate CoversEligible(b: Board, me: Hero, hs: seq<Hero>, pos: seq<int>) {
    forall k :: 0 <= k < |hs| && Eligible(b, me, hs[k]) ==> k in pos
  }

  /** pos maps the entries of r onto the eligible registry positions, each
      used once and in increasing order. */
  predicate Positions(b: Board, me: Hero, hs: seq<Hero>, r: seq<Candidate>, pos: seq<int>) {
    FromEligible(b, me, hs, r, pos) && Increasing(pos) && CoversEligible(b, me, hs, pos)
  }

  /** r lists one entry per eligible entry of hs, in the order of hs. */
  ghost predicate InRegistryOrder(b: Board, me: Hero, hs: seq<Hero>, r: seq<Candidate>) {
    exists pos :: Positions(b, me, hs, r, pos)
  }

  function Shift(p: seq<int>): (q: seq<int>)
    ensures |q| == |p| && forall i :: 0 <= i < |p| ==> q[i] == p[i] + 1
  {
    seq(|p|, i requires 0 <= i < |p| => p[i] + 1)
  }

  /** Positions over the tail of the registry, moved one step on, are
      positive positions over the whole registry. */
  lemma PositionsShift(b: Board, me: Hero, hs: seq<Hero>, rest: seq<Candidate>, p: seq<int>)
    requires hs != [] && Positions(b, me, hs[1..], rest, p)
    ensures FromEligible(b, me, hs, rest, Shift(p)) && Increasing(Shift(p))
    ensures forall i :: 0 <= i < |p| ==> Shift(p)[i] > 0
    ensures forall k :: 1 <= k < |hs| && Eligible(b, me, hs[k]) ==> k in Shift(p)
  {
    FromEligibleShift(b, me, hs, rest, p);
    CoversShift(b, me, hs, p);
  }

  lemma FromEligibleShift(b: Board, me: Hero, hs: seq<Hero>, rest: seq<Candidate>, p: seq<int>)
    requires hs != [] && FromEligible(b, me, hs[1..], rest, p)
    ensures FromEligible(b, me, hs, rest, Shift(p))
  {
    var q := Shift(p);
    forall i | 0 <= i < |p| ensures hs[q[i]] == hs[1..][p[i]] { }
  }

  lemma CoversShift(b: Board, me: Hero, hs: seq<Hero>, p: seq<int>)
    requires hs != [] && CoversEligible(b, me, hs[1..], p)
    ensures forall k :: 1 <= k < |hs| && Eligible(b, me, hs[k]) ==> k in Shift(p)
  {
    var q := Shift(p);
    forall k | 1 <= k < |hs| && Eligible(b, me, hs[k]) ensures k in q {
      assert hs[1..][k - 1] == hs[k];
      var i :| 0 <= i < |p| && p[i] == k - 1;
      assert q[i] == k;
    }
  }

  /** An ineligible head adds no entry. */
  lemma PositionsSkip(b: Board, me: Hero, hs: seq<Hero>, rest: seq<Candidate>, p: seq<int>)
    requires hs != [] && !Eligible(b, me, hs[0]) && Positions(b, me, hs[1..], rest, p)
    ensures Positions(b, me, hs, rest, Shift(p))
  {
    PositionsShift(b, me, hs, rest, p);
    forall k | 0 <= k < |hs| && Eligible(b, me, hs[k]) ensures k in Shift(p) {
      assert k != 0;
    }
  }

  lemma IncreasingCons(q: seq<int>)
    requires Increasing(q) && forall i :: 0 <= i < |q| ==> q[i] > 0
    ensures Increasing([0] + q)
  {
    var pos := [0] + q;
    forall i, j | 0 <= i < j < |pos| ensures pos[i] < pos[j] {
      assert pos[j] == q[j - 1];
      if i > 0 { assert pos[i] == q[i - 1]; }
    }
  }

  lemma FromEligibleCons(b: Board, me: Hero, hs: seq<Hero>, c: Candidate, rest: seq<Candidate>, q: seq<int>)
    requires hs != [] && Eligible(b, me, hs[0]) && c.heroId == hs[0].id && FromEligible(b, me, hs, rest, q)
    ensures FromEligible(b, me, hs, [c] + rest, [0] + q)
  {
    var r, pos := [c] + rest, [0] + q;
    forall i | 0 < i < |r| ensures 0 <= pos[i] < |hs| && Eligible(b, me, hs[pos[i]]) && r[i].heroId == hs[pos[i]].id {
      assert r[i] == rest[i - 1] && pos[i] == q[i - 1];
    }
  }

  /** An eligible head adds its entry in front. */
  lemma PositionsKeep(b: Board, me: Hero, hs: seq<Hero>, c: Candidate, rest: seq<Candidate>, p: seq<int>)
    requires hs != [] && Eligible(b, me, hs[0]) && c.heroId == hs[0].id && Positions(b, me, hs[1..], rest, p)
    ensures Positions(b, me, hs, [c] + rest, [0] + Shift(p))
  {
    PositionsShift(b, me, hs, rest, p);
    var q := Shift(p);
    IncreasingCons(q);
    FromEligibleCons(b, me, hs, c, rest, q);
    forall k | 0 <= k < |hs| && Eligible(b, me, hs[k]) ensures k in [0] + q {
      if k > 0 { assert k in q; }
    }
  }

  /** The filter keeps the registry order and lists each eligible entry once. */
  lemma {:induction false} ScoreHeroesInOrder(data: GameData, b: Board, a: Analysis, me: Hero, hs: seq<Hero>)
    ensures InRegistryOrder(b, me, hs, ScoreHeroes(data, b, a, me, hs))
  {
    var r := ScoreHeroes(data, b, a, me, hs);
    if hs == [] {
      assert Positions(b, me, hs, r, []);
    } else {
      var rest := ScoreHeroes(data, b, a, me, hs[1..]);
      ScoreHeroesInOrder(data, b, a, me, hs[1..]);
      var p :| Positions(b, me, hs[1..], rest, p);
      if Eligible(b, me, hs[0]) {
        var c := Candidate(hs[0].id, ReturnScore(data, b, a, me.id, hs[0].id));
        assert r == [c] + rest;
        PositionsKeep(b, me, hs, c, rest, p);
      } else {
        assert r == rest;
        PositionsSkip(b, me, hs, rest, p);
      }
    }
  }

  /** calculateReturnScores: nothing when the self slot holds no registered
      hero; otherwise one candidate per eligible registry hero, each scored
      by ReturnScore. */
  function CalculateReturnScores(data: GameData, b: Board, a: Analysis): (r: seq<Candidate>)
    ensures b.selfIndex < |b.ally| && b.ally[b.selfIndex].None? ==> r == []
    ensures MyHero(data, b).None? ==> r == []
    ensures MyHero(data, b).Some? ==>
      var me := MyHero(data, b).value;
      && (forall i :: 0 <= i < |r| ==> EligibleIn(b, me, data.heroes, r[i].heroId))
      && (forall i :: 0 <= i < |r| ==> r[i].ret == ReturnScore(data, b, a, me.id, r[i].heroId))
      && (forall h :: h in data.heroes && Eligible(b, me, h) ==> Listed(r, h.id))
      && InRegistryOrder(b, me, data.heroes, r)
  {
    match MyHero(data, b)
    case None => []
    case Some(me) =>
      ScoreHeroesInOrder(data, b, a, me, data.heroes);
      ScoreHeroes(data, b, a, me, data.heroes)
  }

  /** With no enemy picked, the global mode has no counter part (every
      candidate's return is its synergy and map affinity alone). */
  lemma NoEnemiesNoCounterTerm(data: GameData, b: Board, c: HeroId)
    requires !AnyFilled(b.enemy)
    ensures CounterTerm(data, b, StrategicOptimization, c) == 0.0
  {
  }

  // ---------------------------------------------------------------------------
  // Force balance

  /** Sum of synergy(v[i], v[j]) over all index pairs i < j. */
  function PairSynergy(t: Table, v: seq<HeroId>): real {
    if v == [] then 0.0 else SumSynergy(t, v[0], v[1..]) + PairSynergy(t, v[1..])
  }

  /** Sum of counter(a, b) over every a in v and b in w. */
  function CrossCounter(t: Table, v: seq<HeroId>, w: seq<HeroId>): real {
    if v == [] then 0.0 else SumCounter(t, v[0], w) + CrossCounter(t, v[1..], w)
  }

  /** calculateTeamPower: pairwise synergy inside team1, map affinity of
      team1, and team1's counters against team2; empty slots take no part. */
  function TeamPower(data: GameData, mapId: string, team1: seq<Slot>, team2: seq<Slot>): real {
    var v := FilledIds(team1);
    PairSynergy(data.synergy, v) + MapSum(data.maps, mapId, v) + CrossCounter(data.counters, v, FilledIds(team2))
  }

  /** calculateForceDifference: ally power minus enemy power. */
  function ForceDifference(data: GameData, mapId: string, ally: seq<Slot>, enemy: seq<Slot>): real {
    TeamPower(data, mapId, ally, enemy) - TeamPower(data, mapId, enemy, ally)
  }

  lemma PairSynergyStep(t: Table, v: seq<HeroId>, i: nat)
    requires i < |v|
    ensures PairSynergy(t, v[i..]) == SumSynergy(t, v[i], v[i + 1..]) + PairSynergy(t, v[i + 1..])
  {
    assert v[i..][1..] == v[i + 1..];
  }

  lemma SumSynergyStep(t: Table, x: HeroId, v: seq<HeroId>, j: nat)
    requires j < |v|
    ensures SumSynergy(t, x, v[j..]) == Synergy(t, x, v[j]) + SumSynergy(t, x, v[j + 1..])
  {
    assert v[j..][1..] == v[j + 1..];
  }

  /** The nested loops of calculateTeamPower. */
  method CalculateTeamPower(data: GameData, mapId: string, team1: seq<Slot>, team2: seq<Slot>) returns (power: real)
    ensures power == TeamPower(data, mapId, team1, team2)
  {
    var synergyScore := 0.0;
    var valid := FilledIds(team1);
    var n := |valid|;
    for i := 0 to n
      invariant synergyScore + PairSynergy(data.synergy, valid[i..]) == PairSynergy(data.synergy, valid)
    {
      PairSynergyStep(data.synergy, valid, i);
      for j := i + 1 to n
        invariant synergyScore + SumSynergy(data.synergy, valid[i], valid[j..]) + PairSynergy(data.synergy, valid[i + 1..])
               == PairSynergy(data.synergy, valid)
      {
        SumSynergyStep(data.synergy, valid[i], valid, j);
        synergyScore := synergyScore + Synergy(data.synergy, valid[i], valid[j]);
      }
      assert valid[n..] == [];
    }
    assert valid[n..] == [];
    var mapScore := MapSum(data.maps, mapId, valid);
    var counterScore := CrossCounter(data.counters, valid, FilledIds(team2));
    power := synergyScore + mapScore + counterScore;
  }

  /** calculateForceDifference, computed with the loops above. */
  method CalculateForceDifference(data: GameData, mapId: string, ally: seq<Slot>, enemy: seq<Slot>) returns (diff: real)
    ensures diff == ForceDifference(data, mapId, ally, enemy)
  {
    var allyPower := CalculateTeamPower(data, mapId, ally, enemy);
    var enemyPower := CalculateTeamPower(data, mapId, enemy, ally);
    diff := allyPower - enemyPower;
  }

  /** Swapping the sides flips the sign of the force difference. */
  lemma ForceDifferenceAntisymmetric(data: GameData, mapId: string, ally: seq<Slot>, enemy: seq<Slot>)
    ensures ForceDifference(data, mapId, ally, enemy) == -ForceDifference(data, mapId, enemy, ally)
  {
  }

  /** An empty slot inserted anywhere in either team changes no team power. */
  lemma EmptySlotNeutral(data: GameData, mapId: string, team1: seq<Slot>, team2: seq<Slot>, k: nat)
    requires k <= |team1|
    ensures TeamPower(data, mapId, team1[..k] + [None] + team1[k..], team2) == TeamPower(data, mapId, team1, team2)
    ensures TeamPower(data, mapId, team2, team1[..k] + [None] + team1[k..]) == TeamPower(data, mapId, team2, team1)
  {
    FilledIdsSkipEmpty(team1, k);
  }

  lemma {:induction false} CrossCounterEmpty(t: Table, v: seq<HeroId>)
    ensures CrossCounter(t, v, []) == 0.0
  {
    if v != [] {
      CrossCounterEmpty(t, v[1..]);
    }
  }

  lemma {:induction false} CrossCounterCons(t: Table, w: seq<HeroId>, a: HeroId, v: seq<HeroId>)
    ensures CrossCounter(t, w, [a] + v) == SumCounterAgainst(t, w, a) + CrossCounter(t, w, v)
  {
    assert ([a] + v)[0] == a && ([a] + v)[1..] == v;
    if w != [] {
      CrossCounterCons(t, w[1..], a, v);
    }
  }

  lemma {:induction false} AgainstIsNegated(t: Table, w: seq<HeroId>, a: HeroId)
    requires OneDirectional(t)
    ensures SumCounterAgainst(t, w, a) == -SumCounter(t, a, w)
  {
    if w != [] {
      CounterAntisymmetric(t, w[0], a);
      AgainstIsNegated(t, w[1..], a);
    }
  }

  /** With a one-directional counter table, what v gains against w is what w
      loses against v. */
  lemma {:induction false} CrossCounterAntisymmetric(t: Table, v: seq<HeroId>, w: seq<HeroId>)
    requires OneDirectional(t)
    ensures CrossCounter(t, v, w) == -CrossCounter(t, w, v)
  {
    if v == [] {
      CrossCounterEmpty(t, w);
    } else {
      assert v == [v[0]] + v[1..];
      CrossCounterAntisymmetric(t, v[1..], w);
      CrossCounterCons(t, w, v[0], v[1..]);
      AgainstIsNegated(t, w, v[0]);
    }
  }

  /** With a one-directional counter table the force difference is the two
      teams' own synergy and map terms plus twice the ally's counters against
      the enemy. */
  lemma ForceDifferenceSplit(data: GameData, mapId: string, ally: seq<Slot>, enemy: seq<Slot>)
    requires OneDirectional(data.counters)
    ensures var a, e := FilledIds(ally), FilledIds(enemy);
      ForceDifference(data, mapId, ally, enemy)
      == (PairSynergy(data.synergy, a) + MapSum(data.maps, mapId, a))
       - (PairSynergy(data.synergy, e) + MapSum(data.maps, mapId, e))
       + 2.0 * CrossCounter(data.counters, a, e)
  {
    CrossCounterAntisymmetric(data.counters, FilledIds(ally), FilledIds(enemy));
  }
}
