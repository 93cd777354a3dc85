/// The decision logic of runAllAnalyses: on a full board the relation view,
/// otherwise one analysis (or the "no clear threat" message) per picked ally,
/// one Threat-Elimination per picked enemy and one global analysis.
module Orchestrator {
  import opened Resolver
  import opened Teams
  import opened Scoring

  /** Where a result is shown: a slot's suggestion area or the global area. */
  datatype Target = AllySlot(index: nat) | EnemySlot(index: nat) | GlobalArea

  /** What a target shows: the suggestions of an analysis, or the "no clear
      threat" message for an ally with nothing to fear. */
  datatype Decision = Suggest(target: Target, analysis: Analysis) | NoClearThreat(target: Target)

  /** The relation view of a full board, or the per-slot analyses. */
  datatype Plan = RelationMode | SlotAnalyses(decisions: seq<Decision>)

  /** The shape runAllAnalyses relies on: both teams of the configured size
      and the self slot inside the ally team. */
  predicate Sized(b: Board) {
    |b.ally| == b.settings.teamSize && |b.enemy| == b.settings.teamSize && b.selfIndex < b.settings.teamSize
  }

  /** The self slot holds a hero. */
  predicate SelfFilled(b: Board)
    requires Sized(b)
  {
    b.ally[b.selfIndex].Some?
  }

  /** Some picked enemy beats the hero of ally slot i. */
  ghost predicate Threatened(data: GameData, b: Board, i: nat)
    requires Sized(b) && i < |b.ally| && b.ally[i].Some?
  {
    exists j :: 0 <= j < |b.enemy| && b.enemy[j].Some? && Counter(data.counters, b.ally[i].value, b.enemy[j].value) < 0.0
  }

  /** The slot order in which runAllAnalyses emits its results: ally i, then
      enemy i, for i = 0, 1, ..., then the global area. */
  function Position(b: Board, t: Target): nat {
    match t
    case AllySlot(i) => 2 * i
    case EnemySlot(j) => 2 * j + 1
    case GlobalArea => 2 * b.settings.teamSize
  }

  /** A target that runAllAnalyses fills on a board that is not full. */
  predicate Due(b: Board, t: Target)
    requires Sized(b)
  {
    match t
    case AllySlot(i) => i < b.settings.teamSize && b.ally[i].Some?
    case EnemySlot(j) => j < b.settings.teamSize && SelfFilled(b) && b.enemy[j].Some?
    case GlobalArea => SelfFilled(b) && AnyFilled(b.enemy)
  }

  /** What the source shows at a due target: an ally gets the Self-Analysis
      (own slot) or Ally-Support (others) of its threats exactly when it is
      threatened, the message otherwise; an enemy gets Threat-Elimination of
      itself; the global area gets Strategic-Optimization. */
  ghost predicate Sound(data: GameData, b: Board, d: Decision)
    requires Sized(b)
  {
    && Due(b, d.target)
    && match d.target
       case AllySlot(i) =>
         var threats := Threats(data.counters, b.enemy, b.ally[i].value);
         && (d.Suggest? <==> Threatened(data, b, i))
         && (d.Suggest? ==> d.analysis == if i == b.selfIndex then SelfAnalysis(threats) else AllySupport(threats))
       case EnemySlot(j) => d == Suggest(EnemySlot(j), ThreatElimination(b.enemy[j].value))
       case GlobalArea => d == Suggest(GlobalArea, StrategicOptimization)
  }

  ghost predicate Decided(ds: seq<Decision>, t: Target) {
    exists d :: d in ds && d.target == t
  }

  predicate InOrder(b: Board, ds: seq<Decision>) {
    forall k, l :: 0 <= k < l < |ds| ==> Position(b, ds[k].target) < Position(b, ds[l].target)
  }

  /** A non-empty threat list can only come from a picked enemy, so the
      `enemyTeam.some(Boolean)` test beside `threats.length > 0` never
      decides anything. */
  lemma ThreatsNeedEnemies(counters: Table, enemy: seq<Slot>, hero: HeroId)
    requires |Threats(counters, enemy, hero)| > 0
    ensures AnyFilled(enemy)
  {
    var x := Threats(counters, enemy, hero)[0];
    assert Some(x) in enemy;
    var j :| 0 <= j < |enemy| && enemy[j] == Some(x);
  }

  /** The threat list is non-empty exactly when the ally is threatened. */
  lemma ThreatsNonEmpty(data: GameData, b: Board, i: nat)
    requires Sized(b) && i < |b.ally| && b.ally[i].Some?
    ensures |Threats(data.counters, b.enemy, b.ally[i].value)| > 0 <==> Threatened(data, b, i)
  {
    var threats := Threats(data.counters, b.enemy, b.ally[i].value);
    if |threats| > 0 {
      assert Some(threats[0]) in b.enemy;
      var j :| 0 <= j < |b.enemy| && b.enemy[j] == Some(threats[0]);
    }
    if Threatened(data, b, i) {
      var j :| 0 <= j < |b.enemy| && b.enemy[j].Some? && Counter(data.counters, b.ally[i].value, b.enemy[j].value) < 0.0;
      assert b.enemy[j].value in threats;
    }
  }

  /** The ally half of iteration i: analysis or message for a picked ally. */
  function AllyStep(data: GameData, b: Board, i: nat): (r: seq<Decision>)
    requires Sized(b) && i < b.settings.teamSize
    ensures forall d :: d in r ==> Sound(data, b, d) && d.target == AllySlot(i)
    ensures Due(b, AllySlot(i)) ==> |r| == 1
    ensures |r| <= 1
  {
    if b.ally[i].None? then []
    else
      var threats := Threats(data.counters, b.enemy, b.ally[i].value);
      ThreatsNonEmpty(data, b, i);
      if AnyFilled(b.enemy) && |threats| > 0 then
        [Suggest(AllySlot(i), if i == b.selfIndex then SelfAnalysis(threats) else AllySupport(threats))]
      else
        [NoClearThreat(AllySlot(i))]
  }

  /** The enemy half of iteration i: Threat-Elimination of a picked enemy
      while the self slot is filled. */
  function EnemyStep(b: Board, i: nat): (r: seq<Decision>)
    requires Sized(b) && i < b.settings.teamSize
    ensures forall data: GameData, d :: d in r ==> Sound(data, b, d) && d.target == EnemySlot(i)
    ensures Due(b, EnemySlot(i)) ==> |r| == 1
    ensures |r| <= 1
  {
    if SelfFilled(b) && b.enemy[i].Some? then [Suggest(EnemySlot(i), ThreatElimination(b.enemy[i].value))] else []
  }

  /** The results of iteration i of the loop. */
  function SlotStep(data: GameData, b: Board, i: nat): (r: seq<Decision>)
    requires Sized(b) && i < b.settings.teamSize
    ensures forall d :: d in r ==> Sound(data, b, d) && (d.target == AllySlot(i) || d.target == EnemySlot(i))
    ensures Due(b, AllySlot(i)) ==> exists d :: d in r && d.target == AllySlot(i)
    ensures Due(b, EnemySlot(i)) ==> exists d :: d in r && d.target == EnemySlot(i)
    ensures InOrder(b, r)
  {
    var allyPart, enemyPart := AllyStep(data, b, i), EnemyStep(b, i);
    assert Due(b, AllySlot(i)) ==> allyPart[0] in allyPart + enemyPart;
    assert Due(b, EnemySlot(i)) ==> enemyPart[0] in allyPart + enemyPart;
    allyPart + enemyPart
  }

  lemma InOrderAppend(b: Board, front: seq<Decision>, back: seq<Decision>)
    requires InOrder(b, front) && InOrder(b, back)
    requires forall d, e :: d in front && e in back ==> Position(b, d.target) < Position(b, e.target)
    ensures InOrder(b, front + back)
  {
    var r := front + back;
    forall k, l | 0 <= k < l < |r| ensures Position(b, r[k].target) < Position(b, r[l].target) {
      if l < |front| {
        assert r[k] == front[k] && r[l] == front[l];
      } else if k >= |front| {
        assert r[k] == back[k - |front|] && r[l] == back[l - |front|];
      } else {
        assert r[k] == front[k] && r[l] == back[l - |front|];
        assert front[k] in front && back[l - |front|] in back;
      }
    }
  }

  /** The loop of runAllAnalyses over the first n slot indices. */
  function SlotDecisions(data: GameData, b: Board, n: nat): (r: seq<Decision>)
    requires Sized(b) && n <= b.settings.teamSize
    ensures forall d :: d in r ==> Sound(data, b, d)
    ensures forall d :: d in r ==> Position(b, d.target) < 2 * n
    ensures forall t :: Due(b, t) && Position(b, t) < 2 * n ==> Decided(r, t)
    ensures InOrder(b, r)
  {
    if n == 0 then []
    else
      var front := SlotDecisions(data, b, n - 1);
      var step := SlotStep(data, b, n - 1);
      InOrderAppend(b, front, step);
      var r := front + step;
      assert forall t :: Due(b, t) && Position(b, t) < 2 * n ==> Decided(r, t) by {
        forall t | Due(b, t) && Position(b, t) < 2 * n ensures Decided(r, t) {
          if Position(b, t) < 2 * (n - 1) {
            var d :| d in front && d.target == t;
            assert d in r;
          } else {
            assert t == AllySlot(n - 1) || t == EnemySlot(n - 1);
            var d :| d in step && d.target == t;
            assert d in r;
          }
        }
      }
      r
  }

  /** runAllAnalyses: the relation view exactly when every slot is filled;
      otherwise every due target receives exactly one decision, each decision
      is the one the source shows there, in the source's order. */
  function RunAllAnalyses(data: GameData, b: Board): (p: Plan)
    requires Sized(b)
    ensures p.RelationMode? <==> IsAllFilled(b.ally, b.enemy)
    ensures p.SlotAnalyses? ==> forall d :: d in p.decisions ==> Sound(data, b, d)
    ensures p.SlotAnalyses? ==> forall t :: Due(b, t) ==> Decided(p.decisions, t)
    ensures p.SlotAnalyses? ==> InOrder(b, p.decisions)
  {
    if IsAllFilled(b.ally, b.enemy) then RelationMode
    else
      var n := b.settings.teamSize;
      var loop := SlotDecisions(data, b, n);
      var global := if SelfFilled(b) && AnyFilled(b.enemy) then [Suggest(GlobalArea, StrategicOptimization)] else [];
      InOrderAppend(b, loop, global);
      var r := loop + global;
      assert forall t :: Due(b, t) ==> Decided(r, t) by {
        forall t | Due(b, t) ensures Decided(r, t) {
          if t == GlobalArea {
            assert global[0] in r;
          } else {
            var d :| d in loop && d.target == t;
            assert d in r;
          }
        }
      }
      SlotAnalyses(r)
  }

  /** An ally that nothing threatens shows the message, never suggestions. */
  lemma UnthreatenedAllyGetsMessage(data: GameData, b: Board, i: nat)
    requires Sized(b) && i < b.settings.teamSize && b.ally[i].Some?
    requires !IsAllFilled(b.ally, b.enemy)
    requires forall j :: 0 <= j < |b.enemy| && b.enemy[j].Some? ==> Counter(data.counters, b.ally[i].value, b.enemy[j].value) >= 0.0
    ensures NoClearThreat(AllySlot(i)) in RunAllAnalyses(data, b).decisions
  {
    var ds := RunAllAnalyses(data, b).decisions;
    assert Due(b, AllySlot(i));
    var d :| d in ds && d.target == AllySlot(i);
    assert Sound(data, b, d);
  }
}
