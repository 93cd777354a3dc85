/// Ranking of the candidates (runAnalysis) and the suggestion list handed to
/// the display (the tag and truncation rules of displaySuggestions).
module Ranking {
  import opened Resolver
  import opened Teams
  import opened Scoring

  /** A scored candidate after runAnalysis has written its `delta`. */
  datatype Suggestion = Suggestion(heroId: HeroId, ret: real, delta: real)

  /** The comparator `(b.return - a.return) || (b.delta - a.delta)`: x may stay
      ahead of y when its return is higher, or equal with a delta at least as
      high. */
  predicate RanksBefore(x: Suggestion, y: Suggestion) {
    x.ret > y.ret || (x.ret == y.ret && x.delta >= y.delta)
  }

  /** Descending by return, ties broken by descending delta. */
  predicate Ranked(s: seq<Suggestion>) {
    forall i, j :: 0 <= i < j < |s| ==> RanksBefore(s[i], s[j])
  }

  /** Every return is 0 (`scores.every(s => s.return === 0)`). */
  predicate AllZero(cs: seq<Candidate>) {
    forall i :: 0 <= i < |cs| ==> cs[i].ret == 0.0
  }

  /** How much the force difference moves when c takes the self slot. */
  function SwapDelta(data: GameData, b: Board, c: HeroId): real
    requires b.selfIndex < |b.ally|
  {
    ForceDifference(data, b.currentMap, b.ally[b.selfIndex := Some(c)], b.enemy)
    - ForceDifference(data, b.currentMap, b.ally, b.enemy)
  }

  /** A candidate with its delta written in. */
  function WithDelta(data: GameData, b: Board, c: Candidate): Suggestion
    requires b.selfIndex < |b.ally|
  {
    Suggestion(c.heroId, c.ret, SwapDelta(data, b, c.heroId))
  }

  /** The candidates with their deltas written in, in the same order. */
  function WithDeltas(data: GameData, b: Board, cs: seq<Candidate>): (r: seq<Suggestion>)
    requires b.selfIndex < |b.ally|
  {
    seq(|cs|, k requires 0 <= k < |cs| => WithDelta(data, b, cs[k]))
  }

  /** runAnalysis: no suggestion when every candidate's return is 0;
      otherwise every candidate, each with its swap delta, in ranked order. */
  method RunAnalysis(data: GameData, b: Board, a: Analysis) returns (r: seq<Suggestion>)
    requires b.selfIndex < |b.ally|
    ensures AllZero(CalculateReturnScores(data, b, a)) <==> r == []
    ensures !AllZero(CalculateReturnScores(data, b, a)) ==>
      Ranked(r) && multiset(r) == multiset(WithDeltas(data, b, CalculateReturnScores(data, b, a)))
  {
    var scores := CalculateReturnScores(data, b, a);
    if |scores| > 0 && AllZero(scores) {
      return [];
    }
    var arr := WriteDeltas(data, b, scores);
    SortRanked(arr);
    r := arr[..];
  }

  /** The `scores.map` of runAnalysis: a fresh array of the candidates with
      `delta = scoreAfter - scoreBefore` written into each. */
  method WriteDeltas(data: GameData, b: Board, scores: seq<Candidate>) returns (arr: array<Suggestion>)
    requires b.selfIndex < |b.ally|
    ensures fresh(arr)
    ensures arr[..] == WithDeltas(data, b, scores)
  {
    var before := CalculateForceDifference(data, b.currentMap, b.ally, b.enemy);
    arr := new Suggestion[|scores|];
    for i := 0 to |scores|
      invariant forall k :: 0 <= k < i ==> arr[k] == WithDelta(data, b, scores[k])
    {
      WriteDelta(data, b, scores[i], before, arr, i);
    }
    assert arr[..] == WithDeltas(data, b, scores);
  }

  /** The body of the `scores.map` callback: the candidate with the force
      difference with it in the self slot, minus the one computed before the
      loop, stored at position i. */
  method WriteDelta(data: GameData, b: Board, c: Candidate, before: real, arr: array<Suggestion>, i: nat)
    requires b.selfIndex < |b.ally|
    requires before == ForceDifference(data, b.currentMap, b.ally, b.enemy)
    requires i < arr.Length
    modifies arr
    ensures arr[i] == WithDelta(data, b, c)
    ensures forall k :: 0 <= k < arr.Length && k != i ==> arr[k] == old(arr[k])
  {
    var temp := b.ally[b.selfIndex := Some(c.heroId)];
    var after := CalculateForceDifference(data, b.currentMap, temp, b.enemy);
    arr[i] := Suggestion(c.heroId, c.ret, after - before);
  }

  /** The in-place sort of runAnalysis (an insertion sort by the comparator):
      the array ends up ranked and holds the same suggestions. */
  method SortRanked(a: array<Suggestion>)
    modifies a
    ensures Ranked(a[..])
    ensures multiset(a[..]) == multiset(old(a[..]))
  {
    if a.Length == 0 { return; }
    for i := 1 to a.Length
      invariant forall p, q :: 0 <= p < q < i ==> RanksBefore(a[p], a[q])
      invariant multiset(a[..]) == multiset(old(a[..]))
    {
      var j := i;
      while j > 0 && !RanksBefore(a[j - 1], a[j])
        invariant 0 <= j <= i
        invariant forall p, q :: 0 <= p < q <= i && p != j && q != j ==> RanksBefore(a[p], a[q])
        invariant forall q :: j < q <= i ==> RanksBefore(a[j], a[q])
        invariant multiset(a[..]) == multiset(old(a[..]))
      {
        SwapAdjacent(a, j);
        j := j - 1;
      }
    }
  }

  /** One exchange of the sort: neighbours j-1 and j trade places. */
  method SwapAdjacent(a: array<Suggestion>, j: nat)
    requires 0 < j < a.Length
    modifies a
    ensures a[..] == old(a[..])[j - 1 := old(a[j])][j := old(a[j - 1])]
    ensures multiset(a[..]) == multiset(old(a[..]))
  {
    a[j - 1], a[j] := a[j], a[j - 1];
  }

  // ---------------------------------------------------------------------------
  // The list handed to the display

  /** The display tag: 'low-risk' (stable) when the pick does not lower the
      force difference, 'high-risk' otherwise. */
  datatype Tag = Stable | Risky

  datatype Item = Item(rank: nat, heroId: HeroId, tag: Tag, greyed: bool)

  /** The message '明確な提案不可' for an empty list, or the shown items. */
  datatype Display = NoSuggestion | Items(items: seq<Item>)

  /** The length of `s.slice(0, end)` for a list of length len: a negative end
      counts from the back. */
  function SliceLength(len: nat, end: int): (n: nat)
    ensures n <= len
    ensures end >= 0 ==> n == if end < len then end else len
    ensures end < 0 ==> n == if len + end > 0 then len + end else 0
  {
    if end >= 0 then (if end < len then end else len)
    else if len + end > 0 then len + end else 0
  }

  function TagOf(s: Suggestion): Tag {
    if s.delta >= 0.0 then Stable else Risky
  }

  /** displaySuggestions: the first `suggestionCount` suggestions, numbered
      from 1, tagged by the sign of their delta, greyed out when the hero is
      in the hero pool. */
  function DisplaySuggestions(s: seq<Suggestion>, settings: Settings): (d: Display)
    ensures d.NoSuggestion? <==> s == []
    ensures d.Items? ==> |d.items| == SliceLength(|s|, settings.suggestionCount)
    ensures d.Items? ==> forall k :: 0 <= k < |d.items| ==>
      && d.items[k].rank == k + 1
      && d.items[k].heroId == s[k].heroId
      && (d.items[k].tag == Stable <==> s[k].delta >= 0.0)
      && (d.items[k].greyed <==> s[k].heroId in settings.heroPool)
  {
    if s == [] then NoSuggestion
    else
      var n := SliceLength(|s|, settings.suggestionCount);
      Items(seq(n, k requires 0 <= k < n => Item(k + 1, s[k].heroId, TagOf(s[k]), s[k].heroId in settings.heroPool)))
  }

  /** On a ranked list the shown items are the best ones: each of them ranks
      before every suggestion left out. */
  lemma ShownRankBeforeHidden(s: seq<Suggestion>, settings: Settings, k: nat, m: nat)
    requires Ranked(s)
    requires DisplaySuggestions(s, settings).Items?
    requires k < |DisplaySuggestions(s, settings).items| <= m < |s|
    ensures RanksBefore(s[k], s[m])
  {
  }
}
