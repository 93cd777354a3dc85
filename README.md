# Hero composition advisor — verified model of the scoring core

The advisor is a single-page tool for a team hero shooter whose team size
is configurable (5 by default). Each team is a row of hero slots. One ally slot is "mine" (the self
slot). The reference data comes from four tables:

- a hero registry with a role per hero;
- a sparse counter table;
- a sparse synergy table;
- per-map hero affinities.

From these the advisor:

- scores every eligible replacement for the self hero;
- ranks the candidates by their return and by how much they move the force
  balance between the teams;
- decides, slot by slot, which analysis to show;
- on a full board, draws counter arrows between ally and enemy slots.

The picks themselves are state transitions: picking into the active slot
(with role-limit eviction at the self slot), banning, resetting and
initialising.

This project models that core of `script.js` in Dafny, module by module:

| module | file | what it covers |
|---|---|---|
| `Resolver` | resolver.dfy | the tables, the counter/synergy/map lookups, the registry lookup |
| `Teams` | teams.dfy | board snapshot and settings, filled slots, role counts, threats, the unique role list, default role limits |
| `Scoring` | scoring.dfy | candidate eligibility and return scores, team power, force difference |
| `Ranking` | ranking.dfy | runAnalysis (deltas, in-place sort) and the truncation and tags of the displayed list |
| `RelationView` | relation.dfy | the edge deltas, normaliser and arrows of the full-board relation view |
| `Orchestrator` | orchestrator.dfy | the decision plan of runAllAnalyses |
| `Picks` | picks.dfy | the palette's card flags and the team after a pick, with what a pick preserves |
| `App` | app.dfy | the `state` object as a class over two slot arrays, and its event handlers |

Modelling choices:

- An empty slot (`null`) is `None`. Hero ids and role names are non-empty
  strings. The source tests ids for truthiness, so with this typing `Some(id)`
  is exactly a truthy slot.
- getCounterScore and getSynergyScore return 0 when either argument is empty.
  Every call in script.js passes filled slots or registry ids: the callers
  filter with `filter(Boolean)`, test the slot first, or take registry
  entries. So `Counter` and `Synergy` take hero ids, and that guard never
  applies.
- The tables are maps of maps. Scores are `real`: every score is a sum or a
  difference of table entries (and a doubling in the relation view), so
  nothing is lost except floating-point rounding.
- The code throws on an unregistered id (`getHeroById(id).role`). Wherever it
  would, the model requires the id to be registered.
- Functions that compute a value are Dafny functions. The code that works by
  updating state becomes methods proved against those functions:
  - the nested loops of calculateTeamPower;
  - the delta writing and in-place sort of runAnalysis;
  - the double loop of drawRelationLines;
  - the eviction loop of handleHeroSelection;
  - the default-limit loop of loadSettings;
  - the handlers on the state class.

Three behaviours of `script.js` that the model keeps as written:

- An evicting self-slot pick empties every other ally slot of the new hero's
  role, however many there are (script.js:111-115).
- Nothing keeps one hero out of both teams: the 'picked' flag and the
  candidate filter look only at the team being edited or the ally team
  (script.js:288, script.js:250).
- The only risk classification of a suggestion is the display tag, low risk
  exactly when `delta >= 0` (script.js:313).

## Model

| member | source | states |
|---|---|---|
| `Resolver.Counter` | script.js:383 | getCounterScore on two heroes: the stored entry for (a, b); failing that, the negated entry for (b, a); failing that, 0 |
| `Resolver.Synergy` | script.js:384 | getSynergyScore on two heroes: the stored entry for (a, b); failing that, the entry for (b, a) unnegated; failing that, 0 |
| `Resolver.CounterAntisymmetric` | script.js:383 | when the table does not store both directions of a pair, counter(a,b) = -counter(b,a) |
| `Resolver.CounterBothStored` | script.js:383 | when both directions are stored with non-opposite values, antisymmetry fails |
| `Resolver.OneDirectionalCounter` | script.js:383 | a table storing at most one direction per pair gives an antisymmetric counter relation |
| `Resolver.SynergySymmetric` | script.js:384 | synergy(a,b) = synergy(b,a) unless both directions are stored with different values |
| `Resolver.MapScore` | script.js:385 | getMapScore: the hero's affinity on the map, 0 when the map or the entry is absent |
| `Resolver.MapScoreAbsent` | script.js:385 | map score is 0 for an absent map or an absent hero entry |
| `Resolver.HeroById` | script.js:378 | the first registry entry with the id; none exactly when the id is unregistered |
| `Teams.FilledIds` | script.js:382 | `filter(Boolean)`: exactly the heroes of the filled slots; full length iff every slot is filled, empty iff none is |
| `Teams.FilledIdsAppend` | script.js:269 | filtering a concatenation is concatenating the filtered parts |
| `Teams.FilledIdsSkipEmpty` | script.js:269 | an empty slot anywhere contributes nothing to the filled heroes |
| `Teams.IsAllFilled` | script.js:386 | isAllFilled: every slot of both teams holds a hero |
| `Teams.Mask` | script.js:382 | countRoles' exclusion: the excluded index reads as empty, every other slot is unchanged |
| `Teams.Tally` | script.js:382 | the role tally holds only positive counts |
| `Teams.CountRoles` | script.js:382 | countRoles: the role tally of the slots other than excludeIndex (all slots for -1); CountRolesCounts gives each role's value |
| `Teams.CountRolesCounts` | script.js:382 | countRoles gives each role the number of non-excluded slots holding a hero of that role |
| `Teams.SlotRoleCountUpdate` | script.js:382 | writing one slot changes a role's count by what leaves and what arrives |
| `Teams.Threats` | script.js:379 | getThreats: exactly the filled enemies that the hero loses to (counter < 0) |
| `Teams.ThreatsAppend` | script.js:379 | the threats of two runs of slots are the threats of the first followed by those of the second, so each matching slot gives its own entry in slot order |
| `Teams.Dedupe` | script.js:381 | `new Set`: no duplicates, same members |
| `Teams.WithRank` | script.js:381 | the roles of one sort rank, keeping distinctness |
| `Teams.UniqueRoles` | script.js:381 | getUniqueRoles: every registry role once, sorted tank, damage, support with unknown roles first |
| `Teams.FillRoleLimits` | script.js:396 | missing roles get their default (tank 1, damage 2, support 2, else 1), existing limits are kept, needsSave iff a role was missing |
| `Scoring.Others` | script.js:246 | the allies counted for synergy: every filled ally except the self hero |
| `Scoring.OthersAppend` | script.js:246 | filtering two runs of ids is filtering each in turn, so each copy of an ally other than the self hero is kept, in order |
| `Scoring.ScoreHeroes` | script.js:248-264 | exactly the eligible heroes are listed, each with its composite return |
| `Scoring.ScoreHeroesInOrder` | script.js:248-251 | the candidates map one to one, in increasing order, onto the eligible registry entries |
| `Scoring.CalculateReturnScores` | script.js:242-265 | no candidates without a self hero; otherwise every candidate is eligible (same role, not banned, not self, not on the ally team unless duplicates are allowed), every eligible registry entry gives exactly one candidate, in registry order; return = counter term + map + synergy with the other allies |
| `Scoring.NoEnemiesNoCounterTerm` | script.js:259 | with no enemy picked the global mode's counter term is 0 |
| `Scoring.CalculateTeamPower` | script.js:267-274 | the nested loops compute pairwise synergy + map affinity + cross counters over the filled slots |
| `Scoring.CalculateForceDifference` | script.js:266 | ally power minus enemy power |
| `Scoring.ForceDifferenceAntisymmetric` | script.js:266 | swapping the teams negates the force difference |
| `Scoring.EmptySlotNeutral` | script.js:268-272 | an empty slot in either team changes no team power |
| `Scoring.CrossCounterAntisymmetric` | script.js:272 | with a one-directional counter table, what one team gains against the other the other loses |
| `Scoring.ForceDifferenceSplit` | script.js:266-274 | with a one-directional table the force difference is the difference of own terms plus twice the ally's counter sum |
| `Ranking.RunAnalysis` | script.js:224-239 | no suggestion exactly when every return is 0; otherwise a permutation of the candidates with their swap deltas, descending by return then delta |
| `Ranking.WriteDeltas` | script.js:228-235 | each candidate gets delta = force difference with it in the self slot minus the current one |
| `Ranking.WriteDelta` | script.js:229-234 | position i receives the candidate with its swap delta; every other position is unchanged |
| `Ranking.SwapAdjacent` | script.js:237 | one exchange of neighbours in the sort; the contents stay the same multiset |
| `Ranking.SortRanked` | script.js:237 | the in-place sort leaves a ranked permutation |
| `Ranking.SliceLength` | script.js:312 | `slice(0, n)` length, negative n counting from the back |
| `Ranking.DisplaySuggestions` | script.js:306-317 | empty list shows the no-suggestion message; otherwise the first suggestionCount items, ranked from 1, stable iff delta >= 0, greyed iff in the hero pool |
| `Ranking.ShownRankBeforeHidden` | script.js:312 | on a ranked list every shown item ranks before every hidden one |
| `RelationView.EdgeDeltaAsWritten` | script.js:336 | the delta as line 336 computes it: twice the forward score when only it is nonzero, twice the backward score (not negated) when only that is nonzero, else forward minus backward |
| `RelationView.EdgeDelta` | script.js:336 | the delta with the backward-only case negated; its sign is stated by EdgeDeltaSign |
| `RelationView.EdgeDeltaSign` | script.js:336 | the corrected delta is positive iff the ally's score is higher, negative iff lower |
| `RelationView.AsWrittenMisorients` | script.js:336 | the delta as written is +6 for a pair the enemy wins 3 to 0 |
| `RelationView.AgreeWhenOneDirectional` | script.js:336 | with at most one direction stored, both formulas give twice the ally's counter score |
| `RelationView.RelationDeltas` | script.js:329-340 | exactly one edge per pair of filled slots with a nonzero score, in row-major order, with its delta |
| `RelationView.MaxMagnitude` | script.js:341 | the normaliser is at least 1, at least every magnitude, and attained unless it is 1 |
| `RelationView.Arrows` | script.js:343-349 | one arrow per edge of magnitude at least 0.1 and none for the others, each weight in (0, 1]; with ArrowsAppend this fixes multiplicity and order |
| `RelationView.ArrowsAppend` | script.js:343-355 | the arrows of a concatenation are the arrows of each part in turn: the forEach visits the deltas in order and skips only the small ones |
| `RelationView.ArrowsInOrder` | script.js:330-355 | deltas pushed in row-major order are drawn in row-major order |
| `RelationView.DrawRelationLines` | script.js:328-355 | maxDelta is at least 1, at least every linked pair's magnitude and attained unless 1; every arrow comes from a linked pair of magnitude at least 0.1, points from the favoured side and has weight |delta| / maxDelta; every such pair gets an arrow; arrows are strictly in row-major pair order |
| `Orchestrator.ThreatsNeedEnemies` | script.js:209 | a non-empty threat list implies some enemy is picked |
| `Orchestrator.ThreatsNonEmpty` | script.js:208-209 | the threat list is non-empty iff some picked enemy beats the ally |
| `Orchestrator.SlotStep` | script.js:206-217 | one loop iteration decides its ally and enemy slot correctly |
| `Orchestrator.SlotDecisions` | script.js:205-218 | the loop decides every due slot, soundly and in slot order |
| `Orchestrator.RunAllAnalyses` | script.js:197-222 | relation view iff the board is full; otherwise each picked ally gets Self-Analysis/Ally-Support iff threatened (else the message), each picked enemy gets Threat-Elimination when the self slot is filled, the global area gets Strategic-Optimization iff the self slot and some enemy are filled, in source order |
| `Orchestrator.UnthreatenedAllyGetsMessage` | script.js:206-213 | an ally no enemy beats shows the "no clear threat" message |
| `Picks.CardFor` | script.js:284-301 | banned iff in the bans; picked iff duplicates are off and the hero is elsewhere in the team; role-locked iff the role already fills its limit on the counted slots (other ally slots, or the whole enemy team), unless the choice is for the self slot of an incomplete board or the slot holds a hero of that role |
| `Picks.ClearRole` | script.js:111-115 | the eviction empties exactly the other slots of the role |
| `Picks.PickedTeam` | script.js:101-119 | the hero lands in the selected slot; other slots keep their hero or, on eviction, lose one of the new hero's role |
| `Picks.PickedTeamKnown` | script.js:107-119 | a pick leaves only registered heroes |
| `Picks.OwnRole` | script.js:107 | a registered hero counts for its own role |
| `Picks.SlotRoleCountZero` | script.js:382 | a team with no hero of a role counts 0 for it |
| `Picks.CountAfterPut` | script.js:119 | putting a hero of role r in a slot gives the other slots' count plus one |
| `Picks.EvictionClearsAllOfRole` | script.js:106-116 | an evicting pick clears every other slot of the role and nothing else |
| `Picks.EvictedCount` | script.js:110-119 | after an evicting pick the new hero is the only one of its role |
| `Picks.KeptCount` | script.js:108-119 | a pick that does not evict happens below the limit, so the role stays within it |
| `Picks.SelfPickWithinLimit` | script.js:106-119 | after a self-slot pick on an incomplete board the new hero's role is within its limit (limit at least 1) |
| `Picks.AcceptedPickKeepsLimits` | script.js:296-300 | a pick the palette does not lock never pushes its role past the limit unless it already was, nor raises any other role |
| `Picks.AcceptedPickKeepsDistinct` | script.js:289-295 | without duplicates allowed, a pick not flagged 'picked' keeps the team duplicate-free |
| `Picks.AcceptedPickKeepsBansOut` | script.js:294 | a pick not flagged 'banned' keeps banned heroes out of the team |
| `App.IndexOf` | script.js:124 | `indexOf`: the first position, or -1 exactly when absent |
| `App.ToggledBans` | script.js:124-126 | unban removes one occurrence; ban appends |
| `App.ClearHero` | script.js:126 | `map(id => id === h ? null : id)` empties exactly the slots holding h |
| `App.BanThenUnban` | script.js:123-126 | banning then unbanning restores the ban list |
| `App.ToggleKeepsNoDup` | script.js:124-126 | toggling keeps the ban list duplicate-free |
| `App.BanKeepsBansOut` | script.js:126 | after a ban no slot holds a banned hero, if none did before |
| `App.Clamp` | script.js:43 | `Math.min(index, size - 1)` lies inside the team |
| `App.EvictRole` | script.js:111-115 | the in-place eviction loop yields ClearRole |
| `App.Cleared` | script.js:126 | a new array with the hero's slots emptied |
| `App.AppState.constructor` | script.js:4-11 | the initial state with empty teams of the configured size |
| `App.AppState.InitializeAppState` | script.js:43 | fresh empty teams of the configured size, self index clamped, nothing else changed |
| `App.AppState.HandleSlotClick` | script.js:87-100 | re-clicking the selected slot clears the selection; another slot becomes the selection |
| `App.AppState.HandleHeroSelection` | script.js:101-122 | no selection: nothing changes; otherwise the selected team becomes PickedTeam, the other team is untouched, the selection cleared |
| `App.AppState.ToggleBan` | script.js:123-128 | unban leaves the teams untouched; ban appends and clears the hero from every slot of both teams |
| `App.AppState.ResetHeroes` | script.js:132 | every slot of both teams emptied in place |
| `App.AppState.ResetAll` | script.js:131 | no bans, no map, empty teams |
| `App.AppState.LoadDefaultRoleLimits` | script.js:396 | every registry role without a limit gets its default; other settings unchanged |

## Left out

- DOM construction and rendering: slot markup, palettes, the hero-pool checklist, role icons, tabs, toasts and messages as HTML. Only the logic of the palette flags, the suggestion list and the decision plan is modelled.
- Data loading and persistence: `fetch`, `localStorage` and JSON import/export are I/O. The tables and settings are parameters. The merge of saved settings in loadSettings is not modelled; its default-limit step is.
- copyComposition: clipboard output and `toFixed` formatting.
- The arrow drawing library, `setTimeout` and the SVG overlay. Only the numbers the arrows are drawn from are modelled.
- drawSynergyLines and drawMapAffinityTags: they are called but defined nowhere in script.js.
- drawSynergyAndMapInfo: it is never called.
- `confirm` and `alert` dialogs: resetAll is modelled as its confirmed branch.
- Settings handlers (team size, suggestion count, role limits, duplicates, hero pool, map selector): they assign one field from the form and re-render.
- Floating-point rounding and NaN (for example from `parseInt` on an empty field): numbers are `real`.
- Prototype keys: a hero id such as `constructor` would hit JavaScript's object prototype in the tables. Ids are map keys here.
- Unregistered hero ids are a precondition, not a modelled crash.
- App.AppState.InitializeAppState: requires an active selection, if any, to lie inside the new team size. After a team-size change the source keeps a stale selection, and a later pick would grow the array past the team size.
- Ranking.SortRanked: ranked order and permutation are stated. The stability of JavaScript's sort (the order among candidates equal in both return and delta) is not.
- Ranking.RunAnalysis: the same; the order among full ties is not stated.
- Teams.UniqueRoles: the order among several roles outside tank, damage and support (their order of first occurrence in the registry, from the stable sort) is not stated; tank, damage and support are one role per rank, so only such unknown roles are affected.
- RelationView.RelationDeltas: pushes the corrected delta `EdgeDelta` (see Findings), not the delta of script.js:336 as written. For a pair with forward score 0 and backward score 3 the source pushes +6 where the model pushes -6; the two agree whenever the counter table stores at most one direction of the pair (AgreeWhenOneDirectional).
- RelationView.DrawRelationLines: computes arrows with the corrected delta (see Findings), not the delta as written. When no pair is linked the source returns before computing a normaliser; the model returns no arrows and a normaliser of 1, the value line 341 would give.

## Findings

| source | as written | input that shows it | evidently intended | confidence | as-written member | corrected member |
|---|---|---|---|---|---|---|
| script.js:336 | when only the backward score is nonzero the delta is `scoreBwd * 2`, so a pair the enemy wins gets a positive delta and an arrow from the ally slot in the ally colour | counters table storing ally-vs-enemy 0 and enemy-vs-ally 3: fwd 0, bwd 3, delta as written +6 | `-scoreBwd * 2`, so the sign says which side holds the advantage (the other two branches already agree with fwd − bwd) | not executed | `RelationView.EdgeDeltaAsWritten`, shown by `RelationView.AsWrittenMisorients` | `RelationView.EdgeDelta`, proved by `RelationView.EdgeDeltaSign` |
