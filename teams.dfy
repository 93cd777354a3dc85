/// The team state the advisor reasons about (two slot arrays, bans, map,
/// self slot, settings) and the helpers over it: filled slots, role counts,
/// threats, the role list of the registry and the default role limits.
module Teams {
  import opened Resolver

  datatype Settings = Settings(
    teamSize: nat,
    suggestionCount: int,
    heroPool: seq<HeroId>,
    roleLimits: map<Role, int>,
    allowTeamDuplicates: bool)

  /** A snapshot of the mutable state that the scoring functions read. */
  datatype Board = Board(
    ally: seq<Slot>,
    enemy: seq<Slot>,
    bans: seq<HeroId>,
    currentMap: string,
    selfIndex: nat,
    settings: Settings)

  /** The configured limit of a role, or the team size when none is set. */
  function Limit(s: Settings, r: Role): int {
    if r in s.roleLimits then s.roleLimits[r] else s.teamSize
  }

  /** The tally of a role, 0 when the role is absent. */
  function Get(m: map<Role, nat>, r: Role): nat {
    if r in m then m[r] else 0
  }

  predicate NoDup<T(==)>(s: seq<T>) {
    forall i, j :: 0 <= i < j < |s| ==> s[i] != s[j]
  }

  // ---------------------------------------------------------------------------
  // Filled slots

  predicate AllFilled(team: seq<Slot>) {
    forall i :: 0 <= i < |team| ==> team[i].Some?
  }

  /** Some slot of the team holds a hero. */
  predicate AnyFilled(team: seq<Slot>) {
    exists i :: 0 <= i < |team| && team[i].Some?
  }

  /** isAllFilled: every slot of both teams holds a hero. */
  predicate IsAllFilled(ally: seq<Slot>, enemy: seq<Slot>) {
    AllFilled(ally) && AllFilled(enemy)
  }

  /** The heroes of the filled slots, in slot order. */
  function FilledIds(team: seq<Slot>): (r: seq<HeroId>)
    ensures |r| <= |team|
    ensures forall x :: x in r <==> Some(x) in team
    ensures |r| == |team| <==> AllFilled(team)
    ensures r == [] <==> !AnyFilled(team)
  {
    if team == [] then []
    else
      var rest := FilledIds(team[1..]);
      assert forall s :: s in team <==> s == team[0] || s in team[1..];
      assert AllFilled(team) <==> team[0].Some? && AllFilled(team[1..]) by {
        if team[0].Some? && AllFilled(team[1..]) {
          forall i | 0 <= i < |team| ensures team[i].Some? {
            if i > 0 { assert team[i] == team[1..][i - 1]; }
          }
        }
      }
      assert AnyFilled(team) <==> team[0].Some? || AnyFilled(team[1..]) by {
        if AnyFilled(team) && team[0].None? {
          var i :| 0 <= i < |team| && team[i].Some?;
          assert team[1..][i - 1] == team[i];
        }
        if AnyFilled(team[1..]) {
          var i :| 0 <= i < |team[1..]| && team[1..][i].Some?;
          assert team[i + 1] == team[1..][i];
        }
      }
      (if team[0].Some? then [team[0].value] else []) + rest
  }

  lemma {:induction false} FilledIdsAppend(a: seq<Slot>, b: seq<Slot>)
    ensures FilledIds(a + b) == FilledIds(a) + FilledIds(b)
  {
    if a == [] {
      assert a + b == b;
    } else {
      assert (a + b)[1..] == a[1..] + b;
      FilledIdsAppend(a[1..], b);
    }
  }

  /** An empty slot adds nothing to the filled ids, wherever it sits. */
  lemma FilledIdsSkipEmpty(team: seq<Slot>, k: nat)
    requires k <= |team|
    ensures FilledIds(team[..k] + [None] + team[k..]) == FilledIds(team)
  {
    var front, back, empty: seq<Slot> := team[..k], team[k..], [None];
    assert FilledIds(empty) == [] by {
      assert empty[1..] == [];
    }
    calc {
      FilledIds(front + empty + back);
      { FilledIdsAppend(front + empty, back); }
      FilledIds(front + empty) + FilledIds(back);
      { FilledIdsAppend(front, empty); }
      FilledIds(front) + FilledIds(back);
      { FilledIdsAppend(front, back); }
      FilledIds(front + back);
      { assert front + back == team; }
      FilledIds(team);
    }
  }

  /** The team with the excluded index read as empty (no slot when the index
      is out of range). */
  function Mask(team: seq<Slot>, excludeIndex: int): (r: seq<Slot>)
    ensures |r| == |team|
    ensures forall i :: 0 <= i < |team| ==> r[i] == if i == excludeIndex then None else team[i]
  {
    if 0 <= excludeIndex < |team| then team[excludeIndex := None] else team
  }

  // ---------------------------------------------------------------------------
  // Role counts

  /** 1 when the slot holds a registered hero of role r. */
  function IsRole(heroes: seq<Hero>, s: Slot, r: Role): nat {
    if s.Some? && RoleOf(heroes, s.value) == Some(r) then 1 else 0
  }

  /** The number of slots holding a hero of role r. */
  function SlotRoleCount(heroes: seq<Hero>, team: seq<Slot>, r: Role): nat {
    if team == [] then 0 else IsRole(heroes, team[0], r) + SlotRoleCount(heroes, team[1..], r)
  }

  /** The number of ids naming a hero of role r. */
  function IdRoleCount(heroes: seq<Hero>, ids: seq<HeroId>, r: Role): nat {
    if ids == [] then 0 else IsRole(heroes, Some(ids[0]), r) + IdRoleCount(heroes, ids[1..], r)
  }

  /** The tally with one more hero of role r. */
  function Bump(m: map<Role, nat>, r: Role): map<Role, nat> {
    m[r := Get(m, r) + 1]
  }

  /** The `reduce` of countRoles: one increment per id, left to right. */
  function Tally(heroes: seq<Hero>, ids: seq<HeroId>): (m: map<Role, nat>)
    requires forall x :: x in ids ==> Known(heroes, x)
    ensures forall r :: r in m ==> m[r] >= 1
  {
    if ids == [] then map[]
    else
      var last := ids[|ids| - 1];
      assert last in ids;
      Bump(Tally(heroes, ids[..|ids| - 1]), RoleOf(heroes, last).value)
  }

  /** countRoles: a tally of the roles on the team, skipping excludeIndex. */
  function CountRoles(heroes: seq<Hero>, team: seq<Slot>, excludeIndex: int): map<Role, nat>
    requires AllKnown(heroes, team)
  {
    var ids := FilledIds(Mask(team, excludeIndex));
    assert forall x :: x in ids ==> Known(heroes, x) by {
      forall x | x in ids ensures Known(heroes, x) {
        var i :| 0 <= i < |team| && Mask(team, excludeIndex)[i] == Some(x);
      }
    }
    Tally(heroes, ids)
  }

  lemma {:induction false} IdRoleCountSnoc(heroes: seq<Hero>, ids: seq<HeroId>, x: HeroId, r: Role)
    ensures IdRoleCount(heroes, ids + [x], r) == IdRoleCount(heroes, ids, r) + IsRole(heroes, Some(x), r)
  {
    if ids != [] {
      assert (ids + [x])[1..] == ids[1..] + [x];
      IdRoleCountSnoc(heroes, ids[1..], x, r);
    }
  }

  lemma {:induction false} TallyCounts(heroes: seq<Hero>, ids: seq<HeroId>, r: Role)
    requires forall x :: x in ids ==> Known(heroes, x)
    ensures Get(Tally(heroes, ids), r) == IdRoleCount(heroes, ids, r)
  {
    if ids != [] {
      var init, last := ids[..|ids| - 1], ids[|ids| - 1];
      assert ids == init + [last];
      TallyCounts(heroes, init, r);
      IdRoleCountSnoc(heroes, init, last, r);
    }
  }

  lemma {:induction false} FilledRoleCount(heroes: seq<Hero>, team: seq<Slot>, r: Role)
    ensures IdRoleCount(heroes, FilledIds(team), r) == SlotRoleCount(heroes, team, r)
  {
    if team != [] {
      FilledRoleCount(heroes, team[1..], r);
      var rest := FilledIds(team[1..]);
      if team[0].Some? {
        assert FilledIds(team) == [team[0].value] + rest;
        assert ([team[0].value] + rest)[1..] == rest;
      } else {
        assert FilledIds(team) == rest;
      }
    }
  }

  /** The map countRoles builds holds, for every role, the number of slots
      other than excludeIndex whose hero has that role. */
  lemma CountRolesCounts(heroes: seq<Hero>, team: seq<Slot>, excludeIndex: int, r: Role)
    requires AllKnown(heroes, team)
    ensures Get(CountRoles(heroes, team, excludeIndex), r) == SlotRoleCount(heroes, Mask(team, excludeIndex), r)
  {
    var ids := FilledIds(Mask(team, excludeIndex));
    TallyCounts(heroes, ids, r);
    FilledRoleCount(heroes, Mask(team, excludeIndex), r);
  }

  /** Writing slot i changes the count of role r by what leaves and what
      arrives. */
  lemma {:induction false} SlotRoleCountUpdate(heroes: seq<Hero>, team: seq<Slot>, i: nat, s: Slot, r: Role)
    requires i < |team|
    ensures SlotRoleCount(heroes, team[i := s], r) + IsRole(heroes, team[i], r)
         == SlotRoleCount(heroes, team, r) + IsRole(heroes, s, r)
  {
    if i > 0 {
      assert team[i := s][1..] == team[1..][i - 1 := s];
      SlotRoleCountUpdate(heroes, team[1..], i - 1, s, r);
    }
  }

  // ---------------------------------------------------------------------------
  // Threats

  /** getThreats: the enemies the hero loses to (`counter(hero, e) < 0`), in
      slot order. */
  function Threats(counters: Table, enemy: seq<Slot>, hero: HeroId): (r: seq<HeroId>)
    ensures |r| <= |enemy|
    ensures forall x :: x in r <==> Some(x) in enemy && Counter(counters, hero, x) < 0.0
  {
    if enemy == [] then []
    else
      var rest := Threats(counters, enemy[1..], hero);
      assert forall s :: s in enemy <==> s == enemy[0] || s in enemy[1..];
      (if enemy[0].Some? && Counter(counters, hero, enemy[0].value) < 0.0 then [enemy[0].value] else []) + rest
  }

  /** The threats of two runs of slots are those of the first run followed by
      those of the second: every matching slot contributes its own entry, so
      an enemy picked twice is a threat twice. */
  lemma {:induction false} ThreatsAppend(counters: Table, a: seq<Slot>, b: seq<Slot>, hero: HeroId)
    ensures Threats(counters, a + b, hero) == Threats(counters, a, hero) + Threats(counters, b, hero)
  {
    if a == [] {
      assert a + b == b;
    } else {
      assert (a + b)[1..] == a[1..] + b;
      ThreatsAppend(counters, a[1..], b, hero);
    }
  }

  // ---------------------------------------------------------------------------
  // The role list (getUniqueRoles) and the default role limits (loadSettings)

  /** The role of each registry entry, in registry order. */
  function RolesOf(heroes: seq<Hero>): (r: seq<Role>)
    ensures |r| == |heroes| && forall i :: 0 <= i < |heroes| ==> r[i] == heroes[i].role
  {
    seq(|heroes|, i requires 0 <= i < |heroes| => heroes[i].role)
  }

  /** The values of s, each once (the `Set` of getUniqueRoles). */
  function Dedupe(s: seq<Role>): (r: seq<Role>)
    ensures NoDup(r)
    ensures forall x :: x in r <==> x in s
  {
    if s == [] then []
    else
      var init, last := s[..|s| - 1], s[|s| - 1];
      assert s == init + [last];
      var d := Dedupe(init);
      if last in d then d else d + [last]
  }

  /** The sort rank of a role: tank 0, damage 1, support 2, and -1 for any
      other role. */
  function Rank(r: Role): int {
    if r == "tank" then 0 else if r == "damage" then 1 else if r == "support" then 2 else -1
  }

  /** The roles of rank k, in their original order. */
  function WithRank(s: seq<Role>, k: int): (r: seq<Role>)
    ensures forall x :: x in r <==> x in s && Rank(x) == k
    ensures NoDup(s) ==> NoDup(r)
  {
    if s == [] then []
    else
      var rest := WithRank(s[1..], k);
      assert forall x :: x in s <==> x == s[0] || x in s[1..];
      assert NoDup(s) ==> NoDup(s[1..]) && s[0] !in s[1..];
      if Rank(s[0]) == k then [s[0]] + rest else rest
  }

  predicate RankSorted(s: seq<Role>) {
    forall i, j :: 0 <= i < j < |s| ==> Rank(s[i]) <= Rank(s[j])
  }

  lemma SortedDistinctConcat(a: seq<Role>, b: seq<Role>)
    requires RankSorted(a) && RankSorted(b) && NoDup(a) && NoDup(b)
    requires forall x, y :: x in a && y in b ==> Rank(x) < Rank(y)
    ensures RankSorted(a + b) && NoDup(a + b)
  {
    forall i, j | 0 <= i < j < |a + b|
      ensures Rank((a + b)[i]) <= Rank((a + b)[j]) && (a + b)[i] != (a + b)[j]
    {
      if j >= |a| && i < |a| {
        assert (a + b)[i] in a && (a + b)[j] in b;
      }
    }
  }

  lemma WithRankSorted(s: seq<Role>, k: int)
    ensures RankSorted(WithRank(s, k))
  {
    var w := WithRank(s, k);
    forall i | 0 <= i < |w| ensures Rank(w[i]) == k {
      assert w[i] in w;
    }
  }

  /** getUniqueRoles: the distinct roles of the registry, sorted by their
      rank with the unknown roles first. */
  function UniqueRoles(heroes: seq<Hero>): (r: seq<Role>)
    ensures NoDup(r)
    ensures RankSorted(r)
    ensures forall x :: x in r <==> exists h :: h in heroes && h.role == x
  {
    var d := Dedupe(RolesOf(heroes));
    assert forall x :: x in RolesOf(heroes) <==> exists h :: h in heroes && h.role == x by {
      forall x | x in RolesOf(heroes) ensures exists h :: h in heroes && h.role == x {
        var i :| 0 <= i < |heroes| && RolesOf(heroes)[i] == x;
        assert heroes[i] in heroes;
      }
      forall x | exists h :: h in heroes && h.role == x ensures x in RolesOf(heroes) {
        var h :| h in heroes && h.role == x;
        var i :| 0 <= i < |heroes| && heroes[i] == h;
        assert RolesOf(heroes)[i] == x;
      }
    }
    var u, t, m, s := WithRank(d, -1), WithRank(d, 0), WithRank(d, 1), WithRank(d, 2);
    WithRankSorted(d, -1); WithRankSorted(d, 0); WithRankSorted(d, 1); WithRankSorted(d, 2);
    SortedDistinctConcat(u, t);
    SortedDistinctConcat(u + t, m);
    SortedDistinctConcat(u + t + m, s);
    u + t + m + s
  }

  /** The limit loadSettings writes for a role that has none:
      tank 1, damage 2, support 2, any other role 1. */
  function DefaultLimit(r: Role): int {
    if r == "tank" then 1 else if r == "damage" then 2 else if r == "support" then 2 else 1
  }

  /** The default-filling loop of loadSettings: every role without a limit
      gets its default, every existing limit is kept, and the settings need
      saving exactly when some role was missing. */
  method FillRoleLimits(limits: map<Role, int>, roles: seq<Role>) returns (filled: map<Role, int>, needsSave: bool)
    ensures filled.Keys == limits.Keys + set r | r in roles
    ensures forall r :: r in limits ==> filled[r] == limits[r]
    ensures forall r :: r in roles && r !in limits ==> filled[r] == DefaultLimit(r)
    ensures needsSave <==> exists r :: r in roles && r !in limits
  {
    filled, needsSave := limits, false;
    for i := 0 to |roles|
      invariant filled.Keys == limits.Keys + set r | r in roles[..i]
      invariant forall r :: r in limits ==> filled[r] == limits[r]
      invariant forall r :: r in roles[..i] && r !in limits ==> filled[r] == DefaultLimit(r)
      invariant needsSave <==> exists r :: r in roles[..i] && r !in limits
    {
      assert roles[..i + 1] == roles[..i] + [roles[i]];
      if roles[i] !in filled {
        filled := filled[roles[i] := DefaultLimit(roles[i])];
        needsSave := true;
      }
    }
    assert roles[..|roles|] == roles;
  }
}
