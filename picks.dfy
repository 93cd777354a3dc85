/// Picking a hero into the active slot: the palette's card flags
/// (renderPalettes) and the new team after handleHeroSelection, with what a
/// pick preserves.
module Picks {
  import opened Resolver
  import opened Teams

  datatype Side = Ally | Enemy

  /** The active selection: the slot the next palette click fills. */
  datatype Selection = Selection(side: Side, index: nat)

  function TeamOf(b: Board, side: Side): seq<Slot> {
    if side == Ally then b.ally else b.enemy
  }

  /** A pick the source can carry out: the slot exists, every picked id and
      the new hero are registered (getHeroById(...).role would throw
      otherwise). */
  ghost predicate CanPick(data: GameData, b: Board, sel: Selection, hero: HeroId) {
    && sel.index < |TeamOf(b, sel.side)|
    && AllKnown(data.heroes, b.ally)
    && AllKnown(data.heroes, b.enemy)
    && Known(data.heroes, hero)
  }

  /** A team without duplicate heroes. */
  predicate Distinct(team: seq<Slot>) {
    forall i, j :: 0 <= i < j < |team| && team[i].Some? ==> team[i] != team[j]
  }

  /** No slot holds a banned hero. */
  predicate BansRespected(team: seq<Slot>, bans: seq<HeroId>) {
    forall i :: 0 <= i < |team| && team[i].Some? ==> team[i].value !in bans
  }

  // ---------------------------------------------------------------------------
  // The palette

  /** The CSS flags of a hero card; a card with none of them accepts clicks. */
  datatype Card = Card(banned: bool, picked: bool, roleLocked: bool)

  /** The exemption of renderPalettes: choosing for the self slot while the
      board is not full is never role-locked (the pick evicts instead). */
  predicate Evictable(b: Board, sel: Selection) {
    sel.side == Ally && sel.index == b.selfIndex && !IsAllFilled(b.ally, b.enemy)
  }

  /** The role of the hero occupying the selected slot, if any. */
  function CurrentRole(heroes: seq<Hero>, team: seq<Slot>, index: nat): Option<Role>
    requires index < |team|
  {
    if team[index].Some? then RoleOf(heroes, team[index].value) else None
  }

  /** The role tally is taken over the other slots for the ally team and over
      the whole team for the enemy team. */
  function TallyIndex(sel: Selection): int {
    if sel.side == Ally then sel.index else -1
  }

  /** The flags renderPalettes puts on the card of `hero`. A card is
      role-locked exactly when the hero's role already fills its limit on the
      counted slots (the other ally slots, or the whole enemy team), unless
      the choice is for the self slot of an incomplete board or the slot
      already holds a hero of that role. */
  function CardFor(data: GameData, b: Board, sel: Selection, hero: HeroId): (c: Card)
    requires CanPick(data, b, sel, hero)
    ensures c.banned <==> hero in b.bans
    ensures c.picked <==> !b.settings.allowTeamDuplicates && Some(hero) in TeamOf(b, sel.side) && TeamOf(b, sel.side)[sel.index] != Some(hero)
    ensures Evictable(b, sel) ==> !c.roleLocked
    ensures CurrentRole(data.heroes, TeamOf(b, sel.side), sel.index) == RoleOf(data.heroes, hero) ==> !c.roleLocked
    ensures c.roleLocked <==>
      && !Evictable(b, sel)
      && SlotRoleCount(data.heroes, Mask(TeamOf(b, sel.side), TallyIndex(sel)), RoleOf(data.heroes, hero).value)
         >= Limit(b.settings, RoleOf(data.heroes, hero).value)
      && CurrentRole(data.heroes, TeamOf(b, sel.side), sel.index) != RoleOf(data.heroes, hero)
  {
    var team := TeamOf(b, sel.side);
    var role := RoleOf(data.heroes, hero).value;
    CountRolesCounts(data.heroes, team, TallyIndex(sel), role);
    var pickedInTeam := if b.settings.allowTeamDuplicates then [] else FilledIds(team);
    var roleCounts := CountRoles(data.heroes, team, TallyIndex(sel));
    var over := Get(roleCounts, role) >= Limit(b.settings, role);
    var locked :=
      if Evictable(b, sel) then false
      else over && CurrentRole(data.heroes, team, sel.index) != Some(role);
    Card(hero in b.bans, hero in pickedInTeam && team[sel.index] != Some(hero), locked)
  }

  // ---------------------------------------------------------------------------
  // The pick

  /** The eviction loop of handleHeroSelection: every slot other than keep
      whose hero has role r is emptied. */
  function ClearRole(heroes: seq<Hero>, team: seq<Slot>, keep: nat, r: Role): (t: seq<Slot>)
    ensures |t| == |team|
    ensures forall i :: 0 <= i < |team| ==> t[i] == if i != keep && IsRole(heroes, team[i], r) == 1 then None else team[i]
  {
    seq(|team|, i requires 0 <= i < |team| => if i != keep && IsRole(heroes, team[i], r) == 1 then None else team[i])
  }

  /** The condition for eviction: a self-slot pick on an incomplete board
      whose role already fills its limit on the other ally slots. */
  predicate Evicts(data: GameData, b: Board, sel: Selection, hero: HeroId)
    requires CanPick(data, b, sel, hero)
  {
    var role := RoleOf(data.heroes, hero).value;
    Evictable(b, sel) && Get(CountRoles(data.heroes, TeamOf(b, sel.side), sel.index), role) >= Limit(b.settings, role)
  }

  /** The selected team after handleHeroSelection: the hero sits in the
      selected slot; any other slot either keeps its hero or, when the pick
      evicts, loses a hero of the new hero's role. */
  function PickedTeam(data: GameData, b: Board, sel: Selection, hero: HeroId): (t: seq<Slot>)
    requires CanPick(data, b, sel, hero)
    ensures |t| == |TeamOf(b, sel.side)|
    ensures t[sel.index] == Some(hero)
    ensures forall i :: 0 <= i < |t| && i != sel.index ==>
      t[i] == TeamOf(b, sel.side)[i]
      || (Evicts(data, b, sel, hero) && t[i] == None
          && IsRole(data.heroes, TeamOf(b, sel.side)[i], RoleOf(data.heroes, hero).value) == 1)
  {
    var team := TeamOf(b, sel.side);
    var base := if Evicts(data, b, sel, hero) then ClearRole(data.heroes, team, sel.index, RoleOf(data.heroes, hero).value) else team;
    base[sel.index := Some(hero)]
  }

  /** A pick leaves only registered heroes in the team. */
  lemma PickedTeamKnown(data: GameData, b: Board, sel: Selection, hero: HeroId)
    requires CanPick(data, b, sel, hero)
    ensures AllKnown(data.heroes, PickedTeam(data, b, sel, hero))
  {
    var t, team := PickedTeam(data, b, sel, hero), TeamOf(b, sel.side);
    forall i | 0 <= i < |t| && t[i].Some? ensures Known(data.heroes, t[i].value) {
      if i != sel.index {
        assert t[i] == team[i];
      }
    }
  }

  /** A registered hero counts for its own role. */
  lemma OwnRole(heroes: seq<Hero>, hero: HeroId)
    requires Known(heroes, hero)
    ensures IsRole(heroes, Some(hero), RoleOf(heroes, hero).value) == 1
  {
  }

  lemma {:induction false} SlotRoleCountZero(heroes: seq<Hero>, team: seq<Slot>, r: Role)
    requires forall i :: 0 <= i < |team| ==> IsRole(heroes, team[i], r) == 0
    ensures SlotRoleCount(heroes, team, r) == 0
  {
    if team != [] {
      assert forall i :: 0 <= i < |team[1..]| ==> team[1..][i] == team[i + 1];
      SlotRoleCountZero(heroes, team[1..], r);
    }
  }

  /** The count of role r after putting a hero of that role at slot i is the
      count on the other slots plus one. */
  lemma CountAfterPut(heroes: seq<Hero>, team: seq<Slot>, i: nat, hero: HeroId, r: Role)
    requires i < |team| && IsRole(heroes, Some(hero), r) == 1
    ensures SlotRoleCount(heroes, team[i := Some(hero)], r) == SlotRoleCount(heroes, team[i := None], r) + 1
  {
    SlotRoleCountUpdate(heroes, team, i, Some(hero), r);
    SlotRoleCountUpdate(heroes, team, i, None, r);
  }

  /** A self-slot pick that evicts clears every other ally of the new hero's
      role, not just one, and leaves the other roles in place. */
  lemma EvictionClearsAllOfRole(data: GameData, b: Board, sel: Selection, hero: HeroId)
    requires CanPick(data, b, sel, hero) && Evicts(data, b, sel, hero)
    ensures var t, team, r := PickedTeam(data, b, sel, hero), TeamOf(b, sel.side), RoleOf(data.heroes, hero).value;
      && (forall i :: 0 <= i < |t| && i != sel.index ==> IsRole(data.heroes, t[i], r) == 0)
      && (forall i :: 0 <= i < |t| && IsRole(data.heroes, team[i], r) == 0 && i != sel.index ==> t[i] == team[i])
  {
  }

  /** An evicting pick leaves exactly one hero of the role: the new one. */
  lemma EvictedCount(heroes: seq<Hero>, team: seq<Slot>, i: nat, hero: HeroId, r: Role)
    requires i < |team| && IsRole(heroes, Some(hero), r) == 1
    ensures SlotRoleCount(heroes, ClearRole(heroes, team, i, r)[i := Some(hero)], r) == 1
  {
    var base := ClearRole(heroes, team, i, r);
    CountAfterPut(heroes, base, i, hero, r);
    SlotRoleCountZero(heroes, base[i := None], r);
  }

  /** A pick that does not evict only happens below the limit on the other
      slots, so the new hero keeps the role within it. */
  lemma KeptCount(heroes: seq<Hero>, team: seq<Slot>, i: nat, hero: HeroId, r: Role, limit: int)
    requires i < |team| && AllKnown(heroes, team) && IsRole(heroes, Some(hero), r) == 1
    requires Get(CountRoles(heroes, team, i), r) < limit
    ensures SlotRoleCount(heroes, team[i := Some(hero)], r) <= limit
  {
    CountAfterPut(heroes, team, i, hero, r);
    CountRolesCounts(heroes, team, i, r);
    assert Mask(team, i) == team[i := None];
  }

  /** After a self-slot pick on an incomplete board the new hero's role is
      within its limit (whenever the limit admits one hero at all). */
  lemma SelfPickWithinLimit(data: GameData, b: Board, sel: Selection, hero: HeroId)
    requires CanPick(data, b, sel, hero) && Evictable(b, sel)
    requires Limit(b.settings, RoleOf(data.heroes, hero).value) >= 1
    ensures var r := RoleOf(data.heroes, hero).value;
      SlotRoleCount(data.heroes, PickedTeam(data, b, sel, hero), r) <= Limit(b.settings, r)
  {
    var team, r := TeamOf(b, sel.side), RoleOf(data.heroes, hero).value;
    OwnRole(data.heroes, hero);
    if Evicts(data, b, sel, hero) {
      EvictedCount(data.heroes, team, sel.index, hero, r);
    } else {
      KeptCount(data.heroes, team, sel.index, hero, r, Limit(b.settings, r));
    }
  }

  /** A pick the palette accepts elsewhere (not the evicting self slot) never
      pushes the new hero's role past its limit unless it already was, and
      never raises the count of any other role. */
  lemma AcceptedPickKeepsLimits(data: GameData, b: Board, sel: Selection, hero: HeroId)
    requires CanPick(data, b, sel, hero) && !Evictable(b, sel)
    requires !CardFor(data, b, sel, hero).roleLocked
    ensures var t, team, r := PickedTeam(data, b, sel, hero), TeamOf(b, sel.side), RoleOf(data.heroes, hero).value;
      && (SlotRoleCount(data.heroes, t, r) <= Limit(b.settings, r) || SlotRoleCount(data.heroes, t, r) <= SlotRoleCount(data.heroes, team, r))
      && (forall r' :: r' != r ==> SlotRoleCount(data.heroes, t, r') <= SlotRoleCount(data.heroes, team, r'))
  {
    var team, r, i := TeamOf(b, sel.side), RoleOf(data.heroes, hero).value, sel.index;
    var t := PickedTeam(data, b, sel, hero);
    assert t == team[i := Some(hero)];
    OwnRole(data.heroes, hero);
    SlotRoleCountUpdate(data.heroes, team, i, Some(hero), r);
    CountRolesCounts(data.heroes, team, TallyIndex(sel), r);
    if sel.side == Ally {
      assert Mask(team, i) == team[i := None];
      SlotRoleCountUpdate(data.heroes, team, i, None, r);
    } else {
      assert Mask(team, -1) == team;
    }
    forall r' | r' != r ensures SlotRoleCount(data.heroes, t, r') <= SlotRoleCount(data.heroes, team, r') {
      SlotRoleCountUpdate(data.heroes, team, i, Some(hero), r');
    }
  }

  /** Without team duplicates, a pick the palette does not mark as picked
      keeps the team free of duplicates. */
  lemma AcceptedPickKeepsDistinct(data: GameData, b: Board, sel: Selection, hero: HeroId)
    requires CanPick(data, b, sel, hero) && !b.settings.allowTeamDuplicates
    requires !CardFor(data, b, sel, hero).picked
    requires Distinct(TeamOf(b, sel.side))
    ensures Distinct(PickedTeam(data, b, sel, hero))
  {
    var team, t, x := TeamOf(b, sel.side), PickedTeam(data, b, sel, hero), sel.index;
    assert Some(hero) in team ==> team[x] == Some(hero);
    forall i, j | 0 <= i < j < |t| && t[i].Some? ensures t[i] != t[j] {
      if i == x {
        assert t[j].Some? ==> t[j] == team[j];
      } else if j == x {
        assert t[i] == team[i];
      } else if t[j].Some? {
        assert t[i] == team[i] && t[j] == team[j];
      }
    }
  }

  /** A pick of a hero the palette does not mark as banned keeps banned heroes
      out of the team. */
  lemma AcceptedPickKeepsBansOut(data: GameData, b: Board, sel: Selection, hero: HeroId)
    requires CanPick(data, b, sel, hero)
    requires !CardFor(data, b, sel, hero).banned
    requires BansRespected(TeamOf(b, sel.side), b.bans)
    ensures BansRespected(PickedTeam(data, b, sel, hero), b.bans)
  {
    var team, t := TeamOf(b, sel.side), PickedTeam(data, b, sel, hero);
    forall i | 0 <= i < |t| && t[i].Some? ensures t[i].value !in b.bans {
      if i != sel.index {
        assert t[i] == team[i];
      }
    }
  }
}
