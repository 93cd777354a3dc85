/// The mutable application state and the event handlers that change it:
/// initializeAppState, handleSlotClick (selection part), handleHeroSelection,
/// toggleBan, resetHeroes, resetAll and the default role limits of
/// loadSettings.
module App {
  import opened Resolver
  import opened Teams
  import opened Picks

  // ---------------------------------------------------------------------------
  // The ban list

  /** The first position of x in s, or -1 when x is absent (indexOf). */
  function IndexOf(s: seq<HeroId>, x: HeroId): (k: int)
    ensures -1 <= k < |s|
    ensures k == -1 <==> x !in s
    ensures k >= 0 ==> s[k] == x && forall m :: 0 <= m < k ==> s[m] != x
  {
    if s == [] then -1
    else if s[0] == x then 0
    else
      var k := IndexOf(s[1..], x);
      assert forall y :: y in s <==> y == s[0] || y in s[1..];
      if k == -1 then -1 else k + 1
  }

  /** The new ban list of toggleBan: the first occurrence spliced out when the
      hero is banned, the hero pushed otherwise. */
  function ToggledBans(bans: seq<HeroId>, h: HeroId): (r: seq<HeroId>)
    ensures h in bans ==> |r| == |bans| - 1 && multiset(r) == multiset(bans) - multiset{h}
    ensures h !in bans ==> r == bans + [h]
  {
    var k := IndexOf(bans, h);
    if k >= 0 then
      assert bans == bans[..k] + [h] + bans[k + 1..];
      bans[..k] + bans[k + 1..]
    else bans + [h]
  }

  /** The team with every slot holding h emptied (the `map` of toggleBan). */
  function ClearHero(team: seq<Slot>, h: HeroId): (t: seq<Slot>)
    ensures |t| == |team|
    ensures forall i :: 0 <= i < |team| ==> t[i] == if team[i] == Some(h) then None else team[i]
  {
    seq(|team|, i requires 0 <= i < |team| => if team[i] == Some(h) then None else team[i])
  }

  /** Banning then unbanning a hero restores the ban list (the cleared slots
      stay cleared). */
  lemma BanThenUnban(bans: seq<HeroId>, h: HeroId)
    requires h !in bans
    ensures ToggledBans(ToggledBans(bans, h), h) == bans
  {
    var once := bans + [h];
    assert IndexOf(once, h) == |bans| by {
      assert once[|bans|] == h;
      assert forall m :: 0 <= m < |bans| ==> once[m] == bans[m];
    }
    assert once[..|bans|] == bans;
  }

  /** Toggling keeps the ban list free of duplicates. */
  lemma ToggleKeepsNoDup(bans: seq<HeroId>, h: HeroId)
    requires NoDup(bans)
    ensures NoDup(ToggledBans(bans, h))
  {
    var k := IndexOf(bans, h);
    if k >= 0 {
      var r := bans[..k] + bans[k + 1..];
      forall i, j | 0 <= i < j < |r| ensures r[i] != r[j] {
        var i' := if i < k then i else i + 1;
        var j' := if j < k then j else j + 1;
        assert r[i] == bans[i'] && r[j] == bans[j'];
      }
    }
  }

  /** After a ban the banned hero is in no slot, so a team that held no
      banned hero still holds none. */
  lemma BanKeepsBansOut(team: seq<Slot>, bans: seq<HeroId>, h: HeroId)
    requires h !in bans && BansRespected(team, bans)
    ensures BansRespected(ClearHero(team, h), ToggledBans(bans, h))
  {
  }

  /** The self index moved inside a team of the given size: the smaller of
      the index and the last position. */
  function Clamp(index: nat, size: nat): (r: nat)
    requires size >= 1
    ensures r < size
    ensures r == index || (index >= size && r == size - 1)
  {
    if index < size - 1 then index else size - 1
  }

  // ---------------------------------------------------------------------------
  // The state

  /** The mutable state of the page, with the loaded reference data beside it. */
  class AppState {
    const data: GameData
    var allyTeam: array<Slot>
    var enemyTeam: array<Slot>
    var bannedHeroes: seq<HeroId>
    var currentMap: string
    var myHeroSlotIndex: nat
    var activeSelection: Option<Selection>
    var settings: Settings

    /** Both teams have the configured size, the self slot and the selection
        lie inside them, every picked hero is registered and the ban list has
        no duplicates. */
    ghost predicate Valid()
      reads this, allyTeam, enemyTeam
    {
      && allyTeam != enemyTeam
      && settings.teamSize >= 1
      && allyTeam.Length == settings.teamSize
      && enemyTeam.Length == settings.teamSize
      && myHeroSlotIndex < settings.teamSize
      && (activeSelection.Some? ==> activeSelection.value.index < settings.teamSize)
      && AllKnown(data.heroes, allyTeam[..])
      && AllKnown(data.heroes, enemyTeam[..])
      && NoDup(bannedHeroes)
    }

    /** The snapshot the scoring functions read. */
    function Snapshot(): Board
      reads this, allyTeam, enemyTeam
    {
      Board(allyTeam[..], enemyTeam[..], bannedHeroes, currentMap, myHeroSlotIndex, settings)
    }

    /** The array of one side. */
    function TeamArray(side: Side): array<Slot>
      reads this
    {
      if side == Ally then allyTeam else enemyTeam
    }

    /** The initial `state` after initializeAppState: empty teams of the
        configured size, self slot 0, no bans, no map, no selection. */
    constructor (data: GameData, settings: Settings)
      requires settings.teamSize >= 1
      ensures Valid() && fresh(allyTeam) && fresh(enemyTeam)
      ensures this.data == data && this.settings == settings
      ensures forall i :: 0 <= i < allyTeam.Length ==> allyTeam[i] == None && enemyTeam[i] == None
      ensures bannedHeroes == [] && currentMap == "none" && myHeroSlotIndex == 0 && activeSelection == None
    {
      this.data := data;
      this.settings := settings;
      allyTeam := new Slot[settings.teamSize](_ => None);
      enemyTeam := new Slot[settings.teamSize](_ => None);
      bannedHeroes := [];
      currentMap := "none";
      myHeroSlotIndex := 0;
      activeSelection := None;
    }

    /** initializeAppState after a team-size change: fresh empty teams of the
        new size and the self slot clamped into them. */
    method InitializeAppState()
      requires settings.teamSize >= 1 && NoDup(bannedHeroes)
      requires activeSelection.Some? ==> activeSelection.value.index < settings.teamSize
      modifies this
      ensures Valid() && fresh(allyTeam) && fresh(enemyTeam)
      ensures forall i :: 0 <= i < allyTeam.Length ==> allyTeam[i] == None && enemyTeam[i] == None
      ensures myHeroSlotIndex == Clamp(old(myHeroSlotIndex), settings.teamSize)
      ensures settings == old(settings) && bannedHeroes == old(bannedHeroes)
      ensures currentMap == old(currentMap) && activeSelection == old(activeSelection)
    {
      var size := settings.teamSize;
      allyTeam := new Slot[size](_ => None);
      enemyTeam := new Slot[size](_ => None);
      myHeroSlotIndex := Clamp(myHeroSlotIndex, size);
    }

    /** The state part of handleSlotClick: clicking the selected slot again
        clears the selection, any other slot becomes the selection. */
    method HandleSlotClick(clicked: Selection)
      requires Valid() && clicked.index < settings.teamSize
      modifies this
      ensures Valid()
      ensures activeSelection == if old(activeSelection) == Some(clicked) then None else Some(clicked)
      ensures allyTeam == old(allyTeam) && enemyTeam == old(enemyTeam) && settings == old(settings)
      ensures bannedHeroes == old(bannedHeroes) && currentMap == old(currentMap) && myHeroSlotIndex == old(myHeroSlotIndex)
    {
      if activeSelection == Some(clicked) {
        activeSelection := None;
      } else {
        activeSelection := Some(clicked);
      }
    }

    /** handleHeroSelection: without a selection nothing happens; otherwise
        the selected team becomes PickedTeam (eviction at the self slot, then
        the assignment), the other team is untouched and the selection is
        cleared. */
    method HandleHeroSelection(heroId: HeroId)
      requires Valid() && Known(data.heroes, heroId)
      modifies this, allyTeam, enemyTeam
      ensures Valid()
      ensures allyTeam == old(allyTeam) && enemyTeam == old(enemyTeam)
      ensures settings == old(settings) && bannedHeroes == old(bannedHeroes)
      ensures currentMap == old(currentMap) && myHeroSlotIndex == old(myHeroSlotIndex)
      ensures old(activeSelection).None? ==>
        activeSelection == None && allyTeam[..] == old(allyTeam[..]) && enemyTeam[..] == old(enemyTeam[..])
      ensures old(activeSelection).Some? ==>
        var sel := old(activeSelection).value;
        && activeSelection == None
        && TeamArray(sel.side)[..] == PickedTeam(data, old(Snapshot()), sel, heroId)
        && TeamArray(if sel.side == Ally then Enemy else Ally)[..] == old(TeamArray(if sel.side == Ally then Enemy else Ally)[..])
    {
      if activeSelection.None? {
        return;
      }
      var sel := activeSelection.value;
      ghost var b := Snapshot();
      assert CanPick(data, b, sel, heroId);
      var team := TeamArray(sel.side);
      if sel.side == Ally && sel.index == myHeroSlotIndex && !IsAllFilled(allyTeam[..], enemyTeam[..]) {
        var role := RoleOf(data.heroes, heroId).value;
        var roleCounts := CountRoles(data.heroes, team[..], sel.index);
        if Get(roleCounts, role) >= Limit(settings, role) {
          EvictRole(data.heroes, team, sel.index, role);
        }
      }
      team[sel.index] := Some(heroId);
      activeSelection := None;
      assert team[..] == PickedTeam(data, b, sel, heroId);
      PickedTeamKnown(data, b, sel, heroId);
    }

    /** toggleBan: a banned hero is unbanned and the teams are untouched; any
        other hero is banned and cleared from every slot of both teams
        (which are replaced by new arrays). */
    method ToggleBan(heroId: HeroId)
      requires Valid()
      modifies this
      ensures Valid()
      ensures bannedHeroes == ToggledBans(old(bannedHeroes), heroId)
      ensures heroId in old(bannedHeroes) ==> allyTeam == old(allyTeam) && enemyTeam == old(enemyTeam)
      ensures heroId !in old(bannedHeroes) ==>
        && fresh(allyTeam) && fresh(enemyTeam)
        && allyTeam[..] == ClearHero(old(allyTeam[..]), heroId)
        && enemyTeam[..] == ClearHero(old(enemyTeam[..]), heroId)
      ensures settings == old(settings) && currentMap == old(currentMap)
      ensures myHeroSlotIndex == old(myHeroSlotIndex) && activeSelection == old(activeSelection)
    {
      ToggleKeepsNoDup(bannedHeroes, heroId);
      var idx := IndexOf(bannedHeroes, heroId);
      if idx > -1 {
        bannedHeroes := bannedHeroes[..idx] + bannedHeroes[idx + 1..];
      } else {
        bannedHeroes := bannedHeroes + [heroId];
        allyTeam := Cleared(allyTeam, heroId);
        enemyTeam := Cleared(enemyTeam, heroId);
      }
    }

    /** resetHeroes: every slot of both teams emptied in place. */
    method ResetHeroes()
      requires Valid()
      modifies allyTeam, enemyTeam
      ensures Valid()
      ensures forall i :: 0 <= i < allyTeam.Length ==> allyTeam[i] == None
      ensures forall i :: 0 <= i < enemyTeam.Length ==> enemyTeam[i] == None
    {
      for i := 0 to allyTeam.Length
        invariant forall k :: 0 <= k < i ==> allyTeam[k] == None
        invariant enemyTeam[..] == old(enemyTeam[..])
        invariant forall k :: i <= k < allyTeam.Length ==> allyTeam[k] == old(allyTeam[k])
      {
        allyTeam[i] := None;
      }
      for i := 0 to enemyTeam.Length
        invariant forall k :: 0 <= k < allyTeam.Length ==> allyTeam[k] == None
        invariant forall k :: 0 <= k < i ==> enemyTeam[k] == None
        invariant forall k :: i <= k < enemyTeam.Length ==> enemyTeam[k] == old(enemyTeam[k])
      {
        enemyTeam[i] := None;
      }
    }

    /** resetAll, confirmed: no bans, no map, empty teams. */
    method ResetAll()
      requires Valid()
      modifies this, allyTeam, enemyTeam
      ensures Valid()
      ensures bannedHeroes == [] && currentMap == "none"
      ensures allyTeam == old(allyTeam) && enemyTeam == old(enemyTeam)
      ensures forall i :: 0 <= i < allyTeam.Length ==> allyTeam[i] == None
      ensures forall i :: 0 <= i < enemyTeam.Length ==> enemyTeam[i] == None
      ensures settings == old(settings) && myHeroSlotIndex == old(myHeroSlotIndex) && activeSelection == old(activeSelection)
    {
      bannedHeroes := [];
      currentMap := "none";
      ResetHeroes();
    }

    /** The default-limit step of loadSettings: every role of the registry
        without a limit gets its default; needsSave says whether one was
        missing. */
    method LoadDefaultRoleLimits() returns (needsSave: bool)
      requires Valid()
      modifies this
      ensures Valid()
      ensures settings.roleLimits.Keys == old(settings.roleLimits).Keys + set r | r in UniqueRoles(data.heroes)
      ensures forall r :: r in old(settings.roleLimits) ==> settings.roleLimits[r] == old(settings.roleLimits)[r]
      ensures forall r :: r in UniqueRoles(data.heroes) && r !in old(settings.roleLimits) ==> settings.roleLimits[r] == DefaultLimit(r)
      ensures needsSave <==> exists r :: r in UniqueRoles(data.heroes) && r !in old(settings.roleLimits)
      ensures settings == old(settings).(roleLimits := settings.roleLimits)
      ensures allyTeam == old(allyTeam) && enemyTeam == old(enemyTeam) && bannedHeroes == old(bannedHeroes)
      ensures currentMap == old(currentMap) && myHeroSlotIndex == old(myHeroSlotIndex) && activeSelection == old(activeSelection)
    {
      var filled;
      filled, needsSave := FillRoleLimits(settings.roleLimits, UniqueRoles(data.heroes));
      settings := settings.(roleLimits := filled);
    }
  }

  /** The eviction loop of handleHeroSelection, in place. */
  method EvictRole(heroes: seq<Hero>, team: array<Slot>, keep: nat, role: Role)
    modifies team
    ensures team[..] == ClearRole(heroes, old(team[..]), keep, role)
  {
    for i := 0 to team.Length
      invariant forall k :: 0 <= k < i ==> team[k] == ClearRole(heroes, old(team[..]), keep, role)[k]
      invariant forall k :: i <= k < team.Length ==> team[k] == old(team[k])
    {
      if i != keep && team[i].Some? && RoleOf(heroes, team[i].value) == Some(role) {
        team[i] := None;
      }
    }
  }

  /** A new array holding `src` with every occurrence of h emptied. */
  method Cleared(src: array<Slot>, h: HeroId) returns (dst: array<Slot>)
    ensures fresh(dst)
    ensures dst[..] == ClearHero(src[..], h)
  {
    dst := new Slot[src.Length];
    for i := 0 to src.Length
      invariant forall k :: 0 <= k < i ==> dst[k] == if src[k] == Some(h) then None else src[k]
    {
      dst[i] := if src[i] == Some(h) then None else src[i];
    }
  }
}
