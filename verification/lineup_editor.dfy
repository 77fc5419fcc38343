/**
 * The line-up editor of the NHL club: the forward, defence and goalie
 * slot lists, the players eligible for each, adding or removing a player
 * with one click, clearing a list, and how the slots are labelled.
 *
 * The editor works on one position group at a time, named by the same
 * strings the editor passes around: "FORWARD", "DEFENSE" and "GOALIE".
 */
module LineupEditor {
  import opened Wrappers
  import opened Seqs
  import opened Text
  import opened Players
  import opened Teams
  import opened Franchise

  const ForwardGroup: string := "FORWARD"
  const DefenseGroup: string := "DEFENSE"
  const GoalieGroup: string := "GOALIE"

  predicate KnownGroup(positionType: string)
  {
    positionType == ForwardGroup || positionType == DefenseGroup || positionType == GoalieGroup
  }

  /** How many players a group's list may hold: four lines of three forwards, three pairs, two goalies. */
  function MaxSlots(positionType: string): (n: nat)
    ensures n > 0 <==> KnownGroup(positionType)
  {
    if positionType == ForwardGroup then 12
    else if positionType == DefenseGroup then 6
    else if positionType == GoalieGroup then 2
    else 0
  }

  /** Whether a player's position belongs to the group. */
  predicate EligibleFor(positionType: string, p: Player)
  {
    if positionType == ForwardGroup then p.position in {Some(Center), Some(LeftWing), Some(RightWing)}
    else if positionType == DefenseGroup then p.position in {Some(LeftDefense), Some(RightDefense)}
    else if positionType == GoalieGroup then p.position == Some(Goalie)
    else false
  }

  function Eligibility(positionType: string): Player -> bool
  {
    (p: Player) => EligibleFor(positionType, p)
  }

  /** The roster players the editor lists for a group, in roster order. */
  function EligiblePlayers(roster: Option<seq<Player>>, positionType: string): seq<Player>
  {
    Filter(roster.GetOr([]), Eligibility(positionType))
  }

  /**
   * The list is exactly the group's players: every roster player with a
   * position of the group is listed, only such players are, and a group
   * name the editor does not know lists no one.
   */
  lemma EligiblePlayersAre(roster: Option<seq<Player>>, positionType: string)
    ensures forall i :: 0 <= i < |EligiblePlayers(roster, positionType)| ==>
      EligibleFor(positionType, EligiblePlayers(roster, positionType)[i])
    ensures roster.Some? ==> forall i :: 0 <= i < |roster.value| && EligibleFor(positionType, roster.value[i]) ==>
      roster.value[i] in EligiblePlayers(roster, positionType)
    ensures roster.None? || !KnownGroup(positionType) ==> EligiblePlayers(roster, positionType) == []
  {
    forall i | 0 <= i < |EligiblePlayers(roster, positionType)|
      ensures EligibleFor(positionType, EligiblePlayers(roster, positionType)[i])
    {
      assert Eligibility(positionType)(EligiblePlayers(roster, positionType)[i]);
    }
    if !KnownGroup(positionType) {
      var s := roster.GetOr([]);
      FilterComplement(s, Eligibility(positionType), (p: Player) => true);
      FilterKeepsAll(s, (p: Player) => true);
    }
  }

  // ------------------------------------------------------------- the lists

  /** A line-up with every missing list replaced by an empty one. */
  function FilledLineup(lineup: Option<Lineup>): (r: Lineup)
    ensures r.forwards.Some? && r.defensemen.Some? && r.goalies.Some?
    ensures lineup.Some? && lineup.value.forwards.Some? ==> r.forwards == lineup.value.forwards
    ensures lineup.Some? && lineup.value.defensemen.Some? ==> r.defensemen == lineup.value.defensemen
    ensures lineup.Some? && lineup.value.goalies.Some? ==> r.goalies == lineup.value.goalies
    ensures lineup.None? ==> r == Lineup(Some([]), Some([]), Some([]))
  {
    var l := lineup.GetOr(Lineup(None, None, None));
    Lineup(Some(l.forwards.GetOr([])), Some(l.defensemen.GetOr([])), Some(l.goalies.GetOr([])))
  }

  predicate IsFilled(l: Lineup)
  {
    l.forwards.Some? && l.defensemen.Some? && l.goalies.Some?
  }

  /** The slot list of a group. */
  function GroupList(l: Lineup, positionType: string): seq<Player>
    requires IsFilled(l) && KnownGroup(positionType)
  {
    if positionType == ForwardGroup then l.forwards.value
    else if positionType == DefenseGroup then l.defensemen.value
    else l.goalies.value
  }

  /** The line-up with a group's slot list replaced. */
  function WithGroupList(l: Lineup, positionType: string, list: seq<Player>): (r: Lineup)
    requires IsFilled(l) && KnownGroup(positionType)
    ensures IsFilled(r) && GroupList(r, positionType) == list
    ensures forall other :: KnownGroup(other) && other != positionType ==> GroupList(r, other) == GroupList(l, other)
  {
    if positionType == ForwardGroup then l.(forwards := Some(list))
    else if positionType == DefenseGroup then l.(defensemen := Some(list))
    else l.(goalies := Some(list))
  }

  /** One click on a listed player: off the list when on it, onto the end when there is a free slot. */
  function Toggled(list: seq<Player>, p: Player, maxSlots: nat): seq<Player>
  {
    if p in list then RemoveFirst(list, p)
    else if |list| < maxSlots then list + [p]
    else list
  }

  /** A list within its slots stays within them, whatever is clicked. */
  lemma ToggleKeepsBound(list: seq<Player>, p: Player, maxSlots: nat)
    requires |list| <= maxSlots
    ensures |Toggled(list, p, maxSlots)| <= maxSlots
  {
  }

  predicate Distinct(list: seq<Player>)
  {
    forall i, j :: 0 <= i < j < |list| ==> list[i] != list[j]
  }

  /**
   * On a list without repeats a click flips membership, unless the list
   * is full: the player ends up on the list exactly when the player was
   * not on it and there was a free slot. Every other player keeps their
   * place on or off the list, and the list stays without repeats.
   */
  lemma ToggleFlips(list: seq<Player>, p: Player, maxSlots: nat)
    requires Distinct(list)
    ensures p in Toggled(list, p, maxSlots) <==> p !in list && |list| < maxSlots
    ensures forall q :: q != p ==> (q in Toggled(list, p, maxSlots) <==> q in list)
    ensures Distinct(Toggled(list, p, maxSlots))
  {
    if p in list {
      RemovingFromDistinct(list, p);
    } else if |list| < maxSlots {
      assert Toggled(list, p, maxSlots) == list + [p];
    }
  }

  /** Removing a player from a list without repeats takes the player off it for good, and only that player. */
  lemma RemovingFromDistinct(list: seq<Player>, p: Player)
    requires Distinct(list) && p in list
    ensures p !in RemoveFirst(list, p)
    ensures forall q :: q != p ==> (q in RemoveFirst(list, p) <==> q in list)
    ensures Distinct(RemoveFirst(list, p))
  {
    var k := IndexOf(list, p);
    var r := RemoveFirst(list, p);
    assert r == list[..k] + list[k + 1..];
    assert forall m :: 0 <= m < |r| ==> r[m] == list[if m < k then m else m + 1];
    forall m | 0 <= m < |r|
      ensures r[m] != p
    {
      var m' := if m < k then m else m + 1;
      assert r[m] == list[m'] && m' != k;
    }
    forall q | q != p && q in list
      ensures q in r
    {
      var j :| 0 <= j < |list| && list[j] == q;
      assert j != k;
      assert r[if j < k then j else j - 1] == q;
    }
    forall i, j | 0 <= i < j < |r|
      ensures r[i] != r[j]
    {
      var i', j' := if i < k then i else i + 1, if j < k then j else j + 1;
      assert r[i] == list[i'] && r[j] == list[j'] && i' < j';
    }
  }

  /** Adding a player and clicking the player again gives back the list as it was. */
  lemma ToggleUndoes(list: seq<Player>, p: Player, maxSlots: nat)
    requires p !in list && |list| < maxSlots
    ensures Toggled(Toggled(list, p, maxSlots), p, maxSlots) == list
  {
    var added := list + [p];
    assert IndexOf(added, p) == |list| by {
      assert added[|list|] == p;
      assert forall j :: 0 <= j < |list| ==> added[j] != p;
    }
    assert added[..|list|] == list;
  }

  /** Clicks on eligible players keep a list of eligible players. */
  lemma ToggleKeepsEligible(list: seq<Player>, p: Player, maxSlots: nat, positionType: string)
    requires forall i :: 0 <= i < |list| ==> EligibleFor(positionType, list[i])
    requires EligibleFor(positionType, p)
    ensures forall i :: 0 <= i < |Toggled(list, p, maxSlots)| ==> EligibleFor(positionType, Toggled(list, p, maxSlots)[i])
  {
    var r := Toggled(list, p, maxSlots);
    forall i | 0 <= i < |r|
      ensures EligibleFor(positionType, r[i])
    {
      if p in list {
        assert r[i] in multiset(r);
        assert r[i] in multiset(list);
      } else if |list| < maxSlots {
        assert r == list + [p];
      }
    }
  }

  // ----------------------------------------------------------- the editor

  /** The NHL club's line-up as the editor uses it: present, with all three lists present. */
  predicate LineupReady(teams: seq<Team>, club: Option<nat>)
  {
    club.Some? && club.value < |teams| && teams[club.value].lineup.Some? && IsFilled(teams[club.value].lineup.value)
  }

  function ReadyLineup(teams: seq<Team>, club: Option<nat>): Lineup
    requires LineupReady(teams, club)
  {
    teams[club.value].lineup.value
  }

  /**
   * Opening the line-up view: a club without a line-up gets an empty one,
   * and each missing slot list becomes an empty list; present lists keep
   * their players.
   */
  method OpenLineup(tracker: FranchiseTracker)
    requires tracker.nhlClub.Some? && tracker.nhlClub.value < |tracker.teams|
    modifies tracker`teams
    ensures LineupReady(tracker.teams, tracker.nhlClub)
    ensures var club := tracker.nhlClub.value;
      tracker.teams == old(tracker.teams)[club := old(tracker.teams)[club].(lineup := Some(FilledLineup(old(tracker.teams)[club].lineup)))]
  {
    var club := tracker.nhlClub.value;
    var team := tracker.teams[club];
    tracker.teams := tracker.teams[club := team.(lineup := Some(FilledLineup(team.lineup)))];
  }

  /**
   * A click on player `p` of the group's eligible list: removes `p` from
   * the group's slot list when present, appends `p` when there is a free
   * slot, and otherwise changes nothing. The other groups' lists and
   * everything outside the line-up stay as they were.
   */
  method TogglePlayer(tracker: FranchiseTracker, positionType: string, p: Player)
    requires LineupReady(tracker.teams, tracker.nhlClub) && KnownGroup(positionType)
    requires p in EligiblePlayers(tracker.teams[tracker.nhlClub.value].roster, positionType)
    modifies tracker`teams
    ensures LineupReady(tracker.teams, tracker.nhlClub)
    ensures var club := tracker.nhlClub.value;
      var l := ReadyLineup(old(tracker.teams), tracker.nhlClub);
      tracker.teams == old(tracker.teams)[club := old(tracker.teams)[club].(lineup :=
        Some(WithGroupList(l, positionType, Toggled(GroupList(l, positionType), p, MaxSlots(positionType)))))]
  {
    var club := tracker.nhlClub.value;
    var l := tracker.teams[club].lineup.value;
    var list := GroupList(l, positionType);
    var updated := list;
    if p in list {
      updated := RemoveFirst(list, p);
    } else if |list| < MaxSlots(positionType) {
      updated := list + [p];
    }
    tracker.teams := tracker.teams[club := tracker.teams[club].(lineup := Some(WithGroupList(l, positionType, updated)))];
  }

  /** "Clear All": empties the group's slot list. */
  method ClearGroup(tracker: FranchiseTracker, positionType: string)
    requires LineupReady(tracker.teams, tracker.nhlClub) && KnownGroup(positionType)
    modifies tracker`teams
    ensures LineupReady(tracker.teams, tracker.nhlClub)
    ensures GroupList(ReadyLineup(tracker.teams, tracker.nhlClub), positionType) == []
    ensures var club := tracker.nhlClub.value;
      tracker.teams == old(tracker.teams)[club := old(tracker.teams)[club].(lineup :=
        Some(WithGroupList(ReadyLineup(old(tracker.teams), tracker.nhlClub), positionType, [])))]
  {
    var club := tracker.nhlClub.value;
    var l := tracker.teams[club].lineup.value;
    tracker.teams := tracker.teams[club := tracker.teams[club].(lineup := Some(WithGroupList(l, positionType, [])))];
  }

  // ---------------------------------------------------------- slot labels

  /** A slot's place: the line (or pair) number and the position within it. */
  datatype Slot = Slot(unit: nat, side: string)

  /** Forward slot `i`: line `i/3 + 1`, left wing, centre, right wing in turn. */
  function ForwardSlot(i: nat): Slot
  {
    Slot(i / 3 + 1, if i % 3 == 0 then "LW" else if i % 3 == 1 then "C" else "RW")
  }

  /** Defence slot `i`: pair `i/2 + 1`, left then right. */
  function DefenseSlot(i: nat): Slot
  {
    Slot(i / 2 + 1, if i % 2 == 0 then "LD" else "RD")
  }

  /**
   * The twelve forward slots are four lines, and no two slots share a
   * line and a position: each line has one left wing, one centre and one
   * right wing.
   */
  lemma ForwardSlotsAreLines(i: nat, j: nat)
    ensures i < 12 ==> 1 <= ForwardSlot(i).unit <= 4
    ensures ForwardSlot(i) == ForwardSlot(j) ==> i == j
  {
    if ForwardSlot(i) == ForwardSlot(j) {
      assert i % 3 == j % 3 by {
        assert "LW" != "C" && "LW" != "RW" && "C" != "RW";
      }
      assert i == 3 * (i / 3) + i % 3 && j == 3 * (j / 3) + j % 3;
    }
  }

  /** The six defence slots are three pairs, each with one left and one right defenceman. */
  lemma DefenseSlotsArePairs(i: nat, j: nat)
    ensures i < 6 ==> 1 <= DefenseSlot(i).unit <= 3
    ensures DefenseSlot(i) == DefenseSlot(j) ==> i == j
  {
    if DefenseSlot(i) == DefenseSlot(j) {
      assert i % 2 == j % 2 by {
        assert "LD" != "RD";
      }
      assert i == 2 * (i / 2) + i % 2 && j == 2 * (j / 2) + j % 2;
    }
  }

  /** The label in front of a forward slot, such as "Line 2 C: ". */
  function ForwardSlotLabel(i: nat): string
  {
    "Line " + IntToString(ForwardSlot(i).unit) + " " + ForwardSlot(i).side + ": "
  }

  /** The label in front of a defence slot, such as "Pair 1 RD: ". */
  function DefenseSlotLabel(i: nat): string
  {
    "Pair " + IntToString(DefenseSlot(i).unit) + " " + DefenseSlot(i).side + ": "
  }

  /**
   * Slots shown for a group. Forwards and defence show at least the
   * group's size, and more when the list holds more, so every listed player
   * is shown. Goalies show the starter and backup slots only, however long
   * the list is.
   */
  function ShownSlots(listSize: nat, positionType: string): (n: nat)
    ensures positionType == GoalieGroup ==> n == MaxSlots(GoalieGroup)
    ensures positionType != GoalieGroup ==> n >= listSize && n >= MaxSlots(positionType)
    ensures positionType != GoalieGroup ==> n == listSize || n == MaxSlots(positionType)
  {
    if positionType == GoalieGroup then MaxSlots(GoalieGroup)
    else if listSize > MaxSlots(positionType) then listSize
    else MaxSlots(positionType)
  }

  /** The three sections: twelve forward rows or more, six defence rows or more, exactly two goalie rows. */
  lemma ShownSlotsByGroup(listSize: nat)
    ensures ShownSlots(listSize, ForwardGroup) == if listSize > 12 then listSize else 12
    ensures ShownSlots(listSize, DefenseGroup) == if listSize > 6 then listSize else 6
    ensures ShownSlots(listSize, GoalieGroup) == 2
    ensures listSize > 2 ==> ShownSlots(listSize, GoalieGroup) < listSize
  {
  }
}
