/**
 * The franchise: the NHL club and its AHL affiliate, the future draft-pick
 * ledger, the history lists, and the season engine that archives a season
 * and turns the franchise over to the next one.
 */
module Franchise {
  import opened Wrappers
  import opened Seqs
  import opened Sorting
  import opened Contracts
  import opened Players
  import opened DraftPicks
  import opened DraftedPlayers
  import opened Trades
  import opened Teams
  import opened SeasonSnapshots

  /** The owner written on generated picks when no NHL club is selected. */
  const NoClubOwner: string := "Own"
  /** The default salary cap and floor, in millions. */
  const DefaultCapCeiling: real := 88.0
  const DefaultCapFloor: real := 65.0
  /** Rounds in an entry draft. */
  const Rounds: nat := 7
  /** Seasons the ledger starts out with: the current one and the five after it. */
  const LedgerSeasons: nat := 6

  // ------------------------------------------------------------- rosters

  /** The roster of the selected club, if a club is selected and has a roster. */
  function RosterAt(teams: seq<Team>, club: Option<nat>): Option<seq<Player>>
  {
    if club.Some? && club.value < |teams| then teams[club.value].roster else None
  }

  /** The clubs with the selected club's roster replaced; nothing else about any club changes. */
  function WithRoster(teams: seq<Team>, club: Option<nat>, roster: seq<Player>): (r: seq<Team>)
    requires RosterAt(teams, club).Some?
    ensures |r| == |teams| && RosterAt(r, club) == Some(roster)
    ensures forall i :: 0 <= i < |teams| ==> r[i] == teams[i].(roster := r[i].roster)
    ensures forall i :: 0 <= i < |teams| && i != club.value ==> r[i] == teams[i]
  {
    teams[club.value := teams[club.value].(roster := Some(roster))]
  }

  /** `addPlayerTo…`: appends to the selected club's roster; no club or no roster means no change. */
  function AppendToRoster(teams: seq<Team>, club: Option<nat>, p: Player): seq<Team>
  {
    if RosterAt(teams, club).Some? then WithRoster(teams, club, RosterAt(teams, club).value + [p]) else teams
  }

  /** `removePlayerFrom…`: drops the first equal player from the selected club's roster. */
  function RemoveFromRoster(teams: seq<Team>, club: Option<nat>, p: Player): seq<Team>
  {
    if RosterAt(teams, club).Some? then WithRoster(teams, club, RemoveFirst(RosterAt(teams, club).value, p)) else teams
  }

  /** Every player of a roster changed by `f`, in roster order. */
  function Mapped(players: seq<Player>, f: Player -> Player): (r: seq<Player>)
    ensures |r| == |players| && forall i :: 0 <= i < |players| ==> r[i] == f(players[i])
  {
    seq(|players|, i requires 0 <= i < |players| => f(players[i]))
  }

  /** Changes every player on the selected club's roster by `f`. */
  function MapRoster(teams: seq<Team>, club: Option<nat>, f: Player -> Player): seq<Team>
  {
    if RosterAt(teams, club).Some? then WithRoster(teams, club, Mapped(RosterAt(teams, club).value, f)) else teams
  }

  /** `decrementContractYears` on one player: a contract with seasons left loses one; otherwise nothing changes. */
  function WithTermServed(p: Player): Player
  {
    if p.contract.Some? && p.contract.value.termInYears > 0
    then p.(contract := Some(p.contract.value.(termInYears := p.contract.value.termInYears - 1)))
    else p
  }

  /** `agePlayersOneYear` on one player. */
  function OneYearOlder(p: Player): Player
  {
    p.(age := p.age + 1)
  }

  /** Both season-end changes to one player, in the order the season engine applies them. */
  function AfterSeason(p: Player): Player
  {
    OneYearOlder(WithTermServed(p))
  }

  /**
   * What turning the season does to a player: one year older, one season
   * less on a contract that has seasons left, and nothing else, so a term
   * never goes below zero and the cap hit stays the same.
   */
  lemma AfterSeasonChanges(p: Player)
    ensures AfterSeason(p).age == p.age + 1
    ensures AfterSeason(p).contract.Some? <==> p.contract.Some?
    ensures p.contract.Some? && p.contract.value.termInYears > 0 ==>
      AfterSeason(p).contract == Some(p.contract.value.(termInYears := p.contract.value.termInYears - 1))
      && AfterSeason(p).contract.value.ExpirationYear() == p.contract.value.ExpirationYear() - 1
    ensures (p.contract.None? || p.contract.value.termInYears <= 0) ==> AfterSeason(p).contract == p.contract
    ensures p.ContractYearsRemaining() >= 0 ==> AfterSeason(p).ContractYearsRemaining() >= 0
    ensures AfterSeason(p).CapHit() == p.CapHit()
    ensures AfterSeason(p) == p.(age := p.age + 1, contract := AfterSeason(p).contract)
  {
  }

  /**
   * The clubs after the season engine's two roster passes: every selected
   * player has a season of contract served (NHL roster, then AHL), then
   * every selected player ages a year (NHL roster, then AHL).
   */
  function SeasonTurnover(teams: seq<Team>, nhl: Option<nat>, ahl: Option<nat>): seq<Team>
  {
    var served := MapRoster(MapRoster(teams, nhl, WithTermServed), ahl, WithTermServed);
    MapRoster(MapRoster(served, nhl, OneYearOlder), ahl, OneYearOlder)
  }

  lemma MappedTwice(players: seq<Player>)
    ensures Mapped(Mapped(players, WithTermServed), OneYearOlder) == Mapped(players, AfterSeason)
  {
  }

  lemma MapRosterElsewhere(teams: seq<Team>, club: Option<nat>, f: Player -> Player, other: Option<nat>)
    requires other != club
    ensures RosterAt(MapRoster(teams, club, f), other) == RosterAt(teams, other)
    ensures |MapRoster(teams, club, f)| == |teams|
  {
  }

  /**
   * With two distinct clubs selected, the turnover replaces each player
   * of either roster by `AfterSeason` of that player, in place, and leaves
   * every other club and every club's name and affiliation alone.
   */
  lemma SeasonTurnoverRosters(teams: seq<Team>, nhl: Option<nat>, ahl: Option<nat>)
    requires nhl != ahl
    ensures |SeasonTurnover(teams, nhl, ahl)| == |teams|
    ensures RosterAt(teams, nhl).Some? ==>
      RosterAt(SeasonTurnover(teams, nhl, ahl), nhl) == Some(Mapped(RosterAt(teams, nhl).value, AfterSeason))
    ensures RosterAt(teams, ahl).Some? ==>
      RosterAt(SeasonTurnover(teams, nhl, ahl), ahl) == Some(Mapped(RosterAt(teams, ahl).value, AfterSeason))
    ensures RosterAt(teams, nhl).None? ==> RosterAt(SeasonTurnover(teams, nhl, ahl), nhl).None?
    ensures RosterAt(teams, ahl).None? ==> RosterAt(SeasonTurnover(teams, nhl, ahl), ahl).None?
    ensures forall i :: 0 <= i < |teams| ==>
      SeasonTurnover(teams, nhl, ahl)[i] == teams[i].(roster := SeasonTurnover(teams, nhl, ahl)[i].roster)
    ensures forall i :: 0 <= i < |teams| && Some(i) != nhl && Some(i) != ahl ==>
      SeasonTurnover(teams, nhl, ahl)[i] == teams[i]
  {
    var t1 := MapRoster(teams, nhl, WithTermServed);
    var t2 := MapRoster(t1, ahl, WithTermServed);
    var t3 := MapRoster(t2, nhl, OneYearOlder);
    MapRosterElsewhere(teams, nhl, WithTermServed, ahl);
    MapRosterElsewhere(t1, ahl, WithTermServed, nhl);
    MapRosterElsewhere(t2, nhl, OneYearOlder, ahl);
    MapRosterElsewhere(t3, ahl, OneYearOlder, nhl);
    if RosterAt(teams, nhl).Some? {
      MappedTwice(RosterAt(teams, nhl).value);
    }
    if RosterAt(teams, ahl).Some? {
      MappedTwice(RosterAt(teams, ahl).value);
    }
  }

  /** Changing a roster keeps the number of clubs and every club's name. */
  lemma MapRosterKeepsClubs(teams: seq<Team>, club: Option<nat>, f: Player -> Player)
    ensures |MapRoster(teams, club, f)| == |teams|
    ensures forall i :: 0 <= i < |teams| ==> MapRoster(teams, club, f)[i].name == teams[i].name
  {
  }

  /** Updates every player of a roster in turn, as the season engine's loops do. */
  method UpdateEach(players: seq<Player>, f: Player -> Player) returns (r: seq<Player>)
    ensures r == Mapped(players, f)
  {
    r := players;
    var i := 0;
    while i < |r|
      invariant 0 <= i <= |r| == |players|
      invariant forall k :: 0 <= k < i ==> r[k] == f(players[k])
      invariant forall k :: i <= k < |r| ==> r[k] == players[k]
    {
      r := r[i := f(r[i])];
      i := i + 1;
    }
  }

  // -------------------------------------------------------------- ledger

  /** A pick generated for the franchise: year and round, owned by and originally belonging to `owner`. */
  function OwnedPick(year: int, round: int, owner: string): (p: DraftPick)
    ensures p.year == year && p.round == round && p.currentOwner == Some(owner) && p.originalTeam == Some(owner)
    ensures !p.wasTraded && p.tradedFrom == None && p.pickOverall == 0
  {
    NewPick(year, round).(currentOwner := Some(owner), originalTeam := Some(owner))
  }

  /** `addFutureDraftPicks(year)`: one owned pick per round, rounds 1 to 7 in order. */
  function SeasonPicks(year: int, owner: string): (r: seq<DraftPick>)
    ensures |r| == Rounds && forall k :: 0 <= k < Rounds ==> r[k] == OwnedPick(year, k + 1, owner)
  {
    seq(Rounds, k requires 0 <= k < Rounds => OwnedPick(year, k + 1, owner))
  }

  /** The owned picks for `seasons` consecutive years from `start`, year by year. */
  function Ledger(start: int, seasons: nat, owner: string): (r: seq<DraftPick>)
    ensures |r| == Rounds * seasons
  {
    if seasons == 0 then [] else Ledger(start, seasons - 1, owner) + SeasonPicks(start + seasons - 1, owner)
  }

  /** Entry `i` of a ledger is the pick of year `start + i / 7`, round `i % 7 + 1`. */
  lemma {:induction false} LedgerAt(start: int, seasons: nat, owner: string, i: nat)
    requires i < Rounds * seasons
    ensures Ledger(start, seasons, owner)[i] == OwnedPick(start + i / Rounds, i % Rounds + 1, owner)
  {
    var prev := Rounds * (seasons - 1);
    if i < prev {
      LedgerAt(start, seasons - 1, owner, i);
    } else {
      assert i / Rounds == seasons - 1 && i % Rounds == i - prev;
    }
  }

  /**
   * The ledger a franchise starts with: 42 picks covering every round of
   * the current season and the five after it, in year-then-round order,
   * all owned by and originally belonging to `owner`.
   */
  lemma InitialLedgerShape(start: int, owner: string)
    ensures |Ledger(start, LedgerSeasons, owner)| == 42
    ensures forall y, k :: start <= y < start + 6 && 1 <= k <= 7 ==>
      Ledger(start, LedgerSeasons, owner)[(y - start) * 7 + k - 1] == OwnedPick(y, k, owner)
    ensures forall i :: 0 <= i < 42 ==>
      var p := Ledger(start, LedgerSeasons, owner)[i];
      start <= p.year < start + 6 && 1 <= p.round <= 7 && p.currentOwner == p.originalTeam == Some(owner)
    ensures forall i, j :: 0 <= i < j < 42 ==>
      var l := Ledger(start, LedgerSeasons, owner);
      l[i].year < l[j].year || (l[i].year == l[j].year && l[i].round < l[j].round)
  {
    var l := Ledger(start, LedgerSeasons, owner);
    forall y, k | start <= y < start + 6 && 1 <= k <= 7
      ensures l[(y - start) * 7 + k - 1] == OwnedPick(y, k, owner)
    {
      var i := (y - start) * 7 + k - 1;
      LedgerAt(start, LedgerSeasons, owner, i);
      assert i / 7 == y - start && i % 7 == k - 1;
    }
    forall i | 0 <= i < 42
      ensures start <= l[i].year < start + 6 && 1 <= l[i].round <= 7
      ensures l[i].currentOwner == l[i].originalTeam == Some(owner)
    {
      LedgerAt(start, LedgerSeasons, owner, i);
    }
    forall i, j | 0 <= i < j < 42
      ensures l[i].year < l[j].year || (l[i].year == l[j].year && l[i].round < l[j].round)
    {
      LedgerAt(start, LedgerSeasons, owner, i);
      LedgerAt(start, LedgerSeasons, owner, j);
      assert i / 7 <= j / 7;
      assert i / 7 == j / 7 ==> i % 7 < j % 7;
    }
  }

  /**
   * The rolling window: once the oldest season's seven picks are gone,
   * appending the next season's picks gives the same ledger as starting
   * a season later.
   */
  lemma {:induction false} LedgerRolls(start: int, seasons: nat, owner: string)
    ensures Ledger(start, seasons + 1, owner)[Rounds..] + SeasonPicks(start + seasons + 1, owner)
         == Ledger(start + 1, seasons + 1, owner)
  {
    if seasons == 0 {
      assert Ledger(start, 1, owner) == [] + SeasonPicks(start, owner);
      assert Ledger(start + 1, 1, owner) == [] + SeasonPicks(start + 1, owner);
    } else {
      LedgerRolls(start, seasons - 1, owner);
      var l := Ledger(start, seasons, owner);
      assert Ledger(start, seasons + 1, owner)[Rounds..] == l[Rounds..] + SeasonPicks(start + seasons, owner);
    }
  }

  /** Picks of a given year. */
  function InYear(year: int): DraftPick -> bool
  {
    (p: DraftPick) => p.year == year
  }

  /** Picks not used up by a selection in `round` of `season`. */
  function NotUsedBy(season: int, round: int): DraftPick -> bool
  {
    (p: DraftPick) => !(p.year == season && p.round == round)
  }

  /** A reordering of picks all of one year holds only picks of that year. */
  lemma SortedKeepsYear(picks: seq<DraftPick>, sorted: seq<DraftPick>, year: int)
    requires multiset(sorted) == multiset(picks)
    requires forall i :: 0 <= i < |picks| ==> picks[i].year == year
    ensures forall i :: 0 <= i < |sorted| ==> sorted[i].year == year
  {
    forall i | 0 <= i < |sorted|
      ensures sorted[i].year == year
    {
      assert sorted[i] in multiset(picks);
    }
  }

  /** Picks used up by a selection in `round` of `season`. */
  function UsedBy(season: int, round: int): DraftPick -> bool
  {
    (p: DraftPick) => p.year == season && p.round == round
  }

  predicate RoundOrder(a: DraftPick, b: DraftPick)
  {
    a.round <= b.round
  }

  lemma RoundOrderIsTotal()
    ensures TotalPreorder(RoundOrder)
  {
  }

  /**
   * Using a pick removes every ledger entry for that season and round and
   * keeps every other entry in order; when none matches, the ledger is
   * unchanged. The entries removed and the entries kept add up to the old ledger.
   */
  lemma UsingAPick(ledger: seq<DraftPick>, season: int, round: int)
    ensures forall i :: 0 <= i < |Filter(ledger, NotUsedBy(season, round))| ==>
      !(Filter(ledger, NotUsedBy(season, round))[i].year == season && Filter(ledger, NotUsedBy(season, round))[i].round == round)
    ensures forall i :: 0 <= i < |ledger| && !(ledger[i].year == season && ledger[i].round == round) ==>
      ledger[i] in Filter(ledger, NotUsedBy(season, round))
    ensures (forall i :: 0 <= i < |ledger| ==> !(ledger[i].year == season && ledger[i].round == round)) ==>
      Filter(ledger, NotUsedBy(season, round)) == ledger
    ensures |Filter(ledger, NotUsedBy(season, round))| + |Filter(ledger, UsedBy(season, round))| == |ledger|
  {
    if forall i :: 0 <= i < |ledger| ==> !(ledger[i].year == season && ledger[i].round == round) {
      FilterKeepsAll(ledger, NotUsedBy(season, round));
    }
    FilterComplement(ledger, NotUsedBy(season, round), UsedBy(season, round));
  }

  // -------------------------------------------------------- history lists

  function AwardedIn(season: int): Award -> bool
  {
    (a: Award) => a.year == season
  }

  function TradedIn(season: int): Trade -> bool
  {
    (t: Trade) => t.season == season
  }

  function DraftedIn(season: int): DraftedPlayer -> bool
  {
    (d: DraftedPlayer) => d.year == season
  }

  predicate Unsigned(d: DraftedPlayer)
  {
    !d.signedToContract
  }

  predicate WonCup(s: SeasonSnapshot)
  {
    s.WonStanleyCup()
  }

  /** Players whose contract runs out in `year`. */
  function ExpiresIn(year: int): Player -> bool
  {
    (p: Player) => p.contract.Some? && p.contract.value.ExpirationYear() == year
  }

  /** A club as the franchise constructor sets it up: named, with empty award, record and pick lists and an empty line-up. */
  function NewClub(name: string, roster: Option<seq<Player>>, isAhl: bool): (t: Team)
    ensures t.name == name && t.roster == roster && t.isAhl == isAhl
    ensures t.awards == Some([]) && t.careerStats == Some([]) && t.draftPicks == Some([])
    ensures t.lineup == Some(Lineup(None, None, None))
  {
    Team(name, 0, 0, 0, roster, Some([]), Some([]), Some([]), Some(Lineup(None, None, None)), isAhl)
  }

  /** The index of the last club whose affiliation is `isAhl`, if any. */
  function LastClub(teams: seq<Team>, isAhl: bool): (r: Option<nat>)
    ensures r.Some? ==> r.value < |teams| && teams[r.value].isAhl == isAhl
    ensures r.Some? ==> forall j :: r.value < j < |teams| ==> teams[j].isAhl != isAhl
    ensures r.None? ==> forall j :: 0 <= j < |teams| ==> teams[j].isAhl != isAhl
  {
    if teams == [] then None
    else if teams[|teams| - 1].isAhl == isAhl then Some(|teams| - 1)
    else LastClub(teams[..|teams| - 1], isAhl)
  }

  class FranchiseTracker {
    var teams: seq<Team>
    /** The selected NHL club and AHL affiliate, as positions in `teams`. */
    var nhlClub: Option<nat>
    var ahlClub: Option<nat>
    var currentSeason: int
    var generalManagerName: Option<string>
    var draftPicks: seq<DraftedPlayer>
    var leagueAwards: seq<Award>
    var playerStats: seq<TeamSeasonStats>
    var teamStats: Option<TeamSeasonStats>
    var trades: seq<Trade>
    var seasonHistory: seq<SeasonSnapshot>
    var capCeiling: real
    var capFloor: real
    var futureDraftPicks: seq<DraftPick>
    var franchiseCompleted: bool
    var franchiseCompletedSeason: int

    /** The selected clubs are entries of the club list. */
    ghost predicate Valid()
      reads this
    {
      (nhlClub.Some? ==> nhlClub.value < |teams|) && (ahlClub.Some? ==> ahlClub.value < |teams|)
    }

    /** The NHL roster, or no one when no NHL club or roster is there. */
    function NhlPlayers(): seq<Player>
      reads this`teams, this`nhlClub
    {
      RosterAt(teams, nhlClub).GetOr([])
    }

    /** `getProspects`: the AHL roster, or no one when no AHL club or roster is there. */
    function Prospects(): seq<Player>
      reads this`teams, this`ahlClub
    {
      RosterAt(teams, ahlClub).GetOr([])
    }

    /** `getAllPlayers`: the NHL roster followed by the AHL roster. */
    function AllPlayers(): seq<Player>
      reads this`teams, this`nhlClub, this`ahlClub
    {
      NhlPlayers() + Prospects()
    }

    /** The name written on generated picks. */
    function PickOwner(): string
      reads this`teams, this`nhlClub
    {
      if nhlClub.Some? && nhlClub.value < |teams| then teams[nhlClub.value].name else NoClubOwner
    }

    /** `getTotalCapHit`: the NHL roster's cap hits added up; the AHL roster does not count. */
    function TotalCapHit(): (r: real)
      reads this`teams, this`nhlClub
      ensures RosterAt(teams, nhlClub).None? ==> r == 0.0
      ensures (forall i :: 0 <= i < |NhlPlayers()| ==> NhlPlayers()[i].contract.None?) ==> r == 0.0
    {
      if forall i :: 0 <= i < |NhlPlayers()| ==> NhlPlayers()[i].contract.None? then
        RosterCapHitUnsigned(NhlPlayers());
        RosterCapHit(NhlPlayers())
      else
        RosterCapHit(NhlPlayers())
    }

    /** `getCapSpace`: room under the ceiling, negative when over the cap. */
    function CapSpace(): (r: real)
      reads this`teams, this`nhlClub, this`capCeiling
      ensures r < 0.0 <==> TotalCapHit() > capCeiling
      ensures r + TotalCapHit() == capCeiling
    {
      capCeiling - TotalCapHit()
    }

    /** `getExpiringContracts(year)`: the players whose contract runs out in `year`, NHL roster first. */
    function ExpiringContracts(year: int): (r: seq<Player>)
      reads this`teams, this`nhlClub, this`ahlClub
      ensures forall i :: 0 <= i < |r| ==> r[i].contract.Some? && r[i].contract.value.ExpirationYear() == year
      ensures forall i :: 0 <= i < |AllPlayers()| && ExpiresIn(year)(AllPlayers()[i]) ==> AllPlayers()[i] in r
      ensures r == Filter(NhlPlayers(), ExpiresIn(year)) + Filter(Prospects(), ExpiresIn(year))
    {
      FilterConcat(NhlPlayers(), Prospects(), ExpiresIn(year));
      Filter(AllPlayers(), ExpiresIn(year))
    }

    /** `getDraftPicksForYear(year)`: the ledger entries for `year`, in round order. */
    function DraftPicksForYear(year: int): (r: seq<DraftPick>)
      reads this`futureDraftPicks
      ensures forall i :: 0 <= i < |r| ==> r[i].year == year
      ensures multiset(r) == multiset(Filter(futureDraftPicks, InYear(year)))
      ensures SortedBy(r, RoundOrder)
    {
      RoundOrderIsTotal();
      var inYear := Filter(futureDraftPicks, InYear(year));
      SortedKeepsYear(inYear, SortBy(inYear, RoundOrder), year);
      SortBy(inYear, RoundOrder)
    }

    /** `getUnsignedDraftees`: the draft selections not yet signed, in draft order. */
    function UnsignedDraftees(): (r: seq<DraftedPlayer>)
      reads this`draftPicks
      ensures forall i :: 0 <= i < |r| ==> r[i] in draftPicks && !r[i].signedToContract
      ensures forall i :: 0 <= i < |draftPicks| && !draftPicks[i].signedToContract ==> draftPicks[i] in r
      ensures r == Filter(draftPicks, Unsigned)
    {
      Filter(draftPicks, Unsigned)
    }

    /** `getStanleyCupCount`: the archived seasons that include a Stanley Cup. */
    function StanleyCupCount(): (n: nat)
      reads this`seasonHistory
      ensures n <= |seasonHistory|
      ensures n == 0 <==> forall i :: 0 <= i < |seasonHistory| ==> !seasonHistory[i].WonStanleyCup()
    {
      var cups := Filter(seasonHistory, WonCup);
      assert cups != [] ==> cups[0] in seasonHistory && WonCup(cups[0]);
      |cups|
    }

    /** The snapshot `archiveSeason` takes of the franchise as it stands. */
    function SeasonRecord(): SeasonSnapshot
      reads this`teams, this`nhlClub, this`ahlClub, this`currentSeason, this`teamStats, this`leagueAwards,
            this`trades, this`draftPicks, this`futureDraftPicks, this`capCeiling
    {
      Snapshot(currentSeason, NhlPlayers(), Prospects(), teamStats,
               Filter(leagueAwards, AwardedIn(currentSeason)), Filter(trades, TradedIn(currentSeason)),
               Filter(draftPicks, DraftedIn(currentSeason)), futureDraftPicks, capCeiling)
    }

    /** `new FranchiseTracker()`: no clubs, season 0, and the starting ledger written to "Own". */
    constructor Default()
      ensures Valid()
      ensures teams == [] && nhlClub == None && ahlClub == None && currentSeason == 0
      ensures generalManagerName == None && teamStats == None
      ensures draftPicks == [] && leagueAwards == [] && playerStats == [] && trades == [] && seasonHistory == []
      ensures capCeiling == DefaultCapCeiling && capFloor == DefaultCapFloor
      ensures !franchiseCompleted && franchiseCompletedSeason == 0
      ensures futureDraftPicks == Ledger(0, LedgerSeasons, NoClubOwner)
    {
      teams := [];
      nhlClub, ahlClub := None, None;
      currentSeason := 0;
      generalManagerName := None;
      draftPicks, leagueAwards, playerStats, trades, seasonHistory := [], [], [], [], [];
      teamStats := None;
      capCeiling, capFloor := DefaultCapCeiling, DefaultCapFloor;
      futureDraftPicks := [];
      franchiseCompleted, franchiseCompletedSeason := false, 0;
      new;
      InitializeFutureDraftPicks();
    }

    /**
     * The franchise constructor: an NHL club holding `initialRoster` and an
     * empty AHL affiliate, in that order, both selected, and the starting
     * ledger written to the NHL club. The `draftPicks` argument is not used.
     */
    constructor (nhlTeamName: string, ahlTeamName: string, initialRoster: Option<seq<Player>>,
                 draftPicks: seq<DraftedPlayer>, generalManagerName: string, currentSeason: int)
      ensures Valid()
      ensures teams == [NewClub(nhlTeamName, initialRoster, false), NewClub(ahlTeamName, Some([]), true)]
      ensures nhlClub == Some(0) && ahlClub == Some(1)
      ensures this.currentSeason == currentSeason && this.generalManagerName == Some(generalManagerName)
      ensures this.draftPicks == [] && leagueAwards == [] && playerStats == [] && trades == [] && seasonHistory == []
      ensures teamStats == None && capCeiling == DefaultCapCeiling && capFloor == DefaultCapFloor
      ensures !franchiseCompleted && franchiseCompletedSeason == 0
      ensures futureDraftPicks == Ledger(currentSeason, LedgerSeasons, nhlTeamName)
    {
      teams := [NewClub(nhlTeamName, initialRoster, false), NewClub(ahlTeamName, Some([]), true)];
      nhlClub, ahlClub := Some(0), Some(1);
      this.currentSeason := currentSeason;
      this.generalManagerName := Some(generalManagerName);
      this.draftPicks, leagueAwards, playerStats, trades, seasonHistory := [], [], [], [], [];
      teamStats := None;
      capCeiling, capFloor := DefaultCapCeiling, DefaultCapFloor;
      futureDraftPicks := [];
      franchiseCompleted, franchiseCompletedSeason := false, 0;
      new;
      InitializeFutureDraftPicks();
    }

    /** `initializeFutureDraftPicks`: an empty ledger gets every round of this season and the next five; a non-empty one is kept. */
    method InitializeFutureDraftPicks()
      modifies this`futureDraftPicks
      ensures futureDraftPicks == if old(futureDraftPicks) == [] then Ledger(currentSeason, LedgerSeasons, PickOwner())
                                  else old(futureDraftPicks)
    {
      if futureDraftPicks == [] {
        var owner := PickOwner();
        var year := currentSeason;
        while year <= currentSeason + 5
          invariant currentSeason <= year <= currentSeason + 6
          invariant futureDraftPicks == Ledger(currentSeason, year - currentSeason, owner)
        {
          var round := 1;
          while round <= 7
            invariant 1 <= round <= 8
            invariant futureDraftPicks == Ledger(currentSeason, year - currentSeason, owner)
                                          + SeasonPicks(year, owner)[..round - 1]
          {
            futureDraftPicks := futureDraftPicks + [OwnedPick(year, round, owner)];
            assert SeasonPicks(year, owner)[..round] == SeasonPicks(year, owner)[..round - 1] + [OwnedPick(year, round, owner)];
            round := round + 1;
          }
          assert SeasonPicks(year, owner)[..7] == SeasonPicks(year, owner);
          year := year + 1;
        }
      }
    }

    /** `archiveSeason`: appends the snapshot of the season as it stands; nothing else changes. */
    method ArchiveSeason()
      modifies this`seasonHistory
      ensures seasonHistory == old(seasonHistory) + [SeasonRecord()]
    {
      var snapshot := CreateSnapshot(
        currentSeason, NhlPlayers(), Prospects(), teamStats,
        Filter(leagueAwards, AwardedIn(currentSeason)), Filter(trades, TradedIn(currentSeason)),
        Filter(draftPicks, DraftedIn(currentSeason)), futureDraftPicks, capCeiling);
      seasonHistory := seasonHistory + [snapshot];
    }

    /** `decrementContractYears`: a season of contract served across the NHL roster, then the AHL roster. */
    method DecrementContractYears()
      modifies this`teams
      ensures teams == MapRoster(MapRoster(old(teams), nhlClub, WithTermServed), ahlClub, WithTermServed)
    {
      TurnOverRoster(nhlClub, WithTermServed);
      TurnOverRoster(ahlClub, WithTermServed);
    }

    /** `agePlayersOneYear`: every player of the NHL roster, then of the AHL roster, a year older. */
    method AgePlayersOneYear()
      modifies this`teams
      ensures teams == MapRoster(MapRoster(old(teams), nhlClub, OneYearOlder), ahlClub, OneYearOlder)
    {
      TurnOverRoster(nhlClub, OneYearOlder);
      TurnOverRoster(ahlClub, OneYearOlder);
    }

    method TurnOverRoster(club: Option<nat>, f: Player -> Player)
      modifies this`teams
      ensures teams == MapRoster(old(teams), club, f)
    {
      var roster := RosterAt(teams, club);
      if roster.Some? {
        var updated := UpdateEach(roster.value, f);
        teams := WithRoster(teams, club, updated);
      }
    }

    /** `addFutureDraftPicks(year)`: seven owned picks for `year` at the end of the ledger. */
    method AddFutureDraftPicks(year: int)
      modifies this`futureDraftPicks
      ensures futureDraftPicks == old(futureDraftPicks) + SeasonPicks(year, PickOwner())
    {
      var owner := PickOwner();
      var round := 1;
      while round <= 7
        invariant 1 <= round <= 8
        invariant futureDraftPicks == old(futureDraftPicks) + SeasonPicks(year, owner)[..round - 1]
      {
        futureDraftPicks := futureDraftPicks + [OwnedPick(year, round, owner)];
        assert SeasonPicks(year, owner)[..round] == SeasonPicks(year, owner)[..round - 1] + [OwnedPick(year, round, owner)];
        round := round + 1;
      }
      assert SeasonPicks(year, owner)[..7] == SeasonPicks(year, owner);
    }

    /**
     * `advanceSeason`: archives the season, serves a contract season and
     * ages every rostered player, adds the picks of the season six years
     * out, and moves to the next season.
     */
    method AdvanceSeason()
      requires Valid()
      modifies this`seasonHistory, this`teams, this`futureDraftPicks, this`currentSeason
      ensures Valid()
      ensures seasonHistory == old(seasonHistory) + [old(SeasonRecord())]
      ensures teams == SeasonTurnover(old(teams), nhlClub, ahlClub)
      ensures futureDraftPicks == old(futureDraftPicks) + SeasonPicks(old(currentSeason) + 6, old(PickOwner()))
      ensures currentSeason == old(currentSeason) + 1
    {
      ghost var owner := PickOwner();
      ghost var t0 := teams;
      ArchiveSeason();
      DecrementContractYears();
      ghost var t1 := MapRoster(t0, nhlClub, WithTermServed);
      MapRosterKeepsClubs(t0, nhlClub, WithTermServed);
      MapRosterKeepsClubs(t1, ahlClub, WithTermServed);
      ghost var t2 := teams;
      AgePlayersOneYear();
      ghost var t3 := MapRoster(t2, nhlClub, OneYearOlder);
      MapRosterKeepsClubs(t2, nhlClub, OneYearOlder);
      MapRosterKeepsClubs(t3, ahlClub, OneYearOlder);
      assert PickOwner() == owner;
      AddFutureDraftPicks(currentSeason + 6);
      currentSeason := currentSeason + 1;
    }

    /** `completeFranchise`: archives the season and marks the franchise finished in it; nothing else changes. */
    method CompleteFranchise()
      modifies this`seasonHistory, this`franchiseCompleted, this`franchiseCompletedSeason
      ensures seasonHistory == old(seasonHistory) + [SeasonRecord()]
      ensures franchiseCompleted && franchiseCompletedSeason == currentSeason
    {
      ArchiveSeason();
      franchiseCompleted := true;
      franchiseCompletedSeason := currentSeason;
    }

    /** `recordTrade`: stamps the trade with the current season and appends it. */
    method RecordTrade(trade: Trade)
      modifies this`trades
      ensures trades == old(trades) + [trade.(season := currentSeason)]
    {
      trades := trades + [trade.(season := currentSeason)];
    }

    /** `recordAward`: stamps the award with the current season and appends it. */
    method RecordAward(award: Award)
      modifies this`leagueAwards
      ensures leagueAwards == old(leagueAwards) + [award.(year := currentSeason)]
    {
      leagueAwards := leagueAwards + [award.(year := currentSeason)];
    }

    /**
     * `recordDraftPick`: stamps the selection with the current season,
     * appends it, and removes every ledger entry for this season and the
     * selection's round.
     */
    method RecordDraftPick(drafted: DraftedPlayer)
      modifies this`draftPicks, this`futureDraftPicks
      ensures draftPicks == old(draftPicks) + [drafted.(year := currentSeason)]
      ensures futureDraftPicks == Filter(old(futureDraftPicks), NotUsedBy(currentSeason, drafted.round))
    {
      draftPicks := draftPicks + [drafted.(year := currentSeason)];
      futureDraftPicks := Filter(futureDraftPicks, NotUsedBy(currentSeason, drafted.round));
    }

    method AddPlayerToNhl(p: Player)
      modifies this`teams
      ensures teams == AppendToRoster(old(teams), nhlClub, p)
    {
      teams := AppendToRoster(teams, nhlClub, p);
    }

    method AddPlayerToAhl(p: Player)
      modifies this`teams
      ensures teams == AppendToRoster(old(teams), ahlClub, p)
      ensures nhlClub != ahlClub ==> TotalCapHit() == old(TotalCapHit())
    {
      if nhlClub != ahlClub && RosterAt(teams, ahlClub).Some? {
        CapHitIgnoresAffiliate(teams, nhlClub, ahlClub, RosterAt(teams, ahlClub).value + [p]);
      }
      teams := AppendToRoster(teams, ahlClub, p);
    }

    method RemovePlayerFromNhl(p: Player)
      modifies this`teams
      ensures teams == RemoveFromRoster(old(teams), nhlClub, p)
    {
      teams := RemoveFromRoster(teams, nhlClub, p);
    }

    method RemovePlayerFromAhl(p: Player)
      modifies this`teams
      ensures teams == RemoveFromRoster(old(teams), ahlClub, p)
      ensures nhlClub != ahlClub ==> TotalCapHit() == old(TotalCapHit())
    {
      if nhlClub != ahlClub && RosterAt(teams, ahlClub).Some? {
        CapHitIgnoresAffiliate(teams, nhlClub, ahlClub, RemoveFirst(RosterAt(teams, ahlClub).value, p));
      }
      teams := RemoveFromRoster(teams, ahlClub, p);
    }

    /** `sendPlayerToAHL`: off the NHL roster if there, and onto the end of the AHL roster in any case. */
    method SendPlayerToAhl(p: Player)
      modifies this`teams
      ensures teams == AppendToRoster(RemoveFromRoster(old(teams), nhlClub, p), ahlClub, p)
    {
      RemovePlayerFromNhl(p);
      AddPlayerToAhl(p);
    }

    /** `callUpPlayerFromAHL`: off the AHL roster if there, and onto the end of the NHL roster in any case. */
    method CallUpPlayerFromAhl(p: Player)
      modifies this`teams
      ensures teams == AppendToRoster(RemoveFromRoster(old(teams), ahlClub, p), nhlClub, p)
    {
      RemovePlayerFromAhl(p);
      AddPlayerToNhl(p);
    }

    /**
     * `restoreTeamReferences`: the last non-AHL club becomes the NHL club
     * and the last AHL club the affiliate; a missing kind keeps its old selection.
     */
    method RestoreTeamReferences()
      requires Valid()
      modifies this`nhlClub, this`ahlClub
      ensures Valid()
      ensures nhlClub == if LastClub(teams, false).Some? then LastClub(teams, false) else old(nhlClub)
      ensures ahlClub == if LastClub(teams, true).Some? then LastClub(teams, true) else old(ahlClub)
    {
      var i := 0;
      while i < |teams|
        invariant 0 <= i <= |teams|
        invariant nhlClub == if LastClub(teams[..i], false).Some? then LastClub(teams[..i], false) else old(nhlClub)
        invariant ahlClub == if LastClub(teams[..i], true).Some? then LastClub(teams[..i], true) else old(ahlClub)
      {
        assert teams[..i + 1][..i] == teams[..i];
        if teams[i].isAhl {
          ahlClub := Some(i);
        } else {
          nhlClub := Some(i);
        }
        i := i + 1;
      }
      assert teams[..|teams|] == teams;
    }
  }

  /** A franchise as constructed finds its own two clubs again when its references are rebuilt. */
  lemma RestoreFindsConstructedClubs(nhlTeamName: string, ahlTeamName: string, initialRoster: Option<seq<Player>>)
    ensures LastClub([NewClub(nhlTeamName, initialRoster, false), NewClub(ahlTeamName, Some([]), true)], false) == Some(0)
    ensures LastClub([NewClub(nhlTeamName, initialRoster, false), NewClub(ahlTeamName, Some([]), true)], true) == Some(1)
  {
    var teams := [NewClub(nhlTeamName, initialRoster, false), NewClub(ahlTeamName, Some([]), true)];
    assert teams[..1] == [teams[0]];
  }

  /** Removing one player from a roster takes exactly that player's cap hit off the roster total. */
  /** The affiliate's roster never counts against the cap: replacing it leaves the NHL roster, and so its cap total, as they were. */
  lemma CapHitIgnoresAffiliate(teams: seq<Team>, nhl: Option<nat>, ahl: Option<nat>, roster: seq<Player>)
    requires nhl != ahl && RosterAt(teams, ahl).Some?
    ensures RosterAt(WithRoster(teams, ahl, roster), nhl) == RosterAt(teams, nhl)
    ensures RosterCapHit(RosterAt(WithRoster(teams, ahl, roster), nhl).GetOr([])) ==
            RosterCapHit(RosterAt(teams, nhl).GetOr([]))
  {
    if nhl.Some? && nhl.value < |teams| {
      assert nhl.value != ahl.value;
    }
  }

  lemma {:induction false} CapHitWithout(players: seq<Player>, p: Player)
    requires p in players
    ensures RosterCapHit(RemoveFirst(players, p)) == RosterCapHit(players) - p.CapHit()
  {
    var i := IndexOf(players, p);
    var before, after := players[..i], players[i + 1..];
    assert players == before + [p] + after;
    RosterCapHitConcat(before + [p], after);
    RosterCapHitConcat(before, after);
    assert (before + [p])[..|before + [p]| - 1] == before;
  }

  /**
   * Sending a player down from an NHL roster (two distinct clubs, both
   * with rosters) frees exactly that player's cap hit, and the player ends
   * up last on the AHL roster whether or not the NHL roster had them.
   */
  lemma SendDown(teams: seq<Team>, nhl: Option<nat>, ahl: Option<nat>, p: Player)
    requires nhl != ahl && RosterAt(teams, nhl).Some? && RosterAt(teams, ahl).Some?
    ensures var after := AppendToRoster(RemoveFromRoster(teams, nhl, p), ahl, p);
      && RosterAt(after, nhl) == Some(RemoveFirst(RosterAt(teams, nhl).value, p))
      && RosterAt(after, ahl) == Some(RosterAt(teams, ahl).value + [p])
      && (p in RosterAt(teams, nhl).value ==>
            RosterCapHit(RosterAt(after, nhl).value) == RosterCapHit(RosterAt(teams, nhl).value) - p.CapHit()
            && multiset(RosterAt(after, nhl).value) + multiset(RosterAt(after, ahl).value)
               == multiset(RosterAt(teams, nhl).value) + multiset(RosterAt(teams, ahl).value))
  {
    var nhlRoster := RosterAt(teams, nhl).value;
    if p in nhlRoster {
      CapHitWithout(nhlRoster, p);
    }
  }
}
