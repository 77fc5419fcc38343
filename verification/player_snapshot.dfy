/** The frozen copy of a player that a season snapshot keeps. */
module PlayerSnapshots {
  import opened Wrappers
  import opened Contracts
  import opened PlayerPotential
  import opened Players

  datatype PlayerSnapshot = PlayerSnapshot(
    firstName: string,
    lastName: string,
    overall: int,
    age: int,
    position: Option<Position>,
    style: Option<PlayerStyle>,
    xFactors: seq<XFactor>,
    potential: Option<Potential>,
    potentialAccuracy: Option<PotentialAccuracy>,
    aav: real,
    contractYearsRemaining: int,
    contractStatus: Option<ContractStatus>,
    seasonStats: Option<PlayerSeasonStats>)
  {
    function FullName(): string
    {
      firstName + " " + lastName
    }
  }

  /** The index of the first season line for `year`, or `|stats|` when there is none. */
  function FirstOfYear(stats: seq<PlayerSeasonStats>, year: int): (i: nat)
    ensures i <= |stats|
    ensures i < |stats| ==> stats[i].year == year
    ensures forall j :: 0 <= j < i ==> stats[j].year != year
  {
    if stats == [] then 0
    else if stats[0].year == year then 0
    else 1 + FirstOfYear(stats[1..], year)
  }

  /** `careerStats.stream().filter(year == season).findFirst()`: the earliest line for the season, if any. */
  function StatsForSeason(stats: seq<PlayerSeasonStats>, season: int): (r: Option<PlayerSeasonStats>)
    ensures r.Some? <==> exists j :: 0 <= j < |stats| && stats[j].year == season
    ensures r.Some? ==> exists j :: 0 <= j < |stats| && stats[j] == r.value && r.value.year == season
                                && forall k :: 0 <= k < j ==> stats[k].year != season
  {
    var i := FirstOfYear(stats, season);
    if i < |stats| then Some(stats[i]) else None
  }

  /**
   * `PlayerSnapshot.fromPlayer`: the player's identity, ratings, the
   * contract terms as they stand and the statistics line for `season`.
   */
  function FromPlayer(p: Player, season: int): (s: PlayerSnapshot)
    ensures s.firstName == p.firstName && s.lastName == p.lastName && s.FullName() == p.FullName()
    ensures s.overall == p.overall && s.age == p.age && s.position == p.position && s.style == p.style
    ensures s.potential == p.potential && s.potentialAccuracy == p.potentialAccuracy
    ensures s.xFactors == p.xFactors.GetOr([])
    ensures s.aav == p.CapHit() && s.contractYearsRemaining == p.ContractYearsRemaining()
    ensures s.contractStatus == if p.contract.Some? then p.contract.value.status else None
    ensures p.careerStats.None? ==> s.seasonStats.None?
    ensures p.careerStats.Some? ==> s.seasonStats == StatsForSeason(p.careerStats.value, season)
  {
    var withContract := if p.contract.Some? then p.contract.value else CreateContract(0.0, 0, 0, None);
    PlayerSnapshot(
      p.firstName, p.lastName, p.overall, p.age, p.position, p.style,
      if p.xFactors.Some? then p.xFactors.value else [],
      p.potential, p.potentialAccuracy,
      withContract.aav, withContract.termInYears, withContract.status,
      if p.careerStats.Some? then StatsForSeason(p.careerStats.value, season) else None)
  }

  /**
   * The snapshot of a season is blind to statistics lines of other
   * seasons: adding a line for another year does not change it.
   */
  lemma {:induction false} SnapshotIgnoresOtherSeasons(stats: seq<PlayerSeasonStats>, line: PlayerSeasonStats, season: int)
    requires line.year != season
    ensures StatsForSeason(stats + [line], season) == StatsForSeason(stats, season)
  {
    if stats != [] {
      assert (stats + [line])[1..] == stats[1..] + [line];
      SnapshotIgnoresOtherSeasons(stats[1..], line, season);
    }
  }
}
