/** The archive record of one completed season. */
module SeasonSnapshots {
  import opened Wrappers
  import opened Players
  import opened DraftPicks
  import opened DraftedPlayers
  import opened Trades
  import opened Teams
  import opened PlayerSnapshots

  datatype SeasonSnapshot = SeasonSnapshot(
    season: int,
    capCeiling: real,
    totalCapHit: real,
    nhlRoster: seq<PlayerSnapshot>,
    ahlRoster: seq<PlayerSnapshot>,
    teamStats: Option<TeamSeasonStats>,
    awards: seq<Award>,
    trades: seq<Trade>,
    draftPicks: seq<DraftedPlayer>,
    futurePicks: seq<DraftPick>)
  {
    function TotalPlayers(): int
    {
      |nhlRoster| + |ahlRoster|
    }

    function Wins(): int
    {
      if teamStats.Some? then teamStats.value.wins else 0
    }

    function Points(): int
    {
      if teamStats.Some? then teamStats.value.points else 0
    }

    predicate WonStanleyCup()
    {
      exists i :: 0 <= i < |awards| && awards[i].award == Some(StanleyCup)
    }
  }

  /** The cap hits of `players` added up in roster order. */
  function RosterCapHit(players: seq<Player>): real
  {
    if players == [] then 0.0
    else RosterCapHit(players[..|players| - 1]) + players[|players| - 1].CapHit()
  }

  /** A roster split in two carries the cap hits of both parts. */
  lemma {:induction false} RosterCapHitConcat(a: seq<Player>, b: seq<Player>)
    ensures RosterCapHit(a + b) == RosterCapHit(a) + RosterCapHit(b)
    decreases |b|
  {
    if b != [] {
      assert (a + b)[..|a + b| - 1] == a + b[..|b| - 1];
      RosterCapHitConcat(a, b[..|b| - 1]);
    } else {
      assert a + b == a;
    }
  }

  /** Players without a contract add nothing to a roster's cap hit. */
  lemma {:induction false} RosterCapHitUnsigned(players: seq<Player>)
    requires forall i :: 0 <= i < |players| ==> players[i].contract.None?
    ensures RosterCapHit(players) == 0.0
  {
    if players != [] {
      RosterCapHitUnsigned(players[..|players| - 1]);
    }
  }

  /** The frozen copies of a roster, one per player, in roster order. */
  function SnapshotRoster(players: seq<Player>, season: int): (r: seq<PlayerSnapshot>)
    ensures |r| == |players|
    ensures forall i :: 0 <= i < |players| ==> r[i] == FromPlayer(players[i], season)
  {
    seq(|players|, i requires 0 <= i < |players| => FromPlayer(players[i], season))
  }

  /**
   * What `SeasonSnapshot.createSnapshot` builds: the season, cap ceiling
   * and team record as given, copies of the four lists, frozen copies of
   * both rosters, and the NHL roster's cap hit (the AHL roster does not
   * count against the cap).
   */
  function Snapshot(
    season: int, nhl: seq<Player>, ahl: seq<Player>, teamStats: Option<TeamSeasonStats>,
    awards: seq<Award>, trades: seq<Trade>, draftPicks: seq<DraftedPlayer>, futurePicks: seq<DraftPick>,
    capCeiling: real): (s: SeasonSnapshot)
    ensures s.season == season && s.capCeiling == capCeiling && s.teamStats == teamStats
    ensures s.awards == awards && s.trades == trades && s.draftPicks == draftPicks && s.futurePicks == futurePicks
    ensures s.nhlRoster == SnapshotRoster(nhl, season) && s.ahlRoster == SnapshotRoster(ahl, season)
    ensures s.totalCapHit == RosterCapHit(nhl)
    ensures s.TotalPlayers() == |nhl| + |ahl|
  {
    SeasonSnapshot(season, capCeiling, RosterCapHit(nhl), SnapshotRoster(nhl, season), SnapshotRoster(ahl, season),
                   teamStats, awards, trades, draftPicks, futurePicks)
  }

  /** `SeasonSnapshot.createSnapshot`: copies the NHL roster while adding up its cap hits, then the AHL roster. */
  method CreateSnapshot(
    season: int, nhl: seq<Player>, ahl: seq<Player>, teamStats: Option<TeamSeasonStats>,
    awards: seq<Award>, trades: seq<Trade>, draftPicks: seq<DraftedPlayer>, futurePicks: seq<DraftPick>,
    capCeiling: real) returns (s: SeasonSnapshot)
    ensures s == Snapshot(season, nhl, ahl, teamStats, awards, trades, draftPicks, futurePicks, capCeiling)
  {
    var nhlCopies: seq<PlayerSnapshot> := [];
    var totalCap := 0.0;
    var i := 0;
    while i < |nhl|
      invariant 0 <= i <= |nhl|
      invariant nhlCopies == SnapshotRoster(nhl[..i], season)
      invariant totalCap == RosterCapHit(nhl[..i])
    {
      nhlCopies := nhlCopies + [FromPlayer(nhl[i], season)];
      assert nhl[..i + 1][..i] == nhl[..i];
      totalCap := totalCap + nhl[i].CapHit();
      i := i + 1;
    }
    var ahlCopies: seq<PlayerSnapshot> := [];
    var j := 0;
    while j < |ahl|
      invariant 0 <= j <= |ahl|
      invariant ahlCopies == SnapshotRoster(ahl[..j], season)
    {
      ahlCopies := ahlCopies + [FromPlayer(ahl[j], season)];
      j := j + 1;
    }
    assert nhl[..|nhl|] == nhl && ahl[..|ahl|] == ahl;
    s := SeasonSnapshot(season, capCeiling, totalCap, nhlCopies, ahlCopies,
                        teamStats, awards, trades, draftPicks, futurePicks);
  }
}
