/**
 * The season statistics editor: saving a skater's, a goalie's or the NHL
 * club's numbers for the current season. Each save replaces whatever was
 * stored for the current season by the new record, added at the end of
 * the history.
 *
 * The form's boxes are passed as their text; a box `Integer.parseInt`
 * rejects aborts the save before anything is changed.
 */
module SeasonStatsEditor {
  import opened Wrappers
  import opened Seqs
  import opened Text
  import opened Players
  import opened Teams
  import opened Franchise

  // ----------------------------------------------------------- the upsert

  /** Entries of a history that are not for `year`. */
  function OtherYear<T>(yearOf: T -> int, year: int): T -> bool
  {
    (x: T) => yearOf(x) != year
  }

  /** A history with every entry for the new entry's year dropped and the new entry added at the end. */
  function Upserted<T>(history: seq<T>, yearOf: T -> int, entry: T): seq<T>
  {
    Filter(history, OtherYear(yearOf, yearOf(entry))) + [entry]
  }

  /**
   * After a save the history holds exactly one entry for the saved year,
   * the new one, at the end; the entries for other years are all kept,
   * in their old order, ahead of it.
   */
  lemma UpsertedShape<T>(history: seq<T>, yearOf: T -> int, entry: T)
    ensures var r := Upserted(history, yearOf, entry);
      && |r| >= 1 && r[|r| - 1] == entry
      && (forall i :: 0 <= i < |r| - 1 ==> yearOf(r[i]) != yearOf(entry))
      && r[..|r| - 1] == Filter(history, OtherYear(yearOf, yearOf(entry)))
      && (forall x :: x in history && yearOf(x) != yearOf(entry) ==> x in r)
  {
    var kept := Filter(history, OtherYear(yearOf, yearOf(entry)));
    var r := kept + [entry];
    assert r[..|r| - 1] == kept;
    forall i | 0 <= i < |r| - 1
      ensures yearOf(r[i]) != yearOf(entry)
    {
      assert OtherYear(yearOf, yearOf(entry))(kept[i]);
    }
    forall x | x in history && yearOf(x) != yearOf(entry)
      ensures x in r
    {
      var k :| 0 <= k < |history| && history[k] == x;
      assert OtherYear(yearOf, yearOf(entry))(history[k]);
    }
  }

  /** Saving the same record twice leaves the history as saving it once. */
  lemma UpsertTwice<T>(history: seq<T>, yearOf: T -> int, entry: T)
    ensures Upserted(Upserted(history, yearOf, entry), yearOf, entry) == Upserted(history, yearOf, entry)
  {
    var f := OtherYear(yearOf, yearOf(entry));
    var kept := Filter(history, f);
    forall i | 0 <= i < |kept|
      ensures f(kept[i])
    {
    }
    FilterConcat(kept, [entry], f);
    FilterKeepsAll(kept, f);
    assert [entry][1..] == [];
    assert Filter([entry], f) == [];
  }

  /** Saving a record for a season with nothing stored yet just appends it. */
  lemma UpsertNewSeason<T>(history: seq<T>, yearOf: T -> int, entry: T)
    requires forall i :: 0 <= i < |history| ==> yearOf(history[i]) != yearOf(entry)
    ensures Upserted(history, yearOf, entry) == history + [entry]
  {
    FilterKeepsAll(history, OtherYear(yearOf, yearOf(entry)));
  }

  // -------------------------------------------------------------- boxes

  /**
   * `Integer.parseInt` of every box, in order, or `None` as soon as one
   * of them does not parse.
   */
  function ParseBoxes(texts: seq<string>): (r: Option<seq<int>>)
    ensures r.Some? <==> forall i :: 0 <= i < |texts| ==> ParseInt(texts[i]).Some?
    ensures r.Some? ==> |r.value| == |texts| && forall i :: 0 <= i < |texts| ==> r.value[i] == ParseInt(texts[i]).value
  {
    if texts == [] then Some([])
    else
      var first := ParseInt(texts[0]);
      var rest := ParseBoxes(texts[1..]);
      if first.None? || rest.None? then
        assert first.None? ==> !ParseInt(texts[0]).Some?;
        None
      else Some([first.value] + rest.value)
  }

  // ------------------------------------------------------------- records

  function PlayerYear(s: PlayerSeasonStats): int
  {
    s.year
  }

  function TeamYear(s: TeamSeasonStats): int
  {
    s.year
  }

  /** A skater's season from the skater form: points are goals plus assists. */
  function SkaterLine(year: int, gamesPlayed: int, goals: int, assists: int, plusMinus: int, penaltyMinutes: int)
    : (s: PlayerSeasonStats)
    ensures s.year == year && s.leagueLevel == Some(Nhl)
    ensures s.gamesPlayed == gamesPlayed && s.goals == goals && s.assists == assists
    ensures s.points == goals + assists
    ensures s.plusMinus == plusMinus && s.penaltyMinutes == penaltyMinutes
    ensures s.wins == 0 && s.losses == 0 && s.overtimeLosses == 0 && s.shutouts == 0
  {
    EmptySeasonStats.(year := year, gamesPlayed := gamesPlayed, goals := goals, assists := assists,
      points := goals + assists, plusMinus := plusMinus, penaltyMinutes := penaltyMinutes)
  }

  /** A goalie's season from the goalie form; no points are computed, so they stay at zero. */
  function GoalieLine(year: int, gamesPlayed: int, wins: int, losses: int, overtimeLosses: int, shutouts: int,
                      savePercentage: int, goalsAgainstAverage: int): (s: PlayerSeasonStats)
    ensures s.year == year && s.leagueLevel == Some(Nhl)
    ensures s.gamesPlayed == gamesPlayed && s.wins == wins && s.losses == losses
    ensures s.overtimeLosses == overtimeLosses && s.shutouts == shutouts
    ensures s.savePercentage == savePercentage && s.goalsAgainstAverage == goalsAgainstAverage
    ensures s.goals == 0 && s.assists == 0 && s.points == 0
  {
    EmptySeasonStats.(year := year, gamesPlayed := gamesPlayed, wins := wins, losses := losses,
      overtimeLosses := overtimeLosses, shutouts := shutouts, savePercentage := savePercentage,
      goalsAgainstAverage := goalsAgainstAverage)
  }

  /** The club's season from the team form: two points a win and one an overtime loss. */
  function TeamLine(year: int, gamesPlayed: int, wins: int, losses: int, overtimeLosses: int,
                    goalsFor: int, goalsAgainst: int): (s: TeamSeasonStats)
    ensures s.year == year && s.gamesPlayed == gamesPlayed && s.wins == wins && s.losses == losses
    ensures s.overtimeLosses == overtimeLosses && s.goalsFor == goalsFor && s.goalsAgainst == goalsAgainst
    ensures s.points == 2 * wins + overtimeLosses
    ensures s.penaltyMinutes == 0 && s.shutouts == 0 && s.awards == None
  {
    TeamSeasonStats(year, gamesPlayed, goalsFor, goalsAgainst, 0, wins, losses, overtimeLosses,
      2 * wins + overtimeLosses, 0, None)
  }

  /** Which form the roster menu opens for a player. */
  datatype StatsForm = SkaterForm | GoalieForm

  /** Goalies get the goalie form; every other player, with or without a position, the skater form. */
  function FormFor(p: Player): (f: StatsForm)
    ensures f == GoalieForm <==> p.position == Some(Goalie)
  {
    if p.position == Some(Goalie) then GoalieForm else SkaterForm
  }

  /** A player with `s` saved into the stats history (a missing history starts out empty). */
  function WithSeason(p: Player, s: PlayerSeasonStats): (r: Player)
    ensures r.careerStats == Some(Upserted(p.careerStats.GetOr([]), PlayerYear, s))
    ensures r.(careerStats := p.careerStats) == p
  {
    p.(careerStats := Some(Upserted(p.careerStats.GetOr([]), PlayerYear, s)))
  }

  /** A club with `s` saved into its season history (a missing history starts out empty). */
  function WithTeamSeason(t: Team, s: TeamSeasonStats): (r: Team)
    ensures r.careerStats == Some(Upserted(t.careerStats.GetOr([]), TeamYear, s))
    ensures r.(careerStats := t.careerStats) == t
  {
    t.(careerStats := Some(Upserted(t.careerStats.GetOr([]), TeamYear, s)))
  }

  // ------------------------------------------------------------- saving

  /** Replaces the NHL roster's player at `index` by that player with `s` saved. */
  method SaveToRosterPlayer(tracker: FranchiseTracker, index: nat, s: PlayerSeasonStats)
    requires RosterAt(tracker.teams, tracker.nhlClub).Some? && index < |RosterAt(tracker.teams, tracker.nhlClub).value|
    modifies tracker`teams
    ensures var roster := RosterAt(old(tracker.teams), tracker.nhlClub).value;
      tracker.teams == WithRoster(old(tracker.teams), tracker.nhlClub, roster[index := WithSeason(roster[index], s)])
  {
    var roster := RosterAt(tracker.teams, tracker.nhlClub).value;
    tracker.teams := WithRoster(tracker.teams, tracker.nhlClub, roster[index := WithSeason(roster[index], s)]);
  }

  /**
   * "Save Stats" on the skater form for the NHL roster's player at
   * `index`, with the games, goals, assists, plus-minus and penalty-minute
   * boxes: saves the skater line for the current season. A box that does
   * not parse leaves everything unchanged.
   */
  method SaveSkaterStats(tracker: FranchiseTracker, index: nat, boxes: seq<string>) returns (saved: bool)
    requires |boxes| == 5
    requires RosterAt(tracker.teams, tracker.nhlClub).Some? && index < |RosterAt(tracker.teams, tracker.nhlClub).value|
    modifies tracker`teams
    ensures saved <==> ParseBoxes(boxes).Some?
    ensures !saved ==> tracker.teams == old(tracker.teams)
    ensures saved ==> (
      var v := ParseBoxes(boxes).value;
      var roster := RosterAt(old(tracker.teams), tracker.nhlClub).value;
      var line := SkaterLine(tracker.currentSeason, v[0], v[1], v[2], v[3], v[4]);
      tracker.teams == WithRoster(old(tracker.teams), tracker.nhlClub, roster[index := WithSeason(roster[index], line)]))
  {
    var values := ParseBoxes(boxes);
    if values.None? {
      return false;
    }
    var v := values.value;
    SaveToRosterPlayer(tracker, index, SkaterLine(tracker.currentSeason, v[0], v[1], v[2], v[3], v[4]));
    return true;
  }

  /**
   * "Save Stats" on the goalie form, with the games, wins, losses,
   * overtime-loss, shutout, save-percentage and goals-against boxes.
   */
  method SaveGoalieStats(tracker: FranchiseTracker, index: nat, boxes: seq<string>) returns (saved: bool)
    requires |boxes| == 7
    requires RosterAt(tracker.teams, tracker.nhlClub).Some? && index < |RosterAt(tracker.teams, tracker.nhlClub).value|
    modifies tracker`teams
    ensures saved <==> ParseBoxes(boxes).Some?
    ensures !saved ==> tracker.teams == old(tracker.teams)
    ensures saved ==> (
      var v := ParseBoxes(boxes).value;
      var roster := RosterAt(old(tracker.teams), tracker.nhlClub).value;
      var line := GoalieLine(tracker.currentSeason, v[0], v[1], v[2], v[3], v[4], v[5], v[6]);
      tracker.teams == WithRoster(old(tracker.teams), tracker.nhlClub, roster[index := WithSeason(roster[index], line)]))
  {
    var values := ParseBoxes(boxes);
    if values.None? {
      return false;
    }
    var v := values.value;
    SaveToRosterPlayer(tracker, index, GoalieLine(tracker.currentSeason, v[0], v[1], v[2], v[3], v[4], v[5], v[6]));
    return true;
  }

  /**
   * "Save Stats" on the team form, with the games, wins, losses,
   * overtime-loss, goals-for and goals-against boxes: saves the club line
   * for the current season into the NHL club's own history. The
   * franchise-level team statistics are not touched.
   */
  method SaveTeamStats(tracker: FranchiseTracker, boxes: seq<string>) returns (saved: bool)
    requires |boxes| == 6
    requires tracker.nhlClub.Some? && tracker.nhlClub.value < |tracker.teams|
    modifies tracker`teams
    ensures saved <==> ParseBoxes(boxes).Some?
    ensures !saved ==> tracker.teams == old(tracker.teams)
    ensures saved ==> (
      var v := ParseBoxes(boxes).value;
      var club := tracker.nhlClub.value;
      tracker.teams == old(tracker.teams)[club := WithTeamSeason(old(tracker.teams)[club],
        TeamLine(tracker.currentSeason, v[0], v[1], v[2], v[3], v[4], v[5]))])
    ensures tracker.teamStats == old(tracker.teamStats)
  {
    var values := ParseBoxes(boxes);
    if values.None? {
      return false;
    }
    var v := values.value;
    var club := tracker.nhlClub.value;
    var line := TeamLine(tracker.currentSeason, v[0], v[1], v[2], v[3], v[4], v[5]);
    tracker.teams := tracker.teams[club := WithTeamSeason(tracker.teams[club], line)];
    return true;
  }

  /**
   * What a save does to the saved player: the history has exactly one
   * entry for the current season, the new line, last; points are goals
   * plus assists for a skater line; nothing but the history changes.
   */
  lemma SkaterSaveEffect(p: Player, year: int, v: seq<int>)
    requires |v| == 5
    ensures var line := SkaterLine(year, v[0], v[1], v[2], v[3], v[4]);
      var h := WithSeason(p, line).careerStats.value;
      && h[|h| - 1] == line && line.points == line.goals + line.assists
      && (forall i :: 0 <= i < |h| - 1 ==> h[i].year != year)
      && WithSeason(p, line).(careerStats := p.careerStats) == p
  {
    var line := SkaterLine(year, v[0], v[1], v[2], v[3], v[4]);
    UpsertedShape(p.careerStats.GetOr([]), PlayerYear, line);
  }
}
