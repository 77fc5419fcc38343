/**
 * The franchise wrap-up: the franchise grade, the championship list, the
 * all-time leaders built from the archived NHL rosters, the best seasons,
 * and the draft record.
 */
module FranchiseWrapUp {
  import opened Wrappers
  import opened Seqs
  import opened Sorting
  import opened Players
  import opened Teams
  import opened PlayerSnapshots
  import opened DraftedPlayers
  import opened SeasonSnapshots
  import opened Franchise

  // --------------------------------------------------------------- grade

  /** The wins of the archived seasons that have a team record, added up. */
  function TotalWins(history: seq<SeasonSnapshot>): int
  {
    if history == [] then 0 else TotalWins(history[..|history| - 1]) + history[|history| - 1].Wins()
  }

  /** Seasons whose wins were all recorded as non-negative add up to a non-negative total. */
  lemma {:induction false} TotalWinsNonNegative(history: seq<SeasonSnapshot>)
    requires forall i :: 0 <= i < |history| ==> history[i].Wins() >= 0
    ensures TotalWins(history) >= 0
  {
    if history != [] {
      TotalWinsNonNegative(history[..|history| - 1]);
    }
  }

  /** Twenty points a cup, half a point per average win, two points an award. */
  function GradeScore(cups: nat, totalWins: int, seasons: nat, awardCount: nat): real
    requires seasons > 0
  {
    20.0 * cups as real + (totalWins as real / seasons as real) * 0.5 + 2.0 * awardCount as real
  }

  /** The score each grade above F needs, from D up to S+. */
  const GradeThresholds: seq<real> := [15.0, 30.0, 45.0, 60.0, 80.0, 100.0]

  const GradeLabels: seq<string> :=
    ["F (Poor)", "D (Below Average)", "C (Average)", "B (Good)", "A (Excellent)", "S (Legendary)", "S+ (Dynasty)"]

  /** The grade as a rank, 0 for F up to 6 for S+. */
  function GradeTier(score: real): nat
  {
    if score >= 100.0 then 6
    else if score >= 80.0 then 5
    else if score >= 60.0 then 4
    else if score >= 45.0 then 3
    else if score >= 30.0 then 2
    else if score >= 15.0 then 1
    else 0
  }

  /** The rank is the number of thresholds the score reaches. */
  lemma GradeTierCountsThresholds(score: real)
    ensures GradeTier(score) <= 6
    ensures forall k :: 0 <= k < 6 ==> (GradeTier(score) > k <==> score >= GradeThresholds[k])
  {
  }

  /** A better score never earns a lower grade. */
  lemma GradeTierMonotone(s1: real, s2: real)
    requires s1 <= s2
    ensures GradeTier(s1) <= GradeTier(s2)
  {
  }

  /** No band is wider than a cup's twenty points: one more cup always lifts the grade a step, up to S+. */
  lemma CupLiftsGrade(score: real)
    requires score >= 0.0
    ensures GradeTier(score + 20.0) >= if GradeTier(score) == 6 then 6 else GradeTier(score) + 1
  {
  }

  /**
   * `calculateFranchiseGrade`: "N/A" before any season is archived, and
   * otherwise the label of the score's band.
   */
  function FranchiseGrade(tracker: FranchiseTracker): (grade: string)
    reads tracker`seasonHistory, tracker`leagueAwards
    ensures grade == "N/A" <==> tracker.seasonHistory == []
    ensures tracker.seasonHistory != [] ==> grade in GradeLabels
    ensures tracker.seasonHistory != [] ==>
      grade == GradeLabels[GradeTier(GradeScore(tracker.StanleyCupCount(), TotalWins(tracker.seasonHistory),
                                                |tracker.seasonHistory|, |tracker.leagueAwards|))]
  {
    var history := tracker.seasonHistory;
    if history == [] then "N/A"
    else
      var tier := GradeTier(GradeScore(tracker.StanleyCupCount(), TotalWins(history), |history|, |tracker.leagueAwards|));
      assert GradeLabels[tier] in GradeLabels;
      GradeLabels[tier]
  }

  // -------------------------------------------------------- championships

  predicate SeasonOrder(a: SeasonSnapshot, b: SeasonSnapshot)
  {
    a.season <= b.season
  }

  lemma SeasonOrderIsTotal()
    ensures TotalPreorder(SeasonOrder)
  {
  }

  /** The archived seasons that end with the Stanley Cup, earliest first. */
  function Championships(history: seq<SeasonSnapshot>): (r: seq<SeasonSnapshot>)
    ensures multiset(r) == multiset(Filter(history, WonCup))
    ensures forall i :: 0 <= i < |r| ==> r[i].WonStanleyCup() && r[i] in history
    ensures forall i, j :: 0 <= i < j < |r| ==> r[i].season <= r[j].season
  {
    SeasonOrderIsTotal();
    var cups := Filter(history, WonCup);
    var sorted := SortBy(cups, SeasonOrder);
    forall i | 0 <= i < |sorted|
      ensures sorted[i].WonStanleyCup() && sorted[i] in history
    {
      assert sorted[i] in multiset(cups);
      assert sorted[i] in cups;
    }
    assert forall i, j :: 0 <= i < j < |sorted| ==> SeasonOrder(sorted[i], sorted[j]);
    sorted
  }

  /** The championship list has as many entries as the cup count on the summary. */
  lemma ChampionshipsCounted(tracker: FranchiseTracker)
    ensures |Championships(tracker.seasonHistory)| == tracker.StanleyCupCount()
  {
    var r := Championships(tracker.seasonHistory);
    assert |r| == |multiset(r)|;
    assert |Filter(tracker.seasonHistory, WonCup)| == |multiset(Filter(tracker.seasonHistory, WonCup))|;
  }

  // ------------------------------------------------------------- leaders

  /** Career games, goals, assists and points. */
  datatype Totals = Totals(gamesPlayed: int, goals: int, assists: int, points: int)

  const NoTotals: Totals := Totals(0, 0, 0, 0)

  function Plus(a: Totals, b: Totals): Totals
  {
    Totals(a.gamesPlayed + b.gamesPlayed, a.goals + b.goals, a.assists + b.assists, a.points + b.points)
  }

  lemma PlusAssociative(a: Totals, b: Totals, c: Totals)
    ensures Plus(Plus(a, b), c) == Plus(a, Plus(b, c))
  {
  }

  /** The part of a season line the leaders count. */
  function LineTotals(s: PlayerSeasonStats): Totals
  {
    Totals(s.gamesPlayed, s.goals, s.assists, s.points)
  }

  /** A name's totals so far: nothing for a name not seen yet. */
  function TotalsOf(m: map<string, Totals>, name: string): Totals
  {
    if name in m then m[name] else NoTotals
  }

  /** One snapshot line: a player with a season line adds it to the totals kept under the player's full name. */
  function AddLine(m: map<string, Totals>, ps: PlayerSnapshot): map<string, Totals>
  {
    if ps.seasonStats.None? then m
    else m[ps.FullName() := Plus(TotalsOf(m, ps.FullName()), LineTotals(ps.seasonStats.value))]
  }

  function AddRoster(m: map<string, Totals>, roster: seq<PlayerSnapshot>): map<string, Totals>
  {
    if roster == [] then m else AddLine(AddRoster(m, roster[..|roster| - 1]), roster[|roster| - 1])
  }

  /** The totals by full name over every archived NHL roster, season by season. */
  function CareerTotals(history: seq<SeasonSnapshot>): map<string, Totals>
  {
    if history == [] then map[]
    else AddRoster(CareerTotals(history[..|history| - 1]), history[|history| - 1].nhlRoster)
  }

  /** Whether a snapshot line counts towards the name's totals. */
  predicate CountsFor(ps: PlayerSnapshot, name: string)
  {
    ps.seasonStats.Some? && ps.FullName() == name
  }

  /** Reference totals for one name: the sum of every line of a roster that counts for it. */
  function RosterSum(roster: seq<PlayerSnapshot>, name: string): Totals
  {
    if roster == [] then NoTotals
    else
      var last := roster[|roster| - 1];
      Plus(RosterSum(roster[..|roster| - 1], name),
           if CountsFor(last, name) then LineTotals(last.seasonStats.value) else NoTotals)
  }

  function HistorySum(history: seq<SeasonSnapshot>, name: string): Totals
  {
    if history == [] then NoTotals
    else Plus(HistorySum(history[..|history| - 1], name), RosterSum(history[|history| - 1].nhlRoster, name))
  }

  /** One line changes only the totals of the name it counts for, by that line. */
  lemma AddLineEffect(m: map<string, Totals>, ps: PlayerSnapshot, name: string)
    ensures TotalsOf(AddLine(m, ps), name) ==
      Plus(TotalsOf(m, name), if CountsFor(ps, name) then LineTotals(ps.seasonStats.value) else NoTotals)
    ensures name in AddLine(m, ps) <==> name in m || CountsFor(ps, name)
  {
    if ps.seasonStats.Some? {
      var key := ps.FullName();
      var m' := m[key := Plus(TotalsOf(m, key), LineTotals(ps.seasonStats.value))];
      assert AddLine(m, ps) == m';
      if key == name {
        assert TotalsOf(m', name) == m'[key];
      } else {
        assert name in m' <==> name in m;
        assert TotalsOf(m', name) == TotalsOf(m, name);
      }
    }
  }

  /** Some line of the roster counts for the name. */
  predicate Lists(roster: seq<PlayerSnapshot>, name: string)
  {
    exists i :: 0 <= i < |roster| && CountsFor(roster[i], name)
  }

  lemma ListsSplit(roster: seq<PlayerSnapshot>, name: string)
    requires roster != []
    ensures Lists(roster, name) <==> Lists(roster[..|roster| - 1], name) || CountsFor(roster[|roster| - 1], name)
  {
    var init := roster[..|roster| - 1];
    if Lists(roster, name) {
      var i :| 0 <= i < |roster| && CountsFor(roster[i], name);
      if i < |init| {
        assert CountsFor(init[i], name);
      }
    }
    if Lists(init, name) {
      var i :| 0 <= i < |init| && CountsFor(init[i], name);
      assert CountsFor(roster[i], name);
    }
  }

  /** Folding a roster into the totals adds exactly the roster's lines for each name. */
  lemma {:induction false} AddRosterSums(m: map<string, Totals>, roster: seq<PlayerSnapshot>, name: string)
    ensures TotalsOf(AddRoster(m, roster), name) == Plus(TotalsOf(m, name), RosterSum(roster, name))
  {
    if roster != [] {
      var init := roster[..|roster| - 1];
      var last := roster[|roster| - 1];
      var line := if CountsFor(last, name) then LineTotals(last.seasonStats.value) else NoTotals;
      AddRosterSums(m, init, name);
      AddLineEffect(AddRoster(m, init), last, name);
      PlusAssociative(TotalsOf(m, name), RosterSum(init, name), line);
    }
  }

  /** Folding a roster gives totals to exactly the names some line of it counts for. */
  lemma {:induction false} AddRosterKeys(m: map<string, Totals>, roster: seq<PlayerSnapshot>, name: string)
    ensures name in AddRoster(m, roster) <==> name in m || Lists(roster, name)
  {
    if roster != [] {
      var init := roster[..|roster| - 1];
      AddRosterKeys(m, init, name);
      AddLineEffect(AddRoster(m, init), roster[|roster| - 1], name);
      ListsSplit(roster, name);
    }
  }

  /** Some archived NHL roster lists the name with a season line. */
  predicate EverListed(history: seq<SeasonSnapshot>, name: string)
  {
    exists k :: 0 <= k < |history| && Lists(history[k].nhlRoster, name)
  }

  lemma EverListedSplit(history: seq<SeasonSnapshot>, name: string)
    requires history != []
    ensures EverListed(history, name) <==>
      EverListed(history[..|history| - 1], name) || Lists(history[|history| - 1].nhlRoster, name)
  {
    var init := history[..|history| - 1];
    if EverListed(history, name) {
      var k :| 0 <= k < |history| && Lists(history[k].nhlRoster, name);
      if k < |init| {
        assert Lists(init[k].nhlRoster, name);
      }
    }
    if EverListed(init, name) {
      var k :| 0 <= k < |init| && Lists(init[k].nhlRoster, name);
      assert Lists(history[k].nhlRoster, name);
    }
  }

  /**
   * The all-time totals: a name has totals exactly when some archived NHL
   * roster lists a player of that name with a season line (AHL rosters
   * and lines without statistics add nothing), and the totals are the sum
   * of all those lines; players with the same name are counted together.
   */
  lemma {:induction false} CareerTotalsAreSums(history: seq<SeasonSnapshot>, name: string)
    ensures TotalsOf(CareerTotals(history), name) == HistorySum(history, name)
    ensures name in CareerTotals(history) <==> EverListed(history, name)
  {
    if history != [] {
      var init := history[..|history| - 1];
      var last := history[|history| - 1];
      CareerTotalsAreSums(init, name);
      AddRosterSums(CareerTotals(init), last.nhlRoster, name);
      AddRosterKeys(CareerTotals(init), last.nhlRoster, name);
      EverListedSplit(history, name);
    }
  }

  /**
   * The leaders fold: walks every archived season's NHL roster and adds
   * each line with statistics to the totals of the player's full name.
   * `names` lists each name with totals once, in the order first seen.
   */
  method CollectCareerTotals(history: seq<SeasonSnapshot>) returns (totals: map<string, Totals>, names: seq<string>)
    ensures totals == CareerTotals(history)
    ensures forall n :: n in totals <==> n in names
    ensures forall i, j :: 0 <= i < j < |names| ==> names[i] != names[j]
  {
    totals := map[];
    names := [];
    var k := 0;
    while k < |history|
      invariant 0 <= k <= |history|
      invariant totals == CareerTotals(history[..k])
      invariant forall n :: n in totals <==> n in names
      invariant forall i, j :: 0 <= i < j < |names| ==> names[i] != names[j]
    {
      var roster := history[k].nhlRoster;
      ghost var before := totals;
      var i := 0;
      while i < |roster|
        invariant 0 <= i <= |roster|
        invariant totals == AddRoster(before, roster[..i])
        invariant forall n :: n in totals <==> n in names
        invariant forall a, b :: 0 <= a < b < |names| ==> names[a] != names[b]
      {
        var ps := roster[i];
        if ps.seasonStats.Some? {
          var name := ps.FullName();
          if name !in totals {
            names := names + [name];
          }
          totals := totals[name := Plus(TotalsOf(totals, name), LineTotals(ps.seasonStats.value))];
        }
        assert roster[..i + 1][..i] == roster[..i];
        i := i + 1;
      }
      assert roster[..|roster|] == roster;
      assert history[..k + 1][..k] == history[..k];
      k := k + 1;
    }
    assert history[..|history|] == history;
  }

  /** A name on the leader board with its totals. */
  datatype Leader = Leader(name: string, totals: Totals)

  function LeaderEntries(totals: map<string, Totals>, names: seq<string>): (r: seq<Leader>)
    requires forall i :: 0 <= i < |names| ==> names[i] in totals
    ensures |r| == |names| && forall i :: 0 <= i < |names| ==> r[i] == Leader(names[i], totals[names[i]])
  {
    seq(|names|, i requires 0 <= i < |names| => Leader(names[i], totals[names[i]]))
  }

  predicate MorePoints(a: Leader, b: Leader)
  {
    a.totals.points >= b.totals.points
  }

  predicate MoreGoals(a: Leader, b: Leader)
  {
    a.totals.goals >= b.totals.goals
  }

  lemma LeaderOrdersAreTotal()
    ensures TotalPreorder(MorePoints) && TotalPreorder(MoreGoals)
  {
  }

  /** The points leaders: at most ten entries, most points first, nobody left off ahead of anybody listed. */
  function PointsLeaders(entries: seq<Leader>): (r: seq<Leader>)
    ensures |r| == if |entries| < 10 then |entries| else 10
    ensures forall e :: e in r ==> e in entries
    ensures multiset(r) <= multiset(entries)
    ensures |entries| <= 10 ==> multiset(r) == multiset(entries)
    ensures forall i, j :: 0 <= i < j < |r| ==> r[i].totals.points >= r[j].totals.points
    ensures forall e, i :: e in entries && e !in r && 0 <= i < |r| ==> r[i].totals.points >= e.totals.points
  {
    LeaderOrdersAreTotal();
    var r := TopBy(entries, MorePoints, 10);
    assert forall e, i :: e in entries && e !in r && 0 <= i < |r| ==> MorePoints(r[i], e);
    assert forall i, j :: 0 <= i < j < |r| ==> MorePoints(r[i], r[j]);
    r
  }

  /** The goals leaders: at most five entries, most goals first, nobody left off ahead of anybody listed. */
  function GoalsLeaders(entries: seq<Leader>): (r: seq<Leader>)
    ensures |r| == if |entries| < 5 then |entries| else 5
    ensures forall e :: e in r ==> e in entries
    ensures multiset(r) <= multiset(entries)
    ensures |entries| <= 5 ==> multiset(r) == multiset(entries)
    ensures forall i, j :: 0 <= i < j < |r| ==> r[i].totals.goals >= r[j].totals.goals
    ensures forall e, i :: e in entries && e !in r && 0 <= i < |r| ==> r[i].totals.goals >= e.totals.goals
  {
    LeaderOrdersAreTotal();
    var r := TopBy(entries, MoreGoals, 5);
    assert forall e, i :: e in entries && e !in r && 0 <= i < |r| ==> MoreGoals(r[i], e);
    assert forall i, j :: 0 <= i < j < |r| ==> MoreGoals(r[i], r[j]);
    r
  }

  /** A board entry carries its name's totals. */
  predicate Carries(totals: map<string, Totals>, e: Leader)
  {
    e.name in totals && e.totals == totals[e.name]
  }

  /** Every name with totals has an entry, and every entry carries its name's totals. */
  lemma EntriesCoverTotals(totals: map<string, Totals>, names: seq<string>)
    requires forall n :: n in totals <==> n in names
    ensures forall e :: e in LeaderEntries(totals, names) ==> Carries(totals, e)
    ensures forall n :: n in totals ==> Leader(n, totals[n]) in LeaderEntries(totals, names)
  {
    var entries := LeaderEntries(totals, names);
    forall n | n in totals
      ensures Leader(n, totals[n]) in entries
    {
      var k :| 0 <= k < |names| && names[k] == n;
      assert entries[k] == Leader(n, totals[n]);
    }
  }

  /**
   * What the points board shows, given the totals by name: at most ten
   * entries, most points first, each carrying its name's totals, no name
   * twice; nobody left off has more points than anybody on it, and a board
   * shorter than ten lists everybody.
   */
  predicate IsPointsBoard(totals: map<string, Totals>, board: seq<Leader>)
  {
    && |board| <= 10
    && (forall e :: e in board ==> Carries(totals, e))
    && (forall i, j :: 0 <= i < j < |board| ==> board[i].name != board[j].name)
    && (forall i, j :: 0 <= i < j < |board| ==> board[i].totals.points >= board[j].totals.points)
    && (forall n, i :: n in totals && Leader(n, totals[n]) !in board && 0 <= i < |board| ==>
          board[i].totals.points >= totals[n].points)
    && (|board| < 10 ==> forall n :: n in totals ==> Leader(n, totals[n]) in board)
  }

  /** The goals board, as for points, with at most five entries. */
  predicate IsGoalsBoard(totals: map<string, Totals>, board: seq<Leader>)
  {
    && |board| <= 5
    && (forall e :: e in board ==> Carries(totals, e))
    && (forall i, j :: 0 <= i < j < |board| ==> board[i].name != board[j].name)
    && (forall i, j :: 0 <= i < j < |board| ==> board[i].totals.goals >= board[j].totals.goals)
    && (forall n, i :: n in totals && Leader(n, totals[n]) !in board && 0 <= i < |board| ==>
          board[i].totals.goals >= totals[n].goals)
    && (|board| < 5 ==> forall n :: n in totals ==> Leader(n, totals[n]) in board)
  }

  lemma PointsBoard(totals: map<string, Totals>, names: seq<string>)
    requires forall n :: n in totals <==> n in names
    requires forall i, j :: 0 <= i < j < |names| ==> names[i] != names[j]
    ensures IsPointsBoard(totals, PointsLeaders(LeaderEntries(totals, names)))
  {
    var entries := LeaderEntries(totals, names);
    var board := PointsLeaders(entries);
    EntriesCoverTotals(totals, names);
    assert forall i, j :: 0 <= i < j < |entries| ==> entries[i] != entries[j];
    forall i, j | 0 <= i < j < |board|
      ensures board[i].name != board[j].name
    {
      DistinctOnce(entries, board[i]);
      OnceAtOnePlace(board, i, j);
      assert board[i] in board && board[j] in board;
    }
    if |board| < 10 {
      forall n | n in totals
        ensures Leader(n, totals[n]) in board
      {
        assert Leader(n, totals[n]) in multiset(entries);
      }
    }
  }

  lemma GoalsBoard(totals: map<string, Totals>, names: seq<string>)
    requires forall n :: n in totals <==> n in names
    requires forall i, j :: 0 <= i < j < |names| ==> names[i] != names[j]
    ensures IsGoalsBoard(totals, GoalsLeaders(LeaderEntries(totals, names)))
  {
    var entries := LeaderEntries(totals, names);
    var board := GoalsLeaders(entries);
    EntriesCoverTotals(totals, names);
    assert forall i, j :: 0 <= i < j < |entries| ==> entries[i] != entries[j];
    forall i, j | 0 <= i < j < |board|
      ensures board[i].name != board[j].name
    {
      DistinctOnce(entries, board[i]);
      OnceAtOnePlace(board, i, j);
      assert board[i] in board && board[j] in board;
    }
    if |board| < 5 {
      forall n | n in totals
        ensures Leader(n, totals[n]) in board
      {
        assert Leader(n, totals[n]) in multiset(entries);
      }
    }
  }

  /**
   * The leaders section: the career totals of every name over the
   * archived NHL rosters, then the points board and the goals board.
   */
  method AllTimeLeaders(history: seq<SeasonSnapshot>) returns (byPoints: seq<Leader>, byGoals: seq<Leader>)
    ensures IsPointsBoard(CareerTotals(history), byPoints)
    ensures IsGoalsBoard(CareerTotals(history), byGoals)
  {
    var totals, names := CollectCareerTotals(history);
    PointsBoard(totals, names);
    GoalsBoard(totals, names);
    var entries := LeaderEntries(totals, names);
    byPoints := PointsLeaders(entries);
    byGoals := GoalsLeaders(entries);
  }

  // --------------------------------------------------------- best seasons

  predicate HasTeamRecord(s: SeasonSnapshot)
  {
    s.teamStats.Some?
  }

  predicate MoreSeasonPoints(a: SeasonSnapshot, b: SeasonSnapshot)
  {
    a.Points() >= b.Points()
  }

  predicate MoreSeasonWins(a: SeasonSnapshot, b: SeasonSnapshot)
  {
    a.Wins() >= b.Wins()
  }

  lemma SeasonOrdersAreTotal()
    ensures TotalPreorder(MoreSeasonPoints) && TotalPreorder(MoreSeasonWins)
  {
  }

  lemma RecordedSeasons(history: seq<SeasonSnapshot>)
    ensures forall s :: s in Filter(history, HasTeamRecord) <==> s in history && s.teamStats.Some?
  {
    forall s
      ensures s in Filter(history, HasTeamRecord) <==> s in history && s.teamStats.Some?
    {
      FilterHas(history, HasTeamRecord, s);
    }
  }

  /** The best five seasons by points among the seasons with a team record. */
  function BestByPoints(history: seq<SeasonSnapshot>): (r: seq<SeasonSnapshot>)
    ensures |r| == if |Filter(history, HasTeamRecord)| < 5 then |Filter(history, HasTeamRecord)| else 5
    ensures forall s :: s in r ==> s in history && s.teamStats.Some?
    ensures multiset(r) <= multiset(history)
  {
    SeasonOrdersAreTotal();
    RecordedSeasons(history);
    FilterSubMultiset(history, HasTeamRecord);
    TopBy(Filter(history, HasTeamRecord), MoreSeasonPoints, 5)
  }

  /** The best seasons by points are listed most points first, and no season left off has more points than one listed. */
  lemma BestByPointsRanked(history: seq<SeasonSnapshot>)
    ensures forall i, j :: 0 <= i < j < |BestByPoints(history)| ==>
      BestByPoints(history)[i].teamStats.value.points >= BestByPoints(history)[j].teamStats.value.points
    ensures forall s, i :: s in history && s.teamStats.Some? && s !in BestByPoints(history) && 0 <= i < |BestByPoints(history)| ==>
      BestByPoints(history)[i].teamStats.value.points >= s.teamStats.value.points
  {
    SeasonOrdersAreTotal();
    var recorded := Filter(history, HasTeamRecord);
    var r := BestByPoints(history);
    assert r == TopBy(recorded, MoreSeasonPoints, 5);
    forall i, j | 0 <= i < j < |r|
      ensures r[i].teamStats.value.points >= r[j].teamStats.value.points
    {
      assert MoreSeasonPoints(r[i], r[j]);
    }
    forall s, i | s in history && s.teamStats.Some? && s !in r && 0 <= i < |r|
      ensures r[i].teamStats.value.points >= s.teamStats.value.points
    {
      FilterHas(history, HasTeamRecord, s);
      assert MoreSeasonPoints(r[i], s);
    }
  }

  /** The best five seasons by wins among the seasons with a team record. */
  function BestByWins(history: seq<SeasonSnapshot>): (r: seq<SeasonSnapshot>)
    ensures |r| == if |Filter(history, HasTeamRecord)| < 5 then |Filter(history, HasTeamRecord)| else 5
    ensures forall s :: s in r ==> s in history && s.teamStats.Some?
    ensures multiset(r) <= multiset(history)
  {
    SeasonOrdersAreTotal();
    RecordedSeasons(history);
    FilterSubMultiset(history, HasTeamRecord);
    TopBy(Filter(history, HasTeamRecord), MoreSeasonWins, 5)
  }

  /** The best seasons by wins are listed most wins first, and no season left off has more wins than one listed. */
  lemma BestByWinsRanked(history: seq<SeasonSnapshot>)
    ensures forall i, j :: 0 <= i < j < |BestByWins(history)| ==>
      BestByWins(history)[i].teamStats.value.wins >= BestByWins(history)[j].teamStats.value.wins
    ensures forall s, i :: s in history && s.teamStats.Some? && s !in BestByWins(history) && 0 <= i < |BestByWins(history)| ==>
      BestByWins(history)[i].teamStats.value.wins >= s.teamStats.value.wins
  {
    SeasonOrdersAreTotal();
    var recorded := Filter(history, HasTeamRecord);
    var r := BestByWins(history);
    assert r == TopBy(recorded, MoreSeasonWins, 5);
    forall i, j | 0 <= i < j < |r|
      ensures r[i].teamStats.value.wins >= r[j].teamStats.value.wins
    {
      assert MoreSeasonWins(r[i], r[j]);
    }
    forall s, i | s in history && s.teamStats.Some? && s !in r && 0 <= i < |r|
      ensures r[i].teamStats.value.wins >= s.teamStats.value.wins
    {
      FilterHas(history, HasTeamRecord, s);
      assert MoreSeasonWins(r[i], s);
    }
  }

  // ---------------------------------------------------------- draft record

  predicate IsSigned(d: DraftedPlayer)
  {
    d.signedToContract
  }

  predicate MadeNhl(d: DraftedPlayer)
  {
    d.madeNhl
  }

  predicate FirstRounder(d: DraftedPlayer)
  {
    d.round == 1
  }

  predicate DraftYearOrder(a: DraftedPlayer, b: DraftedPlayer)
  {
    a.year <= b.year
  }

  lemma DraftYearOrderIsTotal()
    ensures TotalPreorder(DraftYearOrder)
  {
  }

  /** "Signed to Contract": how many draftees are signed. */
  function SignedCount(drafted: seq<DraftedPlayer>): (n: nat)
    ensures n <= |drafted|
    ensures n == 0 <==> forall i :: 0 <= i < |drafted| ==> !drafted[i].signedToContract
  {
    var signed := Filter(drafted, IsSigned);
    assert signed != [] ==> signed[0] in drafted && IsSigned(signed[0]);
    |signed|
  }

  /** "Made NHL Roster": how many draftees reached the NHL. */
  function NhlCount(drafted: seq<DraftedPlayer>): (n: nat)
    ensures n <= |drafted|
    ensures n == 0 <==> forall i :: 0 <= i < |drafted| ==> !drafted[i].madeNhl
  {
    var made := Filter(drafted, MadeNhl);
    assert made != [] ==> made[0] in drafted && MadeNhl(made[0]);
    |made|
  }

  /** The signed draftees and the unsigned ones the draft manager lists make up the whole draft record. */
  lemma SignedAndUnsignedSplit(tracker: FranchiseTracker)
    ensures SignedCount(tracker.draftPicks) + |tracker.UnsignedDraftees()| == |tracker.draftPicks|
  {
    FilterComplement(tracker.draftPicks, IsSigned, Unsigned);
  }

  /** The draftees taken in the first round, by draft year. */
  function FirstRoundPicks(drafted: seq<DraftedPlayer>): (r: seq<DraftedPlayer>)
    ensures multiset(r) == multiset(Filter(drafted, FirstRounder))
    ensures forall i :: 0 <= i < |r| ==> r[i].round == 1 && r[i] in drafted
    ensures forall i, j :: 0 <= i < j < |r| ==> r[i].year <= r[j].year
  {
    DraftYearOrderIsTotal();
    var firsts := Filter(drafted, FirstRounder);
    var sorted := SortBy(firsts, DraftYearOrder);
    forall i | 0 <= i < |sorted|
      ensures sorted[i].round == 1 && sorted[i] in drafted
    {
      assert sorted[i] in multiset(firsts);
      assert sorted[i] in firsts;
    }
    assert forall i, j :: 0 <= i < j < |sorted| ==> DraftYearOrder(sorted[i], sorted[j]);
    sorted
  }

  /** The draftees who reached the NHL, by draft year. */
  function NhlGraduates(drafted: seq<DraftedPlayer>): (r: seq<DraftedPlayer>)
    ensures multiset(r) == multiset(Filter(drafted, MadeNhl))
    ensures forall i :: 0 <= i < |r| ==> r[i].madeNhl && r[i] in drafted
    ensures forall i, j :: 0 <= i < j < |r| ==> r[i].year <= r[j].year
  {
    DraftYearOrderIsTotal();
    var made := Filter(drafted, MadeNhl);
    var sorted := SortBy(made, DraftYearOrder);
    forall i | 0 <= i < |sorted|
      ensures sorted[i].madeNhl && sorted[i] in drafted
    {
      assert sorted[i] in multiset(made);
      assert sorted[i] in made;
    }
    assert forall i, j :: 0 <= i < j < |sorted| ==> DraftYearOrder(sorted[i], sorted[j]);
    sorted
  }
}
