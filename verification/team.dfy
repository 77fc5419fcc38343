/** Clubs, their awards, season records and lines. */
module Teams {
  import opened Wrappers
  import opened Players
  import opened DraftPicks

  datatype AwardType =
    | StanleyCup | PresidentsTrophy | HartTrophy | NorrisTrophy | VezinaTrophy | CalderTrophy
    | ConnSmypheTrophy | LadyByngTrophy | SelkeTrophy | MastersonTrophy | JackAdamsAward
    | BillMastersonTrophy | TedLindseyAward | KingClancyTrophy

  datatype AwardCategory = TeamAward | PlayerAward

  /** An award won in a season, by a player or by a club. */
  datatype Award = Award(
    year: int,
    recipientType: Option<AwardCategory>,
    player: Option<Player>,
    team: Option<Team>,
    award: Option<AwardType>)

  /** One season of a club's results. */
  datatype TeamSeasonStats = TeamSeasonStats(
    year: int,
    gamesPlayed: int,
    goalsFor: int,
    goalsAgainst: int,
    penaltyMinutes: int,
    wins: int,
    losses: int,
    overtimeLosses: int,
    points: int,
    shutouts: int,
    awards: Option<seq<Award>>)

  /** The players dressed in the forward, defence and goalie slots. */
  datatype Lineup = Lineup(
    forwards: Option<seq<Player>>,
    defensemen: Option<seq<Player>>,
    goalies: Option<seq<Player>>)

  /** A club; the franchise owns one NHL club and its AHL affiliate. */
  datatype Team = Team(
    name: string,
    offOverall: int,
    defOverall: int,
    goalOverall: int,
    roster: Option<seq<Player>>,
    awards: Option<seq<Award>>,
    draftPicks: Option<seq<DraftPick>>,
    careerStats: Option<seq<TeamSeasonStats>>,
    lineup: Option<Lineup>,
    isAhl: bool)
}
