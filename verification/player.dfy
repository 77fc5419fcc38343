/** Players, their positions and their per-season statistics. */
module Players {
  import opened Wrappers
  import opened Contracts
  import opened PlayerPotential

  /** The six positions the roster CSV names. */
  datatype Position = Center | LeftWing | RightWing | LeftDefense | RightDefense | Goalie
  {
    /** The Java constant's `name()`. */
    function Name(): string
    {
      match this
      case Center => "CENTER"
      case LeftWing => "LEFT_WING"
      case RightWing => "RIGHT_WING"
      case LeftDefense => "LEFT_DEFENSE"
      case RightDefense => "RIGHT_DEFENSE"
      case Goalie => "GOALIE"
    }
  }

  /** `PLAYER_POS.valueOf`: the position with that name, or `None` for an unknown name. */
  function ParsePosition(name: string): (r: Option<Position>)
    ensures r.Some? ==> r.value.Name() == name
  {
    match name
    case "CENTER" => Some(Center)
    case "LEFT_WING" => Some(LeftWing)
    case "RIGHT_WING" => Some(RightWing)
    case "LEFT_DEFENSE" => Some(LeftDefense)
    case "RIGHT_DEFENSE" => Some(RightDefense)
    case "GOALIE" => Some(Goalie)
    case _ => None
  }

  /** A position's name reads back as that position. */
  lemma ParsePositionName(p: Position)
    ensures ParsePosition(p.Name()) == Some(p)
  {
  }

  /** A playing style or an X-factor ability, known here only by its constant name. */
  datatype PlayerStyle = PlayerStyle(name: string)
  datatype XFactor = XFactor(name: string)

  /** The league a season of statistics was played in. */
  datatype LeagueLevel = Nhl | Ahl | Echl | Chl | Ncaa | Europe | Other
  {
    function DisplayName(): string
    {
      match this
      case Nhl => "NHL"
      case Ahl => "AHL"
      case Echl => "ECHL"
      case Chl => "CHL"
      case Ncaa => "NCAA"
      case Europe => "Europe"
      case Other => "Other"
    }

    function Description(): string
    {
      match this
      case Nhl => "National Hockey League"
      case Ahl => "American Hockey League"
      case Echl => "East Coast Hockey League"
      case Chl => "Canadian Hockey League"
      case Ncaa => "NCAA College Hockey"
      case Europe => "European Leagues"
      case Other => "Other Leagues"
    }
  }

  /** One season of a player's statistics; skaters use the scoring fields, goalies the goaltending ones. */
  datatype PlayerSeasonStats = PlayerSeasonStats(
    year: int,
    leagueLevel: Option<LeagueLevel>,
    gamesPlayed: int,
    goals: int,
    assists: int,
    points: int,
    plusMinus: int,
    penaltyMinutes: int,
    wins: int,
    losses: int,
    overtimeLosses: int,
    shutouts: int,
    savePercentage: int,
    goalsAgainstAverage: int,
    overallAtEndOfSeason: int)

  /** `new PlayerSeasonStats()`: an NHL season with every count at zero. */
  const EmptySeasonStats: PlayerSeasonStats :=
    PlayerSeasonStats(0, Some(Nhl), 0, 0, 0, 0, 0, 0, 0, 0, 0, 0, 0, 0, 0)

  datatype Player = Player(
    firstName: string,
    lastName: string,
    overall: int,
    age: int,
    position: Option<Position>,
    style: Option<PlayerStyle>,
    xFactors: Option<seq<XFactor>>,
    careerStats: Option<seq<PlayerSeasonStats>>,
    contract: Option<Contract>,
    potential: Option<Potential>,
    potentialAccuracy: Option<PotentialAccuracy>,
    draftYear: int,
    draftRound: int,
    draftOverallPick: int)
  {
    function FullName(): string
    {
      firstName + " " + lastName
    }

    predicate IsGoalie()
    {
      position == Some(Goalie)
    }

    /** What the player counts against the cap: the contract's AAV, or nothing without a contract. */
    function CapHit(): real
    {
      if contract.Some? then contract.value.aav else 0.0
    }

    function ContractYearsRemaining(): int
    {
      if contract.Some? then contract.value.termInYears else 0
    }
  }

  /** `new Player()` with the two names set and everything else at its default. */
  function NamedPlayer(firstName: string, lastName: string): (p: Player)
    ensures p.firstName == firstName && p.lastName == lastName
    ensures p.contract == None && p.careerStats == None && p.position == None && p.potential == None
    ensures p.CapHit() == 0.0 && p.ContractYearsRemaining() == 0
  {
    Player(firstName, lastName, 0, 0, None, None, None, None, None, None, None, 0, 0, 0)
  }

  /** A player's full name is the first name, one space, and the last name. */
  lemma FullNameParts(p: Player)
    ensures |p.FullName()| == |p.firstName| + 1 + |p.lastName|
    ensures p.FullName()[..|p.firstName|] == p.firstName
    ensures p.FullName()[|p.firstName|] == ' '
    ensures p.FullName()[|p.firstName| + 1..] == p.lastName
  {
  }
}
