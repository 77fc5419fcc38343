/** The scouting enums: the potential tiers and how sure the scouts are of them. */
module PlayerPotential {
  import opened Wrappers

  /** A player's projected ceiling; the first nine tiers are for skaters, the last five for goalies. */
  datatype Potential =
    | Franchise | Elite | Top6F | Top4D | Top9F | Top6D | Bottom6F | BottomPairD | Ahl
    | FranchiseG | EliteG | Starter | Backup | AhlG
  {
    /** The Java constant's `name()`, as written to and read from the roster CSV. */
    function Name(): string
    {
      match this
      case Franchise => "FRANCHISE"
      case Elite => "ELITE"
      case Top6F => "TOP_6F"
      case Top4D => "TOP_4D"
      case Top9F => "TOP_9F"
      case Top6D => "TOP_6D"
      case Bottom6F => "BOTTOM_6F"
      case BottomPairD => "BOTTOM_PAIR_D"
      case Ahl => "AHL"
      case FranchiseG => "FRANCHISE_G"
      case EliteG => "ELITE_G"
      case Starter => "STARTER"
      case Backup => "BACKUP"
      case AhlG => "AHL_G"
    }

    function DisplayName(): string
    {
      match this
      case Franchise => "Franchise"
      case Elite => "Elite"
      case Top6F => "Top 6 Forward"
      case Top4D => "Top 4 Defenseman"
      case Top9F => "Top 9 Forward"
      case Top6D => "Top 6 Defenseman"
      case Bottom6F => "Bottom 6 Forward"
      case BottomPairD => "Bottom Pair Defenseman"
      case Ahl => "AHL"
      case FranchiseG => "Franchise Goalie"
      case EliteG => "Elite Goalie"
      case Starter => "Starter"
      case Backup => "Backup"
      case AhlG => "AHL Goalie"
    }

    function Description(): string
    {
      match this
      case Franchise => "Generational talent, potential for Hart Trophy contention"
      case Elite => "All-Star caliber, top-line player"
      case Top6F => "Consistent scoring forward, power play contributor"
      case Top4D => "Reliable two-way defenseman, big minutes"
      case Top9F => "Solid middle-six forward"
      case Top6D => "Depth defenseman with upside"
      case Bottom6F => "Checking line / energy player"
      case BottomPairD => "Depth defenseman"
      case Ahl => "Career minor leaguer"
      case FranchiseG => "Vezina-caliber, number one for a decade"
      case EliteG => "Clear starter, All-Star potential"
      case Starter => "Reliable NHL starter"
      case Backup => "Quality NHL backup"
      case AhlG => "Minor league goalie"
    }
  }

  /** `values()`: every tier in declaration order. */
  const Potentials: seq<Potential> :=
    [Franchise, Elite, Top6F, Top4D, Top9F, Top6D, Bottom6F, BottomPairD, Ahl,
     FranchiseG, EliteG, Starter, Backup, AhlG]

  /** The tiers offered for skaters: the nine skater tiers in declaration order. */
  function SkaterPotentials(): (r: seq<Potential>)
    ensures r == Potentials[..9]
  {
    [Franchise, Elite, Top6F, Top4D, Top9F, Top6D, Bottom6F, BottomPairD, Ahl]
  }

  /** The tiers offered for goalies: the five goalie tiers in declaration order. */
  function GoaliePotentials(): (r: seq<Potential>)
    ensures r == Potentials[9..]
  {
    [FranchiseG, EliteG, Starter, Backup, AhlG]
  }

  /** Skater and goalie tiers are disjoint and together are all fourteen tiers. */
  lemma SkaterGoalieTiersPartition(p: Potential)
    ensures |Potentials| == 14 && |SkaterPotentials()| == 9 && |GoaliePotentials()| == 5
    ensures SkaterPotentials() + GoaliePotentials() == Potentials
    ensures p in SkaterPotentials() <==> p !in GoaliePotentials()
  {
    assert Potentials == Potentials[..9] + Potentials[9..];
  }

  /** `PLAYER_POTENTIAL.valueOf`: the tier with that name, or `None` for the exception an unknown name raises. */
  function ParsePotential(name: string): (r: Option<Potential>)
    ensures r.Some? ==> r.value.Name() == name
  {
    match name
    case "FRANCHISE" => Some(Franchise)
    case "ELITE" => Some(Elite)
    case "TOP_6F" => Some(Top6F)
    case "TOP_4D" => Some(Top4D)
    case "TOP_9F" => Some(Top9F)
    case "TOP_6D" => Some(Top6D)
    case "BOTTOM_6F" => Some(Bottom6F)
    case "BOTTOM_PAIR_D" => Some(BottomPairD)
    case "AHL" => Some(Ahl)
    case "FRANCHISE_G" => Some(FranchiseG)
    case "ELITE_G" => Some(EliteG)
    case "STARTER" => Some(Starter)
    case "BACKUP" => Some(Backup)
    case "AHL_G" => Some(AhlG)
    case _ => None
  }

  /** A tier's name reads back as that tier. */
  lemma ParsePotentialName(p: Potential)
    ensures ParsePotential(p.Name()) == Some(p)
  {
  }

  /** The tier shown under a display name, as the draft form's potential list reads back its entries. */
  function DisplayTier(display: string): Option<Potential>
  {
    match display
    case "Franchise" => Some(Franchise)
    case "Elite" => Some(Elite)
    case "Top 6 Forward" => Some(Top6F)
    case "Top 4 Defenseman" => Some(Top4D)
    case "Top 9 Forward" => Some(Top9F)
    case "Top 6 Defenseman" => Some(Top6D)
    case "Bottom 6 Forward" => Some(Bottom6F)
    case "Bottom Pair Defenseman" => Some(BottomPairD)
    case "AHL" => Some(Ahl)
    case "Franchise Goalie" => Some(FranchiseG)
    case "Elite Goalie" => Some(EliteG)
    case "Starter" => Some(Starter)
    case "Backup" => Some(Backup)
    case "AHL Goalie" => Some(AhlG)
    case _ => None
  }

  /** No two tiers share a display name, so a shown name identifies its tier. */
  lemma DisplayNamesDistinct(p: Potential, q: Potential)
    ensures DisplayTier(p.DisplayName()) == Some(p)
    ensures p.DisplayName() == q.DisplayName() ==> p == q
  {
    assert DisplayTier(q.DisplayName()) == Some(q);
  }

  /** How sure the scouts are of a potential rating. */
  datatype PotentialAccuracy = Exact | High | Medium | Low
  {
    function DisplayName(): string
    {
      match this
      case Exact => "Exact"
      case High => "High"
      case Medium => "Med"
      case Low => "Low"
    }

    function Description(): string
    {
      match this
      case Exact => "Potential is known with certainty"
      case High => "High confidence in potential rating"
      case Medium => "Moderate confidence in potential rating"
      case Low => "Low confidence, potential could vary significantly"
    }
  }
}
