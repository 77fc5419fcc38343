/** The record of a player the franchise selected at the entry draft. */
module DraftedPlayers {
  import opened Wrappers
  import opened Text
  import opened PlayerPotential
  import opened Players
  import opened DraftPicks

  datatype DraftedPlayer = DraftedPlayer(
    year: int,
    round: int,
    pickOverall: int,
    player: Option<Player>,
    overallAtDraft: int,
    position: Option<Position>,
    style: Option<PlayerStyle>,
    xFactors: Option<seq<XFactor>>,
    potentialAtDraft: Option<Potential>,
    potentialAccuracy: Option<PotentialAccuracy>,
    signedToContract: bool,
    signedYear: int,
    madeNhl: bool,
    nhlDebutYear: int)
  {
    function DisplayName(): string
    {
      if player.Some? then player.value.FullName() else "Unknown"
    }

    /** "year ordinal Round (#pick): name - POSITION OVR rating", with the position and rating as recorded at the draft. */
    function Summary(): string
    {
      IntToString(year) + " " + RoundOrdinal(round) + " Round (#" + IntToString(pickOverall) + "): "
        + DisplayName() + " - " + (if position.Some? then position.value.Name() else "N/A")
        + " OVR " + IntToString(overallAtDraft)
    }
  }

  /**
   * The summary reads its rating and position from the draft-day record:
   * replacing the embedded player by one with the same names but any
   * other rating, position or contract leaves the summary as it was.
   */
  lemma SummaryKeepsDraftDayRating(d: DraftedPlayer, p: Player)
    requires d.player.Some?
    requires p.firstName == d.player.value.firstName && p.lastName == d.player.value.lastName
    ensures d.(player := Some(p)).Summary() == d.Summary()
  {
  }

  /** The name shown is the embedded player's current full name, or "Unknown" without one. */
  lemma SummaryNameIsLive(d: DraftedPlayer, p: Player)
    ensures d.(player := Some(p)).DisplayName() == p.FullName()
    ensures d.(player := None).DisplayName() == "Unknown"
  {
  }
}
