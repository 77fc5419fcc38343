/** A trade between the franchise (team 1) and another club (team 2). */
module Trades {
  import opened Wrappers
  import opened Text
  import opened Players
  import opened DraftPicks

  datatype Trade = Trade(
    team1Name: string,
    team2Name: string,
    season: int,
    tradeDate: Option<int>,
    team1Receives: seq<string>,
    team2Receives: seq<string>,
    playersReceived: seq<Player>,
    playersSent: seq<Player>,
    picksReceived: seq<DraftPick>,
    picksSent: seq<DraftPick>,
    notes: Option<string>)
  {
    /** What the franchise received, as one comma-separated line. */
    function ReceivedSummary(): string
    {
      Join(", ", team1Receives)
    }

    /** What the franchise sent away, as one comma-separated line. */
    function SentSummary(): string
    {
      Join(", ", team2Receives)
    }
  }

  /** `new Trade(team1, team2, season, date)`: the two clubs, the season and the date, with every asset list empty. */
  function NewTrade(team1Name: string, team2Name: string, season: int, tradeDate: Option<int>): (t: Trade)
    ensures t.team1Name == team1Name && t.team2Name == team2Name
    ensures t.season == season && t.tradeDate == tradeDate && t.notes == None
    ensures t.team1Receives == [] && t.team2Receives == []
    ensures t.playersReceived == [] && t.playersSent == [] && t.picksReceived == [] && t.picksSent == []
    ensures t.ReceivedSummary() == "" && t.SentSummary() == ""
  {
    Trade(team1Name, team2Name, season, tradeDate, [], [], [], [], [], [], None)
  }

  /**
   * Listing one more received asset shows it alone when it is the first,
   * and otherwise adds ", " and the asset at the end of the summary.
   */
  lemma ReceivedSummaryGrows(t: Trade, asset: string)
    ensures t.(team1Receives := t.team1Receives + [asset]).ReceivedSummary()
         == if t.team1Receives == [] then asset else t.ReceivedSummary() + ", " + asset
  {
    if t.team1Receives != [] {
      JoinAppend(", ", t.team1Receives, asset);
    } else {
      assert t.team1Receives + [asset] == [asset];
    }
  }

  /** The same for the assets sent away. */
  lemma SentSummaryGrows(t: Trade, asset: string)
    ensures t.(team2Receives := t.team2Receives + [asset]).SentSummary()
         == if t.team2Receives == [] then asset else t.SentSummary() + ", " + asset
  {
    if t.team2Receives != [] {
      JoinAppend(", ", t.team2Receives, asset);
    } else {
      assert t.team2Receives + [asset] == [asset];
    }
  }
}
