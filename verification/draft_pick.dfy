/** An entry of the future draft-pick ledger. */
module DraftPicks {
  import opened Wrappers
  import opened Text

  datatype DraftPick = DraftPick(
    year: int,
    round: int,
    pickOverall: int,
    originalTeam: Option<string>,
    currentOwner: Option<string>,
    wasTraded: bool,
    tradedFrom: Option<string>)
  {
    /** Where a traded pick came from, when that is recorded. */
    function Source(): string
    {
      if wasTraded && tradedFrom.Some? then " (from " + tradedFrom.value + ")" else ""
    }

    /** The label used in pick lists, such as "2025 1st Round Pick (from Boston)". */
    function DisplayString(): string
    {
      IntToString(year) + " " + RoundOrdinal(round) + " Round Pick" + Source()
    }
  }

  /** `new DraftPick(year, round)`: only the year and round are set. */
  function NewPick(year: int, round: int): (p: DraftPick)
    ensures p.year == year && p.round == round && p.pickOverall == 0
    ensures p.originalTeam == None && p.currentOwner == None && p.tradedFrom == None && !p.wasTraded
  {
    DraftPick(year, round, 0, None, None, false, None)
  }

  /** A round as an ordinal: "1st", "2nd", "3rd", and the number followed by "th" for any other round. */
  function RoundOrdinal(round: int): string
  {
    match round
    case 1 => "1st"
    case 2 => "2nd"
    case 3 => "3rd"
    case _ => IntToString(round) + "th"
  }

  function OrdinalSuffix(round: int): string
  {
    if round == 1 then "st" else if round == 2 then "nd" else if round == 3 then "rd" else "th"
  }

  /** Every ordinal is the round's decimal number followed by its English suffix. */
  lemma RoundOrdinalSpelling(round: int)
    ensures RoundOrdinal(round) == IntToString(round) + OrdinalSuffix(round)
  {
    if 1 <= round <= 3 {
      assert NatToString(round) == [DigitChar(round)];
    }
  }

  /** The label begins with the year and a space. */
  lemma DisplayStartsWithYear(p: DraftPick)
    ensures p.DisplayString()[..|IntToString(p.year)| + 1] == IntToString(p.year) + " "
  {
  }

  /** The label ends in ")" exactly when it names the team a traded pick came from. */
  lemma DisplayShowsProvenance(p: DraftPick)
    ensures p.DisplayString()[|p.DisplayString()| - 1] == ')' <==> p.wasTraded && p.tradedFrom.Some?
  {
    var d := p.DisplayString();
    if !(p.wasTraded && p.tradedFrom.Some?) {
      assert d == (IntToString(p.year) + " " + RoundOrdinal(p.round) + " Round") + " Pick";
    }
  }
}
