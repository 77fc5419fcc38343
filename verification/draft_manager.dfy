/**
 * The draft manager's state changes: adding a pick acquired by trade to
 * the ledger, recording a draft selection (which uses up the ledger pick
 * and sends the new prospect to the AHL club), signing a draftee to an
 * entry-level contract, and the order the draft history is listed in.
 *
 * Text boxes are passed as the text they hold; an entry that
 * `Integer.parseInt` / `Double.parseDouble` rejects aborts the action
 * before anything is changed, as the exception does in the form handler.
 */
module DraftManager {
  import opened Wrappers
  import opened Seqs
  import opened Sorting
  import opened Text
  import opened Contracts
  import opened PlayerPotential
  import opened Players
  import opened DraftPicks
  import opened DraftedPlayers
  import opened Teams
  import opened Franchise

  /** What an empty box stands for on the selection form and the signing form. */
  const DefaultOverallText: string := "65"
  const DefaultAgeText: string := "18"
  const DefaultPickOverallText: string := "0"
  const DefaultAavText: string := "0.925"
  const DefaultTermText: string := "3"

  /** The text a form reads from a box: the box's text, or the default when the box is empty. */
  function Entry(text: string, default: string): (r: string)
    ensures r == [] ==> default == []
    ensures text != [] ==> r == text
  {
    if text == [] then default else text
  }

  /**
   * The boxes accept only short digit strings, so an entry read from
   * them never makes `parseInt` throw: it is the number typed, or the
   * default's number when the box was left empty.
   */
  lemma ValidatedEntryParses(text: string, default: string)
    requires AllDigits(text) && |text| <= 9
    requires default != [] && AllDigits(default) && |default| <= 9
    ensures ParseInt(Entry(text, default)).Some?
    ensures text != [] ==> ParseInt(Entry(text, default)) == Some(DigitsValue(text))
    ensures text == [] ==> ParseInt(Entry(text, default)) == Some(DigitsValue(default))
  {
    ParseIntDigits(Entry(text, default));
  }

  /** The numeric defaults: overall 65, age 18, overall pick 0, a three-year term. */
  lemma DefaultEntries()
    ensures ParseInt(DefaultOverallText) == Some(65)
    ensures ParseInt(DefaultAgeText) == Some(18)
    ensures ParseInt(DefaultPickOverallText) == Some(0)
    ensures ParseInt(DefaultTermText) == Some(3)
  {
    assert DigitsValue(DefaultOverallText) == 65 by {
      assert DefaultOverallText[..1] == "6";
      assert "6"[..0] == [];
    }
    assert DigitsValue(DefaultAgeText) == 18 by {
      assert DefaultAgeText[..1] == "1";
      assert "1"[..0] == [];
    }
    assert DigitsValue(DefaultPickOverallText) == 0 by {
      assert DefaultPickOverallText[..0] == [];
    }
    assert DigitsValue(DefaultTermText) == 3 by {
      assert DefaultTermText[..0] == [];
    }
  }

  // ------------------------------------------------------ acquired picks

  /** The name of the selected NHL club, or `None` when no club is selected. */
  function SelectedNhlName(teams: seq<Team>, nhlClub: Option<nat>): (r: Option<string>)
    ensures r.Some? <==> nhlClub.Some? && nhlClub.value < |teams|
    ensures r.Some? ==> r.value == teams[nhlClub.value].name
  {
    if nhlClub.Some? && nhlClub.value < |teams| then Some(teams[nhlClub.value].name) else None
  }

  /**
   * A pick obtained in a trade: `roundIndex` is the position chosen in
   * the seven-entry round list, the entered team is both where the pick
   * came from and its original team, and the franchise's NHL club owns it.
   */
  function AcquiredPick(year: int, roundIndex: nat, fromTeam: string, owner: string): (p: DraftPick)
    requires roundIndex < Rounds
    ensures 1 <= p.round <= Rounds && p.year == year && p.pickOverall == 0
    ensures p.wasTraded && p.tradedFrom == Some(fromTeam) && p.originalTeam == Some(fromTeam)
    ensures p.currentOwner == Some(owner)
  {
    DraftPick(year, roundIndex + 1, 0, Some(fromTeam), Some(owner), true, Some(fromTeam))
  }

  /** An acquired pick is always listed with the team it came from. */
  lemma AcquiredPickShowsSource(year: int, roundIndex: nat, fromTeam: string, owner: string)
    requires roundIndex < Rounds
    ensures AcquiredPick(year, roundIndex, fromTeam, owner).DisplayString() ==
      IntToString(year) + " " + RoundOrdinal(roundIndex + 1) + " Round Pick (from " + fromTeam + ")"
  {
    var head := IntToString(year) + " " + RoundOrdinal(roundIndex + 1);
    assert " Round Pick" + " (from " == " Round Pick (from ";
    assert head + " Round Pick" + (" (from " + fromTeam + ")") == head + " Round Pick (from " + fromTeam + ")";
  }

  /**
   * Appending a pick to the ledger adds it, last, to the picks of its own
   * year and leaves the picks of every other year as they were.
   */
  lemma AppendedPickListed(ledger: seq<DraftPick>, p: DraftPick, year: int)
    ensures year == p.year ==> Filter(ledger + [p], InYear(year)) == Filter(ledger, InYear(year)) + [p]
    ensures year != p.year ==> Filter(ledger + [p], InYear(year)) == Filter(ledger, InYear(year))
  {
    FilterConcat(ledger, [p], InYear(year));
    assert [p][1..] == [];
  }

  /**
   * "Add Acquired Pick": parses the year box and appends the acquired
   * pick to the end of the ledger. An unparsable year, or no selected NHL
   * club to own the pick, aborts with the ledger unchanged.
   */
  method AddAcquiredPick(tracker: FranchiseTracker, yearText: string, roundIndex: nat, fromTeam: string)
    returns (added: bool)
    requires roundIndex < Rounds
    modifies tracker`futureDraftPicks
    ensures added <==> ParseInt(yearText).Some? && SelectedNhlName(tracker.teams, tracker.nhlClub).Some?
    ensures added ==> (tracker.futureDraftPicks == old(tracker.futureDraftPicks) +
      [AcquiredPick(ParseInt(yearText).value, roundIndex, fromTeam, SelectedNhlName(tracker.teams, tracker.nhlClub).value)])
    ensures !added ==> tracker.futureDraftPicks == old(tracker.futureDraftPicks)
  {
    var year := ParseInt(yearText);
    if year.None? {
      return false;
    }
    var owner := SelectedNhlName(tracker.teams, tracker.nhlClub);
    if owner.None? {
      return false;
    }
    tracker.futureDraftPicks := tracker.futureDraftPicks + [AcquiredPick(year.value, roundIndex, fromTeam, owner.value)];
    return true;
  }

  // --------------------------------------------------- draft selections

  /** A selection can be recorded only in a season for which the ledger holds a pick. */
  lemma SelectionOfferedIff(ledger: seq<DraftPick>, season: int)
    ensures |Filter(ledger, InYear(season))| > 0 <==> exists i :: 0 <= i < |ledger| && ledger[i].year == season
  {
    if exists i :: 0 <= i < |ledger| && ledger[i].year == season {
      var i :| 0 <= i < |ledger| && ledger[i].year == season;
      assert InYear(season)(ledger[i]);
      assert ledger[i] in Filter(ledger, InYear(season));
    }
  }

  /** The prospect the selection form creates: draft data from the chosen pick, an empty stat history, no contract. */
  function DraftedProspect(firstName: string, lastName: string, overall: int, age: int, position: Position,
                           potential: Potential, season: int, round: int, pickOverall: int): (p: Player)
    ensures p.firstName == firstName && p.lastName == lastName && p.overall == overall && p.age == age
    ensures p.position == Some(position) && p.potential == Some(potential)
    ensures p.draftYear == season && p.draftRound == round && p.draftOverallPick == pickOverall
    ensures p.careerStats == Some([]) && p.contract == None
  {
    NamedPlayer(firstName, lastName).(overall := overall, age := age, position := Some(position),
      potential := Some(potential), draftYear := season, draftRound := round,
      draftOverallPick := pickOverall, careerStats := Some([]))
  }

  /** The draft record of a prospect: the draft-day rating, position and potential are copied from the player. */
  function SelectionRecord(p: Player, season: int, round: int, pickOverall: int): DraftedPlayer
  {
    DraftedPlayer(season, round, pickOverall, Some(p), p.overall, p.position, None, None,
      p.potential, None, false, 0, false, 0)
  }

  /**
   * The record and the prospect agree on year, round and overall pick;
   * the record keeps the prospect's draft-day rating, position and
   * potential; a new selection is unsigned and has not reached the NHL;
   * and the potential chosen from the skater tiers is never a goalie tier.
   */
  lemma SelectionRecordMatches(firstName: string, lastName: string, overall: int, age: int, position: Position,
                               potential: Potential, season: int, round: int, pickOverall: int)
    requires potential in SkaterPotentials()
    ensures var p := DraftedProspect(firstName, lastName, overall, age, position, potential, season, round, pickOverall);
      var d := SelectionRecord(p, season, round, pickOverall);
      && d.player == Some(p) && d.year == p.draftYear && d.round == p.draftRound && d.pickOverall == p.draftOverallPick
      && d.overallAtDraft == overall && d.position == Some(position) && d.potentialAtDraft == Some(potential)
      && !d.signedToContract && !d.madeNhl && Unsigned(d)
      && potential !in GoaliePotentials()
  {
    SkaterGoalieTiersPartition(potential);
  }

  /**
   * Recording a selection with a pick of the season uses that pick up:
   * afterwards no ledger entry is left for the season and the pick's
   * round, so the ledger is strictly shorter, and every other entry stays.
   */
  lemma SelectionUsesPick(ledger: seq<DraftPick>, season: int, pick: DraftPick)
    requires pick in ledger && pick.year == season
    ensures |Filter(ledger, NotUsedBy(season, pick.round))| < |ledger|
    ensures forall q :: q in Filter(ledger, NotUsedBy(season, pick.round)) ==> !(q.year == season && q.round == pick.round)
    ensures forall q :: q in ledger && !(q.year == season && q.round == pick.round) ==> q in Filter(ledger, NotUsedBy(season, pick.round))
  {
    UsingAPick(ledger, season, pick.round);
    var i :| 0 <= i < |ledger| && ledger[i] == pick;
    assert UsedBy(season, pick.round)(ledger[i]);
    assert pick in Filter(ledger, UsedBy(season, pick.round));
  }

  /** A pick listed for a year is an entry of the ledger. */
  lemma ListedPickInLedger(tracker: FranchiseTracker, year: int, k: nat)
    requires k < |tracker.DraftPicksForYear(year)|
    ensures tracker.DraftPicksForYear(year)[k] in tracker.futureDraftPicks
    ensures tracker.DraftPicksForYear(year)[k].year == year
  {
    var listed := tracker.DraftPicksForYear(year);
    assert listed[k] in multiset(listed);
    assert listed[k] in Filter(tracker.futureDraftPicks, InYear(year));
  }

  /** What became of a draft-selection form. */
  datatype SelectionOutcome =
    | NoPicksThisSeason   // no ledger pick for the current season: the form is not offered
    | EntryRejected       // a number box did not parse: nothing is changed
    | Selected(prospect: Player)

  /**
   * The prospect the selection form makes from its boxes (overall 65,
   * age 18 and overall pick 0 for empty boxes), or `None` when a box does
   * not parse.
   */
  function EnteredProspect(firstName: string, lastName: string, overallText: string, ageText: string,
                           pickOverallText: string, position: Position, potential: Potential,
                           season: int, round: int): (r: Option<Player>)
    ensures r.None? <==> (ParseInt(Entry(overallText, DefaultOverallText)).None? ||
      ParseInt(Entry(ageText, DefaultAgeText)).None? || ParseInt(Entry(pickOverallText, DefaultPickOverallText)).None?)
    ensures r.Some? ==> r.value == DraftedProspect(firstName, lastName, ParseInt(Entry(overallText, DefaultOverallText)).value,
      ParseInt(Entry(ageText, DefaultAgeText)).value, position, potential, season, round,
      ParseInt(Entry(pickOverallText, DefaultPickOverallText)).value)
  {
    var overall := ParseInt(Entry(overallText, DefaultOverallText));
    var age := ParseInt(Entry(ageText, DefaultAgeText));
    var pickOverall := ParseInt(Entry(pickOverallText, DefaultPickOverallText));
    if overall.None? || age.None? || pickOverall.None? then None
    else Some(DraftedProspect(firstName, lastName, overall.value, age.value, position, potential, season, round, pickOverall.value))
  }

  /**
   * Records `prospect` as this season's selection in its draft round,
   * using up the ledger entries for the season and that round, and
   * appends the same prospect to the AHL roster.
   */
  method DraftProspect(tracker: FranchiseTracker, prospect: Player)
    modifies tracker`draftPicks, tracker`futureDraftPicks, tracker`teams
    ensures tracker.draftPicks == old(tracker.draftPicks) +
      [SelectionRecord(prospect, tracker.currentSeason, prospect.draftRound, prospect.draftOverallPick)]
    ensures tracker.futureDraftPicks == Filter(old(tracker.futureDraftPicks), NotUsedBy(tracker.currentSeason, prospect.draftRound))
    ensures tracker.teams == AppendToRoster(old(tracker.teams), tracker.ahlClub, prospect)
  {
    tracker.RecordDraftPick(SelectionRecord(prospect, tracker.currentSeason, prospect.draftRound, prospect.draftOverallPick));
    tracker.AddPlayerToAhl(prospect);
  }

  /**
   * "Record Draft Selection": with `pickIndex` the position of the chosen
   * pick among the season's listed picks, builds the prospect in the
   * pick's round and drafts it. Nothing changes when the season has no
   * pick (the form is not offered) or a box does not parse.
   */
  method RecordDraftSelection(tracker: FranchiseTracker, pickIndex: nat, firstName: string, lastName: string,
                              overallText: string, ageText: string, pickOverallText: string,
                              position: Position, potential: Potential)
    returns (outcome: SelectionOutcome)
    requires tracker.DraftPicksForYear(tracker.currentSeason) != [] ==>
      pickIndex < |tracker.DraftPicksForYear(tracker.currentSeason)|
    requires potential in SkaterPotentials()
    modifies tracker`draftPicks, tracker`futureDraftPicks, tracker`teams
    ensures outcome.NoPicksThisSeason? <==> old(tracker.DraftPicksForYear(tracker.currentSeason)) == []
    ensures outcome.EntryRejected? <==> (old(tracker.DraftPicksForYear(tracker.currentSeason)) != [] &&
      EnteredProspect(firstName, lastName, overallText, ageText, pickOverallText, position, potential,
        tracker.currentSeason, old(tracker.DraftPicksForYear(tracker.currentSeason))[pickIndex].round).None?)
    ensures !outcome.Selected? ==> (tracker.draftPicks == old(tracker.draftPicks) &&
      tracker.futureDraftPicks == old(tracker.futureDraftPicks) && tracker.teams == old(tracker.teams))
    ensures outcome.Selected? ==> (
      && outcome.prospect == EnteredProspect(firstName, lastName, overallText, ageText, pickOverallText, position, potential,
           tracker.currentSeason, old(tracker.DraftPicksForYear(tracker.currentSeason))[pickIndex].round).value
      && tracker.draftPicks == old(tracker.draftPicks) +
           [SelectionRecord(outcome.prospect, tracker.currentSeason, outcome.prospect.draftRound, outcome.prospect.draftOverallPick)]
      && tracker.futureDraftPicks ==
           Filter(old(tracker.futureDraftPicks), NotUsedBy(tracker.currentSeason, outcome.prospect.draftRound))
      && tracker.teams == AppendToRoster(old(tracker.teams), tracker.ahlClub, outcome.prospect))
  {
    var available := tracker.DraftPicksForYear(tracker.currentSeason);
    if available == [] {
      return NoPicksThisSeason;
    }
    var prospect := EnteredProspect(firstName, lastName, overallText, ageText, pickOverallText, position, potential,
      tracker.currentSeason, available[pickIndex].round);
    if prospect.None? {
      return EntryRejected;
    }
    DraftProspect(tracker, prospect.value);
    return Selected(prospect.value);
  }

  // ------------------------------------------------------------ signing

  /** An entry-level deal: the amount and term entered, signed this season, restricted free agent at expiry. */
  function EntryContract(aav: real, term: int, season: int): (c: Contract)
    ensures c.status == Some(Rfa) && c.ExpirationYear() == season + term && c.TotalValue() == aav * term as real
  {
    CreatedContractValues(aav, term, season, Some(Rfa));
    CreateContract(aav, term, season, Some(Rfa))
  }

  /**
   * A draftee after signing: marked signed in `season`, the embedded
   * player (when there is one) given the contract, everything else kept.
   */
  function SignedDraftee(d: DraftedPlayer, contract: Contract, season: int): (r: DraftedPlayer)
    ensures r.signedToContract && r.signedYear == season && !Unsigned(r)
    ensures r.player.Some? <==> d.player.Some?
    ensures d.player.Some? ==> r.player.value == d.player.value.(contract := Some(contract))
    ensures r.(player := d.player, signedToContract := d.signedToContract, signedYear := d.signedYear) == d
  {
    var player := if d.player.Some? then Some(d.player.value.(contract := Some(contract))) else None;
    d.(player := player, signedToContract := true, signedYear := season)
  }

  /**
   * Signing a draftee takes that one record off the unsigned list (when it
   * was on it) and leaves the rest of the list, in order.
   */
  lemma {:induction false} SigningLeavesUnsigned(picks: seq<DraftedPlayer>, index: nat, signed: DraftedPlayer)
    requires index < |picks| && !Unsigned(signed)
    ensures Filter(picks[index := signed], Unsigned) ==
      Filter(picks[..index], Unsigned) + Filter(picks[index + 1..], Unsigned)
    ensures |Filter(picks[index := signed], Unsigned)| ==
      |Filter(picks, Unsigned)| - (if Unsigned(picks[index]) then 1 else 0)
  {
    var before, after := picks[..index], picks[index + 1..];
    assert picks == before + ([picks[index]] + after);
    assert picks[index := signed] == before + ([signed] + after);
    FilterConcat(before, [picks[index]] + after, Unsigned);
    FilterConcat(before, [signed] + after, Unsigned);
    assert ([picks[index]] + after)[1..] == after;
    assert ([signed] + after)[1..] == after;
  }

  /**
   * The contract the signing form makes from its two boxes (0.925 over 3
   * seasons when they are empty), or `None` when the amount or the term
   * does not parse.
   */
  function EnteredDeal(aavText: string, termText: string, season: int): (r: Option<Contract>)
    ensures r.None? <==> ParseDecimal(Entry(aavText, DefaultAavText)).None? || ParseInt(Entry(termText, DefaultTermText)).None?
    ensures r.Some? ==> r.value == EntryContract(ParseDecimal(Entry(aavText, DefaultAavText)).value,
      ParseInt(Entry(termText, DefaultTermText)).value, season)
  {
    var aav := ParseDecimal(Entry(aavText, DefaultAavText));
    var term := ParseInt(Entry(termText, DefaultTermText));
    if aav.None? || term.None? then None else Some(EntryContract(aav.value, term.value, season))
  }

  /** Marks the draftee at `index` signed this season under `contract`. */
  method SignDrafteeUnder(tracker: FranchiseTracker, index: nat, contract: Contract)
    requires index < |tracker.draftPicks|
    modifies tracker`draftPicks
    ensures tracker.draftPicks ==
      old(tracker.draftPicks)[index := SignedDraftee(old(tracker.draftPicks)[index], contract, tracker.currentSeason)]
  {
    tracker.draftPicks := tracker.draftPicks[index := SignedDraftee(tracker.draftPicks[index], contract, tracker.currentSeason)];
  }

  /**
   * "Sign Contract" for the draftee at `index` of the draft records: gives
   * the embedded player the entry contract made from the two boxes and
   * marks the draftee signed this season. An amount or term that does not
   * parse leaves the records unchanged.
   */
  method SignDraftee(tracker: FranchiseTracker, index: nat, aavText: string, termText: string)
    returns (signed: bool)
    requires index < |tracker.draftPicks|
    modifies tracker`draftPicks
    ensures signed <==> EnteredDeal(aavText, termText, tracker.currentSeason).Some?
    ensures !signed ==> tracker.draftPicks == old(tracker.draftPicks)
    ensures signed ==> (tracker.draftPicks == old(tracker.draftPicks)[index :=
      SignedDraftee(old(tracker.draftPicks)[index], EnteredDeal(aavText, termText, tracker.currentSeason).value, tracker.currentSeason)])
  {
    var deal := EnteredDeal(aavText, termText, tracker.currentSeason);
    if deal.None? {
      return false;
    }
    SignDrafteeUnder(tracker, index, deal.value);
    return true;
  }

  // ------------------------------------------------------- draft history

  /** Later drafts first; within a draft, earlier rounds first. */
  predicate HistoryOrder(a: DraftedPlayer, b: DraftedPlayer)
  {
    a.year > b.year || (a.year == b.year && a.round <= b.round)
  }

  lemma HistoryOrderIsTotal()
    ensures TotalPreorder(HistoryOrder)
  {
  }

  /** The draft history as listed: every record once, by year descending, then by round ascending. */
  function DraftHistory(records: seq<DraftedPlayer>): (r: seq<DraftedPlayer>)
    ensures multiset(r) == multiset(records)
    ensures forall i, j :: 0 <= i < j < |r| ==>
      r[i].year > r[j].year || (r[i].year == r[j].year && r[i].round <= r[j].round)
  {
    HistoryOrderIsTotal();
    var sorted := SortBy(records, HistoryOrder);
    assert forall i, j :: 0 <= i < j < |sorted| ==> HistoryOrder(sorted[i], sorted[j]);
    sorted
  }
}
