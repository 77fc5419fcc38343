# Franchise Tracker — a verified model of its core

Franchise Tracker is a terminal companion for a hockey game's franchise
mode. A general manager runs one NHL club and its AHL affiliate. The
tracker keeps both rosters and a ledger of future draft picks. It records
trades, awards and draft selections, and archives a frozen snapshot of
every finished season. Advancing a season archives it, takes a year off
every contract, ages every player, and adds the next batch of seven draft
picks. Screens built on this state show career leaders, best seasons, a
franchise grade and an age histogram. A roster CSV can be exported and
imported back.

This project models that core in Dafny:

- **Records.** Contracts, players, draft picks, drafted players, trades,
  the potential tiers, and player and season snapshots are datatypes. Each
  derived value (expiration year, cap hit, display strings, summaries) is
  a function.
- **Franchise state.** `Franchise.FranchiseTracker` is a class whose
  fields the methods update in place: the club list, the selected clubs,
  the pick ledger and the history lists. Every method states its whole new
  state.
- **Screen rules.** The rules inside the draft, stats, lineup, import and
  export, and wrap-up screens are methods on the tracker or functions over
  its values:
  - recording a draft selection, signing a draftee, adding an acquired pick;
  - upserting season statistics;
  - toggling lineup slots;
  - reading and writing CSV rows;
  - the leaders fold, championships, best seasons and the grade.
- **Histogram.** The age histogram's bucketing and bar lengths are a
  method with loops, proved against a specification function.

Paths below are relative to the repository root.

### Modelling choices

- **Nullable fields and lists** are `Option`. A null list the source
  replaces with an empty one is modelled by that replacement.
- **Money** (AAV, cap ceiling and floor, cap hits) is `real`. `%.2f` is
  decimal rounding to cents, half away from zero. `Double.parseDouble` of
  that text is a plain decimal parse.
- **Integers** are unbounded. `Integer.parseInt` is modelled as accepting an
  optional sign followed by ASCII digits, and only values in the 32-bit
  range; Java also accepts other Unicode decimal digits, which the model
  rejects.
- **Selected clubs.** The NHL club and the AHL affiliate are positions in
  the club list (`nhlClub`, `ahlClub`). Roster operations on a club that is
  not selected, or that has no roster, change nothing, as the source's null
  checks do.
- **Form text boxes** are strings parsed with the same rules. Text that
  would make `parseInt` throw is an outcome in which nothing changes.
- **Players** are values. A roster player is addressed by position where
  the source holds an object reference.

### Where the code and the design description differ

The model follows the code.

- `recordDraftPick` removes every ledger entry with the current season and
  the drafted round, not only the first one (`FranchiseTracker.java:315-318`).
- `sendPlayerToAHL` and `callUpPlayerFromAHL` always append the player to
  the destination roster, even when the player was not on the source
  roster.
- The team statistics editor never writes the tracker-level `teamStats`
  field that `archiveSeason` copies into the snapshot.

## Model

| member | source | states |
|---|---|---|
| Contracts.ParseStatus | src/main/java/com/github/loafabreadly/franchisetracker/scene/ImportExport.java:254-257 | a status column reads as a status only when it is exactly that status's constant name (`CONTRACT_STATUS.valueOf`) |
| Contracts.ParseStatusName | src/main/java/com/github/loafabreadly/franchisetracker/scene/ImportExport.java:254-257 | every status's constant name reads back as that status |
| Contracts.CreateContract | src/main/java/com/github/loafabreadly/franchisetracker/model/Contract.java:35-42 | the factory sets exactly AAV, term, signing year and status; clauses stay unset, both bonuses 0, not two-way |
| Contracts.ExpirationFollowsTerm | src/main/java/com/github/loafabreadly/franchisetracker/model/Contract.java:21-23 | the expiration year is computed from the live term, so taking k years off the term moves it k years earlier |
| Contracts.CreatedContractValues | src/main/java/com/github/loafabreadly/franchisetracker/model/Contract.java:21-42 | a contract from the factory expires at signing year + term and is worth AAV × term |
| Contracts.TotalValueZero | src/main/java/com/github/loafabreadly/franchisetracker/model/Contract.java:28-30 | a contract with no term or no AAV has total value 0 |
| Players.ParsePosition | src/main/java/com/github/loafabreadly/franchisetracker/scene/ImportExport.java:232-236 | a position column reads as a position only when it is exactly that position's constant name |
| Players.ParsePositionName | src/main/java/com/github/loafabreadly/franchisetracker/scene/ImportExport.java:232-236 | every position's constant name reads back as that position |
| Players.NamedPlayer | src/main/java/com/github/loafabreadly/franchisetracker/model/Player.java:46-55 | a player without a contract has cap hit 0 and 0 contract years remaining |
| Players.FullNameParts | src/main/java/com/github/loafabreadly/franchisetracker/model/Player.java:32-34 | the full name is the first name, one space, then the last name, and both names can be cut back out of it |
| DraftPicks.NewPick | src/main/java/com/github/loafabreadly/franchisetracker/model/DraftPick.java:26-29 | `DraftPick(year, round)` sets only year and round: no owner, no original team, not traded |
| DraftPicks.RoundOrdinalSpelling | src/main/java/com/github/loafabreadly/franchisetracker/model/DraftPick.java:35-40 | the round ordinal is the round's decimal numeral followed by its ordinal suffix |
| DraftPicks.DisplayStartsWithYear | src/main/java/com/github/loafabreadly/franchisetracker/model/DraftPick.java:42 | a pick's display string starts with its year and a space |
| DraftPicks.DisplayShowsProvenance | src/main/java/com/github/loafabreadly/franchisetracker/model/DraftPick.java:41-42 | the display string ends in the closing parenthesis of a "(from X)" suffix exactly when the pick was traded and its source is known |
| DraftedPlayers.SummaryKeepsDraftDayRating | src/main/java/com/github/loafabreadly/franchisetracker/model/DraftedPlayer.java:38-48 | the summary uses the draft-day rating and position, so replacing the linked player with one of the same name leaves it unchanged |
| DraftedPlayers.SummaryNameIsLive | src/main/java/com/github/loafabreadly/franchisetracker/model/DraftedPlayer.java:28-33 | the display name is the linked player's current full name, or "Unknown" without a player |
| Trades.NewTrade | src/main/java/com/github/loafabreadly/franchisetracker/model/Trade.java:38-43 | the constructor sets both club names, season and date; every asset list is empty, so both summaries are empty |
| Trades.ReceivedSummaryGrows | src/main/java/com/github/loafabreadly/franchisetracker/model/Trade.java:48-50 | adding an asset to the received list extends the summary by ", " and the asset, or makes it the asset alone when it was empty |
| Trades.SentSummaryGrows | src/main/java/com/github/loafabreadly/franchisetracker/model/Trade.java:55-57 | the same for the sent list |
| PlayerPotential.SkaterPotentials | src/main/java/com/github/loafabreadly/franchisetracker/model/PLAYER_POTENTIAL.java:45-49 | the skater tiers are the first nine tiers in declaration order |
| PlayerPotential.GoaliePotentials | src/main/java/com/github/loafabreadly/franchisetracker/model/PLAYER_POTENTIAL.java:54-58 | the goalie tiers are the last five tiers in declaration order |
| PlayerPotential.SkaterGoalieTiersPartition | src/main/java/com/github/loafabreadly/franchisetracker/model/PLAYER_POTENTIAL.java:9-58 | there are 14 tiers (9 skater, 5 goalie); the two lists together are all tiers, and each tier is in exactly one of them |
| PlayerPotential.ParsePotential | src/main/java/com/github/loafabreadly/franchisetracker/scene/ImportExport.java:241-245 | a potential column reads as a tier only when it is exactly that tier's constant name |
| PlayerPotential.ParsePotentialName | src/main/java/com/github/loafabreadly/franchisetracker/scene/ImportExport.java:241-245 | every tier's constant name reads back as that tier |
| PlayerPotential.DisplayNamesDistinct | src/main/java/com/github/loafabreadly/franchisetracker/model/PLAYER_POTENTIAL.java:9-36 | each tier's display name is its fixed text, and no two tiers share one |
| PlayerSnapshots.FirstOfYear | src/main/java/com/github/loafabreadly/franchisetracker/model/PlayerSnapshot.java:55-62 | the position found is the first statistics line of that year, or the end when there is none |
| PlayerSnapshots.StatsForSeason | src/main/java/com/github/loafabreadly/franchisetracker/model/PlayerSnapshot.java:55-62 | a season's line is found exactly when one exists, and it is the first line with that year |
| PlayerSnapshots.FromPlayer | src/main/java/com/github/loafabreadly/franchisetracker/model/PlayerSnapshot.java:36-65 | the snapshot copies names, ratings, position, style, potential and accuracy; X-factors or none; AAV, years and status from the contract or 0/0/none; the season's first statistics line, or none without a statistics list |
| PlayerSnapshots.SnapshotIgnoresOtherSeasons | src/main/java/com/github/loafabreadly/franchisetracker/model/PlayerSnapshot.java:55-62 | adding a statistics line for another year does not change which line a season's snapshot shows |
| SeasonSnapshots.RosterCapHitConcat | src/main/java/com/github/loafabreadly/franchisetracker/model/SeasonSnapshot.java:60-68 | the cap total of two rosters one after the other is the sum of their totals |
| SeasonSnapshots.RosterCapHitUnsigned | src/main/java/com/github/loafabreadly/franchisetracker/model/SeasonSnapshot.java:60-68 | players without contracts add nothing to the cap total |
| SeasonSnapshots.SnapshotRoster | src/main/java/com/github/loafabreadly/franchisetracker/model/SeasonSnapshot.java:61-67 | a frozen roster has one snapshot per player, in roster order, each taken for the season |
| SeasonSnapshots.Snapshot | src/main/java/com/github/loafabreadly/franchisetracker/model/SeasonSnapshot.java:41-78 | the snapshot keeps season, cap ceiling, team statistics and the four lists; the rosters are frozen; the cap total counts the NHL roster only; the player count is the two rosters' sizes added |
| SeasonSnapshots.CreateSnapshot | src/main/java/com/github/loafabreadly/franchisetracker/model/SeasonSnapshot.java:41-71 | the loop that freezes both rosters and adds up the NHL cap hits builds exactly that snapshot |
| Franchise.WithRoster | src/main/java/com/github/loafabreadly/franchisetracker/FranchiseTracker.java:365-369 | replacing a club's roster changes that roster and nothing else in the club list |
| Franchise.Mapped | src/main/java/com/github/loafabreadly/franchisetracker/FranchiseTracker.java:210-225 | a roster update applied to every player keeps length and order |
| Franchise.AfterSeasonChanges | src/main/java/com/github/loafabreadly/franchisetracker/FranchiseTracker.java:210-225 | after a season a player is one year older; a positive term drops by one, with the expiration year one earlier; a zero term or a missing contract is unchanged, so terms never go negative; the cap hit and everything else stay the same |
| Franchise.MappedTwice | src/main/java/com/github/loafabreadly/franchisetracker/FranchiseTracker.java:159-160 | taking a year off the terms and then aging everyone is one per-player season change |
| Franchise.MapRosterElsewhere | src/main/java/com/github/loafabreadly/franchisetracker/FranchiseTracker.java:210-225 | updating one club's roster leaves every other club's roster as it was |
| Franchise.SeasonTurnoverRosters | src/main/java/com/github/loafabreadly/franchisetracker/FranchiseTracker.java:158-160 | with two distinct clubs, turning the season over applies the season change to every player of both rosters; other clubs and club fields are untouched, and a missing roster stays missing |
| Franchise.MapRosterKeepsClubs | src/main/java/com/github/loafabreadly/franchisetracker/FranchiseTracker.java:210-225 | a roster update keeps every club's name and the number of clubs |
| Franchise.UpdateEach | src/main/java/com/github/loafabreadly/franchisetracker/FranchiseTracker.java:210-216 | the loop over a roster yields each player updated, in roster order |
| Franchise.OwnedPick | src/main/java/com/github/loafabreadly/franchisetracker/FranchiseTracker.java:98-100 | a generated pick has the owner as both current owner and original team, is not traded, and carries no overall number |
| Franchise.SeasonPicks | src/main/java/com/github/loafabreadly/franchisetracker/FranchiseTracker.java:234-239 | a season's generated picks are rounds 1 to 7 in order |
| Franchise.Ledger | src/main/java/com/github/loafabreadly/franchisetracker/FranchiseTracker.java:96-103 | a ledger over n seasons holds 7n picks |
| Franchise.LedgerAt | src/main/java/com/github/loafabreadly/franchisetracker/FranchiseTracker.java:96-103 | ledger entry i is the owner's pick for season start + i/7, round i%7 + 1 |
| Franchise.InitialLedgerShape | src/main/java/com/github/loafabreadly/franchisetracker/FranchiseTracker.java:95-104 | the starting ledger has exactly 42 picks, one per season s..s+5 and round 1..7, in season-then-round order, all owned and originated by the owner |
| Franchise.LedgerRolls | src/main/java/com/github/loafabreadly/franchisetracker/FranchiseTracker.java:230-240 | dropping the first season of a ledger and appending the next season's picks gives the ledger that starts one season later |
| Franchise.SortedKeepsYear | src/main/java/com/github/loafabreadly/franchisetracker/FranchiseTracker.java:274-280 | reordering picks of one year keeps them all of that year |
| Franchise.RoundOrderIsTotal | src/main/java/com/github/loafabreadly/franchisetracker/FranchiseTracker.java:278 | ordering picks by round is a total preorder, so the sort is well defined |
| Franchise.UsingAPick | src/main/java/com/github/loafabreadly/franchisetracker/FranchiseTracker.java:315-318 | after a pick is used, no entry for that season and round is left, every other entry stays, nothing changes when none matched, and kept plus removed entries account for the whole ledger |
| Franchise.NewClub | src/main/java/com/github/loafabreadly/franchisetracker/FranchiseTracker.java:61-79 | a new club has its name, roster and league flag, empty awards, statistics and picks, and an empty lineup |
| Franchise.LastClub | src/main/java/com/github/loafabreadly/franchisetracker/FranchiseTracker.java:141-149 | the club found is the last one with the requested league flag, or none when no club has it |
| Franchise.FranchiseTracker.ExpiringContracts | src/main/java/com/github/loafabreadly/franchisetracker/FranchiseTracker.java:264-269 | exactly the players, NHL roster first, whose contract expires in the year |
| Franchise.FranchiseTracker.DraftPicksForYear | src/main/java/com/github/loafabreadly/franchisetracker/FranchiseTracker.java:274-280 | exactly the ledger entries of the year, as a permutation, ordered by round |
| Franchise.FranchiseTracker.UnsignedDraftees | src/main/java/com/github/loafabreadly/franchisetracker/FranchiseTracker.java:335-340 | exactly the drafted players not yet signed, in draft order (`stream().filter`) |
| Franchise.FranchiseTracker.StanleyCupCount | src/main/java/com/github/loafabreadly/franchisetracker/FranchiseTracker.java:345-350 | at most the number of archived seasons, and 0 exactly when no archived season won the Cup |
| Franchise.FranchiseTracker.Default | src/main/java/com/github/loafabreadly/franchisetracker/FranchiseTracker.java:47-49 | no clubs, season 0, empty lists, the default cap, and a starting ledger written to "Own" |
| Franchise.FranchiseTracker.constructor | src/main/java/com/github/loafabreadly/franchisetracker/FranchiseTracker.java:60-86 | the club list is the NHL club with the initial roster, then an empty AHL affiliate, both selected; the starting ledger is written to the NHL club; the draft list argument is not used |
| Franchise.FranchiseTracker.InitializeFutureDraftPicks | src/main/java/com/github/loafabreadly/franchisetracker/FranchiseTracker.java:91-105 | an empty ledger is filled with six seasons of the owner's picks; a non-empty ledger is kept |
| Franchise.FranchiseTracker.ArchiveSeason | src/main/java/com/github/loafabreadly/franchisetracker/FranchiseTracker.java:171-205 | appends one snapshot of the current season (this season's awards, trades and selections in order, the ledger unfiltered) and changes nothing else |
| Franchise.FranchiseTracker.DecrementContractYears | src/main/java/com/github/loafabreadly/franchisetracker/FranchiseTracker.java:210-216 | takes a year off every positive term on both rosters |
| Franchise.FranchiseTracker.AgePlayersOneYear | src/main/java/com/github/loafabreadly/franchisetracker/FranchiseTracker.java:221-225 | ages every player on both rosters by one year |
| Franchise.FranchiseTracker.TurnOverRoster | src/main/java/com/github/loafabreadly/franchisetracker/FranchiseTracker.java:210-225 | applies a player update to one club's roster |
| Franchise.FranchiseTracker.AddFutureDraftPicks | src/main/java/com/github/loafabreadly/franchisetracker/FranchiseTracker.java:230-240 | appends the seven picks of the year and keeps every existing entry |
| Franchise.FranchiseTracker.AdvanceSeason | src/main/java/com/github/loafabreadly/franchisetracker/FranchiseTracker.java:154-166 | archives the old season once, turns both rosters over, appends the seven picks of old season + 6, and moves to the next season |
| Franchise.FranchiseTracker.CompleteFranchise | src/main/java/com/github/loafabreadly/franchisetracker/FranchiseTracker.java:355-359 | archives once and marks the franchise completed in the current season; rosters, ledger and season are untouched |
| Franchise.FranchiseTracker.RecordTrade | src/main/java/com/github/loafabreadly/franchisetracker/FranchiseTracker.java:285-291 | appends the trade stamped with the current season |
| Franchise.FranchiseTracker.RecordAward | src/main/java/com/github/loafabreadly/franchisetracker/FranchiseTracker.java:296-302 | appends the award stamped with the current season |
| Franchise.FranchiseTracker.RecordDraftPick | src/main/java/com/github/loafabreadly/franchisetracker/FranchiseTracker.java:307-319 | appends the selection stamped with the current season and removes every ledger entry for this season and its round |
| Franchise.FranchiseTracker.AddPlayerToNhl | src/main/java/com/github/loafabreadly/franchisetracker/FranchiseTracker.java:365-369 | appends the player to the NHL roster when there is one |
| Franchise.FranchiseTracker.AddPlayerToAhl | src/main/java/com/github/loafabreadly/franchisetracker/FranchiseTracker.java:375-379 | appends the player to the AHL roster when there is one; the cap total does not change, since only the NHL roster counts |
| Franchise.FranchiseTracker.RemovePlayerFromNhl | src/main/java/com/github/loafabreadly/franchisetracker/FranchiseTracker.java:385-389 | removes the first equal player from the NHL roster, if any |
| Franchise.FranchiseTracker.RemovePlayerFromAhl | src/main/java/com/github/loafabreadly/franchisetracker/FranchiseTracker.java:395-399 | removes the first equal player from the AHL roster, if any; the cap total does not change |
| Franchise.FranchiseTracker.SendPlayerToAhl | src/main/java/com/github/loafabreadly/franchisetracker/FranchiseTracker.java:405-408 | removes the player from the NHL roster, then always appends them to the AHL roster |
| Franchise.FranchiseTracker.CallUpPlayerFromAhl | src/main/java/com/github/loafabreadly/franchisetracker/FranchiseTracker.java:414-417 | removes the player from the AHL roster, then always appends them to the NHL roster |
| Franchise.FranchiseTracker.RestoreTeamReferences | src/main/java/com/github/loafabreadly/franchisetracker/FranchiseTracker.java:141-149 | selects the last non-AHL club and the last AHL club; a kind with no club keeps its old selection |
| Franchise.RestoreFindsConstructedClubs | src/main/java/com/github/loafabreadly/franchisetracker/FranchiseTracker.java:141-149 | rebuilding the references of a newly constructed franchise finds its NHL club and its affiliate again |
| Franchise.CapHitWithout | src/main/java/com/github/loafabreadly/franchisetracker/FranchiseTracker.java:245-252 | removing a rostered player lowers the roster's cap total by exactly that player's cap hit |
| Franchise.FranchiseTracker.TotalCapHit | src/main/java/com/github/loafabreadly/franchisetracker/FranchiseTracker.java:245-252 | 0 when no NHL club or roster is selected, and 0 for a roster without contracts; otherwise the NHL roster's cap hits added up |
| Franchise.FranchiseTracker.CapSpace | src/main/java/com/github/loafabreadly/franchisetracker/FranchiseTracker.java:257-259 | cap space and cap total add up to the ceiling, and the space is negative exactly when the total is over the ceiling |
| Franchise.CapHitIgnoresAffiliate | src/main/java/com/github/loafabreadly/franchisetracker/FranchiseTracker.java:245-252 | replacing the affiliate's roster leaves the NHL roster, and so the cap total, as it was |
| Franchise.SendDown | src/main/java/com/github/loafabreadly/franchisetracker/FranchiseTracker.java:405-408 | with two distinct clubs, sending a player down appends them to the AHL roster; when they were on the NHL roster it frees exactly their cap hit and keeps the combined rosters a permutation |
| DraftManager.Entry | src/main/java/com/github/loafabreadly/franchisetracker/scene/DraftManager.java:198-204 | text that was typed is kept as typed; the entry is blank only when the default is |
| DraftManager.ValidatedEntryParses | src/main/java/com/github/loafabreadly/franchisetracker/scene/DraftManager.java:161-163 | short digit-only entries, which is all the boxes accept, always parse: to the number typed, or to the default when blank |
| DraftManager.DefaultEntries | src/main/java/com/github/loafabreadly/franchisetracker/scene/DraftManager.java:198-204 | the defaults read as overall 65, age 18, overall pick 0, and a three-year term |
| DraftManager.SelectedNhlName | src/main/java/com/github/loafabreadly/franchisetracker/scene/DraftManager.java:122 | the owner's name exists exactly when an NHL club is selected, and it is that club's name |
| DraftManager.AcquiredPick | src/main/java/com/github/loafabreadly/franchisetracker/scene/DraftManager.java:117-124 | an acquired pick has round combo index + 1 (always 1..7); it is traded from the entered club, which is also its original team, and is owned by the NHL club |
| DraftManager.AcquiredPickShowsSource | src/main/java/com/github/loafabreadly/franchisetracker/scene/DraftManager.java:117-128 | an acquired pick displays as "year ordinal Round Pick (from club)" |
| DraftManager.AppendedPickListed | src/main/java/com/github/loafabreadly/franchisetracker/scene/DraftManager.java:126 | an appended pick shows up last in its own year's list and in no other year's |
| DraftManager.AddAcquiredPick | src/main/java/com/github/loafabreadly/franchisetracker/scene/DraftManager.java:117-128 | the pick is appended exactly when the year parses and an NHL club is selected; otherwise the ledger is unchanged |
| DraftManager.SelectionOfferedIff | src/main/java/com/github/loafabreadly/franchisetracker/scene/DraftManager.java:144-152 | a selection is offered exactly when the ledger holds a pick of the current season |
| DraftManager.DraftedProspect | src/main/java/com/github/loafabreadly/franchisetracker/scene/DraftManager.java:195-205 | the new player has the entered names, ratings, position and potential, this season's draft year, the pick's round and overall number, empty statistics and no contract |
| DraftManager.SelectionRecordMatches | src/main/java/com/github/loafabreadly/franchisetracker/scene/DraftManager.java:170-215 | the selection record and the player agree on year, round and overall pick; the record keeps draft-day rating, position and a skater potential; it starts unsigned and not in the NHL |
| DraftManager.SelectionUsesPick | src/main/java/com/github/loafabreadly/franchisetracker/scene/DraftManager.java:217-218 | recording the selection of a listed pick shrinks the ledger, removing that season's round and keeping every other entry |
| DraftManager.ListedPickInLedger | src/main/java/com/github/loafabreadly/franchisetracker/scene/DraftManager.java:144-156 | every offered pick is a ledger entry of the current season |
| DraftManager.EnteredProspect | src/main/java/com/github/loafabreadly/franchisetracker/scene/DraftManager.java:194-205 | the form yields a player exactly when overall, age and overall pick parse (defaults for blanks), and it is that prospect |
| DraftManager.DraftProspect | src/main/java/com/github/loafabreadly/franchisetracker/scene/DraftManager.java:217-219 | records the selection, consuming this season's entries for the round, then appends the same player to the AHL roster |
| DraftManager.RecordDraftSelection | src/main/java/com/github/loafabreadly/franchisetracker/scene/DraftManager.java:193-223 | no pick this season, or an entry that does not parse, changes nothing; otherwise the selection is recorded, the ledger consumed and the prospect sent to the AHL |
| DraftManager.EntryContract | src/main/java/com/github/loafabreadly/franchisetracker/scene/DraftManager.java:303-308 | an entry-level deal is an RFA contract signed this season that expires after its term and is worth AAV × term |
| DraftManager.SignedDraftee | src/main/java/com/github/loafabreadly/franchisetracker/scene/DraftManager.java:310-314 | a signed draftee is marked signed this season, its player (if any) carries the contract, and nothing else changes |
| DraftManager.SigningLeavesUnsigned | src/main/java/com/github/loafabreadly/franchisetracker/scene/DraftManager.java:302-316 | signing one draftee removes exactly that one from the unsigned list, which shrinks by one when they were unsigned |
| DraftManager.EnteredDeal | src/main/java/com/github/loafabreadly/franchisetracker/scene/DraftManager.java:303-308 | the form yields a contract exactly when AAV and term parse (0.925 and 3 for blanks), and it is that entry-level deal |
| DraftManager.SignDrafteeUnder | src/main/java/com/github/loafabreadly/franchisetracker/scene/DraftManager.java:310-314 | replaces exactly that draft record with its signed version |
| DraftManager.SignDraftee | src/main/java/com/github/loafabreadly/franchisetracker/scene/DraftManager.java:302-314 | signs exactly when the deal parses, and otherwise leaves the records as they were |
| DraftManager.HistoryOrderIsTotal | src/main/java/com/github/loafabreadly/franchisetracker/scene/DraftManager.java:243-245 | newest year first, then by round, is a total preorder |
| DraftManager.DraftHistory | src/main/java/com/github/loafabreadly/franchisetracker/scene/DraftManager.java:243-245 | the history is a permutation of the records, years descending and rounds ascending within a year |
| SeasonStatsEditor.UpsertedShape | src/main/java/com/github/loafabreadly/franchisetracker/scene/SeasonStatsEditor.java:121-126 | after a save the new line is last and is the only line of its year; the lines of other years keep their order, and none is lost |
| SeasonStatsEditor.UpsertTwice | src/main/java/com/github/loafabreadly/franchisetracker/scene/SeasonStatsEditor.java:124-126 | saving the same line twice is the same as saving it once |
| SeasonStatsEditor.UpsertNewSeason | src/main/java/com/github/loafabreadly/franchisetracker/scene/SeasonStatsEditor.java:124-126 | saving a year with no earlier line just appends |
| SeasonStatsEditor.ParseBoxes | src/main/java/com/github/loafabreadly/franchisetracker/scene/SeasonStatsEditor.java:114-119 | a form reads exactly when every box parses, giving each box's number in order |
| SeasonStatsEditor.SkaterLine | src/main/java/com/github/loafabreadly/franchisetracker/scene/SeasonStatsEditor.java:112-119 | a skater line for the season has points = goals + assists and no goalie figures |
| SeasonStatsEditor.GoalieLine | src/main/java/com/github/loafabreadly/franchisetracker/scene/SeasonStatsEditor.java:170-178 | a goalie line for the season carries the goalie figures, with no goals, assists or points |
| SeasonStatsEditor.TeamLine | src/main/java/com/github/loafabreadly/franchisetracker/scene/SeasonStatsEditor.java:226-234 | a team line for the season has points = 2 × wins + overtime losses |
| SeasonStatsEditor.FormFor | src/main/java/com/github/loafabreadly/franchisetracker/scene/SeasonStatsEditor.java:69-73 | the goalie form opens exactly for goalies |
| SeasonStatsEditor.WithSeason | src/main/java/com/github/loafabreadly/franchisetracker/scene/SeasonStatsEditor.java:121-126 | a player's statistics list, empty when missing, gets the line upserted; nothing else about the player changes |
| SeasonStatsEditor.WithTeamSeason | src/main/java/com/github/loafabreadly/franchisetracker/scene/SeasonStatsEditor.java:236-241 | the same for a club's statistics list |
| SeasonStatsEditor.SaveToRosterPlayer | src/main/java/com/github/loafabreadly/franchisetracker/scene/SeasonStatsEditor.java:121-126 | only the chosen NHL player's statistics change |
| SeasonStatsEditor.SaveSkaterStats | src/main/java/com/github/loafabreadly/franchisetracker/scene/SeasonStatsEditor.java:111-126 | saves exactly when all five boxes parse, upserting the skater line for the current season; otherwise nothing changes |
| SeasonStatsEditor.SaveGoalieStats | src/main/java/com/github/loafabreadly/franchisetracker/scene/SeasonStatsEditor.java:169-185 | saves exactly when all seven boxes parse, upserting the goalie line for the current season; otherwise nothing changes |
| SeasonStatsEditor.SaveTeamStats | src/main/java/com/github/loafabreadly/franchisetracker/scene/SeasonStatsEditor.java:225-241 | saves exactly when all six boxes parse, upserting the team line into the NHL club's list; the tracker's own team statistics never change |
| SeasonStatsEditor.SkaterSaveEffect | src/main/java/com/github/loafabreadly/franchisetracker/scene/SeasonStatsEditor.java:111-126 | after a skater save the player's last line is the new one, its points are goals + assists, and no other line has that year |
| LineupEditor.MaxSlots | src/main/java/com/github/loafabreadly/franchisetracker/scene/LineupEditor.java:129-158 | a group has slots exactly when it is forwards, defence or goalies; an unknown group has none |
| LineupEditor.EligiblePlayersAre | src/main/java/com/github/loafabreadly/franchisetracker/scene/LineupEditor.java:129-158 | the eligible list is exactly the roster players of the group's positions; no roster or an unknown group gives none |
| LineupEditor.FilledLineup | src/main/java/com/github/loafabreadly/franchisetracker/scene/LineupEditor.java:37-46 | a missing lineup or slot list becomes empty; present lists are kept |
| LineupEditor.WithGroupList | src/main/java/com/github/loafabreadly/franchisetracker/scene/LineupEditor.java:136-151 | editing one group's list leaves the other groups' lists as they were |
| LineupEditor.ToggleKeepsBound | src/main/java/com/github/loafabreadly/franchisetracker/scene/LineupEditor.java:165-169 | a list within its slot limit stays within it |
| LineupEditor.ToggleFlips | src/main/java/com/github/loafabreadly/franchisetracker/scene/LineupEditor.java:165-169 | a toggled player is in the list afterwards exactly when they were not in it and there was room; every other player stays in or out; no player appears twice |
| LineupEditor.RemovingFromDistinct | src/main/java/com/github/loafabreadly/franchisetracker/scene/LineupEditor.java:166 | removing a listed player from a list without repeats takes out that player only |
| LineupEditor.ToggleUndoes | src/main/java/com/github/loafabreadly/franchisetracker/scene/LineupEditor.java:165-169 | adding a player and toggling them again restores the list |
| LineupEditor.ToggleKeepsEligible | src/main/java/com/github/loafabreadly/franchisetracker/scene/LineupEditor.java:161-169 | toggling an eligible player keeps every listed player eligible |
| LineupEditor.OpenLineup | src/main/java/com/github/loafabreadly/franchisetracker/scene/LineupEditor.java:37-46 | opening the editor fills in the missing lineup and lists on the NHL club and changes nothing else |
| LineupEditor.TogglePlayer | src/main/java/com/github/loafabreadly/franchisetracker/scene/LineupEditor.java:161-171 | clicking an eligible player toggles them in that group's list, bounded by its slot count |
| LineupEditor.ClearGroup | src/main/java/com/github/loafabreadly/franchisetracker/scene/LineupEditor.java:179-182 | "Clear All" empties that group's list and leaves the others |
| LineupEditor.ForwardSlotsAreLines | src/main/java/com/github/loafabreadly/franchisetracker/scene/LineupEditor.java:51-54 | the twelve forward slots are lines 1-4, and no two slots get the same line and side |
| LineupEditor.DefenseSlotsArePairs | src/main/java/com/github/loafabreadly/franchisetracker/scene/LineupEditor.java:72-75 | the six defence slots are pairs 1-3, and no two slots get the same pair and side |
| LineupEditor.ShownSlots | src/main/java/com/github/loafabreadly/franchisetracker/scene/LineupEditor.java:51-93 | forwards and defence show at least their slot count and every listed player; goalies always show exactly the starter and backup slots |
| LineupEditor.ShownSlotsByGroup | src/main/java/com/github/loafabreadly/franchisetracker/scene/LineupEditor.java:51-93 | forwards show max(12, size) rows, defence max(6, size), goalies 2 even when more are listed |
| ImportExport.CsvFields | src/main/java/com/github/loafabreadly/franchisetracker/scene/ImportExport.java:121-139 | a row has ten fields: the league, the first and last name, the cap hit written to two decimals, and the contract years remaining |
| ImportExport.CsvColumns | src/main/java/com/github/loafabreadly/franchisetracker/scene/ImportExport.java:121-139 | position, overall, age, potential and status fields are the constant names or numerals, empty when missing |
| ImportExport.CsvRows | src/main/java/com/github/loafabreadly/franchisetracker/scene/ImportExport.java:105-116 | one row per player, in roster order |
| ImportExport.ExportLines | src/main/java/com/github/loafabreadly/franchisetracker/scene/ImportExport.java:101-116 | the file has the header first, then one line per player on the two rosters; a missing roster adds none |
| ImportExport.AppendLines | src/main/java/com/github/loafabreadly/franchisetracker/scene/ImportExport.java:101-116 | the builder loop appends each line and its newline |
| ImportExport.ExportRosterToCsv | src/main/java/com/github/loafabreadly/franchisetracker/scene/ImportExport.java:100-119 | with both clubs selected the text is exactly the header and rows; otherwise there is no export |
| ImportExport.ImportedContract | src/main/java/com/github/loafabreadly/franchisetracker/scene/ImportExport.java:247-261 | a contract is created exactly when there is money or a term, carrying both and the status read |
| ImportExport.ParseRowOutcomes | src/main/java/com/github/loafabreadly/franchisetracker/scene/ImportExport.java:220-263 | a line is skipped exactly when blank or under six fields; it aborts exactly when overall or age, or with more than eight fields AAV or years, is not a number; otherwise the player has trimmed names, the parsed ratings and empty statistics |
| ImportExport.ParseRowsEach | src/main/java/com/github/loafabreadly/franchisetracker/scene/ImportExport.java:220-224 | each line is read on its own, in order |
| ImportExport.FailedImportStays | src/main/java/com/github/loafabreadly/franchisetracker/scene/ImportExport.java:238-249 | once a line aborts the import, later lines change nothing |
| ImportExport.AddImported | src/main/java/com/github/loafabreadly/franchisetracker/scene/ImportExport.java:265-269 | a player goes to the AHL roster when the league is "AHL" in any letter case, and to the NHL roster otherwise |
| ImportExport.ImportRosterFromCsv | src/main/java/com/github/loafabreadly/franchisetracker/scene/ImportExport.java:215-274 | after the header, lines are read in order and routed; the result is the count of players read, or a failure that keeps the players already added |
| ImportExport.ImportRowsStep | src/main/java/com/github/loafabreadly/franchisetracker/scene/ImportExport.java:220-271 | reading one more line is one more step of the fold |
| ImportExport.ImportOnlyAppends | src/main/java/com/github/loafabreadly/franchisetracker/scene/ImportExport.java:265-270 | with two distinct rostered clubs, an import only appends: both old rosters are prefixes of the new ones, and the count is the number of players added |
| ImportExport.IntFieldReads | src/main/java/com/github/loafabreadly/franchisetracker/scene/ImportExport.java:128-134 | a written 32-bit integer is non-empty, has no comma, and parses back to itself |
| ImportExport.MoneyFieldSafe | src/main/java/com/github/loafabreadly/franchisetracker/scene/ImportExport.java:128-136 | a written amount is non-empty and has no comma |
| ImportExport.MoneyFieldReads | src/main/java/com/github/loafabreadly/franchisetracker/scene/ImportExport.java:247-249 | a written amount reads back as the amount rounded to cents |
| ImportExport.ConstantNameIsSafe | src/main/java/com/github/loafabreadly/franchisetracker/scene/ImportExport.java:132 | a constant name has no comma and nothing to trim |
| ImportExport.PositionNameIsConstant | src/main/java/com/github/loafabreadly/franchisetracker/scene/ImportExport.java:132 | every position's name is such a constant name |
| ImportExport.PotentialNameIsConstant | src/main/java/com/github/loafabreadly/franchisetracker/scene/ImportExport.java:122 | every tier's name is such a constant name |
| ImportExport.PositionFieldSafe | src/main/java/com/github/loafabreadly/franchisetracker/scene/ImportExport.java:132 | the position field has no comma |
| ImportExport.PositionFieldReads | src/main/java/com/github/loafabreadly/franchisetracker/scene/ImportExport.java:232-236 | the position field reads back as the position, or none |
| ImportExport.PotentialFieldSafe | src/main/java/com/github/loafabreadly/franchisetracker/scene/ImportExport.java:122 | the potential field has no comma |
| ImportExport.PotentialFieldReads | src/main/java/com/github/loafabreadly/franchisetracker/scene/ImportExport.java:241-245 | the potential field reads back as the tier, or none |
| ImportExport.StatusFieldSafe | src/main/java/com/github/loafabreadly/franchisetracker/scene/ImportExport.java:125-126 | the status field has no comma |
| ImportExport.StatusFieldReads | src/main/java/com/github/loafabreadly/franchisetracker/scene/ImportExport.java:254-257 | the status field is empty exactly without a contract or status, and otherwise reads back as the status |
| ImportExport.FieldsCommaFree | src/main/java/com/github/loafabreadly/franchisetracker/scene/ImportExport.java:121-139 | no field of an exportable player's row holds a comma, and the years field is never empty |
| ImportExport.DropEmptyStatus | src/main/java/com/github/loafabreadly/franchisetracker/scene/ImportExport.java:224 | splitting drops an empty status field and nothing before it |
| ImportExport.RowSplits | src/main/java/com/github/loafabreadly/franchisetracker/scene/ImportExport.java:224 | splitting a written row gives back its fields, nine when the status is empty |
| ImportExport.ColumnsReadBack | src/main/java/com/github/loafabreadly/franchisetracker/scene/ImportExport.java:227-263 | columns that read as given values build exactly the player with those values |
| ImportExport.ExportedParts | src/main/java/com/github/loafabreadly/franchisetracker/scene/ImportExport.java:121-139 | a written row splits into nine or ten parts, which are its fields |
| ImportExport.NameColumnsRead | src/main/java/com/github/loafabreadly/franchisetracker/scene/ImportExport.java:228-230 | names with nothing to trim read back unchanged |
| ImportExport.PositionColumnRead | src/main/java/com/github/loafabreadly/franchisetracker/scene/ImportExport.java:232-236 | the position column of a written row reads back as the position |
| ImportExport.IntColumnRead | src/main/java/com/github/loafabreadly/franchisetracker/scene/ImportExport.java:238-239 | an integer column of a written row reads back as its number |
| ImportExport.PotentialColumnRead | src/main/java/com/github/loafabreadly/franchisetracker/scene/ImportExport.java:241-245 | the potential column of a written row reads back as the tier |
| ImportExport.MoneyColumnRead | src/main/java/com/github/loafabreadly/franchisetracker/scene/ImportExport.java:248 | the AAV column of a written row reads back as the AAV rounded to cents |
| ImportExport.StatusColumnRead | src/main/java/com/github/loafabreadly/franchisetracker/scene/ImportExport.java:254-257 | the status column of a written row reads back as the contract's status |
| ImportExport.RowReadsAs | src/main/java/com/github/loafabreadly/franchisetracker/scene/ImportExport.java:220-225 | a non-blank line with six or more fields reads as its columns |
| ImportExport.ExportedValuesRead | src/main/java/com/github/loafabreadly/franchisetracker/scene/ImportExport.java:227-263 | every value column of a written row reads back as the player's value (AAV to cents) |
| ImportExport.ExportedNamesRead | src/main/java/com/github/loafabreadly/franchisetracker/scene/ImportExport.java:228-230 | the league and name columns of a written row read back unchanged |
| ImportExport.ExportedRowReadsBack | src/main/java/com/github/loafabreadly/franchisetracker/scene/ImportExport.java:121-139 | re-importing an exported row gives the same league and a player with the same names, position, ratings and potential, AAV to cents and years; a contract only when there is money or a term; no contract gives no contract |
| Text.ParseInt | src/main/java/com/github/loafabreadly/franchisetracker/scene/ImportExport.java:238-239 | a parsed number is a 32-bit integer written as an optional sign and digits |
| Text.ParseIntToString | src/main/java/com/github/loafabreadly/franchisetracker/scene/ImportExport.java:238-239 | every 32-bit integer's numeral parses back to it |
| Text.ParseFormatCents | src/main/java/com/github/loafabreadly/franchisetracker/scene/ImportExport.java:248 | an amount written to two decimals parses back as the amount rounded to cents |
| Text.SplitFieldsJoin | src/main/java/com/github/loafabreadly/franchisetracker/scene/ImportExport.java:224 | splitting comma-free fields joined by commas gives them back |
| Text.TrimBlank | src/main/java/com/github/loafabreadly/franchisetracker/scene/ImportExport.java:222 | a line trims to nothing exactly when it is all blanks |
| Seqs.RemoveFirst | src/main/java/com/github/loafabreadly/franchisetracker/FranchiseTracker.java:385-389 | removing a player takes out its first occurrence only, and changes nothing when it is absent |
| Sorting.TopBy | src/main/java/com/github/loafabreadly/franchisetracker/scene/FranchiseWrapUp.java:212-215 | a sort then limit gives min(size, n) ordered elements of the input, none listed more often than the input holds it, all of them when the input is short, none behind one left out |
| FranchiseWrapUp.TotalWinsNonNegative | src/main/java/com/github/loafabreadly/franchisetracker/scene/FranchiseWrapUp.java:119-122 | wins summed over seasons with non-negative wins are non-negative |
| FranchiseWrapUp.GradeTierCountsThresholds | src/main/java/com/github/loafabreadly/franchisetracker/scene/FranchiseWrapUp.java:135-141 | the grade tier is the number of thresholds (15, 30, 45, 60, 80, 100) the score reaches |
| FranchiseWrapUp.GradeTierMonotone | src/main/java/com/github/loafabreadly/franchisetracker/scene/FranchiseWrapUp.java:135-141 | a higher score never gives a lower grade |
| FranchiseWrapUp.CupLiftsGrade | src/main/java/com/github/loafabreadly/franchisetracker/scene/FranchiseWrapUp.java:131-141 | a score 20 points higher (one more Cup) is at least one tier higher, unless the grade is already the top |
| FranchiseWrapUp.FranchiseGrade | src/main/java/com/github/loafabreadly/franchisetracker/scene/FranchiseWrapUp.java:111-142 | "N/A" exactly when no season is archived, and otherwise the label of the tier of the score from championships, total wins, seasons and league awards |
| FranchiseWrapUp.SeasonOrderIsTotal | src/main/java/com/github/loafabreadly/franchisetracker/scene/FranchiseWrapUp.java:156 | ordering by season is a total preorder |
| FranchiseWrapUp.Championships | src/main/java/com/github/loafabreadly/franchisetracker/scene/FranchiseWrapUp.java:154-157 | exactly the Cup-winning seasons, as a permutation, in season order |
| FranchiseWrapUp.ChampionshipsCounted | src/main/java/com/github/loafabreadly/franchisetracker/scene/FranchiseWrapUp.java:154-168 | the championship list is as long as the tracker's Cup count |
| FranchiseWrapUp.AddLineEffect | src/main/java/com/github/loafabreadly/franchisetracker/scene/FranchiseWrapUp.java:196-204 | a snapshot with statistics adds its games, goals, assists and points to its own name's totals only |
| FranchiseWrapUp.AddRosterSums | src/main/java/com/github/loafabreadly/franchisetracker/scene/FranchiseWrapUp.java:195-205 | folding a roster adds each name's lines to its totals |
| FranchiseWrapUp.AddRosterKeys | src/main/java/com/github/loafabreadly/franchisetracker/scene/FranchiseWrapUp.java:195-205 | a name is in the map after a roster exactly when it was before or the roster lists it with statistics |
| FranchiseWrapUp.CareerTotalsAreSums | src/main/java/com/github/loafabreadly/franchisetracker/scene/FranchiseWrapUp.java:192-206 | a name's career totals are the sum of its NHL lines over all seasons, same-named players merged, and a name is listed exactly when it ever had an NHL line |
| FranchiseWrapUp.CollectCareerTotals | src/main/java/com/github/loafabreadly/franchisetracker/scene/FranchiseWrapUp.java:192-206 | the nested loops build exactly the career totals and list each name once |
| FranchiseWrapUp.LeaderEntries | src/main/java/com/github/loafabreadly/franchisetracker/scene/FranchiseWrapUp.java:212 | one entry per name, carrying its totals |
| FranchiseWrapUp.LeaderOrdersAreTotal | src/main/java/com/github/loafabreadly/franchisetracker/scene/FranchiseWrapUp.java:212-235 | more points first, and more goals first, are total preorders |
| FranchiseWrapUp.PointsLeaders | src/main/java/com/github/loafabreadly/franchisetracker/scene/FranchiseWrapUp.java:212-215 | at most 10 entries, points descending, drawn from the input with no entry repeated, all of it when short, nobody left off ahead of anyone listed |
| FranchiseWrapUp.GoalsLeaders | src/main/java/com/github/loafabreadly/franchisetracker/scene/FranchiseWrapUp.java:232-235 | the same with 5 entries and goals |
| FranchiseWrapUp.EntriesCoverTotals | src/main/java/com/github/loafabreadly/franchisetracker/scene/FranchiseWrapUp.java:212 | the entries are exactly the map's names with their totals |
| FranchiseWrapUp.PointsBoard | src/main/java/com/github/loafabreadly/franchisetracker/scene/FranchiseWrapUp.java:212-215 | for distinct names (the keys of the totals map), the points list is a points board of them: bounded, ordered, true totals, no name twice, nobody left off ahead |
| FranchiseWrapUp.GoalsBoard | src/main/java/com/github/loafabreadly/franchisetracker/scene/FranchiseWrapUp.java:232-235 | the same for the goals list |
| FranchiseWrapUp.AllTimeLeaders | src/main/java/com/github/loafabreadly/franchisetracker/scene/FranchiseWrapUp.java:186-235 | both leader lists are boards of the career totals: bounded, ordered, true totals, no name twice, nobody left off ahead of anyone listed |
| FranchiseWrapUp.SeasonOrdersAreTotal | src/main/java/com/github/loafabreadly/franchisetracker/scene/FranchiseWrapUp.java:298-319 | more points first, and more wins first, are total preorders |
| FranchiseWrapUp.RecordedSeasons | src/main/java/com/github/loafabreadly/franchisetracker/scene/FranchiseWrapUp.java:299 | the seasons considered are exactly those with team statistics |
| FranchiseWrapUp.BestByPoints | src/main/java/com/github/loafabreadly/franchisetracker/scene/FranchiseWrapUp.java:298-302 | at most five archived seasons, all with team statistics, none listed more often than it was archived |
| FranchiseWrapUp.BestByPointsRanked | src/main/java/com/github/loafabreadly/franchisetracker/scene/FranchiseWrapUp.java:298-302 | they are in points order, and no season left off had more points than one listed |
| FranchiseWrapUp.BestByWins | src/main/java/com/github/loafabreadly/franchisetracker/scene/FranchiseWrapUp.java:315-319 | at most five archived seasons, all with team statistics, none listed more often than it was archived |
| FranchiseWrapUp.BestByWinsRanked | src/main/java/com/github/loafabreadly/franchisetracker/scene/FranchiseWrapUp.java:315-319 | they are in wins order, and no season left off had more wins than one listed |
| FranchiseWrapUp.DraftYearOrderIsTotal | src/main/java/com/github/loafabreadly/franchisetracker/scene/FranchiseWrapUp.java:395 | ordering by draft year is a total preorder |
| FranchiseWrapUp.SignedCount | src/main/java/com/github/loafabreadly/franchisetracker/scene/FranchiseWrapUp.java:384 | at most the number drafted, and 0 exactly when nobody signed |
| FranchiseWrapUp.NhlCount | src/main/java/com/github/loafabreadly/franchisetracker/scene/FranchiseWrapUp.java:385 | at most the number drafted, and 0 exactly when nobody made the NHL |
| FranchiseWrapUp.SignedAndUnsignedSplit | src/main/java/com/github/loafabreadly/franchisetracker/scene/FranchiseWrapUp.java:384-387 | the signed count and the unsigned list together account for every selection |
| FranchiseWrapUp.FirstRoundPicks | src/main/java/com/github/loafabreadly/franchisetracker/scene/FranchiseWrapUp.java:393-395 | exactly the first-round selections, as a permutation, by draft year |
| FranchiseWrapUp.NhlGraduates | src/main/java/com/github/loafabreadly/franchisetracker/scene/FranchiseWrapUp.java:403-405 | exactly the selections who made the NHL, as a permutation, by draft year |
| ChartComponents.Lowest | src/main/java/com/github/loafabreadly/franchisetracker/ChartComponents.java:151-156 | the youngest age is one of the ages and at most every age |
| ChartComponents.Highest | src/main/java/com/github/loafabreadly/franchisetracker/ChartComponents.java:151-156 | the oldest age is one of the ages and at least every age |
| ChartComponents.Counts | src/main/java/com/github/loafabreadly/franchisetracker/ChartComponents.java:159-164 | bucket b holds the number of ages falling in bucket b |
| ChartComponents.MaxOf | src/main/java/com/github/loafabreadly/franchisetracker/ChartComponents.java:166-169 | the largest count is at least every count, and is one of them (or 0) |
| ChartComponents.HistogramBars | src/main/java/com/github/loafabreadly/franchisetracker/ChartComponents.java:158-180 | there is one bar per bucket, (max − min)/size + 1 of them |
| ChartComponents.AgeBucketInRange | src/main/java/com/github/loafabreadly/franchisetracker/ChartComponents.java:161-164 | every age's bucket index lies in [0, number of buckets) |
| ChartComponents.BucketCovers | src/main/java/com/github/loafabreadly/franchisetracker/ChartComponents.java:162-176 | an age is in bucket b exactly when it lies in that bucket's printed range |
| ChartComponents.CountsGrow | src/main/java/com/github/loafabreadly/franchisetracker/ChartComponents.java:161-164 | one more age adds one to the counts' sum when its bucket is in range |
| ChartComponents.CountsAddUp | src/main/java/com/github/loafabreadly/franchisetracker/ChartComponents.java:159-164 | when every age's bucket is in range, the counts add up to the number of ages |
| ChartComponents.EmptyCounts | src/main/java/com/github/loafabreadly/franchisetracker/ChartComponents.java:159 | no ages give all-zero counts |
| ChartComponents.OwnBucketNotEmpty | src/main/java/com/github/loafabreadly/franchisetracker/ChartComponents.java:161-164 | every age's own bucket counts at least one |
| ChartComponents.HistogramLines | src/main/java/com/github/loafabreadly/franchisetracker/ChartComponents.java:174-179 | bar b covers min + b × size to that plus size − 1, and shows bucket b's count |
| ChartComponents.HistogramCountsAddUp | src/main/java/com/github/loafabreadly/franchisetracker/ChartComponents.java:159-169 | the bucket counts add up to the number of ages, and the largest is positive |
| ChartComponents.HistogramBarLengths | src/main/java/com/github/loafabreadly/franchisetracker/ChartComponents.java:172-177 | every bar is 0 to 20 long, and exactly the fullest buckets get 20 |
| ChartComponents.BarScale | src/main/java/com/github/loafabreadly/franchisetracker/ChartComponents.java:177 | a count scaled against the largest is 0 to 20, and 20 exactly for the largest |
| ChartComponents.AgeHistogram | src/main/java/com/github/loafabreadly/franchisetracker/ChartComponents.java:146-183 | no ages gives no histogram; otherwise the loops produce exactly the specified bars |
| ChartComponents.AgeRange | src/main/java/com/github/loafabreadly/franchisetracker/ChartComponents.java:151-156 | the min/max loop, started from the 32-bit extremes, finds the youngest and the oldest age |
| ChartComponents.CountBuckets | src/main/java/com/github/loafabreadly/franchisetracker/ChartComponents.java:158-164 | incrementing an array of buckets yields exactly the bucket counts |
| ChartComponents.LargestCount | src/main/java/com/github/loafabreadly/franchisetracker/ChartComponents.java:166-169 | the loop finds the largest count |
| ChartComponents.DrawBars | src/main/java/com/github/loafabreadly/franchisetracker/ChartComponents.java:174-180 | the drawing loop produces bar b for every bucket b |

## Left out

- Screen layout and navigation (panels, buttons, labels, combo-box wiring, windows) in every screen; only the state rules behind the buttons are modelled.
- The other screens (statistics hub, cap dashboard, season history, prospects, awards, trade log, contract and player editors) and the program's start-up. Their logic is covered by the tracker operations they call.
- Saving and loading (JSON persistence through a foreign library), reading and writing files, and listing directories. A file is modelled as its lines or its text, and loading only as `RestoreTeamReferences` on a given club list.
- Floating point: money is an exact `real`, so IEEE rounding of sums is not modelled. `%.2f` assumes a '.' decimal separator. `Double.parseDouble` is modelled only for plain decimals (no exponents, no hex, no "NaN").
- Java `int` overflow: ages, ratings, wins, counts and `count * 20` are unbounded integers. Only the parses, the histogram's sentinel start values and the CSV round trip use the 32-bit range.
- Object identity and aliasing. Players, picks and records are values, so:
  - a `DraftedPlayer`'s linked player is a copy, not the roster object, and later roster changes do not reach it;
  - `List.remove` matches by structural equality, and the first equal element is removed;
  - roster players edited by the screens are addressed by position.
- Text.ParseInt: accepts the ASCII digits 0-9 only. Java's `Integer.parseInt` also accepts the decimal digits of other scripts (any character `Character.digit` maps to a value), so text such as Arabic-Indic numerals parses in the source and is an error in the model.
- DraftManager.SignDraftee: signing a draftee also signs the roster player in the source, because `draftee.getPlayer().setContract(contract)` (`scene/DraftManager.java:309-311`) changes the very object that sits on the roster. In the model the drafted player's linked player is a copy, so the roster player stays unsigned: the model's cap total, expiring-contract list and CSV export do not see contracts given to draftees.
- `HashMap` iteration order: ties in the leader lists may come out in any order, so the model promises only the order by points or goals.
- `enterEndOfSeasonStats` (an empty method) and the trade date's wall-clock value, which is carried but never inspected.
- The chart renderers other than the age histogram (line graph, sparkline, progress bar, horizontal bar chart), and the histogram's text layout (`String.format`, the block characters).
- Null lists inside records (a null roster list inside a snapshot, a null award list): snapshots always hold lists. Null club rosters and the tracker's own lists are modelled.
- Display strings built with `String.format` (the drafted-player summary line, the leader and best-season lines) are modelled only where a property is stated about them.
- Potential and league-level descriptions are plain constants; no property is stated about their text.
- ChartComponents.AgeHistogram: requires a positive bucket size. The source divides by it, so 0 throws, and a negative size is not modelled.
- ChartComponents.AgeHistogram: requires every age to be a 32-bit integer, which is what an `int[]` holds.
- DraftManager.RecordDraftSelection: requires the chosen pick index to be one of the offered picks, which the combo box guarantees, and a skater potential, which is all the combo box offers.
- SeasonStatsEditor.SaveSkaterStats: the player is chosen by roster position on the NHL club, which must have a roster, as the menu that lists its players does. The same holds for SaveGoalieStats and SaveToRosterPlayer.
- SeasonStatsEditor.SaveTeamStats: requires a selected NHL club, which the screen dereferences.
- LineupEditor.TogglePlayer: requires the clicked player to be one of the eligible players listed, and an opened lineup.
- ImportExport.ImportRosterFromCsv: the model parses every data line before folding them onto the rosters. Parsing changes nothing, so the outcome is the same as the source's line-by-line loop. A row whose overall, age, AAV or years is not a number ends the import as a failure; rows before it stay imported.
- ImportExport.ImportRosterFromCsv: the count includes rows routed to a club that has no roster. The source counts them too and adds them nowhere; ImportExport.ImportOnlyAppends states the count only when both rosters exist.
- ImportExport.ExportedRowReadsBack: holds for exportable players, meaning names and league without commas or surrounding blanks, and 32-bit ratings and years. Other names do not survive the comma-separated format.
