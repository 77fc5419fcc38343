/**
 * The roster CSV: the row layout written for every rostered player, and
 * the per-line rules by which a CSV file is read back onto the rosters.
 * The file itself is read and written elsewhere; here a file is its list
 * of lines, or its text.
 */
module ImportExport {
  import opened Wrappers
  import opened Text
  import opened Contracts
  import opened PlayerPotential
  import opened Players
  import opened Teams
  import opened Franchise
  import Seqs

  const CsvHeader: string := "League,FirstName,LastName,Position,Overall,Age,Potential,AAV,ContractYears,Status"

  function PositionField(position: Option<Position>): string
  {
    if position.Some? then position.value.Name() else ""
  }

  function PotentialField(potential: Option<Potential>): string
  {
    if potential.Some? then potential.value.Name() else ""
  }

  function StatusField(contract: Option<Contract>): string
  {
    if contract.Some? && contract.value.status.Some? then contract.value.status.value.Name() else ""
  }

  /** The ten columns `formatPlayerCSV` writes; a player without a contract shows 0.00, 0 and no status. */
  function CsvFields(league: string, p: Player): (r: seq<string>)
    ensures |r| == 10 && r[0] == league && r[1] == p.firstName && r[2] == p.lastName
    ensures r[7] == FormatCents(p.CapHit()) && r[8] == IntToString(p.ContractYearsRemaining())
  {
    [league, p.firstName, p.lastName, PositionField(p.position), IntToString(p.overall), IntToString(p.age),
     PotentialField(p.potential), FormatCents(p.CapHit()), IntToString(p.ContractYearsRemaining()),
     StatusField(p.contract)]
  }

  lemma CsvColumns(league: string, p: Player)
    ensures var r := CsvFields(league, p);
      r[3] == PositionField(p.position) && r[4] == IntToString(p.overall) && r[5] == IntToString(p.age)
      && r[6] == PotentialField(p.potential) && r[9] == StatusField(p.contract)
  {
  }

  /** One exported line, without its line terminator. */
  function CsvRow(league: string, p: Player): string
  {
    Join(",", CsvFields(league, p))
  }

  function CsvRows(league: string, players: seq<Player>): (r: seq<string>)
    ensures |r| == |players| && forall i :: 0 <= i < |players| ==> r[i] == CsvRow(league, players[i])
  {
    seq(|players|, i requires 0 <= i < |players| => CsvRow(league, players[i]))
  }

  /** The text of a file holding `lines`, each ended by a newline. */
  function CsvText(lines: seq<string>): string
  {
    if lines == [] then "" else CsvText(lines[..|lines| - 1]) + lines[|lines| - 1] + "\n"
  }

  /** The lines of an export: the header, the NHL roster's rows, then the AHL roster's rows. */
  function ExportLines(nhlRoster: Option<seq<Player>>, ahlRoster: Option<seq<Player>>): (r: seq<string>)
    ensures |r| == 1 + |nhlRoster.GetOr([])| + |ahlRoster.GetOr([])| && r[0] == CsvHeader
  {
    [CsvHeader] + CsvRows("NHL", nhlRoster.GetOr([])) + CsvRows("AHL", ahlRoster.GetOr([]))
  }

  function ClubSelected(teams: seq<Team>, club: Option<nat>): bool
  {
    club.Some? && club.value < |teams|
  }

  /** Writes `lines` after `text`, one per line; `written` is what `text` already holds. */
  method AppendLines(ghost written: seq<string>, text: string, lines: seq<string>) returns (r: string)
    requires text == CsvText(written)
    ensures r == CsvText(written + lines)
  {
    r := text;
    var i := 0;
    assert written + lines[..0] == written;
    while i < |lines|
      invariant 0 <= i <= |lines|
      invariant r == CsvText(written + lines[..i])
    {
      assert (written + lines[..i + 1])[..|written + lines[..i + 1]| - 1] == written + lines[..i];
      r := r + lines[i] + "\n";
      i := i + 1;
    }
    assert lines[..|lines|] == lines;
  }

  /**
   * `exportRosterToCSV`: the text written, or `None` for the failure of a
   * tracker without both clubs selected. A club without a roster adds no rows.
   */
  method ExportRosterToCsv(tracker: FranchiseTracker) returns (text: Option<string>)
    ensures text.None? <==> !ClubSelected(tracker.teams, tracker.nhlClub) || !ClubSelected(tracker.teams, tracker.ahlClub)
    ensures text.Some? ==>
      text.value == CsvText(ExportLines(RosterAt(tracker.teams, tracker.nhlClub), RosterAt(tracker.teams, tracker.ahlClub)))
  {
    if !ClubSelected(tracker.teams, tracker.nhlClub) || !ClubSelected(tracker.teams, tracker.ahlClub) {
      return None;
    }
    var nhlRoster, ahlRoster := RosterAt(tracker.teams, tracker.nhlClub), RosterAt(tracker.teams, tracker.ahlClub);
    var sb := CsvHeader + "\n";
    assert sb == CsvText([CsvHeader]) by {
      assert [CsvHeader][..0] == [];
    }
    sb := AppendLines([CsvHeader], sb, CsvRows("NHL", nhlRoster.GetOr([])));
    sb := AppendLines([CsvHeader] + CsvRows("NHL", nhlRoster.GetOr([])), sb, CsvRows("AHL", ahlRoster.GetOr([])));
    return Some(sb);
  }

  // ------------------------------------------------------------- import

  /** What one data line of the file amounts to. */
  datatype RowParse =
    | Skip
    | Parsed(league: string, player: Player)
    /** A line whose overall, age, AAV or years column is not a number: the import stops there. */
    | Malformed

  /** A column's trimmed text, or nothing when it is blank. */
  function NonBlank(column: string): Option<string>
  {
    if Trim(column) != [] then Some(Trim(column)) else None
  }

  /** A column that is present and not blank, trimmed. */
  function OptionalField(parts: seq<string>, i: nat): Option<string>
  {
    if i < |parts| then NonBlank(parts[i]) else None
  }

  function ParseOptional<T>(field: Option<string>, parse: string -> Option<T>): Option<T>
  {
    if field.Some? then parse(field.value) else None
  }

  /** The contract columns read back: a contract only when there is money or a term. */
  function ImportedContract(aav: real, years: int, status: Option<ContractStatus>): (c: Option<Contract>)
    ensures c.Some? <==> aav > 0.0 || years > 0
    ensures c.Some? ==> c.value.aav == aav && c.value.termInYears == years && c.value.status == status
  {
    if aav > 0.0 || years > 0 then Some(CreateContract(aav, years, 0, status)) else None
  }

  /** The player `importRosterFromCSV` builds from the columns of one line. */
  function ImportedPlayer(first: string, last: string, position: Option<Position>, overall: int, age: int,
                          potential: Option<Potential>, contract: Option<Contract>): Player
  {
    Player(first, last, overall, age, position, None, None, Some([]), contract, potential, None, 0, 0, 0)
  }

  /**
   * The per-line logic of `importRosterFromCSV`: a blank line or one with
   * fewer than six columns is skipped; overall and age must be integers,
   * and with more than eight columns so must the AAV and the years;
   * unknown position, potential or status names are left unset.
   */
  function ParseRow(line: string): RowParse
  {
    var parts := Split(line, ',');
    if Trim(line) == [] || |parts| < 6 then Skip else ParseColumns(parts)
  }

  /** The columns of a line that is not skipped. */
  function ParseColumns(parts: seq<string>): RowParse
    requires |parts| >= 6
  {
    var overall := ParseInt(Trim(parts[4]));
    var age := ParseInt(Trim(parts[5]));
    if overall.None? || age.None? then Malformed
    else if |parts| > 8 && (ParseDecimal(Trim(parts[7])).None? || ParseInt(Trim(parts[8])).None?) then Malformed
    else
      var contract :=
        if |parts| > 8 then
          ImportedContract(ParseDecimal(Trim(parts[7])).value, ParseInt(Trim(parts[8])).value,
                           ParseOptional(OptionalField(parts, 9), ParseStatus))
        else None;
      Parsed(Trim(parts[0]), ImportedPlayer(Trim(parts[1]), Trim(parts[2]),
                                           ParseOptional(OptionalField(parts, 3), ParsePosition),
                                           overall.value, age.value,
                                           ParseOptional(OptionalField(parts, 6), ParsePotential), contract))
  }

  /**
   * What a line reads as: skipped exactly when blank or under six columns;
   * malformed exactly when overall or age, or with more than eight columns
   * the AAV or the years, is not a number; otherwise a player carrying the
   * trimmed names and the parsed ratings, an empty stats list, and a
   * contract only when there is money or a term.
   */
  lemma ParseRowOutcomes(line: string)
    ensures ParseRow(line).Skip? <==> Trim(line) == [] || |Split(line, ',')| < 6
    ensures ParseRow(line).Malformed? <==> (!ParseRow(line).Skip? &&
      var parts := Split(line, ',');
      ParseInt(Trim(parts[4])).None? || ParseInt(Trim(parts[5])).None? ||
      (|parts| > 8 && (ParseDecimal(Trim(parts[7])).None? || ParseInt(Trim(parts[8])).None?)))
    ensures ParseRow(line).Parsed? ==>
      var parts, p := Split(line, ','), ParseRow(line).player;
      ParseRow(line).league == Trim(parts[0]) && p.firstName == Trim(parts[1]) && p.lastName == Trim(parts[2])
      && Some(p.overall) == ParseInt(Trim(parts[4])) && Some(p.age) == ParseInt(Trim(parts[5]))
      && p.careerStats == Some([])
      && (p.contract.Some? ==> |parts| > 8 && (p.contract.value.aav > 0.0 || p.contract.value.termInYears > 0))
  {
  }

  /** `Character.toUpperCase` on ASCII letters. */
  function UpperAscii(c: char): char
  {
    if 'a' <= c <= 'z' then (c as int - 32) as char else c
  }

  /** `String.equalsIgnoreCase`, letter case folded on ASCII letters. */
  predicate EqualsIgnoreCase(a: string, b: string)
  {
    |a| == |b| && forall i :: 0 <= i < |a| ==> UpperAscii(a[i]) == UpperAscii(b[i])
  }

  /** The club an imported row goes to: the affiliate for an "AHL" league column in any letter case, else the NHL club. */
  function Destination(league: string, nhl: Option<nat>, ahl: Option<nat>): Option<nat>
  {
    if EqualsIgnoreCase(league, "AHL") then ahl else nhl
  }

  /** The rosters, the running count, and whether a line has stopped the import. */
  datatype ImportState = ImportState(teams: seq<Team>, imported: nat, failed: bool)

  /** One data line's effect, given what the line parsed to. */
  function ImportRow(st: ImportState, row: RowParse, nhl: Option<nat>, ahl: Option<nat>): ImportState
  {
    if st.failed then st
    else
      match row
      case Skip => st
      case Malformed => st.(failed := true)
      case Parsed(league, p) => ImportState(AppendToRoster(st.teams, Destination(league, nhl, ahl), p), st.imported + 1, false)
  }

  /** The effect of the parsed data lines, in order, on the rosters. */
  function ImportRows(teams: seq<Team>, rows: seq<RowParse>, nhl: Option<nat>, ahl: Option<nat>): ImportState
  {
    if rows == [] then ImportState(teams, 0, false)
    else ImportRow(ImportRows(teams, rows[..|rows| - 1], nhl, ahl), rows[|rows| - 1], nhl, ahl)
  }

  /** Each line parsed on its own, in order. */
  function ParseRows(lines: seq<string>): seq<RowParse>
  {
    Seqs.Map(lines, ParseRow)
  }

  /** The parsed rows line up with the lines, one for one. */
  lemma ParseRowsEach(lines: seq<string>)
    ensures |ParseRows(lines)| == |lines|
    ensures forall i :: 0 <= i < |lines| ==> ParseRows(lines)[i] == ParseRow(lines[i])
  {
    Seqs.MapEach(lines, ParseRow);
  }

  /** The file's lines after the header line. */
  function DataLines(lines: seq<string>): seq<string>
  {
    if |lines| <= 1 then [] else lines[1..]
  }

  /** How an import ends: the number of players added, or the failure a malformed line raises. */
  datatype ImportResult = Imported(count: nat) | ImportFailed

  /** Once a line has stopped the import, later lines change nothing. */
  lemma {:induction false} FailedImportStays(teams: seq<Team>, rows: seq<RowParse>, k: nat, nhl: Option<nat>, ahl: Option<nat>)
    requires k <= |rows| && ImportRows(teams, rows[..k], nhl, ahl).failed
    ensures ImportRows(teams, rows, nhl, ahl) == ImportRows(teams, rows[..k], nhl, ahl)
  {
    if k < |rows| {
      assert rows[..|rows| - 1][..k] == rows[..k];
      FailedImportStays(teams, rows[..|rows| - 1], k, nhl, ahl);
    } else {
      assert rows[..k] == rows;
    }
  }

  /** Adds an imported player to the affiliate for an "AHL" league column, else to the NHL club. */
  method AddImported(tracker: FranchiseTracker, league: string, p: Player)
    modifies tracker`teams
    ensures tracker.teams == AppendToRoster(old(tracker.teams), Destination(league, tracker.nhlClub, tracker.ahlClub), p)
  {
    if EqualsIgnoreCase(league, "AHL") {
      tracker.AddPlayerToAhl(p);
    } else {
      tracker.AddPlayerToNhl(p);
    }
  }

  /**
   * `importRosterFromCSV` on the lines of a file: every data line in turn
   * is skipped, added to its club, or stops the import; the players added
   * before a malformed line stay on their rosters.
   */
  method ImportRosterFromCsv(tracker: FranchiseTracker, lines: seq<string>) returns (r: ImportResult)
    modifies tracker`teams
    ensures var st := ImportRows(old(tracker.teams), ParseRows(DataLines(lines)), tracker.nhlClub, tracker.ahlClub);
      tracker.teams == st.teams && r == (if st.failed then ImportFailed else Imported(st.imported))
  {
    var rows := ParseRows(DataLines(lines));
    ghost var before := tracker.teams;
    var imported := 0;
    var k := 0;
    while k < |rows|
      invariant k <= |rows|
      invariant ImportRows(before, rows[..k], tracker.nhlClub, tracker.ahlClub) == ImportState(tracker.teams, imported, false)
    {
      var row := rows[k];
      ImportRowsStep(before, rows, k, tracker.nhlClub, tracker.ahlClub);
      if row.Malformed? {
        FailedImportStays(before, rows, k + 1, tracker.nhlClub, tracker.ahlClub);
        return ImportFailed;
      } else if row.Parsed? {
        AddImported(tracker, row.league, row.player);
        imported := imported + 1;
      }
      k := k + 1;
    }
    assert rows[..|rows|] == rows;
    return Imported(imported);
  }

  lemma ImportRowsStep(teams: seq<Team>, rows: seq<RowParse>, k: nat, nhl: Option<nat>, ahl: Option<nat>)
    requires k < |rows|
    ensures ImportRows(teams, rows[..k + 1], nhl, ahl) == ImportRow(ImportRows(teams, rows[..k], nhl, ahl), rows[k], nhl, ahl)
  {
    assert rows[..k + 1][..k] == rows[..k];
  }

  /**
   * With two distinct clubs that both have rosters, an import only ever
   * appends: each old roster is a prefix of its new one, and the count
   * returned is exactly the number of players appended, whether or not
   * a malformed line stopped the import.
   */
  lemma {:induction false} ImportOnlyAppends(teams: seq<Team>, rows: seq<RowParse>, nhl: Option<nat>, ahl: Option<nat>)
    requires nhl != ahl && RosterAt(teams, nhl).Some? && RosterAt(teams, ahl).Some?
    ensures var st := ImportRows(teams, rows, nhl, ahl);
      RosterAt(st.teams, nhl).Some? && RosterAt(st.teams, ahl).Some?
      && RosterAt(teams, nhl).value <= RosterAt(st.teams, nhl).value
      && RosterAt(teams, ahl).value <= RosterAt(st.teams, ahl).value
      && |RosterAt(st.teams, nhl).value| + |RosterAt(st.teams, ahl).value|
         == |RosterAt(teams, nhl).value| + |RosterAt(teams, ahl).value| + st.imported
  {
    if rows != [] {
      ImportOnlyAppends(teams, rows[..|rows| - 1], nhl, ahl);
    }
  }

  // ---------------------------------------------------------- round trip

  /** The player an exported row reads back as: names, ratings, position and potential kept; money rounded to cents; a contract only when there is money or a term. */
  function Reimported(p: Player): Player
  {
    var status := if p.contract.Some? then p.contract.value.status else None;
    ImportedPlayer(p.firstName, p.lastName, p.position, p.overall, p.age, p.potential,
                   ImportedContract(RoundedCents(p.CapHit()), p.ContractYearsRemaining(), status))
  }

  /** A name column that survives the CSV: no comma, nothing to trim at either end. */
  predicate CsvSafe(s: string)
  {
    ',' !in s && (s == [] || (!IsTrimmed(s[0]) && !IsTrimmed(s[|s| - 1])))
  }

  predicate Exportable(league: string, p: Player)
  {
    CsvSafe(league) && CsvSafe(p.firstName) && CsvSafe(p.lastName)
    && IsInt32(p.overall) && IsInt32(p.age) && IsInt32(p.ContractYearsRemaining())
  }

  lemma IntFieldReads(n: int)
    requires IsInt32(n)
    ensures ',' !in IntToString(n) && IntToString(n) != []
    ensures ParseInt(Trim(IntToString(n))) == Some(n)
  {
    TrimIdle(IntToString(n));
    ParseIntToString(n);
  }

  lemma MoneyFieldSafe(x: real)
    ensures ',' !in FormatCents(x) && FormatCents(x) != []
  {
    var n := CentsNumeral(Cents(Magnitude(x)));
    assert forall i :: 0 <= i < |NatToString(Cents(Magnitude(x)) / 100)| ==> IsDigit(NatToString(Cents(Magnitude(x)) / 100)[i]);
    assert ',' !in n;
  }

  lemma MoneyFieldReads(x: real)
    ensures ParseDecimal(Trim(FormatCents(x))) == Some(RoundedCents(x))
  {
    TrimIdle(FormatCents(x));
    ParseFormatCents(x);
  }

  /** A Java constant name: capital letters, digits and underscores. */
  predicate ConstantName(s: string)
  {
    s != [] && forall i :: 0 <= i < |s| ==> 'A' <= s[i] <= 'Z' || '0' <= s[i] <= '9' || s[i] == '_'
  }

  lemma ConstantNameIsSafe(s: string)
    requires ConstantName(s)
    ensures ',' !in s && NonBlank(s) == Some(s)
  {
    TrimIdle(s);
  }

  lemma PositionNameIsConstant(t: Position)
    ensures ConstantName(t.Name())
  {
    match t
    case Center =>
    case LeftWing =>
    case RightWing =>
    case LeftDefense =>
    case RightDefense =>
    case Goalie =>
  }

  lemma PotentialNameIsConstant(t: Potential)
    ensures ConstantName(t.Name())
  {
    match t
    case Franchise =>
    case Elite =>
    case Top6F =>
    case Top4D =>
    case Top9F =>
    case Top6D =>
    case Bottom6F =>
    case BottomPairD =>
    case Ahl =>
    case FranchiseG =>
    case EliteG =>
    case Starter =>
    case Backup =>
    case AhlG =>
  }

  lemma PositionFieldSafe(position: Option<Position>)
    ensures ',' !in PositionField(position)
  {
    if position.Some? {
      PositionNameIsConstant(position.value);
      ConstantNameIsSafe(position.value.Name());
    }
  }

  lemma PositionFieldReads(position: Option<Position>)
    ensures ParseOptional(NonBlank(PositionField(position)), ParsePosition) == position
  {
    if position.Some? {
      PositionNameIsConstant(position.value);
      ConstantNameIsSafe(position.value.Name());
      ParsePositionName(position.value);
    }
  }

  lemma PotentialFieldSafe(potential: Option<Potential>)
    ensures ',' !in PotentialField(potential)
  {
    if potential.Some? {
      PotentialNameIsConstant(potential.value);
      ConstantNameIsSafe(potential.value.Name());
    }
  }

  lemma PotentialFieldReads(potential: Option<Potential>)
    ensures ParseOptional(NonBlank(PotentialField(potential)), ParsePotential) == potential
  {
    if potential.Some? {
      PotentialNameIsConstant(potential.value);
      ConstantNameIsSafe(potential.value.Name());
      ParsePotentialName(potential.value);
    }
  }

  lemma StatusFieldSafe(contract: Option<Contract>)
    ensures ',' !in StatusField(contract)
  {
    if contract.Some? && contract.value.status.Some? {
      assert ConstantName(contract.value.status.value.Name());
      ConstantNameIsSafe(contract.value.status.value.Name());
    }
  }

  lemma StatusFieldReads(contract: Option<Contract>)
    ensures StatusField(contract) == [] <==> contract.None? || contract.value.status.None?
    ensures StatusField(contract) != [] ==>
      ParseOptional(NonBlank(StatusField(contract)), ParseStatus) == contract.value.status
  {
    if contract.Some? && contract.value.status.Some? {
      assert ConstantName(contract.value.status.value.Name());
      ConstantNameIsSafe(contract.value.status.value.Name());
      ParseStatusName(contract.value.status.value);
    }
  }

  lemma FieldsCommaFree(league: string, p: Player)
    requires Exportable(league, p)
    ensures forall i :: 0 <= i < 10 ==> ',' !in CsvFields(league, p)[i]
    ensures CsvFields(league, p)[8] != []
  {
    var f := CsvFields(league, p);
    CsvColumns(league, p);
    assert ',' !in f[0] && ',' !in f[1] && ',' !in f[2];
    assert ',' !in f[3] by {
      PositionFieldSafe(p.position);
    }
    assert ',' !in f[4] && ',' !in f[5] by {
      IntFieldReads(p.overall);
      IntFieldReads(p.age);
    }
    assert ',' !in f[6] by {
      PotentialFieldSafe(p.potential);
    }
    assert ',' !in f[7] by {
      MoneyFieldSafe(p.CapHit());
    }
    assert ',' !in f[8] && f[8] != [] by {
      IntFieldReads(p.ContractYearsRemaining());
    }
    assert ',' !in f[9] by {
      StatusFieldSafe(p.contract);
    }
    TenCommaFree(f);
  }

  lemma TenCommaFree(f: seq<string>)
    requires |f| == 10
    requires ',' !in f[0] && ',' !in f[1] && ',' !in f[2] && ',' !in f[3] && ',' !in f[4]
    requires ',' !in f[5] && ',' !in f[6] && ',' !in f[7] && ',' !in f[8] && ',' !in f[9]
    ensures forall i :: 0 <= i < 10 ==> ',' !in f[i]
  {
  }

  /** `split` drops an empty last column, and only that one when the column before it is filled. */
  lemma DropEmptyStatus(fields: seq<string>)
    requires |fields| == 10 && fields[8] != []
    ensures DropTrailingEmpty(fields) == if fields[9] == [] then fields[..9] else fields
  {
    if fields[9] == [] {
      assert fields[..|fields| - 1] == fields[..9];
      assert fields[..9][|fields[..9]| - 1] == fields[8];
    }
  }

  lemma JoinHoldsSeparator(sep: char, xs: seq<string>)
    requires |xs| >= 2
    ensures sep in Join([sep], xs)
  {
    assert Join([sep], xs) == xs[0] + [sep] + Join([sep], xs[1..]);
    assert Join([sep], xs)[|xs[0]|] == sep;
  }

  /** An exported row splits into its ten columns, or nine when the status column is empty and `split` drops it. */
  lemma RowSplits(league: string, p: Player)
    requires Exportable(league, p)
    ensures var fields := CsvFields(league, p);
      Split(CsvRow(league, p), ',') == (if fields[9] == [] then fields[..9] else fields)
    ensures Trim(CsvRow(league, p)) != []
  {
    var fields := CsvFields(league, p);
    var row := CsvRow(league, p);
    FieldsCommaFree(league, p);
    SplitFieldsJoin(fields, ',');
    JoinHoldsSeparator(',', fields);
    DropEmptyStatus(fields);
    TrimBlank(row);
  }

  /** Columns that read back as the given values, stated column by column. */
  lemma ColumnsReadBack(parts: seq<string>, position: Option<Position>,
                        overall: int, age: int, potential: Option<Potential>, aav: real, years: int,
                        status: Option<ContractStatus>)
    requires |parts| == 9 || |parts| == 10
    requires ParseOptional(OptionalField(parts, 3), ParsePosition) == position
    requires ParseInt(Trim(parts[4])) == Some(overall) && ParseInt(Trim(parts[5])) == Some(age)
    requires ParseOptional(OptionalField(parts, 6), ParsePotential) == potential
    requires ParseDecimal(Trim(parts[7])) == Some(aav) && ParseInt(Trim(parts[8])) == Some(years)
    requires ParseOptional(OptionalField(parts, 9), ParseStatus) == status
    ensures ParseColumns(parts) ==
      Parsed(Trim(parts[0]), ImportedPlayer(Trim(parts[1]), Trim(parts[2]), position, overall, age, potential,
                                            ImportedContract(aav, years, status)))
  {
    var contract := ImportedContract(aav, years, status);
    assert |parts| > 8 && !ParseInt(Trim(parts[4])).None? && !ParseInt(Trim(parts[5])).None?;
    assert !(ParseDecimal(Trim(parts[7])).None? || ParseInt(Trim(parts[8])).None?);
  }

  /** The columns `split` finds in an exported row, one by one. */
  lemma ExportedParts(league: string, p: Player)
    requires Exportable(league, p)
    ensures var parts := Split(CsvRow(league, p), ',');
      Trim(CsvRow(league, p)) != [] && (|parts| == 9 || |parts| == 10)
      && parts[0] == league && parts[1] == p.firstName && parts[2] == p.lastName
      && parts[3] == PositionField(p.position) && parts[4] == IntToString(p.overall) && parts[5] == IntToString(p.age)
      && parts[6] == PotentialField(p.potential) && parts[7] == FormatCents(p.CapHit())
      && parts[8] == IntToString(p.ContractYearsRemaining())
      && OptionalField(parts, 9) == NonBlank(StatusField(p.contract))
  {
    RowSplits(league, p);
    CsvColumns(league, p);
    var fields := CsvFields(league, p);
    if fields[9] == [] {
      assert NonBlank(fields[9]) == None;
    }
  }

  // Each column of an exported row read back on its own, with the row left abstract.

  lemma NameColumnsRead(parts: seq<string>, league: string, first: string, last: string)
    requires CsvSafe(league) && CsvSafe(first) && CsvSafe(last)
    requires |parts| >= 3 && parts[0] == league && parts[1] == first && parts[2] == last
    ensures Trim(parts[0]) == league && Trim(parts[1]) == first && Trim(parts[2]) == last
  {
    TrimIdle(league);
    TrimIdle(first);
    TrimIdle(last);
  }

  lemma PositionColumnRead(parts: seq<string>, position: Option<Position>)
    requires |parts| > 3 && parts[3] == PositionField(position)
    ensures ParseOptional(OptionalField(parts, 3), ParsePosition) == position
  {
    PositionFieldReads(position);
  }

  lemma IntColumnRead(parts: seq<string>, i: nat, n: int)
    requires IsInt32(n) && i < |parts| && parts[i] == IntToString(n)
    ensures ParseInt(Trim(parts[i])) == Some(n)
  {
    IntFieldReads(n);
  }

  lemma PotentialColumnRead(parts: seq<string>, potential: Option<Potential>)
    requires |parts| > 6 && parts[6] == PotentialField(potential)
    ensures ParseOptional(OptionalField(parts, 6), ParsePotential) == potential
  {
    PotentialFieldReads(potential);
  }

  lemma MoneyColumnRead(parts: seq<string>, x: real)
    requires |parts| > 7 && parts[7] == FormatCents(x)
    ensures ParseDecimal(Trim(parts[7])) == Some(RoundedCents(x))
  {
    MoneyFieldReads(x);
  }

  lemma StatusColumnRead(parts: seq<string>, contract: Option<Contract>)
    requires OptionalField(parts, 9) == NonBlank(StatusField(contract))
    ensures ParseOptional(OptionalField(parts, 9), ParseStatus) ==
      (if contract.Some? then contract.value.status else None)
  {
    StatusFieldReads(contract);
  }

  lemma RowReadsAs(line: string, r: RowParse)
    requires Trim(line) != [] && |Split(line, ',')| >= 6 && ParseColumns(Split(line, ',')) == r
    ensures ParseRow(line) == r
  {
  }

  /** The value columns of an exported row read back as the player's values. */
  lemma ExportedValuesRead(league: string, p: Player)
    requires Exportable(league, p)
    ensures var parts := Split(CsvRow(league, p), ',');
      Trim(CsvRow(league, p)) != [] && (|parts| == 9 || |parts| == 10)
      && ParseOptional(OptionalField(parts, 3), ParsePosition) == p.position
      && ParseInt(Trim(parts[4])) == Some(p.overall) && ParseInt(Trim(parts[5])) == Some(p.age)
      && ParseOptional(OptionalField(parts, 6), ParsePotential) == p.potential
      && ParseDecimal(Trim(parts[7])) == Some(RoundedCents(p.CapHit()))
      && ParseInt(Trim(parts[8])) == Some(p.ContractYearsRemaining())
      && ParseOptional(OptionalField(parts, 9), ParseStatus) == (if p.contract.Some? then p.contract.value.status else None)
  {
    ExportedParts(league, p);
    var parts := Split(CsvRow(league, p), ',');
    PositionColumnRead(parts, p.position);
    IntColumnRead(parts, 4, p.overall);
    IntColumnRead(parts, 5, p.age);
    PotentialColumnRead(parts, p.potential);
    MoneyColumnRead(parts, p.CapHit());
    IntColumnRead(parts, 8, p.ContractYearsRemaining());
    StatusColumnRead(parts, p.contract);
  }

  /** The name columns of an exported row read back unchanged. */
  lemma ExportedNamesRead(league: string, p: Player)
    requires Exportable(league, p)
    ensures var parts := Split(CsvRow(league, p), ',');
      |parts| >= 3 && Trim(parts[0]) == league && Trim(parts[1]) == p.firstName && Trim(parts[2]) == p.lastName
  {
    ExportedParts(league, p);
    NameColumnsRead(Split(CsvRow(league, p), ','), league, p.firstName, p.lastName);
  }

  /**
   * Reading back an exported row: as long as the league and the names
   * hold no comma and no edge whitespace, the row parses to the league
   * and `Reimported(p)`. In particular a player exported without a contract
   * (0.00 and 0) comes back without one.
   */
  lemma ExportedRowReadsBack(league: string, p: Player)
    requires Exportable(league, p)
    ensures ParseRow(CsvRow(league, p)) == Parsed(league, Reimported(p))
  {
    var parts := Split(CsvRow(league, p), ',');
    ExportedValuesRead(league, p);
    ColumnsReadBack(parts, p.position, p.overall, p.age, p.potential,
                    RoundedCents(p.CapHit()), p.ContractYearsRemaining(),
                    if p.contract.Some? then p.contract.value.status else None);
    ExportedNamesRead(league, p);
    RowReadsAs(CsvRow(league, p), Parsed(league, Reimported(p)));
  }
}
