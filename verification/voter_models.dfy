/**
  The voter record of voter_analytics/models.py: its two address properties, the boolean
  token parser, the mapping of one CSV row to a record, and load_data, which saves the rows
  one by one and counts them.
 */
module VoterModels {
  import opened Wrappers
  import opened Text
  import opened Seqs
  import opened DateParsing
  import opened Tables

  /** The five elections whose participation the register records. */
  datatype Election = V20State | V21Town | V21Primary | V22General | V23Town

  const Elections: seq<Election> := [V20State, V21Town, V21Primary, V22General, V23Town]

  /**
    A Voter row. The dates are optional because an unsaved record may hold None; the table
    itself does not accept None for them (see Storable).
   */
  datatype Voter = Voter(
    firstName: string,
    lastName: string,
    streetNumber: string,
    streetName: string,
    apartment: Option<string>,
    zipcode: string,
    dob: Option<Date>,
    registrationDate: Option<Date>,
    party: string,
    precinct: string,
    v20state: bool,
    v21town: bool,
    v21primary: bool,
    v22general: bool,
    v23town: bool,
    voterScore: int)

  /** The name of e's field, which is also its column header in the CSV file. */
  function ElectionName(e: Election): string {
    match e
    case V20State => "v20state"
    case V21Town => "v21town"
    case V21Primary => "v21primary"
    case V22General => "v22general"
    case V23Town => "v23town"
  }

  /** The participation flag of election e. */
  function Voted(v: Voter, e: Election): bool {
    match e
    case V20State => v.v20state
    case V21Town => v.v21town
    case V21Primary => v.v21primary
    case V22General => v.v22general
    case V23Town => v.v23town
  }

  /** street_address: number and street name separated by a blank, outer whitespace removed. */
  function StreetAddress(v: Voter): string {
    Strip(v.streetNumber + " " + v.streetName)
  }

  /** A string as the import stores it: empty, or without whitespace at either end. */
  predicate Trimmed(s: string) {
    s == [] || (!IsSpace(s[0]) && !IsSpace(s[|s| - 1]))
  }

  /**
    For stripped number and street name, the street address is the two joined by one blank,
    or whichever of them is present.
   */
  lemma StreetAddressJoins(v: Voter)
    requires Trimmed(v.streetNumber) && Trimmed(v.streetName)
    ensures StreetAddress(v) ==
              if v.streetNumber == "" then v.streetName
              else if v.streetName == "" then v.streetNumber
              else v.streetNumber + " " + v.streetName
  {
    var n, m := v.streetNumber, v.streetName;
    if n == "" && m == "" {
      StripAllSpace(" ");
    } else if n == "" {
      assert n + " " + m == " " + m + "";
      StripPadded(" ", m, "");
    } else if m == "" {
      assert n + " " + m == "" + n + " ";
      StripPadded("", n, " ");
    } else {
      var core := n + " " + m;
      assert core[0] == n[0] && core[|core| - 1] == m[|m| - 1];
      assert core == "" + core + "";
      StripPadded("", core, "");
    }
  }

  /** The apartment is shown when it is a non-empty string. */
  predicate HasApartment(v: Voter) {
    v.apartment.Some? && v.apartment.value != ""
  }

  predicate NonEmpty(s: string) {
    s != ""
  }

  /** full_address: street address, "Apt <apartment>", "Newton, MA <zip>", the non-empty ones joined by ", ". */
  function FullAddress(v: Voter): string {
    var street, city := StreetAddress(v), "Newton, MA " + v.zipcode;
    var parts := if HasApartment(v) then [street, "Apt " + v.apartment.value, city] else [street, city];
    Join(", ", Keep(parts, NonEmpty))
  }

  /** "s, " for a non-empty s, and nothing for an empty one. */
  function Lead(s: string): string {
    if s == "" then "" else s + ", "
  }

  lemma KeepNonEmptyTwo(a: string, b: string)
    ensures Keep([a, b], NonEmpty) == (if a != "" then [a] else []) + (if b != "" then [b] else [])
  {
    assert [a, b][1..] == [b];
    assert [b][1..] == [];
  }

  lemma KeepNonEmptyThree(a: string, b: string, c: string)
    ensures Keep([a, b, c], NonEmpty) == (if a != "" then [a] else []) + Keep([b, c], NonEmpty)
  {
    assert [a, b, c][1..] == [b, c];
  }

  lemma JoinStreetApartmentCity(street: string, apt: string, city: string)
    requires street != "" && apt != "" && city != ""
    ensures Join(", ", Keep([street, apt, city], NonEmpty)) == Lead(street) + apt + ", " + city
  {
    KeepNonEmptyThree(street, apt, city);
    KeepNonEmptyTwo(apt, city);
    assert Keep([street, apt, city], NonEmpty) == [street, apt, city];
    JoinThree(", ", street, apt, city);
  }

  lemma JoinApartmentCity(street: string, apt: string, city: string)
    requires street == "" && apt != "" && city != ""
    ensures Join(", ", Keep([street, apt, city], NonEmpty)) == Lead(street) + apt + ", " + city
  {
    KeepNonEmptyThree(street, apt, city);
    KeepNonEmptyTwo(apt, city);
    assert Keep([street, apt, city], NonEmpty) == [apt, city];
    JoinTwo(", ", apt, city);
  }

  lemma JoinStreetCity(street: string, city: string)
    requires city != ""
    ensures Join(", ", Keep([street, city], NonEmpty)) == Lead(street) + city
  {
    KeepNonEmptyTwo(street, city);
    if street != "" {
      assert Keep([street, city], NonEmpty) == [street, city];
      JoinTwo(", ", street, city);
    } else {
      assert Keep([street, city], NonEmpty) == [city];
    }
  }

  /** Joining the non-empty parts among street, apartment and city puts ", " after each non-empty part before the city. */
  lemma JoinParts(street: string, apt: string, city: string)
    requires city != ""
    ensures Join(", ", Keep(if apt != "" then [street, apt, city] else [street, city], NonEmpty)) ==
              Lead(street) + (Lead(apt) + city)
  {
    if apt != "" {
      if street == "" {
        JoinApartmentCity(street, apt, city);
      } else {
        JoinStreetApartmentCity(street, apt, city);
      }
      assert Lead(street) + apt + ", " + city == Lead(street) + (Lead(apt) + city);
    } else {
      JoinStreetCity(street, city);
    }
  }

  /**
    The full address always ends with "Newton, MA <zip>"; before it come the street address and
    "Apt <apartment>", each only when non-empty and each followed by ", ".
   */
  lemma FullAddressShape(v: Voter)
    ensures var apt := if HasApartment(v) then "Apt " + v.apartment.value else "";
            FullAddress(v) == Lead(StreetAddress(v)) + Lead(apt) + "Newton, MA " + v.zipcode
  {
    var street, city := StreetAddress(v), "Newton, MA " + v.zipcode;
    var apt := if HasApartment(v) then "Apt " + v.apartment.value else "";
    assert city[0] == 'N';
    if HasApartment(v) {
      assert apt[0] == 'A';
    }
    JoinParts(street, apt, city);
    Regroup(Lead(street), Lead(apt), "Newton, MA ", v.zipcode);
  }

  lemma Regroup(a: string, b: string, c: string, d: string)
    ensures a + (b + (c + d)) == a + b + c + d
  {
  }

  /** The texts _parse_bool reads as true, after stripping and upper-casing. */
  const TrueTokens: set<string> := {"TRUE", "T", "1", "Y", "YES"}

  /** _parse_bool: None is false; otherwise the stripped, upper-cased text must be a true token. */
  function ParseBool(value: Option<string>): (b: bool)
    ensures b ==> value.Some?
  {
    value.Some? && Upper(Strip(value.value)) in TrueTokens
  }

  /** Lower-casing changes letters only, never whitespace. */
  lemma LowerCharSpace(c: char)
    ensures IsSpace(LowerChar(c)) == IsSpace(c)
  {
  }

  lemma {:induction false} SkipSpacesLower(s: string, i: nat)
    requires i <= |s|
    ensures SkipSpaces(Lower(s), i) == SkipSpaces(s, i)
    decreases |s| - i
  {
    if i < |s| {
      LowerCharSpace(s[i]);
      if IsSpace(s[i]) {
        SkipSpacesLower(s, i + 1);
      }
    }
  }

  lemma {:induction false} SkipSpacesBackLower(s: string, j: nat)
    requires j <= |s|
    ensures SkipSpacesBack(Lower(s), j) == SkipSpacesBack(s, j)
  {
    if j > 0 {
      LowerCharSpace(s[j - 1]);
      if IsSpace(s[j - 1]) {
        SkipSpacesBackLower(s, j - 1);
      }
    }
  }

  lemma LowerSlice(s: string, a: nat, b: nat)
    requires a <= b <= |s|
    ensures Lower(s)[a..b] == Lower(s[a..b])
  {
    forall k | 0 <= k < b - a ensures Lower(s)[a..b][k] == Lower(s[a..b])[k] {
      assert Lower(s)[a..b][k] == Lower(s)[a + k];
    }
  }

  /** Lower-casing neither creates nor removes whitespace, so it commutes with strip(). */
  lemma StripLower(s: string)
    ensures Strip(Lower(s)) == Lower(Strip(s))
  {
    SkipSpacesLower(s, 0);
    SkipSpacesBackLower(s, |s|);
    var a, b := SkipSpaces(s, 0), SkipSpacesBack(s, |s|);
    var ls := Lower(s);
    if a == |s| {
      assert Strip(s) == [] && Strip(ls) == [];
      assert Lower([]) == [];
    } else {
      assert Strip(s) == s[a..b];
      assert Strip(ls) == ls[a..b];
      LowerSlice(s, a, b);
    }
  }

  /** _parse_bool ignores the case of ASCII letters: "yes", "Yes" and "YES" read alike. */
  lemma ParseBoolIgnoresCase(s: string)
    ensures ParseBool(Some(Lower(s))) == ParseBool(Some(s))
  {
    StripLower(s);
    var t := Strip(s);
    UpperLower(t);
    assert Upper(Strip(Lower(s))) == Upper(t);
  }

  /** _parse_bool ignores whitespace around the text. */
  lemma ParseBoolIgnoresSurroundingSpace(s: string)
    ensures ParseBool(Some(s)) == ParseBool(Some(Strip(s)))
  {
    StripIdempotent(s);
  }

  lemma ParseBoolExamples()
    ensures ParseBool(Some("yes")) && ParseBool(Some("T")) && ParseBool(Some("1"))
  {
    StripNoOp("yes");
    assert Upper("yes") == "YES";
    StripNoOp("T");
    assert Upper("T") == "T";
    StripNoOp("1");
    assert Upper("1") == "1";
  }

  lemma ParseBoolFalseExamples()
    ensures !ParseBool(None) && !ParseBool(Some("no")) && !ParseBool(Some("0")) && !ParseBool(Some(""))
  {
    StripNoOp("no");
    assert Upper("no") == "NO";
    StripNoOp("0");
    assert Upper("0") == "0";
  }

  /** One CSV row: column header to cell text. A column the row lacks reads as None. */
  type Row = map<string, string>

  const FirstNameColumn := "First Name"
  const LastNameColumn := "Last Name"
  const StreetNumberColumn := "Residential Address - Street Number"
  const StreetNameColumn := "Residential Address - Street Name"
  const ApartmentColumn := "Residential Address - Apartment Number"
  const ZipCodeColumn := "Residential Address - Zip Code"
  const DobColumn := "Date of Birth"
  const RegistrationColumn := "Date of Registration"
  const PartyColumn := "Party Affiliation"
  const PrecinctColumn := "Precinct Number"
  const ScoreColumn := "voter_score"

  /** row.get(column) */
  function Get(row: Row, column: string): Option<string> {
    if column in row then Some(row[column]) else None
  }

  /** (row.get(column) or "").strip() */
  function TextField(row: Row, column: string): (r: string)
    ensures Trimmed(r)
    ensures column !in row ==> r == ""
  {
    if column in row then Strip(row[column]) else ""
  }

  /** row.get(column) or None: the raw text when it is not empty. */
  function ApartmentField(row: Row): Option<string> {
    if ApartmentColumn in row && row[ApartmentColumn] != "" then Some(row[ApartmentColumn]) else None
  }

  /** Why a row cannot be loaded. */
  datatype LoadError =
    | DateFormat(value: string)   // ValueError of _parse_date, naming the normalised value
    | NotAnInteger(text: string)  // ValueError of int()
    | NotNull(column: string)     // IntegrityError: NOT NULL constraint failed on save

  /** int((row.get("voter_score") or 0) or 0): 0 for a missing or empty cell, else int() of the text. */
  function ScoreField(row: Row): (r: Result<int, LoadError>)
    ensures Get(row, ScoreColumn) in {None, Some("")} ==> r == Ok(0)
    ensures r.Err? <==> ScoreColumn in row && row[ScoreColumn] != "" && ParseInt(row[ScoreColumn]).None?
  {
    if ScoreColumn !in row || row[ScoreColumn] == "" then Ok(0)
    else
      match ParseInt(row[ScoreColumn])
      case Some(n) => Ok(n)
      case None => Err(NotAnInteger(row[ScoreColumn]))
  }

  /**
    The Voter(...) constructor call of load_data. Its arguments are evaluated in order, so a bad
    date of birth is reported before a bad registration date, and both before a bad score.
   */
  function RowToVoter(row: Row): (r: Result<Voter, LoadError>)
    ensures r.Ok? ==> ScoreField(row) == Ok(r.value.voterScore)
    ensures ParsedDate(Get(row, DobColumn)).Err? ==> r == Err(DateFormat(ParsedDate(Get(row, DobColumn)).error))
  {
    match ParsedDate(Get(row, DobColumn))
    case Err(e) => Err(DateFormat(e))
    case Ok(dob) =>
      match ParsedDate(Get(row, RegistrationColumn))
      case Err(e) => Err(DateFormat(e))
      case Ok(registered) =>
        match ScoreField(row)
        case Err(e) => Err(e)
        case Ok(score) =>
          Ok(Voter(
            TextField(row, FirstNameColumn),
            TextField(row, LastNameColumn),
            TextField(row, StreetNumberColumn),
            TextField(row, StreetNameColumn),
            ApartmentField(row),
            TextField(row, ZipCodeColumn),
            dob,
            registered,
            TextField(row, PartyColumn),
            TextField(row, PrecinctColumn),
            ParseBool(Get(row, "v20state")),
            ParseBool(Get(row, "v21town")),
            ParseBool(Get(row, "v21primary")),
            ParseBool(Get(row, "v22general")),
            ParseBool(Get(row, "v23town")),
            score))
  }

  /**
    The record a row maps to keeps its text fields stripped, its apartment raw, and reads a
    missing text column as "", a missing apartment as None and a missing score as 0.
   */
  lemma RowToVoterFields(row: Row)
    requires RowToVoter(row).Ok?
    ensures var v := RowToVoter(row).value;
            && Trimmed(v.firstName) && Trimmed(v.lastName) && Trimmed(v.streetNumber) && Trimmed(v.streetName)
            && Trimmed(v.zipcode) && Trimmed(v.party) && Trimmed(v.precinct)
            && (v.apartment.Some? ==> v.apartment == Get(row, ApartmentColumn) && v.apartment.value != "")
            && (FirstNameColumn !in row ==> v.firstName == "")
            && (ApartmentColumn !in row ==> v.apartment.None?)
            && (ScoreColumn !in row ==> v.voterScore == 0)
            && (DobColumn !in row ==> v.dob.None?)
  {
  }

  /** The columns the table declares NOT NULL: dob and registration_date. */
  function SaveError(v: Voter): (e: Option<LoadError>)
    ensures e.None? <==> v.dob.Some? && v.registrationDate.Some?
  {
    if v.dob.None? then Some(NotNull("dob"))
    else if v.registrationDate.None? then Some(NotNull("registration_date"))
    else None
  }

  /** What happens to one row: the record that gets saved, or the exception raised. */
  function StoredVoter(row: Row): Result<Voter, LoadError> {
    match RowToVoter(row)
    case Err(e) => Err(e)
    case Ok(v) => if SaveError(v).Some? then Err(SaveError(v).value) else Ok(v)
  }

  /**
    load_data over rows: the records saved, and the count returned or the exception that
    escapes. Rows are saved one at a time, so the records of the rows before a failing row
    stay saved; the rows after it are not read.
   */
  function Import(rows: seq<Row>): (seq<Voter>, Result<nat, LoadError>) {
    SaveEach(rows, StoredVoter)
  }

  /** One more row after rows that raised nothing: its record is saved, or its exception raised. */
  lemma ImportStep(rows: seq<Row>, i: nat)
    requires i < |rows| && Import(rows[..i]).1.Ok?
    ensures StoredVoter(rows[i]).Err? ==> Import(rows[..i + 1]) == (Import(rows[..i]).0, Err(StoredVoter(rows[i]).error))
    ensures StoredVoter(rows[i]).Ok? ==> Import(rows[..i + 1]) == (Import(rows[..i]).0 + [StoredVoter(rows[i]).value], Ok(i + 1))
  {
    SaveEachStep(rows, StoredVoter, i);
  }

  /** Once a row has raised, the rows after it are not read. */
  lemma ImportAfterFailure(rows: seq<Row>, i: nat)
    requires i <= |rows| && Import(rows[..i]).1.Err?
    ensures Import(rows) == Import(rows[..i])
  {
    SaveEachAfterFailure(rows, StoredVoter, i);
  }

  /** With no failing row, every row is saved and the count is the number of rows. */
  lemma ImportAllRows(rows: seq<Row>)
    requires forall k :: 0 <= k < |rows| ==> StoredVoter(rows[k]).Ok?
    ensures |Import(rows).0| == |rows|
    ensures Import(rows).1 == Ok(|rows|)
  {
  }

  /** A failing row k raises its error, and exactly the records of rows 0..k-1 stay saved. */
  lemma ImportStopsAtFailure(rows: seq<Row>, k: nat)
    requires k < |rows| && StoredVoter(rows[k]).Err?
    requires forall j :: 0 <= j < k ==> StoredVoter(rows[j]).Ok?
    ensures |Import(rows).0| == k
    ensures forall j :: 0 <= j < k ==> Import(rows).0[j] == StoredVoter(rows[j]).value
    ensures Import(rows).1 == Err(StoredVoter(rows[k]).error)
  {
  }

  /** Every saved voter has both dates: the table's NOT NULL columns. */
  predicate Storable(v: Voter) {
    v.dob.Some? && v.registrationDate.Some?
  }

  /** The Voter table. */
  class VoterTable {
    var voters: seq<Voter>

    ghost predicate Valid()
      reads this
    {
      forall k :: 0 <= k < |voters| ==> Storable(voters[k])
    }

    constructor()
      ensures voters == [] && Valid()
    {
      voters := [];
    }

    /** voter.save(): inserts the row, or raises IntegrityError for a None date. */
    method Save(v: Voter) returns (err: Option<LoadError>)
      requires Valid()
      modifies this
      ensures Valid()
      ensures err == SaveError(v)
      ensures voters == if err.None? then old(voters) + [v] else old(voters)
    {
      err := SaveError(v);
      if err.None? {
        voters := voters + [v];
      }
    }

    /** One turn of load_data's loop: the row is mapped to a Voter, which is saved. */
    method LoadRow(row: Row) returns (err: Option<LoadError>)
      requires Valid()
      modifies this
      ensures Valid()
      ensures err.Some? <==> StoredVoter(row).Err?
      ensures err.Some? ==> err.value == StoredVoter(row).error && voters == old(voters)
      ensures err.None? ==> voters == old(voters) + [StoredVoter(row).value]
    {
      var mapped := RowToVoter(row);
      if mapped.Err? {
        return Some(mapped.error);
      }
      err := Save(mapped.value);
    }

    /**
      load_data: maps and saves the rows in order, counting them; the first exception is
      re-raised with the rows before it already saved.
     */
    method LoadData(rows: seq<Row>) returns (r: Result<nat, LoadError>)
      requires Valid()
      modifies this
      ensures Valid()
      ensures voters == old(voters) + Import(rows).0
      ensures r == Import(rows).1
    {
      var created: nat := 0;
      for i := 0 to |rows|
        invariant Valid()
        invariant Import(rows[..i]).1 == Ok(i) && created == i
        invariant voters == old(voters) + Import(rows[..i]).0
      {
        ImportStep(rows, i);
        var err := LoadRow(rows[i]);
        if err.Some? {
          ImportAfterFailure(rows, i + 1);
          return Err(err.value);
        }
        created := created + 1;
      }
      assert rows[..|rows|] == rows;
      r := Ok(created);
    }
  }
}
