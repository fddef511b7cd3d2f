/**
  The views of voter_analytics/views.py: _filtered_queryset, which derives the choice lists
  from the data, binds the filter form to the query string and narrows the voters one
  criterion at a time; the counts and ordering of the list page; and the aggregates of the
  graphs page.
 */
module VoterViews {
  import opened Wrappers
  import opened Text
  import opened Seqs
  import opened DateParsing
  import opened VoterModels
  import opened VoterForms

  /** [v.party for v in voters] */
  function Parties(voters: seq<Voter>): (r: seq<string>)
    ensures |r| == |voters|
    ensures forall k :: 0 <= k < |r| ==> r[k] == voters[k].party
  {
    seq(|voters|, k requires 0 <= k < |voters| => voters[k].party)
  }

  predicate HasDob(v: Voter) {
    v.dob.Some?
  }

  /** [v.dob.year for v in voters if v.dob]: one year per voter with a date of birth. */
  function BirthYears(voters: seq<Voter>): (r: seq<int>)
    ensures |r| == Count(voters, HasDob)
    ensures forall v :: v in voters && v.dob.Some? ==> v.dob.value.year in r
    ensures forall y :: y in r ==> exists v :: v in voters && v.dob.Some? && v.dob.value.year == y
  {
    if voters == [] then []
    else
      var rest := BirthYears(voters[1..]);
      assert forall v :: v in voters ==> v == voters[0] || v in voters[1..];
      if voters[0].dob.Some? then [voters[0].dob.value.year] + rest else rest
  }

  predicate IntLess(a: int, b: int) {
    a < b
  }

  lemma IntLessOrder()
    ensures IsStrictTotalOrder(IntLess)
  {
  }

  lemma StrLessOrder()
    ensures IsStrictTotalOrder(StrLess)
  {
    forall a ensures !StrLess(a, a) {
      StrLessIrreflexive(a);
    }
    forall a, b, c | StrLess(a, b) && StrLess(b, c) ensures StrLess(a, c) {
      StrLessTransitive(a, b, c);
    }
    forall a, b | a != b ensures StrLess(a, b) || StrLess(b, a) {
      StrLessTotal(a, b);
    }
  }

  /** The party options: the distinct non-empty parties, in the database's text order. */
  function PartyChoicesOf(voters: seq<Voter>): seq<string> {
    SortedDistinct(Keep(Parties(voters), NonEmpty), StrLess)
  }

  /** The year options: sorted({d.year for d in dobs if d}). */
  function YearChoicesOf(voters: seq<Voter>): seq<int> {
    SortedDistinct(BirthYears(voters), IntLess)
  }

  /** The party options are strictly increasing, and are exactly the non-empty parties of the voters. */
  lemma PartyChoicesOfMeaning(voters: seq<Voter>)
    ensures StrictlyIncreasing(PartyChoicesOf(voters), StrLess) && NoDuplicates(PartyChoicesOf(voters))
    ensures forall p :: p in PartyChoicesOf(voters) <==> p != "" && exists v :: v in voters && v.party == p
  {
    StrLessOrder();
    SortedDistinctIncreasing(Keep(Parties(voters), NonEmpty), StrLess);
    var ps := Parties(voters);
    forall p ensures p in ps <==> exists v :: v in voters && v.party == p {
      if p in ps {
        var k :| 0 <= k < |ps| && ps[k] == p;
        assert voters[k] in voters;
      }
      if exists v :: v in voters && v.party == p {
        var v :| v in voters && v.party == p;
        var k :| 0 <= k < |voters| && voters[k] == v;
        assert ps[k] == p;
      }
    }
  }

  /** The year options are strictly increasing, and are exactly the birth years of the voters. */
  lemma YearChoicesOfMeaning(voters: seq<Voter>)
    ensures StrictlyIncreasing(YearChoicesOf(voters), IntLess) && NoDuplicates(YearChoicesOf(voters))
    ensures forall y :: y in YearChoicesOf(voters) <==> exists v :: v in voters && v.dob.Some? && v.dob.value.year == y
  {
    IntLessOrder();
    SortedDistinctIncreasing(BirthYears(voters), IntLess);
  }

  /** VoterFilterForm(data=request.GET or None, ...): an empty query string leaves the form unbound. */
  function RequestForm(voters: seq<Voter>, params: QueryParams): VoterFilterForm {
    NewVoterFilterForm(if |params| == 0 then None else Some(params),
                       Some(PartyChoicesOf(voters)), Some(YearChoicesOf(voters)), None)
  }

  /** What the cleaned data asks for, its numbers converted by int(). */
  datatype Criteria = Criteria(
    party: Option<string>,
    minYear: Option<int>,
    maxYear: Option<int>,
    score: Option<int>,
    elections: set<Election>)

  /** int() succeeds on each number field that is used. */
  predicate Parses(d: FilterData) {
    && (d.dobMinYear != "" ==> ParseInt(d.dobMinYear).Some?)
    && (d.dobMaxYear != "" ==> ParseInt(d.dobMaxYear).Some?)
    && (d.voterScore != "" ==> ParseInt(d.voterScore).Some?)
  }

  /** A field is used when it is not blank; voter_score is used unless it is None or "", so "0" is used. */
  function ToCriteria(d: FilterData): Criteria
    requires Parses(d)
  {
    Criteria(
      if d.party == "" then None else Some(d.party),
      if d.dobMinYear == "" then None else Some(ParseInt(d.dobMinYear).value),
      if d.dobMaxYear == "" then None else Some(ParseInt(d.dobMaxYear).value),
      if d.voterScore == "" then None else Some(ParseInt(d.voterScore).value),
      d.checked)
  }

  lemma OfferedYearParses(years: seq<int>, s: string)
    requires s != "" && Offers(YearOptions(Some(years)), s)
    ensures ParseInt(s).Some?
  {
    var options := YearOptions(Some(years));
    var k :| 0 <= k < |options| && options[k].value == s;
    assert k != 0;
    var y := years[k - 1];
    assert s == IntToString(y) by {
      var tail := seq(|years|, j requires 0 <= j < |years| => Same(IntToString(years[j])));
      assert options == [Choice("", "Any")] + tail;
      assert options[k] == tail[k - 1];
    }
    IntToStringRoundTrip(y);
  }

  lemma OfferedScoreParses(s: string)
    requires s != "" && Offers(ScoreOptions(None), s)
    ensures ParseInt(s).Some?
  {
    var options := ScoreOptions(None);
    var k :| 0 <= k < |options| && options[k].value == s;
    assert options[k] == DefaultScores()[k - 1];
    IntToStringRoundTrip(k - 1);
  }

  /** The numbers of a valid form always convert: the ValueError of int() cannot occur in this view. */
  lemma RequestFormParses(voters: seq<Voter>, params: QueryParams)
    requires CleanedData(RequestForm(voters, params)).Some?
    ensures Parses(CleanedData(RequestForm(voters, params)).value)
  {
    var form := RequestForm(voters, params);
    var d := CleanedData(form).value;
    var data := form.data.value;
    if d.dobMinYear != "" {
      OfferedYearParses(YearChoicesOf(voters), d.dobMinYear);
    }
    if d.dobMaxYear != "" {
      OfferedYearParses(YearChoicesOf(voters), d.dobMaxYear);
    }
    if d.voterScore != "" {
      OfferedScoreParses(d.voterScore);
    }
  }

  /** Chronological order of dates, as the database compares DateField values. */
  predicate DateBefore(a: Date, b: Date) {
    a.year < b.year || (a.year == b.year && (a.month < b.month || (a.month == b.month && a.day < b.day)))
  }

  /** qs.filter(party=party) */
  predicate PartyOk(c: Criteria, v: Voter) {
    c.party.None? || v.party == c.party.value
  }

  /** qs.filter(dob__gte=date(min_year, 1, 1)); a voter without a date never compares. */
  predicate MinYearOk(c: Criteria, v: Voter) {
    c.minYear.None? || (v.dob.Some? && !DateBefore(v.dob.value, Date(c.minYear.value, 1, 1)))
  }

  /** qs.filter(dob__lte=date(max_year, 12, 31)) */
  predicate MaxYearOk(c: Criteria, v: Voter) {
    c.maxYear.None? || (v.dob.Some? && !DateBefore(Date(c.maxYear.value, 12, 31), v.dob.value))
  }

  /** qs.filter(voter_score=score) */
  predicate ScoreOk(c: Criteria, v: Voter) {
    c.score.None? || v.voterScore == c.score.value
  }

  /** qs.filter(**{flag: True}) for a checked flag. */
  predicate ElectionOk(c: Criteria, v: Voter, e: Election) {
    e !in c.elections || Voted(v, e)
  }
  /** The number of filter steps: party, minimum year, maximum year, score, then one per election. */
  const Steps: nat := 4 + |Elections|

  /** Filter step k on its own: a criterion that was not supplied lets every voter through. */
  predicate StepOk(c: Criteria, v: Voter, k: nat) {
    if k == 0 then PartyOk(c, v)
    else if k == 1 then MinYearOk(c, v)
    else if k == 2 then MaxYearOk(c, v)
    else if k == 3 then ScoreOk(c, v)
    else k - 4 >= |Elections| || ElectionOk(c, v, Elections[k - 4])
  }

  /** The filter steps before step k all let v through. */
  predicate PassesStage(c: Criteria, v: Voter, k: nat) {
    k == 0 || (PassesStage(c, v, k - 1) && StepOk(c, v, k - 1))
  }

  /** Every criterion of c holds for v. */
  predicate Selects(c: Criteria, v: Voter) {
    PassesStage(c, v, Steps)
  }

  /** The voters that pass the steps before step k, in their order. */
  function Upto(voters: seq<Voter>, c: Criteria, k: nat): seq<Voter> {
    Keep(voters, (v: Voter) => PassesStage(c, v, k))
  }

  /** One filter step applied to a queryset. */
  function Narrow(qs: seq<Voter>, c: Criteria, k: nat): seq<Voter> {
    Keep(qs, (v: Voter) => StepOk(c, v, k))
  }

  lemma UptoNothing(voters: seq<Voter>, c: Criteria)
    ensures Upto(voters, c, 0) == voters
  {
    KeepAll(voters, (v: Voter) => PassesStage(c, v, 0));
  }

  /** Applying step k to the voters that passed the earlier steps gives those that pass steps 0 to k. */
  lemma NarrowStep(voters: seq<Voter>, c: Criteria, k: nat)
    ensures Narrow(Upto(voters, c, k), c, k) == Upto(voters, c, k + 1)
  {
    KeepKeep(voters, (v: Voter) => PassesStage(c, v, k), (v: Voter) => StepOk(c, v, k), (v: Voter) => PassesStage(c, v, k + 1));
  }

  /** A step whose criterion lets everyone through may be skipped. */
  lemma SkipStep(voters: seq<Voter>, c: Criteria, k: nat)
    requires forall v :: StepOk(c, v, k)
    ensures Upto(voters, c, k) == Upto(voters, c, k + 1)
  {
    KeepAgree(voters, (v: Voter) => PassesStage(c, v, k), (v: Voter) => PassesStage(c, v, k + 1));
  }

  /** Passing the steps before step k means passing each of them. */
  lemma {:induction false} PassesStageEach(c: Criteria, v: Voter, k: nat)
    ensures PassesStage(c, v, k) <==> forall j :: 0 <= j < k ==> StepOk(c, v, j)
  {
    if k > 0 {
      PassesStageEach(c, v, k - 1);
    }
  }

  /** The criteria combine by AND; each checked election requires its own flag, independently of the others. */
  lemma SelectsMeaning(c: Criteria, v: Voter)
    requires c.elections <= set e | e in Elections
    ensures Selects(c, v) <==>
              && PartyOk(c, v) && MinYearOk(c, v) && MaxYearOk(c, v) && ScoreOk(c, v)
              && (forall e :: e in c.elections ==> Voted(v, e))
  {
    PassesStageEach(c, v, Steps);
    if Selects(c, v) {
      assert StepOk(c, v, 0) && StepOk(c, v, 1) && StepOk(c, v, 2) && StepOk(c, v, 3);
      forall e | e in c.elections ensures Voted(v, e) {
        assert e in Elections;
        var j :| 0 <= j < |Elections| && Elections[j] == e;
        assert StepOk(c, v, j + 4);
      }
    }
    if && PartyOk(c, v) && MinYearOk(c, v) && MaxYearOk(c, v) && ScoreOk(c, v)
       && (forall e :: e in c.elections ==> Voted(v, e))
    {
      forall j | 0 <= j < Steps ensures StepOk(c, v, j) {
        if j >= 4 {
          assert ElectionOk(c, v, Elections[j - 4]);
        }
      }
    }
  }

  /** Voter.objects.all(): the table in the default order of Voter.Meta, by last name, then first name. */
  function AllVoters(voters: seq<Voter>): seq<Voter> {
    SortBy(voters, NameKey, NameLess)
  }

  /**
    The voters _filtered_queryset returns, in the default order: all of them unless the form is
    bound and valid.
   */
  function FilteredVoters(voters: seq<Voter>, params: QueryParams): seq<Voter> {
    var data := CleanedData(RequestForm(voters, params));
    if data.None? then AllVoters(voters)
    else
      RequestFormParses(voters, params);
      Upto(AllVoters(voters), ToCriteria(data.value), Steps)
  }

  /**
    _filtered_queryset: derives the option lists, binds the form, and when it is valid narrows
    qs by each supplied criterion in turn, then by each checked election.
   */
  method FilteredQueryset(voters: seq<Voter>, params: QueryParams)
    returns (qs: seq<Voter>, form: VoterFilterForm, parties: seq<string>, years: seq<int>)
    ensures parties == PartyChoicesOf(voters) && years == YearChoicesOf(voters)
    ensures form == RequestForm(voters, params)
    ensures CleanedData(form).None? ==> qs == AllVoters(voters)
    ensures qs == FilteredVoters(voters, params)
  {
    qs := AllVoters(voters);
    parties := PartyChoicesOf(voters);
    years := YearChoicesOf(voters);
    form := NewVoterFilterForm(if |params| == 0 then None else Some(params), Some(parties), Some(years), None);
    var cleaned := CleanedData(form);
    if cleaned.None? {
      return;
    }
    RequestFormParses(voters, params);
    qs := Narrowed(qs, ToCriteria(cleaned.value));
  }

  /** Whether step k has a criterion to apply: a non-blank field, or a checked election. */
  predicate Supplied(c: Criteria, k: nat) {
    if k == 0 then c.party.Some?
    else if k == 1 then c.minYear.Some?
    else if k == 2 then c.maxYear.Some?
    else if k == 3 then c.score.Some?
    else k - 4 < |Elections| && Elections[k - 4] in c.elections
  }

  /** if value: qs = qs.filter(...) -- step k applied to the queryset so far when it has a criterion. */
  method FilterStep(ghost voters: seq<Voter>, c: Criteria, qs: seq<Voter>, k: nat) returns (r: seq<Voter>)
    requires qs == Upto(voters, c, k)
    ensures r == Upto(voters, c, k + 1)
    ensures !Supplied(c, k) ==> r == qs
  {
    if Supplied(c, k) {
      NarrowStep(voters, c, k);
      r := Narrow(qs, c, k);
    } else {
      SkipStep(voters, c, k);
      r := qs;
    }
  }

  /**
    The narrowing part of _filtered_queryset: party, the year bounds and the score in turn,
    then each checked election, each supplied one applied as one more filter.
   */
  method Narrowed(voters: seq<Voter>, c: Criteria) returns (qs: seq<Voter>)
    ensures qs == Upto(voters, c, Steps)
  {
    qs := voters;
    UptoNothing(voters, c);
    qs := FilterStep(voters, c, qs, 0);
    qs := FilterStep(voters, c, qs, 1);
    qs := FilterStep(voters, c, qs, 2);
    qs := FilterStep(voters, c, qs, 3);
    for i := 0 to |Elections|
      invariant qs == Upto(voters, c, 4 + i)
    {
      qs := FilterStep(voters, c, qs, 4 + i);
    }
  }

  /** The result holds exactly the voters that meet every supplied criterion. */
  lemma FilteredVotersMeaning(voters: seq<Voter>, params: QueryParams)
    requires CleanedData(RequestForm(voters, params)).Some?
    ensures var d := CleanedData(RequestForm(voters, params)).value;
            Parses(d) &&
            forall v :: v in FilteredVoters(voters, params) <==> v in voters && Selects(ToCriteria(d), v)
  {
    RequestFormParses(voters, params);
    AllVotersMeaning(voters);
  }

  /** The default order is a rearrangement of the table sorted by name. */
  lemma AllVotersMeaning(voters: seq<Voter>)
    ensures SortedBy(AllVoters(voters), NameKey, NameLess)
    ensures multiset(AllVoters(voters)) == multiset(voters)
    ensures forall v :: v in AllVoters(voters) <==> v in voters
  {
    NameLessOrder();
    SortBySorted(voters, NameKey, NameLess);
    forall v ensures v in AllVoters(voters) <==> v in voters {
      assert v in AllVoters(voters) <==> v in multiset(AllVoters(voters));
      assert v in voters <==> v in multiset(voters);
    }
  }

  /** Filtering keeps the default order: the result is sorted by name, whatever the query. */
  lemma FilteredVotersOrdered(voters: seq<Voter>, params: QueryParams)
    ensures SortedBy(FilteredVoters(voters, params), NameKey, NameLess)
  {
    AllVotersMeaning(voters);
    var data := CleanedData(RequestForm(voters, params));
    if data.Some? {
      RequestFormParses(voters, params);
      var c := ToCriteria(data.value);
      KeepPairwise(AllVoters(voters), (v: Voter) => PassesStage(c, v, Steps),
                   (a: Voter, b: Voter) => !NameLess(NameKey(b), NameKey(a)));
    }
  }

  /** An unbound form (empty query string) or an invalid one filters nothing: every voter is listed, once. */
  lemma FilteredVotersUnfiltered(voters: seq<Voter>, params: QueryParams)
    requires |params| == 0 || CleanedData(RequestForm(voters, params)).None?
    ensures multiset(FilteredVoters(voters, params)) == multiset(voters)
  {
    AllVotersMeaning(voters);
  }

  /** A year bound compares whole dates, but for a real date it amounts to comparing the year, inclusively. */
  lemma YearBoundsInclusive(d: Date, y: int)
    requires IsValidDate(d)
    ensures !DateBefore(d, Date(y, 1, 1)) <==> d.year >= y
    ensures !DateBefore(Date(y, 12, 31), d) <==> d.year <= y
  {
    assert DaysInMonth(d.year, d.month) <= 31;
  }

  /** With the same year as minimum and maximum, the voters kept are exactly those born in that year. */
  lemma SameYearBounds(c: Criteria, v: Voter, y: int)
    requires c.minYear == Some(y) && c.maxYear == Some(y)
    requires v.dob.Some? ==> IsValidDate(v.dob.value)
    ensures MinYearOk(c, v) && MaxYearOk(c, v) <==> v.dob.Some? && v.dob.value.year == y
  {
    if v.dob.Some? {
      YearBoundsInclusive(v.dob.value, y);
    }
  }

  /** A non-blank score keeps only the voters with exactly that score. */
  lemma ScoreCriterionApplied(voters: seq<Voter>, params: QueryParams)
    requires CleanedData(RequestForm(voters, params)).Some?
    requires CleanedData(RequestForm(voters, params)).value.voterScore != ""
    ensures var text := CleanedData(RequestForm(voters, params)).value.voterScore;
            ParseInt(text).Some? &&
            forall v :: v in FilteredVoters(voters, params) ==> v.voterScore == ParseInt(text).value
  {
    var d := CleanedData(RequestForm(voters, params)).value;
    FilteredVotersMeaning(voters, params);
    var c := ToCriteria(d);
    forall v | v in FilteredVoters(voters, params) ensures v.voterScore == ParseInt(d.voterScore).value {
      PassesStageEach(c, v, Steps);
      assert StepOk(c, v, 3);
    }
  }

  /** A score of "0" is a criterion like any other: only voters with score 0 remain. */
  lemma ScoreZeroFilters(voters: seq<Voter>, params: QueryParams)
    requires CleanedData(RequestForm(voters, params)).Some?
    requires CleanedData(RequestForm(voters, params)).value.voterScore == "0"
    ensures forall v :: v in FilteredVoters(voters, params) ==> v.voterScore == 0
  {
    ScoreCriterionApplied(voters, params);
    IntToStringRoundTrip(0);
    assert IntToString(0) == "0";
  }

  /** Meta.ordering and the list view's ordering: by last name, then first name. */
  predicate NameLess(a: (string, string), b: (string, string)) {
    StrLess(a.0, b.0) || (a.0 == b.0 && StrLess(a.1, b.1))
  }

  function NameKey(v: Voter): (string, string) {
    (v.lastName, v.firstName)
  }

  lemma NameLessOrder()
    ensures IsStrictTotalOrder(NameLess)
  {
    StrLessOrder();
  }

  /** VoterListView: the filtered voters ordered by name, with total_count and filtered_count. */
  datatype VoterListPage = VoterListPage(voters: seq<Voter>, totalCount: nat, filteredCount: nat)

  function VoterList(voters: seq<Voter>, params: QueryParams): VoterListPage {
    var qs := FilteredVoters(voters, params);
    VoterListPage(SortBy(qs, NameKey, NameLess), |voters|, |qs|)
  }

  /** The page lists the filtered voters, each once, sorted by name; never more than the whole table. */
  lemma VoterListMeaning(voters: seq<Voter>, params: QueryParams)
    ensures var page := VoterList(voters, params);
            && SortedBy(page.voters, NameKey, NameLess)
            && multiset(page.voters) == multiset(FilteredVoters(voters, params))
            && page.filteredCount == |page.voters|
            && page.filteredCount <= page.totalCount == |voters|
  {
    NameLessOrder();
    SortBySorted(FilteredVoters(voters, params), NameKey, NameLess);
    var qs := FilteredVoters(voters, params);
    assert |multiset(SortBy(qs, NameKey, NameLess))| == |multiset(qs)|;
  }

  /** Counter(years), keyed in ascending year order. */
  function YearCounts(qs: seq<Voter>): seq<(int, nat)> {
    var years := BirthYears(qs);
    Tally(SortedDistinct(years, IntLess), years)
  }

  /** The years ascend, each is some voter's birth year, and the counts add up to the voters with a date of birth. */
  lemma YearCountsMeaning(qs: seq<Voter>)
    ensures var t := YearCounts(qs);
            && (forall i, j :: 0 <= i < j < |t| ==> t[i].0 < t[j].0)
            && (forall i :: 0 <= i < |t| ==> exists v :: v in qs && v.dob.Some? && v.dob.value.year == t[i].0)
            && TotalCount(t) == Count(qs, HasDob)
  {
    var years := BirthYears(qs);
    var keys := SortedDistinct(years, IntLess);
    IntLessOrder();
    SortedDistinctIncreasing(years, IntLess);
    var t := YearCounts(qs);
    forall i | 0 <= i < |t| ensures exists v :: v in qs && v.dob.Some? && v.dob.value.year == t[i].0 {
      assert t[i].0 == keys[i] && keys[i] in years;
    }
    TallyTotal(keys, years);
  }

  /** Counter(v.party or "" for v in qs), keyed in order of first appearance. */
  function PartyCounts(qs: seq<Voter>): seq<(string, nat)> {
    var parties := Parties(qs);
    Tally(FirstOccurrences(parties), parties)
  }

  /** Each party appears once, and the counts add up to the number of voters. */
  lemma PartyCountsMeaning(qs: seq<Voter>)
    ensures var t := PartyCounts(qs);
            && (forall i, j :: 0 <= i < j < |t| ==> t[i].0 != t[j].0)
            && TotalCount(t) == |qs|
  {
    var parties := Parties(qs);
    TallyTotal(FirstOccurrences(parties), parties);
  }

  function ElectionLabel(e: Election): string {
    match e
    case V20State => "2020 State"
    case V21Town => "2021 Town"
    case V21Primary => "2021 Primary"
    case V22General => "2022 General"
    case V23Town => "2023 Town"
  }

  /** Per election, in order, its label and the number of voters who took part. */
  function ElectionCounts(qs: seq<Voter>): (r: seq<(string, nat)>)
    ensures |r| == |Elections|
    ensures forall i :: 0 <= i < |r| ==> r[i].0 == ElectionLabel(Elections[i]) && r[i].1 <= |qs|
  {
    seq(|Elections|, i requires 0 <= i < |Elections| => (ElectionLabel(Elections[i]), Count(qs, v => Voted(v, Elections[i]))))
  }

  /** sum(v.voter_score for v in qs) */
  function TotalScore(qs: seq<Voter>): int {
    if qs == [] then 0 else qs[0].voterScore + TotalScore(qs[1..])
  }

  /** average_score: 0 for no voters, otherwise the total score divided by the number of voters. */
  function AverageScore(qs: seq<Voter>): (r: real)
    ensures |qs| == 0 ==> r == 0.0
    ensures |qs| > 0 ==> r * (|qs| as real) == TotalScore(qs) as real
  {
    if |qs| == 0 then 0.0 else (TotalScore(qs) as real) / (|qs| as real)
  }

  /** The average lies between the lowest and the highest score. */
  lemma {:induction false} TotalScoreBounds(qs: seq<Voter>, lo: int, hi: int)
    requires forall k :: 0 <= k < |qs| ==> lo <= qs[k].voterScore <= hi
    ensures |qs| * lo <= TotalScore(qs) <= |qs| * hi
  {
    if qs != [] {
      var rest := qs[1..];
      assert forall k :: 0 <= k < |rest| ==> rest[k] == qs[k + 1];
      TotalScoreBounds(rest, lo, hi);
      assert TotalScore(qs) == qs[0].voterScore + TotalScore(rest);
      assert |qs| * lo == |rest| * lo + lo && |qs| * hi == |rest| * hi + hi;
    }
  }
}
