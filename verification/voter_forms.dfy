/**
  VoterFilterForm of voter_analytics/forms.py: four optional choice fields whose option lists
  are built from the values passed in, and five optional checkboxes, one per election; and
  how such a form reads the query parameters of a request (its cleaned_data).
 */
module VoterForms {
  import opened Wrappers
  import opened Text
  import opened VoterModels

  /** One option of a choice field: the value submitted and the label shown. */
  datatype Choice = Choice(value: string, display: string)

  /** The query string of a request: parameter name to its (last) value. */
  type QueryParams = map<string, string>

  datatype VoterFilterForm = VoterFilterForm(
    data: Option<QueryParams>,  // None for an unbound form
    party: seq<Choice>,
    dobMinYear: seq<Choice>,
    dobMaxYear: seq<Choice>,
    voterScore: seq<Choice>)

  /** An option whose value and label are both s. */
  function Same(s: string): Choice {
    Choice(s, s)
  }

  /** The party options: the blank "All" option, then one per party in the order given. */
  function PartyOptions(parties: Option<seq<string>>): seq<Choice> {
    var ps := if parties.Some? then parties.value else [];
    [Choice("", "All")] + seq(|ps|, k requires 0 <= k < |ps| => Same(ps[k]))
  }

  /** The birth-year options: the blank "Any" option, then str(y) for each year in the order given. */
  function YearOptions(years: Option<seq<int>>): seq<Choice> {
    var ys := if years.Some? then years.value else [];
    [Choice("", "Any")] + seq(|ys|, k requires 0 <= k < |ys| => Same(IntToString(ys[k])))
  }

  /** The scores offered when the caller passes none: "0" to "5". */
  function DefaultScores(): seq<Choice> {
    seq(6, i requires 0 <= i < 6 => Same(NatToString(i)))
  }

  /** The score options: the blank "All" option, then the scores passed in, or the default ones. */
  function ScoreOptions(scores: Option<seq<Choice>>): seq<Choice> {
    [Choice("", "All")] + (if scores.Some? then scores.value else DefaultScores())
  }

  /** VoterFilterForm(data, party_choices=..., year_choices=..., score_choices=...). */
  function NewVoterFilterForm(data: Option<QueryParams>, parties: Option<seq<string>>, years: Option<seq<int>>,
                              scores: Option<seq<Choice>>): VoterFilterForm
  {
    VoterFilterForm(data, PartyOptions(parties), YearOptions(years), YearOptions(years), ScoreOptions(scores))
  }

  /**
    Each option list has the blank option first and one option per value passed in; every other
    option has its value as its display text; the two year lists are identical.
   */
  lemma NewVoterFilterFormChoices(data: Option<QueryParams>, parties: seq<string>, years: seq<int>, scores: seq<Choice>)
    ensures var f := NewVoterFilterForm(data, Some(parties), Some(years), Some(scores));
            && f.data == data
            && |f.party| == |parties| + 1 && f.party[0] == Choice("", "All")
            && (forall k :: 0 <= k < |parties| ==> f.party[k + 1] == Choice(parties[k], parties[k]))
            && |f.dobMinYear| == |years| + 1 && f.dobMinYear[0] == Choice("", "Any")
            && (forall k :: 0 <= k < |years| ==> f.dobMinYear[k + 1].value == f.dobMinYear[k + 1].display == IntToString(years[k]))
            && f.dobMaxYear == f.dobMinYear
            && f.voterScore == [Choice("", "All")] + scores
  {
    var f := NewVoterFilterForm(data, Some(parties), Some(years), Some(scores));
    forall k | 0 <= k < |parties| ensures f.party[k + 1] == Choice(parties[k], parties[k]) {
      var tail := seq(|parties|, j requires 0 <= j < |parties| => Same(parties[j]));
      assert f.party == [Choice("", "All")] + tail;
      assert f.party[k + 1] == tail[k];
    }
    forall k | 0 <= k < |years| ensures f.dobMinYear[k + 1] == Same(IntToString(years[k])) {
      var tail := seq(|years|, j requires 0 <= j < |years| => Same(IntToString(years[j])));
      assert f.dobMinYear == [Choice("", "Any")] + tail;
      assert f.dobMinYear[k + 1] == tail[k];
    }
  }

  /** Without party or year values, those lists hold the blank option alone. */
  lemma NewVoterFilterFormOmitted(data: Option<QueryParams>, scores: Option<seq<Choice>>)
    ensures var f := NewVoterFilterForm(data, None, None, scores);
            f.party == [Choice("", "All")] && f.dobMinYear == [Choice("", "Any")] && f.dobMaxYear == [Choice("", "Any")]
  {
  }

  /** Without score choices, the score options are the blank "All" option, then "0" to "5". */
  lemma DefaultScoreOptions(data: Option<QueryParams>, parties: Option<seq<string>>, years: Option<seq<int>>)
    ensures NewVoterFilterForm(data, parties, years, None).voterScore ==
              [Choice("", "All"), Same("0"), Same("1"), Same("2"), Same("3"), Same("4"), Same("5")]
  {
    assert DefaultScores() == [Same("0"), Same("1"), Same("2"), Same("3"), Same("4"), Same("5")];
  }

  /** The text submitted for a field, "" when the field is absent. */
  function Submitted(data: QueryParams, name: string): string {
    if name in data then data[name] else ""
  }

  /** choices has an option with this value. */
  predicate Offers(choices: seq<Choice>, value: string) {
    exists k :: 0 <= k < |choices| && choices[k].value == value
  }

  /**
    An optional ChoiceField: "" when nothing was submitted, the submitted value when it is one of
    the options, and None (a validation error) otherwise.
   */
  function CleanChoice(data: QueryParams, name: string, choices: seq<Choice>): (r: Option<string>)
    ensures r.None? <==> Submitted(data, name) != "" && !Offers(choices, Submitted(data, name))
    ensures r.Some? ==> r.value == Submitted(data, name)
  {
    var value := Submitted(data, name);
    if value == "" || Offers(choices, value) then Some(value) else None
  }

  /**
    An optional checkbox: false when absent; "true" and "false" in any letter case read as
    themselves; any other text is true unless it is empty. (No character outside ASCII
    lower-cases to a letter of "true" or "false", so ASCII lower-casing decides this exactly.)
   */
  function CleanCheckbox(data: QueryParams, name: string): bool {
    if name !in data then false
    else if Lower(data[name]) == "true" then true
    else if Lower(data[name]) == "false" then false
    else data[name] != ""
  }

  /** The values of a valid form. */
  datatype FilterData = FilterData(
    party: string,
    dobMinYear: string,
    dobMaxYear: string,
    voterScore: string,
    checked: set<Election>)

  /**
    form.is_valid() and form.cleaned_data: None for an unbound form, or when a choice field
    received a value it does not offer; the boolean fields cannot fail.
   */
  function CleanedData(form: VoterFilterForm): (r: Option<FilterData>)
    ensures form.data.None? ==> r.None?
    ensures r.Some? ==> var data := form.data.value;
                        && r.value.party == Submitted(data, "party")
                        && r.value.dobMinYear == Submitted(data, "dob_min_year")
                        && r.value.dobMaxYear == Submitted(data, "dob_max_year")
                        && r.value.voterScore == Submitted(data, "voter_score")
                        && r.value.checked == (set e | e in Elections && CleanCheckbox(data, ElectionName(e)))
  {
    if form.data.None? then None
    else
      var data := form.data.value;
      var party := CleanChoice(data, "party", form.party);
      var minYear := CleanChoice(data, "dob_min_year", form.dobMinYear);
      var maxYear := CleanChoice(data, "dob_max_year", form.dobMaxYear);
      var score := CleanChoice(data, "voter_score", form.voterScore);
      if party.None? || minYear.None? || maxYear.None? || score.None? then None
      else
        Some(FilterData(party.value, minYear.value, maxYear.value, score.value,
                        set e | e in Elections && CleanCheckbox(data, ElectionName(e))))
  }

  /** A bound form is valid exactly when every choice field's value is blank or offered. */
  lemma CleanedDataValid(form: VoterFilterForm)
    requires form.data.Some?
    ensures var data := form.data.value;
            CleanedData(form).Some? <==>
              && (Submitted(data, "party") == "" || Offers(form.party, Submitted(data, "party")))
              && (Submitted(data, "dob_min_year") == "" || Offers(form.dobMinYear, Submitted(data, "dob_min_year")))
              && (Submitted(data, "dob_max_year") == "" || Offers(form.dobMaxYear, Submitted(data, "dob_max_year")))
              && (Submitted(data, "voter_score") == "" || Offers(form.voterScore, Submitted(data, "voter_score")))
  {
  }

  lemma CleanCheckboxExamples(data: QueryParams)
    requires data == map["a" := "on", "b" := "False", "c" := "TRUE", "d" := "", "e" := "0"]
    ensures CleanCheckbox(data, "a") && !CleanCheckbox(data, "b") && CleanCheckbox(data, "c")
    ensures !CleanCheckbox(data, "d") && CleanCheckbox(data, "e") && !CleanCheckbox(data, "missing")
  {
    assert Lower("on") == "on";
    assert Lower("False") == "false";
    assert Lower("TRUE") == "true";
    assert Lower("0") == "0";
  }
}
