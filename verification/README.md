# cs412 course applications: a verified model of their core logic

This project models, in Dafny, the rules at the heart of four small Django applications and
proves what those rules promise.

- **voter_analytics** holds a register of Newton voters.
  - Each CSV row is mapped to a `Voter` record. This covers date parsing with its "-00" day fix, the boolean tokens and the stripped text fields. Records are saved one at a time while rows are counted (`VoterModels`, `DateParsing`).
  - The filter form offers choice lists derived from the data (`VoterForms`).
  - The list and graph views narrow the voters by the AND of the supplied criteria. They then order, count and aggregate the result (`VoterViews`).
- **mini_insta** is a photo-sharing site.
  - Its model accessors give followers and following, the feed, and the posts, photos and comments in time order (`InstaModels`).
  - The logged-in profile is chosen as the newest profile of the user (`InstaAuth`).
  - The views compute permission flags and owner guards, and run search. They also change the Follow, Like, Post and Photo tables (`InstaViews`, with the class `InstaDb` holding those tables).
- **restaurant**: the POST branch of the order page prices the ticked items one by one. It builds a running total and a list of order lines (`Restaurant.ConfirmOrder`).
- **dadjokes**: a management command that optionally empties the Joke and Picture tables. It then seeds them with get-or-create, counting the rows it actually creates (`DadJokes`, with the class `JokeDb`).

Shared helpers:
- `Wrappers`: `Option` and `Result`.
- `Text`: Python's `strip`, `upper`/`lower` on ASCII, `int()`/`str()` on decimal integers, substring search and `join`.
- `Seqs`: filtering, counting, `order_by` (ties kept in input order), `sorted(set(...))` and `Counter`.
- `Tables`: Django's `get_or_create`, `filter(...).delete()`, and row-by-row saving that stops at the first exception.

A table is a sequence of records; a record refers to another by primary key. Database errors are
values:
- `get_or_create` raises `MultipleObjectsReturned` when two rows match;
- `get_object_or_404` answers `NotFound`;
- a NOT NULL column left empty raises `IntegrityError`.

Code that changes state step by step is modelled as methods:
- `VoterTable.LoadData`, the loop of `_parse_date` (`ParseDate`) and `_filtered_queryset` (`FilteredQueryset`);
- the follow/like views and `CreatePost` of `InstaDb`;
- `ConfirmOrder`;
- `JokeDb.Handle`.

Each such method is proved equal to a function of its inputs and old state. Lemmas then state the properties of those functions.

Importing voters is not all-or-nothing: each row is saved as soon as it is mapped, and an exception from a later row is re-raised with the earlier rows left in the table (voter_analytics/models.py:96-121).

## Model

| member | source | states |
|---|---|---|
| DateParsing.ParseWithFormat | voter_analytics/models.py:67-69 | strptime with one of the three patterns yields only real calendar dates (years 1..9999, day within its month) |
| DateParsing.FixDayZero | voter_analytics/models.py:62-65 | replacing a trailing "-00" by "-01" keeps the length of the value |
| DateParsing.ParseDate | voter_analytics/models.py:56-73 | the loop over the patterns returns what ParsedDate says (first success, None for no value, error otherwise) and only real dates |
| DateParsing.FirstMatchIsFirst | voter_analytics/models.py:67-71 | when patterns 0..k-1 fail and pattern k parses, the loop's result is pattern k's date |
| DateParsing.FirstMatchNone | voter_analytics/models.py:67-73 | the loop finds nothing exactly when every pattern fails |
| DateParsing.ParsedDateOfNothing | voter_analytics/models.py:58-59 | None or "" gives no date and no exception |
| DateParsing.ParsedDateFirstPatternWins | voter_analytics/models.py:60-71 | a non-empty value is stripped, fixed for "-00", and the first pattern that parses it decides the date |
| DateParsing.ParsedDateError | voter_analytics/models.py:72-73 | a non-empty value raises exactly when no pattern parses it, and the error carries the normalised value |
| DateParsing.ParsedDateBlank | voter_analytics/models.py:58-60 | a whitespace-only value is not empty, strips to "" and raises ValueError("") |
| DateParsing.ParseRender | voter_analytics/models.py:67-69 | each pattern reads back its own rendering of any valid date |
| DateParsing.FirstMatchOfRendering | voter_analytics/models.py:67-71 | a date written in any of the three spellings is read as that date by the first pattern that accepts it |
| DateParsing.ParsedDateOfRendering | voter_analytics/models.py:56-71 | _parse_date of any valid date written in any of the three patterns is that date |
| DateParsing.ParsedDateDayZero | voter_analytics/models.py:62-69 | "YYYY-MM-00" parses as the first day of that month (e.g. 1954-07-00 is 1954-07-01) |
| DateParsing.ParsedDateExamples | voter_analytics/models.py:67-71 | "2001-03-05", "03/05/2001" and "2001/03/05" all parse to 5 March 2001 |
| DateParsing.ParsedDateIgnoresSurroundingSpace | voter_analytics/models.py:60 | whitespace around a value does not change the outcome |
| VoterModels.StreetAddressJoins | voter_analytics/models.py:42-44 | for stripped parts, the street address is number + " " + name, or whichever of the two is present |
| VoterModels.JoinParts | voter_analytics/models.py:53 | joining the non-empty parts with ", " puts ", " after each non-empty part before the city, and drops empty parts |
| VoterModels.FullAddressShape | voter_analytics/models.py:46-53 | the full address is the street (if any) and "Apt X" (only for a non-empty apartment), each followed by ", ", then "Newton, MA <zip>" |
| VoterModels.ParseBool | voter_analytics/models.py:76-81 | None is false; true needs a value |
| VoterModels.ParseBoolIgnoresCase | voter_analytics/models.py:80-81 | letter case does not affect the token |
| VoterModels.ParseBoolIgnoresSurroundingSpace | voter_analytics/models.py:80 | whitespace around the token does not affect it |
| VoterModels.ParseBoolExamples | voter_analytics/models.py:80-81 | "yes", "T" and "1" read as true |
| VoterModels.ParseBoolFalseExamples | voter_analytics/models.py:78-81 | None, "no", "0" and "" read as false |
| VoterModels.StripLower | voter_analytics/models.py:80 | lower-casing commutes with strip() |
| VoterModels.TextField | voter_analytics/models.py:100 | a text field is stripped, and "" when its column is missing |
| VoterModels.ScoreField | voter_analytics/models.py:115 | a missing or empty score is 0; the field fails exactly when a non-empty cell is not an integer |
| VoterModels.RowToVoter | voter_analytics/models.py:99-116 | a mapped record's score is the cell's integer; a bad date of birth is the error reported first |
| VoterModels.RowToVoterFields | voter_analytics/models.py:98-116 | text fields are stripped and default to "", the apartment is raw or None, a missing score is 0, a missing date is None |
| VoterModels.SaveError | voter_analytics/models.py:23-24 | save() fails when dob or registration_date is None (NOT NULL columns) and succeeds when both are present |
| VoterModels.ImportStep | voter_analytics/models.py:96-118 | after rows that raised nothing, the next row is either saved and counted or its exception is raised |
| VoterModels.ImportAfterFailure | voter_analytics/models.py:119-121 | once a row has raised, the rows after it are not read |
| VoterModels.ImportAllRows | voter_analytics/models.py:93-122 | without a failing row every row is saved and the count returned equals the number of rows |
| VoterModels.ImportStopsAtFailure | voter_analytics/models.py:96-121 | the first failing row k re-raises its error and exactly the records of rows 0..k-1 stay saved |
| VoterModels.VoterTable.Save | voter_analytics/models.py:117 | inserts the record, or raises for a None date and leaves the table unchanged; every stored voter has both dates |
| VoterModels.VoterTable.LoadRow | voter_analytics/models.py:97-119 | one turn of the loop: the row's record is appended, or its error returned with the table unchanged |
| VoterModels.VoterTable.LoadData | voter_analytics/models.py:84-122 | the table gains the records Import saves, and the count or exception returned is Import's |
| VoterForms.NewVoterFilterFormChoices | voter_analytics/forms.py:33-46 | each list is the blank option then one (v, v) option per value in the order given; the two year lists are equal; lengths are input length + 1 |
| VoterForms.NewVoterFilterFormOmitted | voter_analytics/forms.py:36-45 | omitted party or year values give lists holding the blank option only |
| VoterForms.DefaultScoreOptions | voter_analytics/forms.py:40-46 | without score choices the score list is ("", "All") then "0" to "5" |
| VoterForms.CleanChoice | voter_analytics/forms.py:22-25 | an optional choice field is invalid exactly when its non-blank value is not offered, and otherwise cleans to the submitted text |
| VoterForms.CleanedData | voter_analytics/forms.py:22-31 | an unbound form has no cleaned data; a valid form's cleaned data holds each choice field's submitted text ("" when absent) and the elections whose checkbox reads as checked |
| VoterForms.CleanedDataValid | voter_analytics/forms.py:22-31 | a bound form is valid exactly when each choice field is blank or offered |
| VoterForms.CleanCheckboxExamples | voter_analytics/forms.py:27-31 | BooleanField reads "on", "TRUE" and "0" as checked, and "False", "" and absence as unchecked |
| VoterViews.BirthYears | voter_analytics/views.py:171 | one year per voter with a date of birth, and only such years |
| VoterViews.PartyChoicesOfMeaning | voter_analytics/views.py:43-45 | party options strictly increase and are exactly the non-empty parties present |
| VoterViews.YearChoicesOfMeaning | voter_analytics/views.py:46-49 | year options strictly increase and are exactly the birth years present |
| VoterViews.OfferedYearParses | voter_analytics/views.py:67-70 | an offered year value converts with int() |
| VoterViews.OfferedScoreParses | voter_analytics/views.py:73-75 | an offered score value converts with int() |
| VoterViews.RequestFormParses | voter_analytics/views.py:57-75 | the int() conversions of a valid form cannot raise |
| VoterViews.NarrowStep | voter_analytics/views.py:59-80 | applying filter step k to the voters passing steps before k gives those passing steps up to k |
| VoterViews.SkipStep | voter_analytics/views.py:61-80 | a step whose criterion is absent or blank constrains nothing |
| VoterViews.PassesStageEach | voter_analytics/views.py:59-80 | passing the chained filters means passing each one |
| VoterViews.SelectsMeaning | voter_analytics/views.py:59-80 | the filter is the AND of party equality, inclusive year bounds, score equality, and each checked election flag on its own |
| VoterViews.FilterStep | voter_analytics/views.py:61-80 | one "if value: qs = qs.filter(...)" moves the queryset to the next stage and is a no-op when the field is not supplied |
| VoterViews.Narrowed | voter_analytics/views.py:59-80 | the sequence of filter statements yields the voters passing every step |
| VoterViews.FilteredQueryset | voter_analytics/views.py:28-82 | returns the derived party and year options, the bound form, and all voters in the default name order unless the form is valid, else the narrowed voters |
| VoterViews.FilteredVotersMeaning | voter_analytics/views.py:57-82 | with a valid form, the result is the voters that satisfy every supplied criterion, a subset of all voters |
| VoterViews.AllVotersMeaning | voter_analytics/models.py:36-37 | Voter.objects.all() is the table rearranged so that (last_name, first_name) ascends |
| VoterViews.FilteredVotersOrdered | voter_analytics/views.py:40-80 | the filtered queryset keeps the default order of Voter.Meta, whatever the query |
| VoterViews.FilteredVotersUnfiltered | voter_analytics/views.py:51-57 | an empty query string or an invalid form filters nothing: every voter appears, once |
| VoterViews.YearBoundsInclusive | voter_analytics/views.py:67-70 | dob >= Jan 1 of y iff year >= y, and dob <= Dec 31 of y iff year <= y |
| VoterViews.SameYearBounds | voter_analytics/views.py:65-70 | min = max = Y keeps exactly the voters born in Y |
| VoterViews.ScoreCriterionApplied | voter_analytics/views.py:73-75 | a non-blank score keeps only voters with exactly that score |
| VoterViews.ScoreZeroFilters | voter_analytics/views.py:74-75 | a score of "0" is applied, keeping only score-0 voters |
| VoterViews.NameLessOrder | voter_analytics/views.py:98-102 | ordering by (last_name, first_name) is a strict total order |
| VoterViews.VoterListMeaning | voter_analytics/views.py:100-111 | the list is the filtered voters sorted by name; filtered_count is its length and at most total_count, the table size |
| VoterViews.YearCountsMeaning | voter_analytics/views.py:171-174 | year keys ascend, each is a voter's birth year, and the counts add up to the voters with a dob |
| VoterViews.PartyCountsMeaning | voter_analytics/views.py:179-183 | party keys are distinct and the counts add up to the number of voters |
| VoterViews.ElectionCounts | voter_analytics/views.py:188-196 | five entries in the source's order, each labelled, each count at most the number of voters |
| VoterViews.AverageScore | voter_analytics/views.py:204-208 | 0.0 for no voters, otherwise average * count == total score |
| VoterViews.TotalScoreBounds | voter_analytics/views.py:207-208 | the total lies between count * lowest and count * highest score |
| InstaModels.FollowersMeaning | mini_insta/models.py:40-54 | counts equal list lengths; q is among p's followers iff a row says q follows p iff p is among q's following |
| InstaModels.AllPostsMeaning | mini_insta/models.py:35-37 | exactly the profile's posts, with multiplicity, newest first |
| InstaModels.PostFeedMeaning | mini_insta/models.py:57-60 | exactly the posts whose author the profile follows, newest first |
| InstaModels.AllPhotosMeaning | mini_insta/models.py:79-81 | exactly the post's photos, oldest first |
| InstaModels.AllCommentsMeaning | mini_insta/models.py:83-85 | exactly the post's comments, oldest first |
| InstaModels.Likes | mini_insta/models.py:87-89 | exactly the likes of the post |
| InstaModels.GetImageUrl | mini_insta/models.py:105-120 | image_url when set; otherwise the file's url, or "" when there is no file or no url |
| InstaModels.StorageLabel | mini_insta/models.py:100-103 | "URL" iff image_url is non-empty, else "File" |
| InstaModels.CommentPreview | mini_insta/models.py:145-147 | the text when at most 30 characters, else its first 30 and an ellipsis |
| InstaAuth.LoggedInProfileMeaning | mini_insta/mixins.py:18-22 | None iff anonymous or the user owns no profile; otherwise a profile of the user with the largest pk |
| InstaViews.FindProfile | mini_insta/views.py:242 | 404 exactly when no profile has the key; otherwise a profile with that key |
| InstaViews.FindPost | mini_insta/views.py:260 | 404 exactly when no post has the key; otherwise a post with that key |
| InstaViews.ProfileContextMeaning | mini_insta/views.py:35-47 | can_follow iff logged in as another profile; is_following only then, and iff that profile is followed; can_update only for the owner |
| InstaViews.PostContextMeaning | mini_insta/views.py:55-65 | can_edit_post and can_like are never both true, and one holds iff logged in; has_liked needs a user |
| InstaViews.ProfileToUpdateMeaning | mini_insta/views.py:105-109 | profile update is allowed iff the user owns a profile, and only on that user's own profile |
| InstaViews.PostToChangeMeaning | mini_insta/views.py:124-147 | editing or deleting a post is allowed exactly to its author, exactly when the detail page offers editing |
| InstaViews.Feed | mini_insta/views.py:168-177 | for a logged-in user (AuthMixin) without a profile, no posts; with one, exactly the posts of the profiles it follows, newest first |
| InstaViews.SearchMeaning | mini_insta/views.py:190-209 | a blank query shows the form to anyone; another query redirects an anonymous user to log in; otherwise the posts whose caption contains it in any case, newest first, and the profiles matching by name or bio |
| InstaViews.FollowGetOrCreate | mini_insta/views.py:244 | with unique pairs, get_or_create does not raise and adds the row only if the pair is absent |
| InstaViews.LikeGetOrCreate | mini_insta/views.py:262 | with unique likes, get_or_create does not raise and adds the like only if absent |
| InstaViews.FollowRowsMeaning | mini_insta/views.py:239-245 | following keeps the table free of self-follows and repeated pairs, leaves exactly one row for the pair, and a second follow changes nothing |
| InstaViews.FollowedKeepsValid | mini_insta/views.py:243-244 | the row added for two different profiles is the pair's only row |
| InstaViews.UnfollowRowsMeaning | mini_insta/views.py:248-254 | every (me, other) row is gone and every other row is kept with its multiplicity |
| InstaViews.LikeRowsMeaning | mini_insta/views.py:257-263 | a new like is always mine, on that post, not my own post; liking again changes nothing |
| InstaViews.UnlikeRowsMeaning | mini_insta/views.py:266-272 | every like of mine on the post is gone and every other like is kept |
| InstaViews.NewPhotos | mini_insta/views.py:88-90 | one photo per uploaded file, in order, each on the new post with that file |
| InstaViews.UploadedPhotos | mini_insta/views.py:88-90 | the loop over the files creates exactly NewPhotos |
| InstaViews.CreatedPhotos | mini_insta/views.py:88-90 | the new post's photos are exactly those created for its files, one per file |
| InstaViews.UnfollowKeepsValid | mini_insta/views.py:253 | deleting follow rows keeps no self-follow and unique pairs |
| InstaViews.UnlikeKeepsValid | mini_insta/views.py:271 | deleting likes keeps likes unique and off their authors' posts |
| InstaViews.LikeAddedKeepsValid | mini_insta/views.py:261-262 | a like added by the view keeps likes unique and never on one's own post |
| InstaViews.NewPostConsistent | mini_insta/views.py:76-90 | a new post under a fresh key with its own photos keeps the tables consistent |
| InstaViews.InstaDb.FollowProfile | mini_insta/views.py:239-245 | for a logged-in user: 404 with nothing changed for an unknown profile, else the follow rows become FollowRows; other tables unchanged, invariant kept |
| InstaViews.InstaDb.UnfollowProfile | mini_insta/views.py:248-254 | for a logged-in user: 404 for an unknown profile, else the follow rows become UnfollowRows; other tables unchanged |
| InstaViews.InstaDb.LikePost | mini_insta/views.py:257-263 | for a logged-in user: 404 for an unknown post, else the likes become LikeRows; other tables unchanged |
| InstaViews.InstaDb.UnlikePost | mini_insta/views.py:266-272 | for a logged-in user: 404 for an unknown post, else the likes become UnlikeRows; other tables unchanged |
| InstaViews.InstaDb.CreatePost | mini_insta/views.py:67-92 | for a logged-in user without a profile the save fails (NOT NULL author); otherwise one post under the next key and one photo per file are added |
| Restaurant.ConfirmOrder | restaurant/views.py:73-136 | the confirmation lists the priced lines and the total of Priced over the submitted items, with the toppings and contact fields as submitted |
| Restaurant.PricedCents | restaurant/views.py:95-119 | the total is 12, 9, 7 and 2 dollars per pizza, burger, salad and drink, plus the special's parsed price (or 0) per special |
| Restaurant.PricedFloat | restaurant/views.py:109-119 | the total turns float iff a special with a parsable price was ordered; otherwise it is whole dollars |
| Restaurant.PricedLines | restaurant/views.py:95-121 | the lines are those of the recognised items, one per occurrence, in order |
| Restaurant.PricedAppend | restaurant/views.py:95-121 | pricing a + b adds the totals and concatenates the lines |
| Restaurant.UnknownIgnored | restaurant/views.py:95-121 | unknown item names change neither total nor lines |
| Restaurant.PizzaAndDrink | restaurant/views.py:95-134 | pizza and drink give "Pizza ($12.00)", "Drink ($2.00)" and "$14" |
| DadJokes.SeedsDistinct | dadjokes/management/commands/dadjokes.py:4-18 | the seed texts, and the seed urls, are pairwise distinct |
| DadJokes.Missing | dadjokes/management/commands/dadjokes.py:36-45 | the seeds whose key no row holds, in seed order |
| DadJokes.SeedAppends | dadjokes/management/commands/dadjokes.py:36-39 | seeding only appends seeds after the unchanged old rows, and counts exactly the rows appended, at most one per seed |
| DadJokes.SeedLeavesOne | dadjokes/management/commands/dadjokes.py:36-39 | after a run that raised nothing, each seed key is held by exactly one row |
| DadJokes.SeedNothingNew | dadjokes/management/commands/dadjokes.py:36-39 | seeds each already held once create nothing and change nothing |
| DadJokes.SeedCreatesAbsent | dadjokes/management/commands/dadjokes.py:36-39 | with distinct seeds held at most once, the run raises nothing and appends and counts exactly the missing seeds |
| DadJokes.SeedPresent | dadjokes/management/commands/dadjokes.py:36-39 | after a run that raised nothing every seed key is present |
| DadJokes.SeedTwice | dadjokes/management/commands/dadjokes.py:36-39 | a second run over the same keys creates nothing and changes nothing |
| DadJokes.SeedStops | dadjokes/management/commands/dadjokes.py:36-39 | an exception ends the loop: later seeds are not looked at |
| DadJokes.HandledReset | dadjokes/management/commands/dadjokes.py:29-45 | with --reset the tables become exactly the seeds and the counts are 5 and 5 |
| DadJokes.HandledWithoutReset | dadjokes/management/commands/dadjokes.py:35-45 | without reset each table gains exactly its missing seeds after its old rows, and the counts are their numbers |
| DadJokes.HandledOnlyAdds | dadjokes/management/commands/dadjokes.py:28-45 | old rows are never modified or removed without reset, added rows are seeds, and counts are at most 5 |
| DadJokes.HandledSeedsPresent | dadjokes/management/commands/dadjokes.py:36-45 | after a run that raised nothing, every seed text and url is present |
| DadJokes.HandledTwice | dadjokes/management/commands/dadjokes.py:35-45 | a second run without reset creates 0 and 0 and leaves both tables unchanged |
| DadJokes.JokeDb.Handle | dadjokes/management/commands/dadjokes.py:28-45 | the tables and the reported result become those of Handled |
| DadJokes.JokeDb.SeedJokes | dadjokes/management/commands/dadjokes.py:35-39 | the joke loop leaves the jokes table, count and error of Seed, and the pictures unchanged |
| DadJokes.JokeDb.SeedPictures | dadjokes/management/commands/dadjokes.py:41-45 | the picture loop leaves the pictures table, count and error of Seed, and the jokes unchanged |
| Tables.GetOrCreate | mini_insta/views.py:244 | raises iff two or more rows match; creates (appending the row) iff none matches; otherwise leaves the table |
| Tables.GetOrCreateIdempotent | mini_insta/views.py:262 | a second get_or_create of the same lookup finds the row and changes nothing |
| Tables.DeleteWhere | mini_insta/views.py:253 | filter(...).delete() removes exactly the matching rows and keeps every other row with its multiplicity |
| Tables.SaveEach | voter_analytics/models.py:96-121 | rows are stored in order until the first exception, which is re-raised with the earlier records kept |
| Text.Strip | voter_analytics/models.py:60 | strip() leaves no whitespace at either end and never lengthens |
| Text.StripIdempotent | voter_analytics/models.py:80 | stripping twice is stripping once |
| Text.Contains | mini_insta/views.py:200 | containment holds iff the needle occurs at some index |
| Text.IntToStringRoundTrip | voter_analytics/forms.py:41 | int(str(n)) == n |
| Seqs.SortBySorted | mini_insta/models.py:37 | order_by yields a sorted permutation |
| Seqs.TallyTotal | voter_analytics/views.py:173 | a Counter over distinct covering keys sums to the number of items |

## Left out

- File and CSV reading in load_data, and the default path: rows are given as maps from column header to cell text.
- strptime is modelled only for the three patterns, over ASCII digits. Other strptime features and Unicode digits are not modelled, and neither are they in `int()`.
- Case-insensitive search and `upper()`/`lower()` use ASCII case mapping only. Unicode case folding is not modelled.
- Plotly figures, the try/except around the plotly import, and pagination of the list view are not modelled. The list page is the whole sorted result.
- Templates, redirects, `reverse`, login/session handling, `UserCreationForm`, CreateProfileView, and the form machinery beyond what the filter form's fields do are not modelled.
- `max_length` of CharFields is not modelled. Neither are the auto-generated `join_date`/`timestamp` values: the current time is a parameter `now`.
- Restaurant.TotalText: a total that has become a Python float (after a special with a parsable price) is not rendered. Such a total is `None` here because float formatting is not modelled.
- Restaurant.ConfirmOrder: the special's price is an abstract number of cents passed in (`specialPrice`). The float parsing of `special_cost.replace("$", "")` is not modelled.
- The random ready time, the time zone, and the GET branch with its random daily special are not modelled. Neither is the separate `confirmation` view.
- The dadjokes command's stdout messages are not modelled. The rows' `created` timestamp is the parameter `now`.
- The dadjokes seeding rows hold only the fields the command sets. The Joke and Picture model declarations are not part of this model.
- The average score is an exact real rather than a float.
- Concurrency between requests and database transactions are not modelled. Each view runs alone.
- InstaViews.Feed, InstaViews.InstaDb.FollowProfile, InstaViews.InstaDb.UnfollowProfile, InstaViews.InstaDb.LikePost, InstaViews.InstaDb.UnlikePost, InstaViews.InstaDb.CreatePost: these views sit behind AuthMixin, whose LoginRequiredMixin redirects an anonymous request to the login page before the view runs (mini_insta/mixins.py:11). They are modelled for a logged-in user only; the redirect itself is modelled only in `InstaViews.Search`, the one view that also answers anonymous requests.
- VoterModels.SaveError, VoterModels.VoterTable.Save: only the NOT NULL date columns are modelled as save failures. A `voter_score` outside the database's integer range, which makes save() raise, is not, because the range depends on the database backend.
- Text ordering is code-point order, which is SQLite's default BINARY collation. Other collations (locale-aware or case-insensitive) are not modelled.
- Seqs.SortBy: rows with equal sort keys stay in their input order. SQL leaves the order of such ties unspecified, so the model fixes one of the allowed orders. This holds for `order_by` and for the default order of `Voter.Meta`.
- A queryset with no ordering at all (the follow lists, a post's likes, the profile matches of a search) is modelled in table order. SQL does not promise that order.
