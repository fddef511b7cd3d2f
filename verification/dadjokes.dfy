/**
  The dadjokes management command: an optional reset that empties the Joke and Picture tables,
  then one get_or_create per seed joke (looked up by its text) and per seed picture (looked up
  by its url), counting the rows actually created.
 */
module DadJokes {
  import opened Wrappers
  import opened Seqs
  import opened Tables

  datatype Joke = Joke(text: string, contributor: string, created: int)

  datatype Picture = Picture(imageUrl: string, contributor: string, created: int)

  /** The seed jokes: text and contributor. */
  const Jokes: seq<(string, string)> := [
    ("Why did the scarecrow win an award? Because he was outstanding in his field.", "Alex"),
    ("I would tell you a construction joke, but I'm still working on it.", "Sam"),
    ("Why don't eggs tell jokes? They'd crack each other up.", "Jordan"),
    ("I used to hate facial hair... but then it grew on me.", "Casey"),
    ("What do you call cheese that isn't yours? Nacho cheese.", "Taylor")
  ]

  /** The seed pictures: url and contributor. */
  const Pictures: seq<(string, string)> := [
    ("https://placekitten.com/400/300", "Mia"),
    ("https://placebear.com/400/300", "Riley"),
    ("https://picsum.photos/seed/fun/400/300", "Jamie"),
    ("https://media.giphy.com/media/3oEjI6SIIHBdRxXI40/giphy.gif", "Avery"),
    ("https://media.giphy.com/media/l0HlymVw5VOxsZomI/giphy.gif", "Quinn")
  ]

  /** The row get_or_create inserts for each seed joke: its contributor comes from the defaults. */
  function JokeRows(now: int): (r: seq<Joke>)
    ensures |r| == |Jokes|
    ensures forall k :: 0 <= k < |r| ==> r[k] == Joke(Jokes[k].0, Jokes[k].1, now)
  {
    seq(|Jokes|, k requires 0 <= k < |Jokes| => Joke(Jokes[k].0, Jokes[k].1, now))
  }

  function PictureRows(now: int): (r: seq<Picture>)
    ensures |r| == |Pictures|
    ensures forall k :: 0 <= k < |r| ==> r[k] == Picture(Pictures[k].0, Pictures[k].1, now)
  {
    seq(|Pictures|, k requires 0 <= k < |Pictures| => Picture(Pictures[k].0, Pictures[k].1, now))
  }

  /** The lookup field of each table. */
  function JokeText(j: Joke): string {
    j.text
  }

  function PictureUrl(p: Picture): string {
    p.imageUrl
  }

  /** The lookup of get_or_create(field=key(row)). */
  function SameKey<T>(key: T -> string, row: T): T -> bool {
    (x: T) => key(x) == key(row)
  }

  /** No row of table has the lookup value of row. */
  predicate Absent<T(!new)>(table: seq<T>, key: T -> string, row: T) {
    Count(table, SameKey(key, row)) == 0
  }

  /** The seeds whose lookup value no row of table holds, in seed order. */
  function Missing<T(!new)>(table: seq<T>, rows: seq<T>, key: T -> string): (r: seq<T>)
    ensures |r| <= |rows|
    ensures forall x :: x in r <==> x in rows && Absent(table, key, x)
    decreases |rows|
  {
    if rows == [] then []
    else
      var init, row := rows[..|rows| - 1], rows[|rows| - 1];
      assert rows == init + [row];
      Missing(table, init, key) + if Absent(table, key, row) then [row] else []
  }

  /** When every seed is absent, all of them are missing. */
  lemma {:induction false} MissingAll<T(!new)>(table: seq<T>, rows: seq<T>, key: T -> string)
    requires forall r :: r in rows ==> Absent(table, key, r)
    ensures Missing(table, rows, key) == rows
  {
    if rows != [] {
      var init := rows[..|rows| - 1];
      assert rows == init + [rows[|rows| - 1]];
      MissingAll(table, init, key);
    }
  }

  /** The seeds have distinct lookup values. */
  predicate DistinctKeys<T>(rows: seq<T>, key: T -> string) {
    forall i, j :: 0 <= i < j < |rows| ==> key(rows[i]) != key(rows[j])
  }

  /**
    A seeding loop after it has stopped: the table, the number of rows it created, and the
    exception that ended it early, if any.
   */
  datatype SeedRun<T> = SeedRun(table: seq<T>, created: nat, error: Option<DbError>)

  /**
    The seeding loop over rows, one get_or_create per row: a created row counts one; an exception
    stops the loop and leaves the rows created before it in place.
   */
  function Seed<T(!new)>(table: seq<T>, rows: seq<T>, key: T -> string): SeedRun<T>
    decreases |rows|
  {
    if rows == [] then SeedRun(table, 0, None)
    else
      var prev := Seed(table, rows[..|rows| - 1], key);
      var row := rows[|rows| - 1];
      if prev.error.Some? then prev
      else
        match GetOrCreate(prev.table, SameKey(key, row), row)
        case Err(e) => SeedRun(prev.table, prev.created, Some(e))
        case Ok((t, added)) => SeedRun(t, prev.created + if added then 1 else 0, None)
  }

  /**
    Seeding only appends: the rows that were there stay, unchanged and in order; every row after
    them is one of the seeds; the count is the number of rows appended, at most one per seed.
   */
  lemma {:induction false} SeedAppends<T(!new)>(table: seq<T>, rows: seq<T>, key: T -> string)
    ensures var s := Seed(table, rows, key);
            && table <= s.table
            && s.created == |s.table| - |table| <= |rows|
            && forall k :: |table| <= k < |s.table| ==> s.table[k] in rows
  {
    if rows != [] {
      var init := rows[..|rows| - 1];
      SeedAppends(table, init, key);
      assert forall x :: x in init ==> x in rows;
    }
  }

  /**
    After a run that raised nothing, every seed's lookup value is held by exactly one row, so a
    later get_or_create for it finds that row.
   */
  lemma {:induction false} SeedLeavesOne<T(!new)>(table: seq<T>, rows: seq<T>, key: T -> string)
    requires Seed(table, rows, key).error.None?
    ensures forall r :: r in rows ==> Count(Seed(table, rows, key).table, SameKey(key, r)) == 1
  {
    if rows != [] {
      var init, row := rows[..|rows| - 1], rows[|rows| - 1];
      assert rows == init + [row];
      var prev := Seed(table, init, key);
      SeedLeavesOne(table, init, key);
      var t := Seed(table, rows, key).table;
      forall r | r in rows ensures Count(t, SameKey(key, r)) == 1 {
        if key(r) == key(row) {
          KeepAgree(t, SameKey(key, r), SameKey(key, row));
          if Count(prev.table, SameKey(key, row)) == 0 {
            KeepAppend(prev.table, [row], SameKey(key, row));
          }
        } else {
          assert r in init;
          KeepAppend(prev.table, [row], SameKey(key, r));
          assert Keep([row], SameKey(key, r)) == [];
        }
      }
    }
  }

  /** A run over seeds that are all held by exactly one row already changes nothing and creates nothing. */
  lemma {:induction false} SeedNothingNew<T(!new)>(table: seq<T>, rows: seq<T>, key: T -> string)
    requires forall r :: r in rows ==> Count(table, SameKey(key, r)) == 1
    ensures Seed(table, rows, key) == SeedRun(table, 0, None)
  {
    if rows != [] {
      var init := rows[..|rows| - 1];
      SeedNothingNew(table, init, key);
    }
  }

  /**
    With distinct seeds, none of whose lookup values is held by two rows, the run raises nothing;
    it appends, in seed order, exactly the seeds that were missing, and counts exactly those.
   */
  lemma {:induction false} SeedCreatesAbsent<T(!new)>(table: seq<T>, rows: seq<T>, key: T -> string)
    requires DistinctKeys(rows, key)
    requires forall r :: r in rows ==> Count(table, SameKey(key, r)) <= 1
    ensures Seed(table, rows, key) ==
              SeedRun(table + Missing(table, rows, key), |Missing(table, rows, key)|, None)
  {
    if rows != [] {
      var init, row := rows[..|rows| - 1], rows[|rows| - 1];
      assert rows == init + [row];
      assert DistinctKeys(init, key);
      SeedCreatesAbsent(table, init, key);
      AddedMisses(table, rows, key);
      assert row in rows;
      SeedAbsentStep(table, rows, key);
    }
  }

  /** The inductive step of SeedCreatesAbsent: one more seed, whose lookup value the rows added so far do not hold. */
  lemma SeedAbsentStep<T(!new)>(table: seq<T>, rows: seq<T>, key: T -> string)
    requires rows != []
    requires var init := rows[..|rows| - 1];
             Seed(table, init, key) == SeedRun(table + Missing(table, init, key), |Missing(table, init, key)|, None)
    requires var init, row := rows[..|rows| - 1], rows[|rows| - 1];
             Count(table + Missing(table, init, key), SameKey(key, row)) == Count(table, SameKey(key, row)) <= 1
    ensures Seed(table, rows, key) == SeedRun(table + Missing(table, rows, key), |Missing(table, rows, key)|, None)
  {
    var init, row := rows[..|rows| - 1], rows[|rows| - 1];
    var added := Missing(table, init, key);
    if Absent(table, key, row) {
      SeedCreates(table, rows, key);
      assert table + added + [row] == table + (added + [row]);
    } else {
      SeedFinds(table, rows, key);
      assert added + [] == added;
    }
  }

  /** After a run that raised nothing, a seed whose lookup value no row holds is inserted and counted. */
  lemma SeedCreates<T(!new)>(table: seq<T>, rows: seq<T>, key: T -> string)
    requires rows != []
    requires var prev := Seed(table, rows[..|rows| - 1], key);
             prev.error.None? && Count(prev.table, SameKey(key, rows[|rows| - 1])) == 0
    ensures var prev := Seed(table, rows[..|rows| - 1], key);
            Seed(table, rows, key) == SeedRun(prev.table + [rows[|rows| - 1]], prev.created + 1, None)
  {
  }

  /** After a run that raised nothing, a seed whose lookup value one row holds changes nothing. */
  lemma SeedFinds<T(!new)>(table: seq<T>, rows: seq<T>, key: T -> string)
    requires rows != []
    requires var prev := Seed(table, rows[..|rows| - 1], key);
             prev.error.None? && Count(prev.table, SameKey(key, rows[|rows| - 1])) == 1
    ensures Seed(table, rows, key) == Seed(table, rows[..|rows| - 1], key)
  {
  }

  /** The seeds added for the rows before the last one do not share its lookup value. */
  lemma AddedMisses<T(!new)>(table: seq<T>, rows: seq<T>, key: T -> string)
    requires rows != [] && DistinctKeys(rows, key)
    ensures var row := rows[|rows| - 1];
            Count(table + Missing(table, rows[..|rows| - 1], key), SameKey(key, row)) == Count(table, SameKey(key, row))
  {
    var init, row := rows[..|rows| - 1], rows[|rows| - 1];
    var added := Missing(table, init, key);
    forall x | x in added ensures !SameKey(key, row)(x) {
      var i :| 0 <= i < |init| && init[i] == x;
      assert key(rows[i]) != key(rows[|rows| - 1]);
    }
    KeepNone(added, SameKey(key, row));
    KeepAppend(table, added, SameKey(key, row));
  }

  /** The outcome of the command: both tables afterwards and the two counts, or the exception. */
  datatype Outcome = Outcome(jokes: seq<Joke>, pictures: seq<Picture>, result: Result<(nat, nat), DbError>)

  /** Command.handle: the optional reset, the joke loop, then the picture loop. */
  function Handled(jokes: seq<Joke>, pictures: seq<Picture>, reset: bool, now: int): Outcome {
    var j0 := if reset then [] else jokes;
    var p0 := if reset then [] else pictures;
    var sj := Seed(j0, JokeRows(now), JokeText);
    if sj.error.Some? then Outcome(sj.table, p0, Err(sj.error.value))
    else
      var sp := Seed(p0, PictureRows(now), PictureUrl);
      if sp.error.Some? then Outcome(sj.table, sp.table, Err(sp.error.value))
      else Outcome(sj.table, sp.table, Ok((sj.created, sp.created)))
  }

  /** With reset, both tables end up holding exactly the seeds, in order, and the counts are 5 and 5. */
  lemma HandledReset(jokes: seq<Joke>, pictures: seq<Picture>, now: int)
    ensures Handled(jokes, pictures, true, now) == Outcome(JokeRows(now), PictureRows(now), Ok((5, 5)))
  {
    SeedsDistinct(now);
    SeedCreatesAbsent([], JokeRows(now), JokeText);
    MissingAll([], JokeRows(now), JokeText);
    SeedCreatesAbsent([], PictureRows(now), PictureUrl);
    MissingAll([], PictureRows(now), PictureUrl);
  }

  /**
    Without reset, when no seed text or url is held by two rows already: nothing is raised, each
    table gains exactly the seeds it lacked, in seed order and after the rows it had, and the
    counts are the numbers of seeds it lacked.
   */
  lemma HandledWithoutReset(jokes: seq<Joke>, pictures: seq<Picture>, now: int)
    requires forall r :: r in JokeRows(now) ==> Count(jokes, SameKey(JokeText, r)) <= 1
    requires forall r :: r in PictureRows(now) ==> Count(pictures, SameKey(PictureUrl, r)) <= 1
    ensures Handled(jokes, pictures, false, now) ==
              Outcome(jokes + Missing(jokes, JokeRows(now), JokeText),
                      pictures + Missing(pictures, PictureRows(now), PictureUrl),
                      Ok((|Missing(jokes, JokeRows(now), JokeText)|, |Missing(pictures, PictureRows(now), PictureUrl)|)))
  {
    SeedsDistinct(now);
    SeedCreatesAbsent(jokes, JokeRows(now), JokeText);
    SeedCreatesAbsent(pictures, PictureRows(now), PictureUrl);
  }

  /**
    Whatever happens, rows are only added: without reset the rows that were there stay, unchanged
    and in order; every added row is a seed; and the counts reported are at most 5 each.
   */
  lemma HandledOnlyAdds(jokes: seq<Joke>, pictures: seq<Picture>, reset: bool, now: int)
    ensures var o := Handled(jokes, pictures, reset, now);
            var j0, p0 := if reset then [] else jokes, if reset then [] else pictures;
            && j0 <= o.jokes && p0 <= o.pictures
            && (forall k :: |j0| <= k < |o.jokes| ==> o.jokes[k] in JokeRows(now))
            && (forall k :: |p0| <= k < |o.pictures| ==> o.pictures[k] in PictureRows(now))
            && (o.result.Ok? ==> o.result.value.0 <= 5 && o.result.value.1 <= 5)
  {
    var j0: seq<Joke> := if reset then [] else jokes;
    var p0: seq<Picture> := if reset then [] else pictures;
    SeedAppends(j0, JokeRows(now), JokeText);
    SeedAppends(p0, PictureRows(now), PictureUrl);
  }

  /** After a run that raised nothing, every seed's lookup value is held by some row. */
  lemma SeedPresent<T(!new)>(table: seq<T>, rows: seq<T>, key: T -> string)
    requires Seed(table, rows, key).error.None?
    ensures forall r :: r in rows ==> exists x :: x in Seed(table, rows, key).table && key(x) == key(r)
  {
    var t := Seed(table, rows, key).table;
    SeedLeavesOne(table, rows, key);
    forall r | r in rows ensures exists x :: x in t && key(x) == key(r) {
      var x := Keep(t, SameKey(key, r))[0];
      assert x in t && SameKey(key, r)(x);
    }
  }

  /**
    A second run, over seeds with the same lookup values, after a run that raised nothing, creates
    nothing and changes nothing.
   */
  lemma SeedTwice<T(!new)>(table: seq<T>, rows: seq<T>, again: seq<T>, key: T -> string)
    requires Seed(table, rows, key).error.None?
    requires |again| == |rows| && forall k :: 0 <= k < |rows| ==> key(again[k]) == key(rows[k])
    ensures var t := Seed(table, rows, key).table;
            Seed(t, again, key) == SeedRun(t, 0, None)
  {
    var t := Seed(table, rows, key).table;
    SeedLeavesOne(table, rows, key);
    forall r | r in again ensures Count(t, SameKey(key, r)) == 1 {
      var k :| 0 <= k < |again| && again[k] == r;
      assert rows[k] in rows;
      KeepAgree(t, SameKey(key, r), SameKey(key, rows[k]));
    }
    SeedNothingNew(t, again, key);
  }

  /** After a run that raised nothing, every seed joke text and every seed picture url is in its table. */
  lemma HandledSeedsPresent(jokes: seq<Joke>, pictures: seq<Picture>, reset: bool, now: int)
    requires Handled(jokes, pictures, reset, now).result.Ok?
    ensures forall k :: 0 <= k < |Jokes| ==>
              exists x :: x in Handled(jokes, pictures, reset, now).jokes && x.text == Jokes[k].0
    ensures forall k :: 0 <= k < |Pictures| ==>
              exists x :: x in Handled(jokes, pictures, reset, now).pictures && x.imageUrl == Pictures[k].0
  {
    var j0: seq<Joke> := if reset then [] else jokes;
    var p0: seq<Picture> := if reset then [] else pictures;
    var jr, pr := JokeRows(now), PictureRows(now);
    SeedPresent(j0, jr, JokeText);
    SeedPresent(p0, pr, PictureUrl);
    forall k | 0 <= k < |Jokes| ensures exists x :: x in Seed(j0, jr, JokeText).table && x.text == Jokes[k].0 {
      assert jr[k] in jr;
    }
    forall k | 0 <= k < |Pictures| ensures exists x :: x in Seed(p0, pr, PictureUrl).table && x.imageUrl == Pictures[k].0 {
      assert pr[k] in pr;
    }
  }

  /** Running the command again, without reset, after a run that raised nothing creates nothing and changes nothing. */
  lemma HandledTwice(jokes: seq<Joke>, pictures: seq<Picture>, reset: bool, now: int, later: int)
    requires Handled(jokes, pictures, reset, now).result.Ok?
    ensures var o := Handled(jokes, pictures, reset, now);
            Handled(o.jokes, o.pictures, false, later) == Outcome(o.jokes, o.pictures, Ok((0, 0)))
  {
    var j0: seq<Joke> := if reset then [] else jokes;
    var p0: seq<Picture> := if reset then [] else pictures;
    SeedTwice(j0, JokeRows(now), JokeRows(later), JokeText);
    SeedTwice(p0, PictureRows(now), PictureRows(later), PictureUrl);
  }

  /** The two tables of the dadjokes application. */
  class JokeDb {
    var jokes: seq<Joke>
    var pictures: seq<Picture>

    constructor (jokes: seq<Joke>, pictures: seq<Picture>)
      ensures this.jokes == jokes && this.pictures == pictures
    {
      this.jokes := jokes;
      this.pictures := pictures;
    }

    /** handle(reset=reset): the tables become those of Handled, and so does the reported result. */
    method Handle(reset: bool, now: int) returns (r: Result<(nat, nat), DbError>)
      modifies this
      ensures Outcome(jokes, pictures, r) == Handled(old(jokes), old(pictures), reset, now)
    {
      if reset {
        jokes := [];
        pictures := [];
      }
      var createdJokes := SeedJokes(now);
      if createdJokes.Err? {
        return Err(createdJokes.error);
      }
      var createdPics := SeedPictures(now);
      if createdPics.Err? {
        return Err(createdPics.error);
      }
      r := Ok((createdJokes.value, createdPics.value));
    }

    /** The joke loop of handle. */
    method SeedJokes(now: int) returns (r: Result<nat, DbError>)
      modifies this
      ensures pictures == old(pictures)
      ensures var s := Seed(old(jokes), JokeRows(now), JokeText);
              jokes == s.table && (if s.error.Some? then r == Err(s.error.value) else r == Ok(s.created))
    {
      var rows := JokeRows(now);
      var createdJokes := 0;
      for i := 0 to |rows|
        invariant pictures == old(pictures)
        invariant Seed(old(jokes), rows[..i], JokeText) == SeedRun(jokes, createdJokes, None)
      {
        assert rows[..i + 1][..i] == rows[..i];
        var res := GetOrCreate(jokes, SameKey(JokeText, rows[i]), rows[i]);
        if res.Err? {
          assert Seed(old(jokes), rows[..i + 1], JokeText).error == Some(res.error);
          SeedStops(old(jokes), rows, JokeText, i + 1);
          return Err(res.error);
        }
        jokes := res.value.0;
        if res.value.1 {
          createdJokes := createdJokes + 1;
        }
      }
      assert rows[..|rows|] == rows;
      r := Ok(createdJokes);
    }

    /** The picture loop of handle. */
    method SeedPictures(now: int) returns (r: Result<nat, DbError>)
      modifies this
      ensures jokes == old(jokes)
      ensures var s := Seed(old(pictures), PictureRows(now), PictureUrl);
              pictures == s.table && (if s.error.Some? then r == Err(s.error.value) else r == Ok(s.created))
    {
      var rows := PictureRows(now);
      var createdPics := 0;
      for i := 0 to |rows|
        invariant jokes == old(jokes)
        invariant Seed(old(pictures), rows[..i], PictureUrl) == SeedRun(pictures, createdPics, None)
      {
        assert rows[..i + 1][..i] == rows[..i];
        var res := GetOrCreate(pictures, SameKey(PictureUrl, rows[i]), rows[i]);
        if res.Err? {
          assert Seed(old(pictures), rows[..i + 1], PictureUrl).error == Some(res.error);
          SeedStops(old(pictures), rows, PictureUrl, i + 1);
          return Err(res.error);
        }
        pictures := res.value.0;
        if res.value.1 {
          createdPics := createdPics + 1;
        }
      }
      assert rows[..|rows|] == rows;
      r := Ok(createdPics);
    }
  }

  /** Once the loop has raised, the later seeds are not looked at: the run ends as it was. */
  lemma {:induction false} SeedStops<T(!new)>(table: seq<T>, rows: seq<T>, key: T -> string, i: nat)
    requires i <= |rows|
    requires Seed(table, rows[..i], key).error.Some?
    ensures Seed(table, rows, key) == Seed(table, rows[..i], key)
  {
    if i < |rows| {
      assert rows[..|rows| - 1][..i] == rows[..i];
      SeedStops(table, rows[..|rows| - 1], key, i);
    } else {
      assert rows[..i] == rows;
    }
  }

  /** The seed jokes differ in text and the seed pictures in url (their lengths already differ). */
  lemma SeedsDistinct(now: int)
    ensures DistinctKeys(JokeRows(now), JokeText) && DistinctKeys(PictureRows(now), PictureUrl)
  {
    assert |Jokes[0].0| == 76 && |Jokes[1].0| == 66 && |Jokes[2].0| == 54 && |Jokes[3].0| == 53 && |Jokes[4].0| == 55;
    assert |Pictures[0].0| == 31 && |Pictures[1].0| == 29 && |Pictures[2].0| == 38;
    assert |Pictures[3].0| == 58 && |Pictures[4].0| == 57;
  }
}
