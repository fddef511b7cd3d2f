/**
  The two table updates of the ORM that the applications use: get_or_create, which fetches the
  one row matching a lookup or inserts a new one, and a filtered delete().
 */
module Tables {
  import opened Wrappers
  import opened Seqs

  /** The database errors the modelled code can run into. */
  datatype DbError =
    | MultipleObjectsReturned           // get_or_create found several rows for its lookup
    | IntegrityError(column: string)    // a NOT NULL column received None
    | NotFound                          // get_object_or_404 found no row (HTTP 404)

  /**
    Model.objects.get_or_create(lookup, defaults): with no row matching the lookup, row is
    inserted and the flag is true; with one matching row nothing changes and the flag is false;
    with several, MultipleObjectsReturned is raised.
   */
  function GetOrCreate<T(!new)>(table: seq<T>, matches: T -> bool, row: T): (r: Result<(seq<T>, bool), DbError>)
    ensures r.Err? <==> Count(table, matches) >= 2
    ensures r.Ok? ==> (r.value.1 <==> (forall x :: x in table ==> !matches(x)))
    ensures r.Ok? ==> r.value.0 == if r.value.1 then table + [row] else table
  {
    var n := Count(table, matches);
    if n == 0 then
      Ok((table + [row], true))
    else if n == 1 then
      assert Keep(table, matches)[0] in table;
      Ok((table, false))
    else
      Err(MultipleObjectsReturned)
  }

  /**
    Once get_or_create has succeeded for a lookup that the inserted row matches, the same call
    again finds exactly that one row: it creates nothing and leaves the table as it is.
   */
  lemma GetOrCreateIdempotent<T(!new)>(table: seq<T>, matches: T -> bool, row: T, other: T)
    requires matches(row)
    requires GetOrCreate(table, matches, row).Ok?
    ensures var t := GetOrCreate(table, matches, row).value.0;
            GetOrCreate(t, matches, other) == Ok((t, false))
  {
    var t := GetOrCreate(table, matches, row).value.0;
    if GetOrCreate(table, matches, row).value.1 {
      KeepAppend(table, [row], matches);
      assert Keep(table, matches) == [];
      assert Keep(t, matches) == [row];
    }
  }

  /**
    When no two rows share a key and the lookup only matches rows of one key, at most one row
    matches: get_or_create on that lookup cannot raise MultipleObjectsReturned.
   */
  lemma {:induction false} UniqueLookup<T(!new), K>(table: seq<T>, key: T -> K, matches: T -> bool)
    requires forall i, j :: 0 <= i < j < |table| ==> key(table[i]) != key(table[j])
    requires forall x, y :: matches(x) && matches(y) ==> key(x) == key(y)
    ensures Count(table, matches) <= 1
  {
    if table != [] {
      var rest := table[1..];
      UniqueLookup(rest, key, matches);
      if matches(table[0]) {
        forall y | y in rest ensures !matches(y) {
          var m :| 0 <= m < |rest| && rest[m] == y;
          assert key(table[0]) != key(table[m + 1]);
        }
        KeepNone(rest, matches);
      }
    }
  }

  /**
    Model.objects.filter(lookup).delete(): every row matching the lookup is removed, every other
    row stays, in the same order.
   */
  function DeleteWhere<T(!new)>(table: seq<T>, matches: T -> bool): (r: seq<T>)
    ensures forall x :: x in r <==> x in table && !matches(x)
    ensures forall x :: !matches(x) ==> multiset(r)[x] == multiset(table)[x]
  {
    KeepMultiset(table, x => !matches(x));
    Keep(table, x => !matches(x))
  }

  /** Deleting rows keeps a relation that held between every row and each later one. */
  lemma DeleteWherePairwise<T(!new)>(table: seq<T>, matches: T -> bool, rel: (T, T) -> bool)
    requires forall i, j :: 0 <= i < j < |table| ==> rel(table[i], table[j])
    ensures forall i, j :: 0 <= i < j < |DeleteWhere(table, matches)| ==>
              rel(DeleteWhere(table, matches)[i], DeleteWhere(table, matches)[j])
  {
    KeepPairwise(table, x => !matches(x), rel);
  }

  /**
    Rows handled one at a time by an operation that either stores a record or raises: the records
    stored, and the number of rows or the first exception. A raised exception ends the run; the
    records stored before it stay, and no later row is looked at.
   */
  function SaveEach<R, V, E>(rows: seq<R>, store: R -> Result<V, E>): (r: (seq<V>, Result<nat, E>))
    ensures |r.0| <= |rows|
    ensures forall k :: 0 <= k < |r.0| ==> store(rows[k]) == Ok(r.0[k])
    ensures r.1.Ok? <==> |r.0| == |rows|
    ensures r.1.Ok? ==> r.1.value == |rows|
    ensures r.1.Err? ==> store(rows[|r.0|]) == Err(r.1.error)
  {
    if rows == [] then ([], Ok(0))
    else
      var front := rows[..|rows| - 1];
      var (stored, outcome) := SaveEach(front, store);
      assert forall k :: 0 <= k < |front| ==> rows[k] == front[k];
      if outcome.Err? then (stored, outcome)
      else
        match store(rows[|rows| - 1])
        case Err(e) => (stored, Err(e))
        case Ok(v) => (stored + [v], Ok(|rows|))
  }

  /** One more row after a prefix that raised nothing: its record is stored, or its exception raised. */
  lemma SaveEachStep<R, V, E>(rows: seq<R>, store: R -> Result<V, E>, i: nat)
    requires i < |rows| && SaveEach(rows[..i], store).1.Ok?
    ensures SaveEach(rows[..i + 1], store) ==
              match store(rows[i])
              case Err(e) => (SaveEach(rows[..i], store).0, Err(e))
              case Ok(v) => (SaveEach(rows[..i], store).0 + [v], Ok(i + 1))
  {
    var next := rows[..i + 1];
    assert next[..|next| - 1] == rows[..i] && next[|next| - 1] == rows[i];
  }

  /** Once a prefix of the rows has raised, the rows after it change nothing. */
  lemma {:induction false} SaveEachAfterFailure<R, V, E>(rows: seq<R>, store: R -> Result<V, E>, i: nat)
    requires i <= |rows| && SaveEach(rows[..i], store).1.Err?
    ensures SaveEach(rows, store) == SaveEach(rows[..i], store)
    decreases |rows| - i
  {
    if i < |rows| {
      var next := rows[..i + 1];
      assert next[..|next| - 1] == rows[..i];
      SaveEachAfterFailure(rows, store, i + 1);
    } else {
      assert rows[..i] == rows;
    }
  }
}
