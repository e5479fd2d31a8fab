/**
 * A database table as the services see it through their repositories: rows in
 * scan order, each with a generated primary key, and the key sequence's next
 * value. Saving upserts by key, removing deletes by key.
 */
module Repository {
  import opened Wrappers

  datatype Row<D> = Row(id: int, data: D)

  datatype Table<D> = Table(rows: seq<Row<D>>, nextId: int)

  /** Keys are positive, distinct, and below the sequence's next value. */
  predicate Valid<D>(t: Table<D>) {
    t.nextId >= 1 &&
    (forall i :: 0 <= i < |t.rows| ==> 1 <= t.rows[i].id < t.nextId) &&
    (forall i, j :: 0 <= i < j < |t.rows| ==> t.rows[i].id != t.rows[j].id)
  }

  predicate Has<D>(t: Table<D>, id: int) {
    exists i :: 0 <= i < |t.rows| && t.rows[i].id == id
  }

  /** `findOneBy({ id })`. */
  function Find<D>(t: Table<D>, id: int): (r: Option<D>)
    ensures r.Some? <==> Has(t, id)
    ensures r.Some? ==> Row(id, r.value) in t.rows
    ensures Valid(t) && r.Some? ==> forall i :: 0 <= i < |t.rows| && t.rows[i].id == id ==> t.rows[i].data == r.value
    decreases |t.rows|
  {
    if |t.rows| == 0 then None
    else if t.rows[0].id == id then Some(t.rows[0].data)
    else
      var r := Find(Table(t.rows[1..], t.nextId), id);
      assert Valid(t) ==> Valid(Table(t.rows[1..], t.nextId));
      assert Has(t, id) ==> Has(Table(t.rows[1..], t.nextId), id) by {
        if Has(t, id) {
          var i :| 0 <= i < |t.rows| && t.rows[i].id == id;
          assert t.rows[1..][i - 1] == t.rows[i];
        }
      }
      r
  }

  /** The rows whose columns satisfy `keep`, in scan order: what a relation load joins in. */
  function Where<D>(rows: seq<Row<D>>, keep: D -> bool): (r: seq<Row<D>>)
    ensures forall i :: 0 <= i < |r| ==> r[i] in rows && keep(r[i].data)
    ensures forall i :: 0 <= i < |rows| && keep(rows[i].data) ==> rows[i] in r
    ensures |r| <= |rows|
    decreases |rows|
  {
    if |rows| == 0 then []
    else
      var rest := Where(rows[1..], keep);
      assert forall i :: 1 <= i < |rows| ==> rows[i] == rows[1..][i - 1];
      if keep(rows[0].data) then [rows[0]] + rest else rest
  }

  /** `findOneBy(where)` / `existsBy(where)`: the first row in scan order whose columns satisfy `p`. */
  function FindFirst<D>(t: Table<D>, p: D -> bool): (r: Option<Row<D>>)
    ensures r.Some? ==> r.value in t.rows && p(r.value.data)
    ensures r.None? <==> forall i :: 0 <= i < |t.rows| ==> !p(t.rows[i].data)
    decreases |t.rows|
  {
    if |t.rows| == 0 then None
    else if p(t.rows[0].data) then Some(t.rows[0])
    else
      var r := FindFirst(Table(t.rows[1..], t.nextId), p);
      assert forall i :: 1 <= i < |t.rows| ==> t.rows[i] == t.rows[1..][i - 1];
      r
  }

  /** `existsBy(where)`. */
  predicate Exists<D>(t: Table<D>, p: D -> bool) {
    FindFirst(t, p).Some?
  }

  /** `save` of a new entity: the next key is generated and the row appended. */
  function Insert<D>(t: Table<D>, d: D): (r: (Table<D>, int))
    ensures r.1 == t.nextId && r.0.nextId == t.nextId + 1
    ensures r.0.rows == t.rows + [Row(r.1, d)]
    ensures Valid(t) ==> Valid(r.0) && !Has(t, r.1) && Find(r.0, r.1) == Some(d)
    ensures Valid(t) ==> forall k :: k != r.1 ==> Find(r.0, k) == Find(t, k)
  {
    var t2 := Table(t.rows + [Row(t.nextId, d)], t.nextId + 1);
    assert t2.rows[|t.rows|] == Row(t.nextId, d);
    assert Valid(t) ==> Find(t2, t.nextId) == Some(d) by {
      if Valid(t) {
        FindLast(t, Row(t.nextId, d));
        FindIgnoresNext(t2, t.nextId, t.nextId);
      }
    }
    AppendKeepsOthers(t, Row(t.nextId, d));
    forall k | k != t.nextId ensures Find(t2, k) == Find(t, k) {
      FindIgnoresNext(t2, t.nextId, k);
    }
    (t2, t.nextId)
  }

  lemma {:induction false} FindLast<D>(t: Table<D>, row: Row<D>)
    requires !Has(t, row.id)
    ensures Find(Table(t.rows + [row], t.nextId), row.id) == Some(row.data)
    decreases |t.rows|
  {
    var t2 := Table(t.rows + [row], t.nextId);
    if |t.rows| > 0 {
      assert t2.rows[1..] == t.rows[1..] + [row];
      assert !Has(Table(t.rows[1..], t.nextId), row.id);
      FindLast(Table(t.rows[1..], t.nextId), row);
    }
  }

  /** `save` of an entity with a key: its row is replaced in place, or appended when the key is gone. */
  function Save<D>(t: Table<D>, id: int, d: D): (r: Table<D>)
    ensures Valid(t) && id >= 1 ==> Valid(r)
    ensures Find(r, id) == Some(d)
    ensures forall k :: k != id ==> Find(r, k) == Find(t, k)
  {
    if Has(t, id) then Replace(t, id, d) else
      var r := Table(t.rows + [Row(id, d)], if id >= t.nextId then id + 1 else t.nextId);
      FindLast(t, Row(id, d));
      AppendKeepsOthers(t, Row(id, d));
      assert Valid(t) && id >= 1 ==> Valid(r) by {
        if Valid(t) && id >= 1 {
          AppendValid(t, Row(id, d), r.nextId);
        }
      }
      assert Find(r, id) == Find(Table(t.rows + [Row(id, d)], t.nextId), id) by { FindIgnoresNext(r, t.nextId, id); }
      forall k | k != id ensures Find(r, k) == Find(t, k) {
        FindIgnoresNext(r, t.nextId, k);
      }
      r
  }

  /** A row with a new key in range may be appended to a valid table. */
  lemma AppendValid<D>(t: Table<D>, row: Row<D>, nextId: int)
    requires Valid(t) && !Has(t, row.id) && 1 <= row.id < nextId && t.nextId <= nextId
    ensures Valid(Table(t.rows + [row], nextId))
  {
    var rows := t.rows + [row];
    assert forall i :: 0 <= i < |t.rows| ==> rows[i] == t.rows[i];
  }

  lemma {:induction false} FindIgnoresNext<D>(t: Table<D>, n: int, id: int)
    ensures Find(t, id) == Find(Table(t.rows, n), id)
    decreases |t.rows|
  {
    if |t.rows| > 0 && t.rows[0].id != id {
      FindIgnoresNext(Table(t.rows[1..], t.nextId), n, id);
    }
  }

  lemma {:induction false} AppendKeepsOthers<D>(t: Table<D>, row: Row<D>)
    ensures forall k :: k != row.id ==> Find(Table(t.rows + [row], t.nextId), k) == Find(t, k)
    decreases |t.rows|
  {
    var t2 := Table(t.rows + [row], t.nextId);
    forall k | k != row.id ensures Find(t2, k) == Find(t, k) {
      if |t.rows| == 0 {
      } else {
        assert t2.rows[1..] == t.rows[1..] + [row];
        AppendKeepsOthers(Table(t.rows[1..], t.nextId), row);
      }
    }
  }

  /** Replaces the data of every row with key `id`. */
  function Replace<D>(t: Table<D>, id: int, d: D): (r: Table<D>)
    requires Has(t, id)
    ensures r.nextId == t.nextId && |r.rows| == |t.rows|
    ensures forall i :: 0 <= i < |r.rows| ==> r.rows[i].id == t.rows[i].id
    ensures Valid(t) ==> Valid(r)
    ensures Find(r, id) == Some(d)
    ensures forall k :: k != id ==> Find(r, k) == Find(t, k)
  {
    var r := Table(seq(|t.rows|, i requires 0 <= i < |t.rows| =>
                         if t.rows[i].id == id then Row(id, d) else t.rows[i]), t.nextId);
    ReplaceFind(t, r, id, d);
    r
  }

  lemma {:induction false} ReplaceFind<D>(t: Table<D>, r: Table<D>, id: int, d: D)
    requires |r.rows| == |t.rows|
    requires forall i :: 0 <= i < |t.rows| ==> r.rows[i] == (if t.rows[i].id == id then Row(id, d) else t.rows[i])
    ensures Has(t, id) ==> Find(r, id) == Some(d)
    ensures forall k :: k != id ==> Find(r, k) == Find(t, k)
    decreases |t.rows|
  {
    if |t.rows| > 0 {
      var t1 := Table(t.rows[1..], t.nextId);
      var r1 := Table(r.rows[1..], r.nextId);
      ReplaceFind(t1, r1, id, d);
      if Has(t, id) && t.rows[0].id != id {
        var i :| 0 <= i < |t.rows| && t.rows[i].id == id;
        assert t1.rows[i - 1].id == id;
      }
      forall k | k != id ensures Find(r, k) == Find(t, k) {
        FindIgnoresNext(r1, t.nextId, k);
      }
    }
  }

  /** The rows of `t` whose key is not `id`, in scan order. */
  function DeleteRows<D>(rows: seq<Row<D>>, id: int): (r: seq<Row<D>>)
    ensures forall i :: 0 <= i < |r| ==> r[i] in rows && r[i].id != id
    ensures forall i :: 0 <= i < |rows| && rows[i].id != id ==> rows[i] in r
    decreases |rows|
  {
    if |rows| == 0 then []
    else
      var rest := DeleteRows(rows[1..], id);
      assert forall i :: 1 <= i < |rows| ==> rows[i] == rows[1..][i - 1];
      if rows[0].id == id then rest
      else
        var r := [rows[0]] + rest;
        assert r[1..] == rest;
        r
  }

  /** Deleting keeps every other key's row. */
  lemma {:induction false} DeleteRowsFind<D>(rows: seq<Row<D>>, id: int, nextId: int, k: int)
    requires k != id
    ensures Find(Table(DeleteRows(rows, id), nextId), k) == Find(Table(rows, nextId), k)
    decreases |rows|
  {
    if |rows| > 0 {
      DeleteRowsFind(rows[1..], id, nextId, k);
      if rows[0].id != id {
        assert DeleteRows(rows, id)[1..] == DeleteRows(rows[1..], id);
      }
    }
  }

  /** Deleting keeps keys in range and distinct. */
  lemma {:induction false} DeleteRowsValid<D>(rows: seq<Row<D>>, id: int, nextId: int)
    requires Valid(Table(rows, nextId))
    ensures Valid(Table(DeleteRows(rows, id), nextId))
    decreases |rows|
  {
    if |rows| > 0 {
      assert Valid(Table(rows[1..], nextId));
      DeleteRowsValid(rows[1..], id, nextId);
      if rows[0].id != id {
        var rest := DeleteRows(rows[1..], id);
        forall j | 0 <= j < |rest| ensures rest[j].id != rows[0].id {
          var k :| 0 <= k < |rows[1..]| && rows[1..][k] == rest[j];
          assert rows[k + 1] == rest[j];
        }
        ConsValid(rows[0], rest, nextId);
        assert DeleteRows(rows, id) == [rows[0]] + rest;
      }
    }
  }

  /** A row with a fresh key in range may go in front of a valid table's rows. */
  lemma ConsValid<D>(row: Row<D>, rows: seq<Row<D>>, nextId: int)
    requires Valid(Table(rows, nextId)) && 1 <= row.id < nextId
    requires forall j :: 0 <= j < |rows| ==> rows[j].id != row.id
    ensures Valid(Table([row] + rows, nextId))
  {
    var r := [row] + rows;
    assert forall j :: 1 <= j < |r| ==> r[j] == rows[j - 1];
  }

  /** `remove(entity)`: deletes the rows with key `id`. */
  function Delete<D>(t: Table<D>, id: int): (r: Table<D>)
    ensures r.nextId == t.nextId
    ensures !Has(r, id)
    ensures Valid(t) ==> Valid(r)
    ensures forall k :: k != id ==> Find(r, k) == Find(t, k)
    ensures forall i :: 0 <= i < |r.rows| ==> r.rows[i] in t.rows && r.rows[i].id != id
    ensures forall i :: 0 <= i < |t.rows| && t.rows[i].id != id ==> t.rows[i] in r.rows
  {
    var r := Table(DeleteRows(t.rows, id), t.nextId);
    assert forall k :: k != id ==> Find(r, k) == Find(t, k) by {
      forall k | k != id ensures Find(r, k) == Find(t, k) {
        DeleteRowsFind(t.rows, id, t.nextId, k);
      }
    }
    assert Valid(t) ==> Valid(r) by {
      if Valid(t) {
        DeleteRowsValid(t.rows, id, t.nextId);
      }
    }
    r
  }

  /** `findAndCount({ take, skip })`: a window of at most `take` rows from position `skip`, and the row count. */
  function Window<D>(t: Table<D>, skip: nat, take: nat): (r: seq<Row<D>>)
    ensures |r| <= take
    ensures skip <= |t.rows| ==> |r| == if skip + take <= |t.rows| then take else |t.rows| - skip
    ensures forall i :: 0 <= i < |r| ==> skip + i < |t.rows| && r[i] == t.rows[skip + i]
  {
    if skip >= |t.rows| then []
    else if skip + take <= |t.rows| then t.rows[skip..skip + take]
    else t.rows[skip..]
  }
}
