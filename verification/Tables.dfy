/**
 Relational tables with an auto-increment id and one unique key, under the statements the plugin
 issues: insert or update on duplicate key, insert if absent, replace, and delete by key. Rows are kept
 in id order, which is what `order by id` returns; only the order of ids is meant, not their values.
 */
module Tables {
  import opened Common

  datatype Row<K, V> = Row(id: nat, key: K, value: V)

  datatype Table<K, V> = Table(rows: seq<Row<K, V>>, nextId: nat)

  function Empty<K, V>(): Table<K, V> {
    Table([], 1)
  }

  /** The unique key holds, and ids increase with the rows and stay below the next fresh one. */
  ghost predicate Valid<K, V>(t: Table<K, V>) {
    && (forall i, j :: 0 <= i < j < |t.rows| ==> t.rows[i].key != t.rows[j].key && t.rows[i].id < t.rows[j].id)
    && (forall i :: 0 <= i < |t.rows| ==> t.rows[i].id < t.nextId)
  }

  /** The position of the row with key `k`, or the number of rows. */
  function Find<K(==), V>(rows: seq<Row<K, V>>, k: K): (i: nat)
    ensures i <= |rows|
    ensures i < |rows| ==> rows[i].key == k
    ensures forall j :: 0 <= j < i ==> rows[j].key != k
  {
    if rows == [] then 0
    else if rows[0].key == k then 0
    else 1 + Find(rows[1..], k)
  }

  function Get<K(==), V>(t: Table<K, V>, k: K): Option<V> {
    var i := Find(t.rows, k);
    if i < |t.rows| then Some(t.rows[i].value) else None
  }

  /** The rows whose key is not `k`. */
  function Without<K(==), V>(rows: seq<Row<K, V>>, k: K): (r: seq<Row<K, V>>)
    ensures |r| <= |rows|
    ensures forall i :: 0 <= i < |r| ==> r[i].key != k && r[i] in rows
  {
    if rows == [] then []
    else (if rows[0].key == k then [] else [rows[0]]) + Without(rows[1..], k)
  }

  /** INSERT, where no row has the key. */
  function Insert<K, V>(t: Table<K, V>, k: K, v: V): Table<K, V> {
    Table(t.rows + [Row(t.nextId, k, v)], t.nextId + 1)
  }

  /** INSERT .. ON DUPLICATE KEY UPDATE value: the row keeps its id. */
  function Upsert<K(==), V>(t: Table<K, V>, k: K, v: V): Table<K, V> {
    var i := Find(t.rows, k);
    if i < |t.rows| then t.(rows := t.rows[i := t.rows[i].(value := v)]) else Insert(t, k, v)
  }

  /** INSERT .. ON DUPLICATE KEY UPDATE of the key by itself: only an absent row is added. */
  function InsertIfAbsent<K(==), V>(t: Table<K, V>, k: K, v: V): Table<K, V> {
    if Find(t.rows, k) < |t.rows| then t else Insert(t, k, v)
  }

  /** DELETE WHERE key. */
  function Delete<K(==), V>(t: Table<K, V>, k: K): Table<K, V> {
    t.(rows := Without(t.rows, k))
  }

  /** REPLACE: the old row goes, the new one takes a fresh id. */
  function Replace<K(==), V>(t: Table<K, V>, k: K, v: V): Table<K, V> {
    Insert(Delete(t, k), k, v)
  }

  // ---------------------------------------------------------------------------------------------
  // Validity is kept, and what each statement does to each key
  // ---------------------------------------------------------------------------------------------

  lemma FindUnique<K, V>(t: Table<K, V>, i: nat)
    requires Valid(t) && i < |t.rows|
    ensures Find(t.rows, t.rows[i].key) == i
  {
  }

  /** A key has the value of the row that holds it. */
  lemma GetMeaning<K, V>(t: Table<K, V>, k: K, v: V)
    requires Valid(t)
    ensures Get(t, k) == Some(v) <==> exists i :: 0 <= i < |t.rows| && t.rows[i].key == k && t.rows[i].value == v
  {
    if i :| 0 <= i < |t.rows| && t.rows[i].key == k && t.rows[i].value == v {
      FindUnique(t, i);
    }
  }

  lemma FindSnoc<K, V>(rows: seq<Row<K, V>>, r: Row<K, V>, q: K)
    ensures Find(rows + [r], q) ==
            if Find(rows, q) < |rows| then Find(rows, q) else if r.key == q then |rows| else |rows| + 1
  {
    var i, j := Find(rows + [r], q), Find(rows, q);
    if j < |rows| {
      assert (rows + [r])[j].key == q;
    }
    if i < |rows| {
      assert (rows + [r])[i] == rows[i];
    }
    assert (rows + [r])[|rows|] == r;
  }

  lemma InsertKept<K, V>(t: Table<K, V>, k: K, v: V)
    requires Valid(t) && Find(t.rows, k) == |t.rows|
    ensures Valid(Insert(t, k, v))
    ensures forall q :: Get(Insert(t, k, v), q) == if q == k then Some(v) else Get(t, q)
  {
    var u := Insert(t, k, v);
    forall q ensures Get(u, q) == if q == k then Some(v) else Get(t, q) {
      FindSnoc(t.rows, Row(t.nextId, k, v), q);
    }
  }

  lemma UpsertKept<K, V>(t: Table<K, V>, k: K, v: V)
    requires Valid(t)
    ensures Valid(Upsert(t, k, v))
    ensures forall q :: Get(Upsert(t, k, v), q) == if q == k then Some(v) else Get(t, q)
  {
    var i, u := Find(t.rows, k), Upsert(t, k, v);
    if i == |t.rows| {
      InsertKept(t, k, v);
    } else {
      assert forall j :: 0 <= j < |t.rows| ==> u.rows[j].key == t.rows[j].key && u.rows[j].id == t.rows[j].id;
      forall q ensures Get(u, q) == if q == k then Some(v) else Get(t, q) {
        assert Find(u.rows, q) == Find(t.rows, q) by { SameKeys(t.rows, u.rows, q); }
      }
    }
  }

  lemma {:induction false} SameKeys<K, V>(xs: seq<Row<K, V>>, ys: seq<Row<K, V>>, k: K)
    requires |xs| == |ys| && forall j :: 0 <= j < |xs| ==> xs[j].key == ys[j].key
    ensures Find(xs, k) == Find(ys, k)
  {
    if xs != [] {
      SameKeys(xs[1..], ys[1..], k);
    }
  }

  /** The row with key `k`, if there is one. */
  function At<K(==), V>(rows: seq<Row<K, V>>, k: K): Option<Row<K, V>> {
    if Find(rows, k) < |rows| then Some(rows[Find(rows, k)]) else None
  }

  lemma AtCons<K, V>(r: Row<K, V>, rows: seq<Row<K, V>>, q: K)
    ensures At([r] + rows, q) == if r.key == q then Some(r) else At(rows, q)
  {
    assert ([r] + rows)[1..] == rows;
  }

  lemma WithoutHead<K, V>(rows: seq<Row<K, V>>, k: K)
    requires rows != []
    ensures Without(rows, k) == if rows[0].key == k then Without(rows[1..], k) else [rows[0]] + Without(rows[1..], k)
  {
    assert [] + Without(rows[1..], k) == Without(rows[1..], k);
  }

  lemma AtNothing<K, V>(q: K)
    ensures At<K, V>([], q) == None
  {
  }

  lemma {:induction false} WithoutAt<K, V>(rows: seq<Row<K, V>>, k: K, q: K)
    ensures At(Without(rows, k), q) == if k == q then None else At(rows, q)
  {
    hide At, Without;
    if rows == [] {
      AtNothing<K, V>(q);
    } else {
      WithoutAt(rows[1..], k, q);
      WithoutHead(rows, k);
      assert rows == [rows[0]] + rows[1..];
      AtCons(rows[0], rows[1..], q);
      AtCons(rows[0], Without(rows[1..], k), q);
    }
  }

  /** Deleting keeps the remaining rows in order. */
  lemma {:induction false} WithoutOrdered<K, V>(rows: seq<Row<K, V>>, k: K)
    requires forall i, j :: 0 <= i < j < |rows| ==> rows[i].key != rows[j].key && rows[i].id < rows[j].id
    ensures forall i, j :: 0 <= i < j < |Without(rows, k)| ==>
              && Without(rows, k)[i].key != Without(rows, k)[j].key
              && Without(rows, k)[i].id < Without(rows, k)[j].id
  {
    if rows != [] {
      WithoutOrdered(rows[1..], k);
      var rest := Without(rows[1..], k);
      if rows[0].key != k {
        forall j | 0 <= j < |rest| ensures rows[0].key != rest[j].key && rows[0].id < rest[j].id {
          assert rest[j] in rows[1..];
        }
      }
    }
  }

  lemma DeleteKept<K, V>(t: Table<K, V>, k: K)
    requires Valid(t)
    ensures Valid(Delete(t, k))
    ensures forall q :: Get(Delete(t, k), q) == if q == k then None else Get(t, q)
  {
    WithoutOrdered(t.rows, k);
    forall q ensures Get(Delete(t, k), q) == if q == k then None else Get(t, q) {
      WithoutAt(t.rows, k, q);
    }
  }

  lemma ReplaceKept<K, V>(t: Table<K, V>, k: K, v: V)
    requires Valid(t)
    ensures Valid(Replace(t, k, v))
    ensures forall q :: Get(Replace(t, k, v), q) == if q == k then Some(v) else Get(t, q)
  {
    DeleteKept(t, k);
    WithoutAt(t.rows, k, k);
    InsertKept(Delete(t, k), k, v);
  }

  lemma InsertIfAbsentKept<K, V>(t: Table<K, V>, k: K, v: V)
    requires Valid(t)
    ensures Valid(InsertIfAbsent(t, k, v))
    ensures forall q :: Get(InsertIfAbsent(t, k, v), q) ==
                        if q == k && Get(t, k) == None then Some(v) else Get(t, q)
  {
    if Find(t.rows, k) == |t.rows| {
      InsertKept(t, k, v);
    }
  }
}
