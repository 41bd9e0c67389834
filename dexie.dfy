/** An IndexedDB object store with an auto-incremented primary key
    (`++id` in a Dexie schema), as the vocabulary database uses it: rows are
    kept in primary-key order, which is the order `toArray` returns them in,
    and the key generator never hands out a key twice. */
module Dexie {
  import opened Common

  datatype Row<R> = Row(id: nat, data: R)

  /** A record given to `bulkPut`: with its own primary key, or without one
      so that the key generator assigns one. */
  datatype PutItem<R> = PutItem(id: Option<nat>, data: R)

  datatype Table<R> = Table(rows: seq<Row<R>>, nextId: nat)
  {
    /** Keys strictly increase along the rows and all lie below the key
        generator's current number. */
    ghost predicate Valid() {
      (forall i, j :: 0 <= i < j < |rows| ==> rows[i].id < rows[j].id) &&
      (forall i :: 0 <= i < |rows| ==> rows[i].id < nextId)
    }

    function Count(): nat { |rows| }

    predicate HasId(id: nat) {
      FindId(rows, id).Some?
    }

    /** `table.get(id)`. */
    function Get(id: nat): (r: Option<R>)
      ensures r.Some? <==> exists i :: 0 <= i < |rows| && rows[i].id == id
      ensures r.Some? ==> exists i :: 0 <= i < |rows| && rows[i] == Row(id, r.value)
    {
      FindId(rows, id)
    }

    /** `table.add(data)`: a new row under the next generated key, which is
        returned. */
    function Add(data: R): (res: (Table<R>, nat))
      requires Valid()
      ensures res.0.Valid()
      ensures res.1 == nextId
      ensures res.0.rows == rows + [Row(nextId, data)]
      ensures res.0.nextId == nextId + 1
    {
      (Table(rows + [Row(nextId, data)], nextId + 1), nextId)
    }

    /** `table.bulkAdd(items)`: the items, in order, under consecutive new
        keys. */
    function BulkAdd(items: seq<R>): (t: Table<R>)
      requires Valid()
      ensures t.Valid()
      ensures t.nextId == nextId + |items|
      ensures |t.rows| == |rows| + |items| && t.rows[..|rows|] == rows
      ensures forall k :: 0 <= k < |items| ==> t.rows[|rows| + k] == Row(nextId + k, items[k])
      decreases |items|
    {
      if items == [] then this
      else
        var t := Add(items[0]).0.BulkAdd(items[1..]);
        assert t.rows[..|rows|] == rows by {
          assert t.rows[..|rows| + 1][..|rows|] == t.rows[..|rows|];
        }
        t
    }

    /** `table.put(row)`: replaces the row with the same key, or inserts it
        at its place in key order; the key generator moves past the key. */
    function Put(r: Row<R>): (t: Table<R>)
      requires Valid()
      ensures t.Valid()
      ensures t.nextId == Max(nextId, r.id + 1)
      ensures t.Get(r.id) == Some(r.data)
      ensures forall id :: id != r.id ==> t.Get(id) == Get(id)
      ensures HasId(r.id) ==> t.Count() == Count()
      ensures !HasId(r.id) ==> t.Count() == Count() + 1
    {
      PutRowSpec(rows, r);
      PutRowBelow(rows, r, Max(nextId, r.id + 1));
      Table(PutRow(rows, r), Max(nextId, r.id + 1))
    }

    /** `put` of a record that may lack a key: one without goes through the
        key generator like `add`. */
    function PutItemIn(item: PutItem<R>): (t: Table<R>)
      requires Valid()
      ensures t.Valid()
    {
      match item.id
      case Some(id) => Put(Row(id, item.data))
      case None => Add(item.data).0
    }

    /** `table.bulkPut(items)`: the items put one after the other. */
    function BulkPut(items: seq<PutItem<R>>): (t: Table<R>)
      requires Valid()
      ensures t.Valid()
      decreases |items|
    {
      if items == [] then this else PutItemIn(items[0]).BulkPut(items[1..])
    }

    /** `table.update(id, changes)`: the row with that key is changed, if
        there is one; a missing key changes nothing. */
    function Update(id: nat, f: R -> R): (t: Table<R>)
      requires Valid()
      ensures t.Valid() && t.nextId == nextId && |t.rows| == |rows|
      ensures forall i :: 0 <= i < |rows| ==>
                t.rows[i] == (if rows[i].id == id then Row(id, f(rows[i].data)) else rows[i])
    {
      Table(seq(|rows|, i requires 0 <= i < |rows| =>
                  if rows[i].id == id then Row(id, f(rows[i].data)) else rows[i]), nextId)
    }

    /** `table.add(row)` for a row that brings its own key: refused when
        the key is taken. */
    function AddKeyed(r: Row<R>): (res: Option<Table<R>>)
      requires Valid()
      ensures res.None? <==> HasId(r.id)
      ensures res.Some? ==> res.value.Valid() && res.value.Get(r.id) == Some(r.data) &&
                            res.value.Count() == Count() + 1 &&
                            forall id :: id != r.id ==> res.value.Get(id) == Get(id)
    {
      if HasId(r.id) then None else Some(Put(r))
    }

    /** `table.delete(id)`. */
    function Delete(id: nat): (t: Table<R>)
      requires Valid()
      ensures t.Valid() && t.nextId == nextId
      ensures t.Get(id) == None
      ensures forall k :: k != id ==> t.Get(k) == Get(k)
    {
      forall k ensures BulkDelete({id}).Get(k) == if k in {id} then None else Get(k) {
        DeleteGet(this, {id}, k);
      }
      BulkDelete({id})
    }

    /** `table.bulkDelete(ids)`. */
    function BulkDelete(ids: set<nat>): (t: Table<R>)
      requires Valid()
      ensures t.Valid() && t.nextId == nextId
      ensures t.rows == Filter(rows, KeyNotIn(ids))
    {
      FilterKeepsOrder(rows, ids);
      var t := Table(Filter(rows, KeyNotIn(ids)), nextId);
      assert forall i :: 0 <= i < |t.rows| ==> t.rows[i].id < nextId by {
        forall i | 0 <= i < |t.rows| ensures t.rows[i].id < nextId {
          assert t.rows[i] in t.rows;
        }
      }
      Table(Filter(rows, KeyNotIn(ids)), nextId)
    }
  }

  /** `where(index).below(c).toArray()` then `bulkDelete` of their keys:
      the rows that match go, the others stay in order, and the number of
      matches is returned. */
  function DeleteWhere<R>(t: Table<R>, p: Row<R> -> bool): (res: (Table<R>, nat))
    requires t.Valid()
    ensures res.0.Valid() && res.0.nextId == t.nextId
    ensures res.0.rows == Filter(t.rows, Negate(p))
    ensures res.1 == |Filter(t.rows, p)| && res.1 + |res.0.rows| == |t.rows|
  {
    var matching := Filter(t.rows, p);
    FilterSplitCount(t.rows, p);
    if |matching| == 0 then
      forall k | 0 <= k < |t.rows| ensures Negate(p)(t.rows[k]) {
        FilterSpec(t.rows, p);
        assert t.rows[k] in t.rows;
      }
      FilterAll(t.rows, Negate(p));
      (t, 0)
    else
      var ids := set k | 0 <= k < |t.rows| && p(t.rows[k]) :: t.rows[k].id;
      KeysOfMatches(t, p);
      FilterSame(t.rows, KeyNotIn(ids), Negate(p));
      (t.BulkDelete(ids), |matching|)
  }

  /** The keys of the matching rows, which are exactly the rows that
      match since keys are unique. */
  lemma KeysOfMatches<R>(t: Table<R>, p: Row<R> -> bool)
    requires t.Valid()
    ensures var ids := set k | 0 <= k < |t.rows| && p(t.rows[k]) :: t.rows[k].id;
            forall k :: 0 <= k < |t.rows| ==> KeyNotIn(ids)(t.rows[k]) == Negate(p)(t.rows[k])
  {
    var ids := set k | 0 <= k < |t.rows| && p(t.rows[k]) :: t.rows[k].id;
    forall k | 0 <= k < |t.rows| ensures KeyNotIn(ids)(t.rows[k]) == Negate(p)(t.rows[k]) {
      if t.rows[k].id in ids {
        var j :| 0 <= j < |t.rows| && p(t.rows[j]) && t.rows[j].id == t.rows[k].id;
        assert j == k;
      }
    }
  }

  /** With ascending keys, the row at `i` is the one `FindId` finds for its
      key. */
  lemma FindIdAt<R>(rows: seq<Row<R>>, i: nat)
    requires Ascending(rows) && i < |rows|
    ensures FindId(rows, rows[i].id) == Some(rows[i].data)
  {
    var r := FindId(rows, rows[i].id);
    var j :| 0 <= j < |rows| && rows[j] == Row(rows[i].id, r.value);
    assert j == i;
  }

  /** `update` returns the changed row under its key. */
  lemma UpdateGet<R>(t: Table<R>, id: nat, f: R -> R)
    requires t.Valid()
    ensures t.Update(id, f).Get(id) == if t.Get(id).Some? then Some(f(t.Get(id).value)) else None
  {
    var u := t.Update(id, f);
    assert Ascending(u.rows);
    if t.Get(id).Some? {
      var i :| 0 <= i < |t.rows| && t.rows[i] == Row(id, t.Get(id).value);
      assert u.rows[i] == Row(id, f(t.Get(id).value));
      FindIdAt(u.rows, i);
    } else {
      assert forall i :: 0 <= i < |u.rows| ==> u.rows[i].id == t.rows[i].id;
    }
  }

  /** `update` leaves the rows under other keys alone. */
  lemma UpdateOthers<R>(t: Table<R>, id: nat, f: R -> R)
    requires t.Valid()
    ensures forall k :: k != id ==> t.Update(id, f).Get(k) == t.Get(k)
  {
    forall k | k != id ensures t.Update(id, f).Get(k) == t.Get(k) {
      UpdateOther(t, id, f, k);
    }
  }

  lemma UpdateOther<R>(t: Table<R>, id: nat, f: R -> R, k: nat)
    requires t.Valid() && k != id
    ensures t.Update(id, f).Get(k) == t.Get(k)
  {
    var u := t.Update(id, f);
    assert Ascending(u.rows) && Ascending(t.rows);
    if t.Get(k).Some? {
      var i :| 0 <= i < |t.rows| && t.rows[i] == Row(k, t.Get(k).value);
      assert u.rows[i] == t.rows[i];
      FindIdAt(u.rows, i);
    } else {
      assert forall i :: 0 <= i < |u.rows| ==> u.rows[i].id == t.rows[i].id;
    }
  }

  /** A key removed by `bulkDelete` is gone; every other key keeps its row. */
  lemma DeleteGet<R>(t: Table<R>, ids: set<nat>, id: nat)
    requires t.Valid()
    ensures t.BulkDelete(ids).Get(id) == if id in ids then None else t.Get(id)
  {
    var kept := t.BulkDelete(ids).rows;
    FilterSpec(t.rows, KeyNotIn(ids));
    if id in ids {
      assert forall i :: 0 <= i < |kept| ==> kept[i] in kept && kept[i].id != id;
    } else {
      DeleteKeeps(t, ids, id);
    }
  }

  lemma DeleteKeeps<R>(t: Table<R>, ids: set<nat>, id: nat)
    requires t.Valid() && id !in ids
    ensures t.BulkDelete(ids).Get(id) == t.Get(id)
  {
    var d := t.BulkDelete(ids);
    var kept := d.rows;
    FilterSpec(t.rows, KeyNotIn(ids));
    assert d.Valid();
    if t.Get(id).Some? {
      var i :| 0 <= i < |t.rows| && t.rows[i] == Row(id, t.Get(id).value);
      assert t.rows[i] in kept;
      var j :| 0 <= j < |kept| && kept[j] == t.rows[i];
      assert Ascending(kept);
      FindIdAt(kept, j);
    } else {
      assert forall i :: 0 <= i < |kept| ==> kept[i] in t.rows;
    }
  }

  function EmptyTable<R>(): (t: Table<R>)
    ensures t.Valid() && t.Count() == 0
  {
    Table([], 1)
  }

  function FindId<R>(rows: seq<Row<R>>, id: nat): (r: Option<R>)
    ensures r.Some? <==> exists i :: 0 <= i < |rows| && rows[i].id == id
    ensures r.Some? ==> exists i :: 0 <= i < |rows| && rows[i] == Row(id, r.value)
    decreases |rows|
  {
    if rows == [] then None
    else if rows[0].id == id then Some(rows[0].data)
    else
      var r := FindId(rows[1..], id);
      assert r.Some? ==> exists i :: 0 < i < |rows| && rows[i] == Row(id, r.value) by {
        if r.Some? {
          var i :| 0 <= i < |rows| - 1 && rows[1..][i] == Row(id, r.value);
          assert rows[i + 1] == Row(id, r.value);
        }
      }
      assert (exists i :: 0 <= i < |rows| && rows[i].id == id) ==> r.Some? by {
        if exists i :: 0 <= i < |rows| && rows[i].id == id {
          var i :| 0 <= i < |rows| && rows[i].id == id;
          assert rows[1..][i - 1].id == id;
        }
      }
      r
  }

  ghost predicate Ascending<R>(rows: seq<Row<R>>) {
    forall i, j :: 0 <= i < j < |rows| ==> rows[i].id < rows[j].id
  }

  /** Replace or insert a row, keeping keys ascending. */
  function PutRow<R>(rows: seq<Row<R>>, r: Row<R>): (res: seq<Row<R>>)
    ensures |res| == |rows| || |res| == |rows| + 1
    decreases |rows|
  {
    if rows == [] then [r]
    else if r.id < rows[0].id then [r] + rows
    else if r.id == rows[0].id then [r] + rows[1..]
    else [rows[0]] + PutRow(rows[1..], r)
  }

  ghost predicate Above<R>(rows: seq<Row<R>>, b: int) {
    forall i :: 0 <= i < |rows| ==> b < rows[i].id
  }

  lemma {:induction false} PutRowAbove<R>(rows: seq<Row<R>>, r: Row<R>, b: int)
    requires Above(rows, b) && b < r.id
    ensures Above(PutRow(rows, r), b)
    decreases |rows|
  {
    if rows != [] && r.id > rows[0].id {
      PutRowAbove(rows[1..], r, b);
    }
  }

  lemma {:induction false} PutRowAscending<R>(rows: seq<Row<R>>, r: Row<R>)
    requires Ascending(rows)
    ensures Ascending(PutRow(rows, r))
    decreases |rows|
  {
    if rows != [] {
      if r.id < rows[0].id {
        assert Above(rows, r.id);
      } else if r.id > rows[0].id {
        PutRowAscending(rows[1..], r);
        assert Above(rows[1..], rows[0].id);
        PutRowAbove(rows[1..], r, rows[0].id);
      }
    }
  }

  lemma {:induction false} PutRowFind<R>(rows: seq<Row<R>>, r: Row<R>, id: nat)
    ensures FindId(PutRow(rows, r), id) == if id == r.id then Some(r.data) else FindId(rows, id)
    decreases |rows|
  {
    if rows != [] && r.id > rows[0].id {
      PutRowFind(rows[1..], r, id);
      assert ([rows[0]] + PutRow(rows[1..], r))[1..] == PutRow(rows[1..], r);
    } else if rows != [] && r.id < rows[0].id {
      assert ([r] + rows)[1..] == rows;
    } else if rows != [] {
      assert ([r] + rows[1..])[1..] == rows[1..];
    }
  }

  lemma {:induction false} PutRowLength<R>(rows: seq<Row<R>>, r: Row<R>)
    requires Ascending(rows)
    ensures |PutRow(rows, r)| == if FindId(rows, r.id).Some? then |rows| else |rows| + 1
    decreases |rows|
  {
    if rows != [] {
      if r.id < rows[0].id {
        AboveNotFound(rows, r.id);
      } else if r.id > rows[0].id {
        PutRowLength(rows[1..], r);
      }
    }
  }

  lemma AboveNotFound<R>(rows: seq<Row<R>>, id: nat)
    requires Ascending(rows) && rows != [] && id < rows[0].id
    ensures FindId(rows, id) == None
  {
  }

  lemma PutRowSpec<R>(rows: seq<Row<R>>, r: Row<R>)
    requires Ascending(rows)
    ensures Ascending(PutRow(rows, r))
    ensures forall id :: FindId(PutRow(rows, r), id) == if id == r.id then Some(r.data) else FindId(rows, id)
    ensures |PutRow(rows, r)| == if FindId(rows, r.id).Some? then |rows| else |rows| + 1
  {
    PutRowAscending(rows, r);
    PutRowLength(rows, r);
    forall id ensures FindId(PutRow(rows, r), id) == if id == r.id then Some(r.data) else FindId(rows, id) {
      PutRowFind(rows, r, id);
    }
  }

  /** Keys below a bound stay below it when a row under such a key is put. */
  lemma PutRowBelow<R>(rows: seq<Row<R>>, r: Row<R>, b: int)
    requires Ascending(rows)
    requires (forall i :: 0 <= i < |rows| ==> rows[i].id < b) && r.id < b
    ensures forall i :: 0 <= i < |PutRow(rows, r)| ==> PutRow(rows, r)[i].id < b
  {
    var t := PutRow(rows, r);
    PutRowSpec(rows, r);
    forall i | 0 <= i < |t| ensures t[i].id < b {
      var x := t[i];
      assert FindId(t, x.id).Some?;
      if x.id != r.id {
        assert FindId(rows, x.id).Some?;
      }
    }
  }

  lemma FilterKeepsOrder<R>(rows: seq<Row<R>>, ids: set<nat>)
    requires Ascending(rows)
    ensures Ascending(Filter(rows, KeyNotIn(ids)))
    ensures forall x :: x in Filter(rows, KeyNotIn(ids)) ==> x in rows
  {
    FilterSpec(rows, KeyNotIn(ids));
    SubsequenceAscending(Filter(rows, KeyNotIn(ids)), rows);
  }

  function KeyNotIn<R>(ids: set<nat>): Row<R> -> bool {
    (r: Row<R>) => r.id !in ids
  }

  lemma {:induction false} SubsequenceAscending<R>(a: seq<Row<R>>, b: seq<Row<R>>)
    requires IsSubsequence(a, b) && Ascending(b)
    ensures Ascending(a)
    decreases |b|
  {
    if a != [] && b != [] {
      if a[0] == b[0] {
        SubsequenceAscending(a[1..], b[1..]);
        SubsequenceMembers(a[1..], b[1..]);
        forall j | 0 < j < |a| ensures a[0].id < a[j].id {
          assert a[1..][j - 1] in b[1..];
          var k :| 0 <= k < |b[1..]| && b[1..][k] == a[j];
          assert b[k + 1] == a[j];
        }
      } else {
        SubsequenceAscending(a, b[1..]);
      }
    }
  }

  lemma {:induction false} SubsequenceMembers<T>(a: seq<T>, b: seq<T>)
    requires IsSubsequence(a, b)
    ensures forall x :: x in a ==> x in b
    decreases |b|
  {
    if a != [] && b != [] {
      if a[0] == b[0] {
        SubsequenceMembers(a[1..], b[1..]);
        assert forall x :: x in a ==> x == a[0] || x in a[1..];
      } else {
        SubsequenceMembers(a, b[1..]);
      }
    }
  }

  /** Putting the same row twice is the same as putting it once. */
  lemma {:induction false} PutRowIdempotent<R>(rows: seq<Row<R>>, r: Row<R>)
    ensures PutRow(PutRow(rows, r), r) == PutRow(rows, r)
    decreases |rows|
  {
    if rows != [] && r.id > rows[0].id {
      PutRowIdempotent(rows[1..], r);
      assert ([rows[0]] + PutRow(rows[1..], r))[1..] == PutRow(rows[1..], r);
    } else if rows != [] {
      assert ([r] + rows)[1..] == rows;
      if r.id == rows[0].id {
        assert ([r] + rows[1..])[1..] == rows[1..];
      }
    }
  }

  /** Re-importing an export changes no row: putting every row of a table
      back under its own key leaves the rows as they are. */
  lemma {:induction false} PutExistingRows<R>(rows: seq<Row<R>>, k: nat)
    requires Ascending(rows) && k <= |rows|
    ensures PutAll(rows, rows[..k]) == rows
    decreases k
  {
    if k > 0 {
      PutExistingRows(rows, k - 1);
      assert rows[..k] == rows[..k - 1] + [rows[k - 1]];
      PutAllAppend(rows, rows[..k - 1], rows[k - 1]);
      PutRowPresent(rows, k - 1);
    }
  }

  function PutAll<R>(rows: seq<Row<R>>, items: seq<Row<R>>): seq<Row<R>>
    decreases |items|
  {
    if items == [] then rows else PutAll(PutRow(rows, items[0]), items[1..])
  }

  lemma {:induction false} PutAllAppend<R>(rows: seq<Row<R>>, items: seq<Row<R>>, x: Row<R>)
    ensures PutAll(rows, items + [x]) == PutRow(PutAll(rows, items), x)
    decreases |items|
  {
    if items == [] {
      assert [x][1..] == [];
    } else {
      assert (items + [x])[1..] == items[1..] + [x];
      PutAllAppend(PutRow(rows, items[0]), items[1..], x);
    }
  }

  /** Putting a row that is already stored changes nothing. */
  lemma {:induction false} PutRowPresent<R>(rows: seq<Row<R>>, k: nat)
    requires Ascending(rows) && k < |rows|
    ensures PutRow(rows, rows[k]) == rows
    decreases k
  {
    if k == 0 {
      assert [rows[0]] + rows[1..] == rows;
    } else {
      assert rows[0].id < rows[k].id;
      PutRowPresent(rows[1..], k - 1);
      assert [rows[0]] + rows[1..] == rows;
    }
  }
}
