/** Counters kept in a dictionary, and the upsert that adds one batch of rows to a table. */
module Tally {
  import opened Options

  function Get<K>(m: map<K, int>, k: K): int {
    if k in m then m[k] else 0
  }

  function Bump<K>(m: map<K, int>, k: K, n: int): map<K, int> {
    m[k := Get(m, k) + n]
  }

  /** One more for every listed key, repeats included. */
  function BumpAll<K>(m: map<K, int>, keys: seq<K>): map<K, int> {
    if keys == [] then m else Bump(BumpAll(m, keys[..|keys| - 1]), keys[|keys| - 1], 1)
  }

  /** The plain histogram: how often k is listed. */
  function Count<K(==)>(keys: seq<K>, k: K): nat {
    if keys == [] then 0
    else Count(keys[..|keys| - 1], k) + if keys[|keys| - 1] == k then 1 else 0
  }

  /** Sum of the amounts listed under k. */
  function Sum<K(==)>(rows: seq<(K, int)>, k: K): int {
    if rows == [] then 0
    else Sum(rows[..|rows| - 1], k) + if rows[|rows| - 1].0 == k then rows[|rows| - 1].1 else 0
  }

  /** Row-wise sum of two tables. */
  function Merge<K(!new)>(a: map<K, int>, b: map<K, int>): (m: map<K, int>)
    ensures forall k :: Get(m, k) == Get(a, k) + Get(b, k)
    ensures m.Keys == a.Keys + b.Keys
  {
    map k | k in a.Keys + b.Keys :: Get(a, k) + Get(b, k)
  }

  lemma {:induction false} BumpAllCounts<K>(m: map<K, int>, keys: seq<K>, k: K)
    ensures Get(BumpAll(m, keys), k) == Get(m, k) + Count(keys, k)
    ensures BumpAll(m, keys).Keys == m.Keys + set x | x in keys
  {
    if keys != [] {
      var front := keys[..|keys| - 1];
      BumpAllCounts(m, front, k);
      assert keys == front + [keys[|keys| - 1]];
    }
  }

  lemma {:induction false} CountConcat<K>(a: seq<K>, b: seq<K>, k: K)
    ensures Count(a + b, k) == Count(a, k) + Count(b, k)
  {
    if b == [] {
      assert a + b == a;
    } else {
      var front := b[..|b| - 1];
      CountConcat(a, front, k);
      assert (a + b)[..|a + b| - 1] == a + front;
    }
  }

  /** At most one event. */
  function Maybe<K>(o: Option<K>): seq<K> {
    if o.Some? then [o.value] else []
  }

  lemma CountSnoc<K>(front: seq<K>, o: Option<K>, k: K)
    ensures Count(front + Maybe(o), k) == Count(front, k) + if o == Some(k) then 1 else 0
  {
    var all := front + Maybe(o);
    if o.Some? {
      assert all[..|all| - 1] == front;
    } else {
      assert all == front;
    }
  }

  lemma {:induction false} SumConcat<K>(a: seq<(K, int)>, b: seq<(K, int)>, k: K)
    ensures Sum(a + b, k) == Sum(a, k) + Sum(b, k)
  {
    if b == [] {
      assert a + b == a;
    } else {
      var front := b[..|b| - 1];
      SumConcat(a, front, k);
      assert (a + b)[..|a + b| - 1] == a + front;
    }
  }

  // ---- the upsert ---------------------------------------------------------------------------

  /** What Postgres demands of one statement: no two rows with the same conflict key. */
  ghost predicate Distinct<K(!new)>(rows: seq<(K, int)>) {
    forall i, j :: 0 <= i < j < |rows| ==> rows[i].0 != rows[j].0
  }

  /** The rows list exactly the entries of m. */
  ghost predicate Lists<K(!new)>(rows: seq<(K, int)>, m: map<K, int>) {
    && Distinct(rows)
    && (forall i :: 0 <= i < |rows| ==> rows[i].0 in m && m[rows[i].0] == rows[i].1)
    && (forall k :: k in m ==> exists i :: 0 <= i < |rows| && rows[i].0 == k)
  }

  /** INSERT .. ON CONFLICT DO UPDATE SET n = n + excluded.n, row by row. */
  method UpsertAdd<K(==, !new)>(table: map<K, int>, rows: seq<(K, int)>, ghost m: map<K, int>)
    returns (after: map<K, int>)
    requires Lists(rows, m)
    ensures after == Merge(table, m)
  {
    after := table;
    ghost var done: set<K> := {};
    for i := 0 to |rows|
      invariant done <= m.Keys
      invariant after.Keys == table.Keys + done
      invariant forall k :: k in after ==> after[k] == Get(table, k) + if k in done then m[k] else 0
      invariant forall j :: 0 <= j < i ==> rows[j].0 in done
      invariant forall j :: i <= j < |rows| ==> rows[j].0 !in done
    {
      after := after[rows[i].0 := Get(after, rows[i].0) + rows[i].1];
      done := done + {rows[i].0};
    }
    assert forall k :: k in m ==> k in done;
  }

  /** Reading a dictionary out as a list of its items, in whatever order it yields them. */
  method Items<K(==, !new)>(m: map<K, int>) returns (rows: seq<(K, int)>)
    ensures Lists(rows, m)
  {
    rows := [];
    var left := m.Keys;
    while left != {}
      invariant left <= m.Keys
      invariant Distinct(rows)
      invariant forall i :: 0 <= i < |rows| ==> rows[i].0 in m && rows[i].0 !in left && m[rows[i].0] == rows[i].1
      invariant forall k :: k in m && k !in left ==> exists i :: 0 <= i < |rows| && rows[i].0 == k
      decreases left
    {
      var k :| k in left;
      ghost var was := rows;
      rows := rows + [(k, m[k])];
      left := left - {k};
      forall q | q in m && q !in left
        ensures exists i :: 0 <= i < |rows| && rows[i].0 == q
      {
        if q == k {
          assert rows[|was|].0 == q;
        } else {
          var i :| 0 <= i < |was| && was[i].0 == q;
          assert rows[i].0 == q;
        }
      }
    }
  }
}
