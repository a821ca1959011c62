/** A table of the document store, and the two index reads the handlers
    use: `withIndex(eq ...).collect()` (Select) and `.first()` (First). */
module Tables {
  import opened Common

  /** One table: documents keyed by their id. */
  type Table<R> = map<Id, R>

  /** `withIndex(name, q => q.eq(...)).collect()`: every document whose
      index fields match, kept under its own id. Ordering is not modelled. */
  function Select<R>(m: Table<R>, p: R -> bool): (r: Table<R>)
    ensures forall k :: k in r <==> k in m && p(m[k])
    ensures forall k :: k in r ==> r[k] == m[k]
  {
    map k | k in m && p(m[k]) :: m[k]
  }

  /** The number of documents `collect()` returns. */
  function Count<R>(m: Table<R>, p: R -> bool): nat {
    |Select(m, p)|
  }

  /** Some document matches the index condition. */
  predicate Any<R>(m: Table<R>, p: R -> bool) {
    Select(m, p) != map[]
  }

  /** A set of ids that holds x has a least element. */
  lemma {:induction false} MinExists(s: set<Id>, x: Id)
    requires x in s
    ensures exists k :: k in s && forall j :: j in s ==> k <= j
    decreases x
  {
    if !(forall j :: j in s ==> x <= j) {
      var y :| y in s && y < x;
      MinExists(s, y);
    }
  }

  /** The smallest id of a non-empty set. */
  function MinOf(s: set<Id>): (k: Id)
    requires s != {}
    ensures k in s && forall j :: j in s ==> k <= j
  {
    assert exists k :: k in s && forall j :: j in s ==> k <= j by {
      var x :| x in s;
      MinExists(s, x);
    }
    var k :| k in s && forall j :: j in s ==> k <= j; k
  }

  /** `withIndex(...).first()`: the oldest matching document, or none. */
  function First<R>(m: Table<R>, p: R -> bool): (r: Option<Id>)
    ensures r.None? <==> !Any(m, p)
    ensures r.Some? ==> r.value in m && p(m[r.value])
    ensures r.Some? ==> forall k :: k in m && p(m[k]) ==> r.value <= k
  {
    var s := Select(m, p);
    if s == map[] then None
    else
      assert s.Keys != {} by { var k :| k in s; assert k in s.Keys; }
      Some(MinOf(s.Keys))
  }

  /** Inserting a document under a fresh id adds it to exactly the index
      reads it matches. */
  lemma SelectInsert<R>(m: Table<R>, p: R -> bool, f: Id, v: R)
    requires f !in m
    ensures Select(m[f := v], p) == if p(v) then Select(m, p)[f := v] else Select(m, p)
    ensures Count(m[f := v], p) == Count(m, p) + (if p(v) then 1 else 0)
  {
    if p(v) {
      assert Select(m[f := v], p) == Select(m, p)[f := v];
    } else {
      assert Select(m[f := v], p) == Select(m, p);
    }
  }

  /** Deleting a document removes it from exactly the index reads it
      matched. */
  lemma SelectRemove<R>(m: Table<R>, p: R -> bool, k: Id)
    requires k in m
    ensures Select(m - {k}, p) == Select(m, p) - {k}
    ensures Count(m - {k}, p) == Count(m, p) - (if p(m[k]) then 1 else 0)
  {
    var s := Select(m, p);
    assert Select(m - {k}, p) == s - {k};
    if p(m[k]) {
      assert (s - {k})[k := m[k]] == s;
    } else {
      assert s - {k} == s;
    }
  }
}
