/**
 * The grouping buckets of `_where` and `_qill`: ordered arrays from a
 * grouping number to the list of entries added under it, and the
 * WHERE fragment `query()` builds from them (conditions of a bucket joined
 * by AND, buckets joined by OR, empty buckets left out).
 */
module WhereBuckets {
  import opened Wrappers
  import opened PhpArray
  import opened PhpString

  /**
   * `$m[$g][] = $e` for each entry in turn: the bucket is created, at the
   * end of the order, only when something is added to it.
   */
  function AppendAll(m: OMap<int, seq<string>>, g: int, entries: seq<string>): (r: OMap<int, seq<string>>)
    requires Valid(m)
    ensures Valid(r)
    ensures entries == [] ==> r == m
    ensures entries != [] ==> r.vals == m.vals[g := Get(m, g, []) + entries]
    ensures entries != [] && g in m.vals ==> r.keys == m.keys
    ensures entries != [] && g !in m.vals ==> r.keys == m.keys + [g]
  {
    if entries == [] then m else Put(m, g, Get(m, g, []) + entries)
  }

  /** Appending twice to the same bucket is appending both lists at once. */
  lemma AppendAllTwice(m: OMap<int, seq<string>>, g: int, a: seq<string>, b: seq<string>)
    requires Valid(m)
    ensures AppendAll(AppendAll(m, g, a), g, b) == AppendAll(m, g, a + b)
  {
    if a == [] {
      assert a + b == b;
    } else if b != [] {
      var once := AppendAll(m, g, a);
      assert Get(once, g, []) + b == Get(m, g, []) + (a + b);
    } else {
      assert a + b == a;
    }
  }

  /**
   * `_where` and `_qill` have the same buckets, in the same order, and no
   * bucket of either is empty.
   */
  ghost predicate Aligned(w: OMap<int, seq<string>>, q: OMap<int, seq<string>>) {
    Valid(w) && Valid(q) && w.keys == q.keys
    && (forall g :: g in w.vals ==> w.vals[g] != [])
    && (forall g :: g in q.vals ==> q.vals[g] != [])
  }

  lemma EmptyAligned()
    ensures Aligned(Empty(), Empty())
  {
  }

  /** Adding conditions and descriptions together, never one without the other, keeps the buckets aligned. */
  lemma AppendKeepsAligned(w: OMap<int, seq<string>>, q: OMap<int, seq<string>>, g: int, ws: seq<string>, qs: seq<string>)
    requires Aligned(w, q) && (ws != [] <==> qs != [])
    ensures Aligned(AppendAll(w, g, ws), AppendAll(q, g, qs))
  {
    if ws != [] {
      assert g in w.vals <==> g in q.vals;
    }
  }

  /** `' ( ' . implode(' AND ', $values) . ' ) '` */
  function Clause(bucket: seq<string>): string {
    " ( " + Join(" AND ", bucket) + " ) "
  }

  /** The clauses of the non-empty buckets, in bucket order. */
  function Clauses(buckets: seq<seq<string>>): (r: seq<string>)
    ensures |r| <= |buckets|
  {
    if |buckets| == 0 then []
    else Clauses(buckets[..|buckets| - 1]) + (if buckets[|buckets| - 1] != [] then [Clause(buckets[|buckets| - 1])] else [])
  }

  /** Lines 563-575: the WHERE fragment, NULL (None) exactly when every bucket is empty. */
  function WhereString(buckets: seq<seq<string>>): (r: Option<string>)
    ensures r.None? <==> forall i :: 0 <= i < |buckets| ==> buckets[i] == []
  {
    ClausesEmpty(buckets);
    var clauses := Clauses(buckets);
    if clauses == [] then None else Some(" ( " + Join(" OR ", clauses) + " ) ")
  }

  /** There is no clause exactly when every bucket is empty. */
  lemma {:induction false} ClausesEmpty(buckets: seq<seq<string>>)
    ensures Clauses(buckets) == [] <==> forall i :: 0 <= i < |buckets| ==> buckets[i] == []
  {
    if |buckets| > 0 {
      var init := buckets[..|buckets| - 1];
      ClausesEmpty(init);
      assert forall i :: 0 <= i < |init| ==> init[i] == buckets[i];
    }
  }

  /** With no empty bucket there is one clause per bucket, in order. */
  lemma {:induction false} ClausesOfFullBuckets(buckets: seq<seq<string>>)
    requires forall i :: 0 <= i < |buckets| ==> buckets[i] != []
    ensures |Clauses(buckets)| == |buckets|
    ensures forall i :: 0 <= i < |buckets| ==> Clauses(buckets)[i] == Clause(buckets[i])
  {
    if |buckets| > 0 {
      var init := buckets[..|buckets| - 1];
      assert forall i :: 0 <= i < |init| ==> init[i] == buckets[i];
      ClausesOfFullBuckets(init);
    }
  }

  /**
   * For aligned buckets the fragment is NULL exactly when there is no
   * bucket, and otherwise it ORs one AND-clause per bucket.
   */
  lemma AlignedWhereString(w: OMap<int, seq<string>>, q: OMap<int, seq<string>>)
    requires Aligned(w, q)
    ensures WhereString(Values(w)).None? <==> w.keys == []
    ensures |Clauses(Values(w))| == |w.keys|
  {
    var buckets := Values(w);
    forall i | 0 <= i < |buckets|
      ensures buckets[i] != []
    {
      var g := w.keys[i];
      assert g in w.keys;
      assert g in w.vals;
      assert buckets[i] == w.vals[g];
    }
    ClausesOfFullBuckets(buckets);
  }

  /** `query()`'s loop over the buckets of `_where`, lines 563-575. */
  method ComposeWhere(where: OMap<int, seq<string>>) returns (whereStr: Option<string>)
    requires Valid(where)
    ensures whereStr == WhereString(Values(where))
  {
    whereStr := None;
    if |where.keys| == 0 {
      return;
    }
    ghost var buckets := Values(where);
    var clauses: seq<string> := [];
    var i := 0;
    while i < |where.keys|
      invariant 0 <= i <= |where.keys|
      invariant clauses == Clauses(buckets[..i])
    {
      var values := where.vals[where.keys[i]];
      assert buckets[..i + 1][..i] == buckets[..i];
      if values != [] {
        clauses := clauses + [Clause(values)];
      }
      i := i + 1;
    }
    assert buckets[..i] == buckets;
    if clauses != [] {
      whereStr := Some(" ( " + Join(" OR ", clauses) + " ) ");
    }
  }
}
