/**
  What one bounded DELETE does to a table (adapters/postgres/sql.go:93-102), and why a sequence of
  them removes what a single larger one would.
  */
module BatchedDelete {
  import opened Sql
  import opened Holds

  /** The locations whose row satisfies a test. */
  function Matching(t: Table, test: Row -> bool): (ids: set<nat>)
    ensures ids <= t.Keys
  {
    set id | id in t && test(t[id])
  }

  /** Deleting rows changes nothing about the others. */
  lemma MatchingShrinks(t: Table, test: Row -> bool, gone: set<nat>)
    ensures Matching(t - gone, test) == Matching(t, test) - gone
  {
  }

  /** The database's ordering is a total preorder. */
  ghost predicate TotalPreorder(ord: Ordering) {
    && (forall a, b :: ord(a, b) <= 0 || ord(b, a) <= 0)
    && (forall a, b, c :: ord(a, b) <= 0 && ord(b, c) <= 0 ==> ord(a, c) <= 0)
  }

  predicate NotAfter(t: Table, column: string, ord: Ordering, d: nat, e: nat)
    requires d in t && e in t
  {
    ord(Cell(t[d], column), Cell(t[e], column)) <= 0
  }

  /** No row of the rest is older than a row of the chosen ones. */
  predicate OldestFirst(t: Table, candidates: set<nat>, column: string, ord: Ordering, chosen: set<nat>)
    requires candidates <= t.Keys
  {
    && chosen <= candidates
    && forall d, e :: d in chosen && e in candidates && e !in chosen ==> NotAfter(t, column, ord, d, e)
  }

  function Min(a: nat, b: nat): nat {
    if a < b then a else b
  }

  /** A legitimate result of SELECT ctid ... ORDER BY column LIMIT limit. */
  predicate IsOldestBatch(t: Table, candidates: set<nat>, column: string, ord: Ordering, limit: nat, chosen: set<nat>)
    requires candidates <= t.Keys
  {
    OldestFirst(t, candidates, column, ord, chosen) && |chosen| == Min(limit, |candidates|)
  }

  lemma {:induction false} OldestExists(t: Table, candidates: set<nat>, column: string, ord: Ordering) returns (id: nat)
    requires candidates <= t.Keys && candidates != {} && TotalPreorder(ord)
    ensures id in candidates && forall e :: e in candidates ==> NotAfter(t, column, ord, id, e)
    decreases |candidates|
  {
    id :| id in candidates;
    var rest := candidates - {id};
    assert NotAfter(t, column, ord, id, id);
    assert forall e :: e in candidates ==> e == id || e in rest;
    if rest != {} {
      var other := OldestExists(t, rest, column, ord);
      var winner := if NotAfter(t, column, ord, id, other) then id else other;
      forall e | e in candidates ensures NotAfter(t, column, ord, winner, e) {
        assert e == id || NotAfter(t, column, ord, other, e);
      }
      id := winner;
    }
  }

  /** Some batch of any size exists, so the statement always has an answer. */
  lemma {:induction false} OldestBatchExists(t: Table, candidates: set<nat>, column: string, ord: Ordering, limit: nat)
    returns (chosen: set<nat>)
    requires candidates <= t.Keys && TotalPreorder(ord)
    ensures IsOldestBatch(t, candidates, column, ord, limit, chosen)
    decreases limit
  {
    if limit == 0 || candidates == {} {
      chosen := {};
    } else {
      var id := OldestExists(t, candidates, column, ord);
      var rest := OldestBatchExists(t, candidates - {id}, column, ord, limit - 1);
      chosen := rest + {id};
    }
  }

  /** Removing the oldest rows, and then the oldest of what is left, removes the oldest rows. */
  lemma BatchesCompose(t: Table, candidates: set<nat>, column: string, ord: Ordering, first: set<nat>, second: set<nat>)
    requires candidates <= t.Keys
    requires OldestFirst(t, candidates, column, ord, first)
    requires OldestFirst(t - first, candidates - first, column, ord, second)
    ensures OldestFirst(t, candidates, column, ord, first + second)
    ensures |first + second| == |first| + |second|
  {
    assert first !! second;
    forall d, e | d in first + second && e in candidates && e !in first + second
      ensures NotAfter(t, column, ord, d, e)
    {
      if d in second {
        assert NotAfter(t - first, column, ord, d, e);
      }
    }
  }

  lemma SubsetSize(a: set<nat>, b: set<nat>)
    requires a <= b
    ensures |a| <= |b|
  {
    assert b == a + (b - a);
  }

  lemma BatchExtends(t: Table, candidates: set<nat>, column: string, ord: Ordering, gone: set<nat>, removed: set<nat>)
    requires candidates <= t.Keys && OldestFirst(t, candidates, column, ord, gone)
    requires removed == {} || OldestFirst(t - gone, candidates - gone, column, ord, removed)
    ensures OldestFirst(t, candidates, column, ord, gone + removed)
    ensures |gone + removed| == |gone| + |removed|
    ensures t - gone - removed == t - (gone + removed)
  {
    if removed == {} {
      assert gone + removed == gone;
    } else {
      BatchesCompose(t, candidates, column, ord, gone, removed);
    }
  }
}
