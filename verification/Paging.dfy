/**
 The two cursor-paged listings, over a fixed list of distinct rows. Both ask for one row more
 than the page and hand its identifier out as the next cursor; the product listing then also
 skips the row the cursor names.
 */
module Paging {
  import opened Schema

  datatype Page = Page(rows: seq<nat>, next: Option<nat>)

  ghost predicate Distinct(list: seq<nat>)
  {
    forall i, j | 0 <= i < j < |list| :: list[i] != list[j]
  }

  /** Where the row with this identifier is, or the end of the list when it is not there. */
  function Position(list: seq<nat>, id: nat): (i: nat)
    ensures i <= |list|
    ensures i < |list| ==> list[i] == id
    ensures forall j | 0 <= j < i :: list[j] != id
  {
    if |list| == 0 then 0
    else
      var n := |list| - 1;
      var i := Position(list[..n], id);
      assert forall j | 0 <= j < n :: list[..n][j] == list[j];
      if i < n then i else if list[n] == id then n else n + 1
  }

  /** First row of the page: the cursor's own row, or `skip` rows after it. */
  function StartOf(list: seq<nat>, cursor: Option<nat>, skip: nat): nat
  {
    match cursor
    case None => 0
    case Some(id) => Position(list, id) + skip
  }

  function Min(a: nat, b: nat): nat
  {
    if a < b then a else b
  }

  function PageAt(list: seq<nat>, start: nat, limit: nat): Page
  {
    if start >= |list| then Page([], None)
    else Page(list[start..Min(start + limit, |list|)], if start + limit < |list| then Some(list[start + limit]) else None)
  }

  /** The first `limit` rows from position `start` on, and the row after them as the cursor if there is one. */
  ghost predicate IsPageFrom(list: seq<nat>, start: nat, limit: nat, page: Page)
  {
    && |page.rows| == (if start >= |list| then 0 else Min(limit, |list| - start))
    && (forall j | 0 <= j < |page.rows| :: start + j < |list| && page.rows[j] == list[start + j])
    && (page.next.Some? <==> start + limit < |list|)
    && (page.next.Some? ==> start + limit < |list| && page.next.value == list[start + limit])
  }

  lemma PageAtIsFrom(list: seq<nat>, start: nat, limit: nat)
    ensures IsPageFrom(list, start, limit, PageAt(list, start, limit))
  {
  }

  /** Take one row too many; if it is there, pop it and hand it out as the cursor. */
  method FindPage(list: seq<nat>, cursor: Option<nat>, limit: nat, skip: nat) returns (page: Page)
    requires limit >= 1
    ensures page == PageAt(list, StartOf(list, cursor, skip), limit)
    ensures |page.rows| <= limit
    ensures page.next.Some? ==> |page.rows| == limit
    ensures cursor == None ==> IsPageFrom(list, 0, limit, page)
    ensures Distinct(list) ==> forall i: nat | i < |list| && cursor == Some(list[i]) :: IsPageFrom(list, i + skip, limit, page)
  {
    var start := StartOf(list, cursor, skip);
    var items := if start >= |list| then [] else list[start..Min(start + limit + 1, |list|)];
    var nextCursor: Option<nat> := None;
    if |items| > limit {
      assert start + limit < |list| && Min(start + limit + 1, |list|) == start + limit + 1;
      nextCursor := Some(items[|items| - 1]);
      items := items[..|items| - 1];
      assert items == list[start..start + limit];
    }
    page := Page(items, nextCursor);
    assert page == PageAt(list, start, limit);
    PageAtIsFrom(list, start, limit);
    forall i: nat | Distinct(list) && i < |list| && cursor == Some(list[i])
      ensures start == i + skip
    {
      PositionOf(list, i);
    }
  }

  lemma PositionOf(list: seq<nat>, i: nat)
    requires Distinct(list) && i < |list|
    ensures Position(list, list[i]) == i
  {
    var p := Position(list, list[i]);
    assert p <= i;
  }

  /** What a client collects by following cursors from some page on. */
  function Traverse(list: seq<nat>, cursor: Option<nat>, limit: nat, skip: nat): seq<nat>
    requires limit >= 1 && Distinct(list)
    decreases if StartOf(list, cursor, skip) < |list| then |list| - StartOf(list, cursor, skip) else 0
  {
    var start := StartOf(list, cursor, skip);
    var page := PageAt(list, start, limit);
    if page.next.None? then page.rows
    else
      PositionOf(list, start + limit);
      page.rows + Traverse(list, page.next, limit, skip)
  }

  lemma TraverseUnfolds(list: seq<nat>, cursor: Option<nat>, limit: nat, skip: nat)
    requires limit >= 1 && Distinct(list)
    ensures
      var start := StartOf(list, cursor, skip);
      if start >= |list| then Traverse(list, cursor, limit, skip) == []
      else if start + limit >= |list| then Traverse(list, cursor, limit, skip) == list[start..]
      else
        var next := Some(list[start + limit]);
        && StartOf(list, next, skip) == start + limit + skip
        && Traverse(list, cursor, limit, skip) == list[start..start + limit] + Traverse(list, next, limit, skip)
  {
    var start := StartOf(list, cursor, skip);
    if start + limit < |list| {
      PositionOf(list, start + limit);
    }
  }

  /**
   Following the cursors of the transaction listing visits every row from the cursor on exactly
   once and in order.
   */
  lemma {:induction false} TransactionsAreComplete(list: seq<nat>, cursor: Option<nat>, limit: nat)
    requires limit >= 1 && Distinct(list)
    ensures Traverse(list, cursor, limit, 0) == list[StartOf(list, cursor, 0)..]
    decreases |list| - StartOf(list, cursor, 0)
  {
    var start := StartOf(list, cursor, 0);
    TraverseUnfolds(list, cursor, limit, 0);
    if start + limit < |list| {
      TransactionsAreComplete(list, Some(list[start + limit]), limit);
      PageJoins(list, start, start + limit);
    }
  }

  lemma PageJoins(list: seq<nat>, start: nat, end: nat)
    requires start <= end <= |list|
    ensures list[start..end] + list[end..] == list[start..]
  {
  }

  /**
   Paging through the transactions from the start yields the whole list, and from the cursor of
   any row that row and everything after it.
   */
  lemma TransactionsFromStart(list: seq<nat>, limit: nat)
    requires limit >= 1 && Distinct(list)
    ensures Traverse(list, None, limit, 0) == list
    ensures forall i: nat | i < |list| :: Traverse(list, Some(list[i]), limit, 0) == list[i..]
  {
    TransactionsAreComplete(list, None, limit);
    forall i: nat | i < |list|
      ensures Traverse(list, Some(list[i]), limit, 0) == list[i..]
    {
      TransactionsAreComplete(list, Some(list[i]), limit);
      PositionOf(list, i);
    }
  }

  /** Rows from `from` on, leaving one out after every `limit`, the next after `limit - phase` more. */
  function Skipping(list: seq<nat>, from: nat, phase: nat, limit: nat): seq<nat>
    requires from <= |list| && phase <= limit
    decreases |list| - from
  {
    if from == |list| then []
    else if phase == limit then Skipping(list, from + 1, 0, limit)
    else [list[from]] + Skipping(list, from + 1, phase + 1, limit)
  }

  /** What follows a round that ends at `end`. */
  function AfterRound(list: seq<nat>, end: nat, limit: nat): seq<nat>
  {
    if end < |list| then Skipping(list, end + 1, 0, limit) else []
  }

  /** Within one round everything before the last position is kept. */
  lemma PrependRow(list: seq<nat>, from: nat, end: nat, tail: seq<nat>)
    requires from < end <= |list|
    ensures [list[from]] + (list[from + 1..end] + tail) == list[from..end] + tail
  {
    assert [list[from]] + list[from + 1..end] == list[from..end];
  }

  lemma {:induction false} SkippingRound(list: seq<nat>, from: nat, phase: nat, limit: nat)
    requires from <= |list| && phase <= limit
    ensures
      var end := Min(from + (limit - phase), |list|);
      Skipping(list, from, phase, limit) == list[from..end] + AfterRound(list, end, limit)
    decreases limit - phase
  {
    var end := Min(from + (limit - phase), |list|);
    if from < end {
      SkippingRound(list, from + 1, phase + 1, limit);
      PrependRow(list, from, end, AfterRound(list, end, limit));
    } else {
      assert list[from..end] == [];
    }
  }

  lemma FullRound(list: seq<nat>, start: nat, limit: nat)
    requires start + limit < |list|
    ensures Skipping(list, start, 0, limit) == list[start..start + limit] + Skipping(list, start + limit + 1, 0, limit)
  {
    SkippingRound(list, start, 0, limit);
  }

  lemma LastRound(list: seq<nat>, start: nat, limit: nat)
    requires start <= |list| <= start + limit
    ensures Skipping(list, start, 0, limit) == list[start..]
  {
    SkippingRound(list, start, 0, limit);
    assert AfterRound(list, |list|, limit) == [];
    assert list[start..|list|] + [] == list[start..];
  }

  lemma {:induction false} ProductsFrom(list: seq<nat>, cursor: Option<nat>, limit: nat)
    requires limit >= 1 && Distinct(list) && StartOf(list, cursor, 1) <= |list|
    ensures Traverse(list, cursor, limit, 1) == Skipping(list, StartOf(list, cursor, 1), 0, limit)
    decreases |list| - StartOf(list, cursor, 1)
  {
    var start := StartOf(list, cursor, 1);
    TraverseUnfolds(list, cursor, limit, 1);
    if start + limit < |list| {
      ProductsFrom(list, Some(list[start + limit]), limit);
      FullRound(list, start, limit);
    } else {
      LastRound(list, start, limit);
    }
  }

  // ---- The rows left out, by position ----

  lemma MultipleIsLarge(a: int, n: nat)
    requires a >= 1
    ensures a * n >= n
  {
  }

  lemma ModIs(q: nat, n: nat, k: nat)
    requires k < n
    ensures (q * n + k) % n == k
  {
    var m := q * n + k;
    var q', r := m / n, m % n;
    assert (q - q') * n == r - k;
    if q > q' {
      MultipleIsLarge(q - q', n);
    } else if q' > q {
      MultipleIsLarge(q' - q, n);
    }
  }

  lemma ModNext(i: nat, n: nat)
    requires n >= 1
    ensures (i + 1) % n == if i % n == n - 1 then 0 else i % n + 1
  {
    var q, k := i / n, i % n;
    if k == n - 1 {
      ModIs(q + 1, n, 0);
      assert i + 1 == (q + 1) * n;
    } else {
      ModIs(q, n, k + 1);
      assert i + 1 == q * n + (k + 1);
    }
  }

  /** Whether the product listing leaves the row at this zero-based position out. */
  predicate LeftOut(i: nat, limit: nat)
  {
    i % (limit + 1) == limit
  }

  /** The rows of `list` from `from` on whose positions are not left out. */
  function Kept(list: seq<nat>, from: nat, limit: nat): seq<nat>
    requires from <= |list|
    decreases |list| - from
  {
    if from == |list| then []
    else (if LeftOut(from, limit) then [] else [list[from]]) + Kept(list, from + 1, limit)
  }

  lemma {:induction false} SkippingIsKept(list: seq<nat>, from: nat, limit: nat)
    requires from <= |list|
    ensures Skipping(list, from, from % (limit + 1), limit) == Kept(list, from, limit)
    decreases |list| - from
  {
    if from < |list| {
      ModNext(from, limit + 1);
      SkippingIsKept(list, from + 1, limit);
    }
  }

  /**
   Following the cursors of the product listing drops exactly the rows at zero-based positions
   congruent to `limit` modulo `limit + 1`.
   */
  lemma ProductsDropRows(list: seq<nat>, limit: nat)
    requires limit >= 1 && Distinct(list)
    ensures Traverse(list, None, limit, 1) == Kept(list, 0, limit)
  {
    ProductsFrom(list, None, limit);
    SkippingIsKept(list, 0, limit);
  }

  lemma {:induction false} KeptMembers(list: seq<nat>, from: nat, limit: nat, i: nat)
    requires Distinct(list) && from <= i < |list|
    ensures list[i] in Kept(list, from, limit) <==> !LeftOut(i, limit)
    decreases i - from
  {
    if from < i {
      KeptMembers(list, from + 1, limit, i);
    } else {
      KeptLater(list, from + 1, limit, i);
    }
  }

  lemma {:induction false} KeptLater(list: seq<nat>, from: nat, limit: nat, i: nat)
    requires Distinct(list) && i < from <= |list|
    ensures list[i] !in Kept(list, from, limit)
    decreases |list| - from
  {
    if from < |list| {
      KeptLater(list, from + 1, limit, i);
    }
  }

  /** So the product listing reaches a row exactly when its position is not one of those. */
  lemma ProductIsListedIff(list: seq<nat>, limit: nat, i: nat)
    requires limit >= 1 && Distinct(list) && i < |list|
    ensures list[i] in Traverse(list, None, limit, 1) <==> i % (limit + 1) != limit
  {
    ProductsDropRows(list, limit);
    KeptMembers(list, 0, limit, i);
  }
}
