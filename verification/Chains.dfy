/**
 Correction chains. The edges of a reachable state form disjoint simple paths from older to
 newer rows, so both walks of the history endpoint end and every member of a chain leads to
 the same list.
 */
module Chains {
  import opened Schema
  import opened Ledger
  import opened Operations
  import opened Evolution
  import opened Invariants
  import opened Conservation
  import opened Tables

  ghost predicate Linked(corrections: seq<Correction>, path: seq<TxId>)
  {
    forall i | 0 <= i < |path| - 1 :: Correction(path[i], path[i + 1]) in corrections
  }

  ghost predicate HasPrevious(corrections: seq<Correction>, t: TxId)
  {
    exists i | 0 <= i < |corrections| :: corrections[i].newId == t
  }

  ghost predicate HasNext(corrections: seq<Correction>, t: TxId)
  {
    exists i | 0 <= i < |corrections| :: corrections[i].oldId == t
  }

  /** A complete chain: it starts at a row that corrects nothing and ends at one not corrected. */
  ghost predicate IsChain(txs: seq<Transaction>, corrections: seq<Correction>, path: seq<TxId>)
  {
    && path != []
    && (forall i | 0 <= i < |path| :: path[i] < |txs|)
    && Linked(corrections, path)
    && !HasPrevious(corrections, path[0])
    && !HasNext(corrections, path[|path| - 1])
  }

  ghost predicate Ascending(corrections: seq<Correction>)
  {
    forall i | 0 <= i < |corrections| :: corrections[i].oldId < corrections[i].newId
  }

  ghost predicate OneIn(corrections: seq<Correction>)
  {
    forall i, j | 0 <= i < j < |corrections| :: corrections[i].newId != corrections[j].newId
  }

  ghost predicate OneOut(corrections: seq<Correction>)
  {
    forall i, j | 0 <= i < j < |corrections| :: corrections[i].oldId != corrections[j].oldId
  }

  ghost predicate OneInOneOut(corrections: seq<Correction>)
  {
    Ascending(corrections) && OneIn(corrections) && OneOut(corrections)
  }

  /** Each row has at most one edge in and at most one edge out, and edges lead to newer rows. */
  lemma EdgesAreUnique(txs: seq<Transaction>, corrections: seq<Correction>)
    requires ChainInv(txs, corrections)
    ensures OneInOneOut(corrections)
  {
    forall i, j | 0 <= i < j < |corrections|
      ensures corrections[i].oldId != corrections[j].oldId
    {
      assert EdgeOk(txs, corrections[i]) && EdgeOk(txs, corrections[j]);
      assert corrections[i].newId < corrections[j].newId;
    }
  }

  lemma SameEdge(corrections: seq<Correction>, a: Correction, b: Correction)
    requires OneInOneOut(corrections) && a in corrections && b in corrections
    ensures a.newId == b.newId || a.oldId == b.oldId ==> a == b
  {
    var i :| 0 <= i < |corrections| && corrections[i] == a;
    var j :| 0 <= j < |corrections| && corrections[j] == b;
  }

  /** Chains run strictly from older to newer rows; in particular no row repeats. */
  lemma {:induction false} ChainIncreases(corrections: seq<Correction>, path: seq<TxId>, i: nat, j: nat)
    requires Ascending(corrections) && Linked(corrections, path) && i < j < |path|
    ensures path[i] < path[j]
  {
    assert Correction(path[j - 1], path[j - 1 + 1]) in corrections;
    if i < j - 1 {
      ChainIncreases(corrections, path, i, j - 1);
    }
  }

  lemma PredecessorIsPrevious(corrections: seq<Correction>, path: seq<TxId>, i: nat)
    requires Linked(corrections, path) && 0 < i < |path|
    ensures Correction(path[i - 1], path[i]) in corrections
    ensures HasPrevious(corrections, path[i])
  {
    assert Correction(path[i - 1], path[i - 1 + 1]) in corrections;
  }

  /** Two linked paths that meet agree on everything before, provided both start at a root. */
  lemma {:induction false} AgreeBackwards(corrections: seq<Correction>, a: seq<TxId>, i: nat, b: seq<TxId>, j: nat)
    requires OneInOneOut(corrections) && Linked(corrections, a) && Linked(corrections, b)
    requires i < |a| && j < |b| && a[i] == b[j]
    requires !HasPrevious(corrections, a[0]) && !HasPrevious(corrections, b[0])
    ensures i == j && a[..i + 1] == b[..j + 1]
  {
    if i > 0 {
      PredecessorIsPrevious(corrections, a, i);
    }
    if j > 0 {
      PredecessorIsPrevious(corrections, b, j);
    }
    if i > 0 && j > 0 {
      SameEdge(corrections, Correction(a[i - 1], a[i]), Correction(b[j - 1], b[j]));
      AgreeBackwards(corrections, a, i - 1, b, j - 1);
      assert a[..i + 1] == a[..i] + [a[i]];
      assert b[..j + 1] == b[..j] + [b[j]];
    }
  }

  /** A rooted path is a prefix of any complete chain it meets. */
  lemma {:induction false} RootedIsPrefix(txs: seq<Transaction>, corrections: seq<Correction>, a: seq<TxId>, b: seq<TxId>, k: nat)
    requires OneInOneOut(corrections) && IsChain(txs, corrections, b)
    requires Linked(corrections, a) && a != [] && a[0] == b[0]
    requires k < |a|
    ensures k < |b| && a[k] == b[k]
  {
    if k > 0 {
      RootedIsPrefix(txs, corrections, a, b, k - 1);
      var c := Correction(a[k - 1], a[k - 1 + 1]);
      assert c in corrections;
      var m :| 0 <= m < |corrections| && corrections[m] == c;
      assert corrections[m].oldId == b[k - 1];
      assert k < |b|;
      assert Correction(b[k - 1], b[k - 1 + 1]) in corrections;
      SameEdge(corrections, c, Correction(b[k - 1], b[k]));
    }
  }

  /** A chain that shares a row with a complete one starts where it starts and is a prefix of it. */
  lemma SharedRowMakesPrefix(txs: seq<Transaction>, corrections: seq<Correction>, a: seq<TxId>, b: seq<TxId>, t: TxId)
    requires OneInOneOut(corrections) && IsChain(txs, corrections, b) && t in a && t in b
    requires Linked(corrections, a) && !HasPrevious(corrections, a[0])
    ensures a <= b
  {
    var i :| 0 <= i < |a| && a[i] == t;
    var j :| 0 <= j < |b| && b[j] == t;
    AgreeBackwards(corrections, a, i, b, j);
    assert a[0] == a[..i + 1][0] == b[..j + 1][0] == b[0];
    forall k | 0 <= k < |a|
      ensures k < |b| && a[k] == b[k]
    {
      RootedIsPrefix(txs, corrections, a, b, k);
    }
    assert |a| <= |b| by { RootedIsPrefix(txs, corrections, a, b, |a| - 1); }
  }

  /** Complete chains are disjoint or equal: every member belongs to exactly one. */
  lemma ChainsAreDisjoint(txs: seq<Transaction>, corrections: seq<Correction>, a: seq<TxId>, b: seq<TxId>, t: TxId)
    requires OneInOneOut(corrections)
    requires IsChain(txs, corrections, a) && IsChain(txs, corrections, b) && t in a && t in b
    ensures a == b
  {
    SharedRowMakesPrefix(txs, corrections, a, b, t);
    SharedRowMakesPrefix(txs, corrections, b, a, t);
  }

  // ---- getTransactionHistory ----

  datatype HistoryEntry = HistoryEntry(id: TxId, tx: Transaction, correction: Option<Correction>)

  function Ids(history: seq<HistoryEntry>): (ids: seq<TxId>)
    ensures |ids| == |history|
  {
    seq(|history|, i requires 0 <= i < |history| => history[i].id)
  }

  function FindByNew(corrections: seq<Correction>, t: TxId): (r: Option<Correction>)
    ensures r.Some? ==> r.value in corrections && r.value.newId == t
    ensures r.None? ==> forall i | 0 <= i < |corrections| :: corrections[i].newId != t
  {
    if |corrections| == 0 then None
    else if corrections[0].newId == t then Some(corrections[0])
    else
      assert forall i | 1 <= i < |corrections| :: corrections[i] == corrections[1..][i - 1];
      FindByNew(corrections[1..], t)
  }

  function FindByOld(corrections: seq<Correction>, t: TxId): (r: Option<Correction>)
    ensures r.Some? ==> r.value in corrections && r.value.oldId == t
    ensures r.None? ==> forall i | 0 <= i < |corrections| :: corrections[i].oldId != t
  {
    if |corrections| == 0 then None
    else if corrections[0].oldId == t then Some(corrections[0])
    else
      assert forall i | 1 <= i < |corrections| :: corrections[i] == corrections[1..][i - 1];
      FindByOld(corrections[1..], t)
  }

  lemma EdgeIsOk(txs: seq<Transaction>, corrections: seq<Correction>, c: Correction)
    requires ChainInv(txs, corrections) && c in corrections
    ensures EdgeOk(txs, c)
  {
  }

  /** The first walk: follow the edges backwards until a row that corrects nothing. */
  method FindRoot(db: Database, start: TxId) returns (rootId: TxId, ghost back: seq<TxId>)
    requires ChainInv(db.txs, db.corrections) && start < |db.txs|
    ensures rootId < |db.txs| && !HasPrevious(db.corrections, rootId)
    ensures back != [] && back[0] == rootId && back[|back| - 1] == start && Linked(db.corrections, back)
  {
    rootId := start;
    back := [rootId];
    while true
      invariant rootId < |db.txs|
      invariant back != [] && back[0] == rootId && back[|back| - 1] == start
      invariant Linked(db.corrections, back)
      decreases rootId
    {
      var prev := FindByNew(db.corrections, rootId);
      if prev == None {
        break;
      }
      EdgeIsOk(db.txs, db.corrections, prev.value);
      ghost var back' := [prev.value.oldId] + back;
      forall i | 0 <= i < |back'| - 1
        ensures Correction(back'[i], back'[i + 1]) in db.corrections
      {
        if i > 0 {
          assert Correction(back[i - 1], back[i - 1 + 1]) in db.corrections;
        }
      }
      back := back';
      rootId := prev.value.oldId;
    }
  }

  /** Every entry but the last carries the edge to the next one. */
  ghost predicate Annotated(txs: seq<Transaction>, history: seq<HistoryEntry>, next: Option<TxId>)
  {
    forall i | 0 <= i < |history| ::
      && history[i].id < |txs| && history[i].tx == txs[history[i].id]
      && history[i].correction ==
           if i < |history| - 1 then Some(Correction(history[i].id, history[i + 1].id))
           else if next.Some? then Some(Correction(history[i].id, next.value))
           else None
  }

  lemma AnnotatedExtend(txs: seq<Transaction>, history: seq<HistoryEntry>, id: TxId, next: Option<Correction>)
    requires Annotated(txs, history, Some(id)) && id < |txs|
    requires next.Some? ==> next.value.oldId == id
    ensures Annotated(txs, history + [HistoryEntry(id, txs[id], next)], if next.Some? then Some(next.value.newId) else None)
    ensures Ids(history + [HistoryEntry(id, txs[id], next)]) == Ids(history) + [id]
  {
    var history' := history + [HistoryEntry(id, txs[id], next)];
    assert forall i | 0 <= i < |history| :: history'[i] == history[i];
  }

  /** The second walk: from the root forwards, collecting rows and the edges between them. */
  method WalkForward(db: Database, rootId: TxId) returns (history: seq<HistoryEntry>)
    requires ChainInv(db.txs, db.corrections) && rootId < |db.txs|
    ensures history != [] && history[0].id == rootId
    ensures Annotated(db.txs, history, None)
    ensures Linked(db.corrections, Ids(history)) && !HasNext(db.corrections, history[|history| - 1].id)
  {
    history := [];
    var currentId := Some(rootId);
    while currentId.Some?
      invariant currentId.Some? ==> currentId.value < |db.txs|
      invariant Annotated(db.txs, history, currentId)
      invariant if history == [] then currentId == Some(rootId) else history[0].id == rootId
      invariant Linked(db.corrections, Ids(history))
      invariant history != [] && currentId.Some? ==> Correction(history[|history| - 1].id, currentId.value) in db.corrections
      invariant history != [] && currentId.None? ==> !HasNext(db.corrections, history[|history| - 1].id)
      decreases if currentId.Some? then |db.txs| - currentId.value else -1
    {
      var id := currentId.value;
      var nextCorrection := FindByOld(db.corrections, id);
      LinkedExtend(db.corrections, Ids(history), id);
      AnnotatedExtend(db.txs, history, id, nextCorrection);
      history := history + [HistoryEntry(id, db.txs[id], nextCorrection)];
      if nextCorrection.Some? {
        EdgeIsOk(db.txs, db.corrections, nextCorrection.value);
        currentId := Some(nextCorrection.value.newId);
      } else {
        currentId := None;
      }
    }
  }

  lemma LinkedExtend(corrections: seq<Correction>, path: seq<TxId>, t: TxId)
    requires Linked(corrections, path)
    requires path != [] ==> Correction(path[|path| - 1], t) in corrections
    ensures Linked(corrections, path + [t])
  {
    forall i | 0 <= i < |path + [t]| - 1
      ensures Correction((path + [t])[i], (path + [t])[i + 1]) in corrections
    {
      if i < |path| - 1 {
        assert Correction(path[i], path[i + 1]) in corrections;
      }
    }
  }

  /**
   Both walks end, and the result is the complete chain of the requested row, from its root to
   its tip, each superseded entry with the edge that superseded it.
   */
  method GetTransactionHistory(db: Database, key: Key) returns (history: Option<seq<HistoryEntry>>)
    requires ChainInv(db.txs, db.corrections)
    ensures history.None? <==> FindOne(db.txs, key).None?
    ensures history.Some? ==> FindOne(db.txs, key).value in Ids(history.value)
    ensures history.Some? ==> IsChain(db.txs, db.corrections, Ids(history.value))
    ensures history.Some? ==> Annotated(db.txs, history.value, None)
  {
    var found := FindOne(db.txs, key);
    if found == None {
      return None;
    }
    ghost var back;
    var rootId;
    rootId, back := FindRoot(db, found.value);
    var entries := WalkForward(db, rootId);
    assert IsChain(db.txs, db.corrections, Ids(entries));
    EdgesAreUnique(db.txs, db.corrections);
    RootedIsPrefix(db.txs, db.corrections, back, Ids(entries), |back| - 1);
    return Some(entries);
  }

  // ---- Chains over runs ----

  /** The rows a complete chain has already superseded are voided, synced, and stay so forever. */
  lemma SupersededForever(opening: map<ProductId, int>, db: Db, path: seq<TxId>, i: nat, later: seq<Step>)
    requires Inv(opening, db) && IsChain(db.txs, db.corrections, path) && i < |path| - 1
    ensures db.txs[path[i]].status == VOIDED && db.txs[path[i]].sync == SYNCED
    ensures path[i] < |Run(db, later).txs| && Run(db, later).txs[path[i]] == db.txs[path[i]]
  {
    EdgeIsOk(db.txs, db.corrections, Correction(path[i], path[i + 1]));
    RunEvolves(db, later);
    assert TxEvolves(db.txs[path[i]], Run(db, later).txs[path[i]]);
  }

  /** Over any run a chain only ever grows at its tip. */
  lemma ChainsGrowAtTheTip(opening: map<ProductId, int>, db: Db, a: seq<TxId>, later: seq<Step>, b: seq<TxId>, t: TxId)
    requires Inv(opening, db) && IsChain(db.txs, db.corrections, a) && t in a
    requires IsChain(Run(db, later).txs, Run(db, later).corrections, b) && t in b
    ensures a <= b
  {
    var now := Run(db, later);
    RunInv(opening, db, later);
    RunEvolves(db, later);
    assert Linked(now.corrections, a) by {
      forall i | 0 <= i < |a| - 1
        ensures Correction(a[i], a[i + 1]) in now.corrections
      {
        assert Correction(a[i], a[i + 1]) in db.corrections;
      }
    }
    RootStaysRoot(opening, db, now, a[0]);
    EdgesAreUnique(now.txs, now.corrections);
    SharedRowMakesPrefix(now.txs, now.corrections, a, b, t);
  }

  lemma RootStaysRoot(opening: map<ProductId, int>, db: Db, now: Db, root: TxId)
    requires Inv(opening, db) && Inv(opening, now) && Evolves(db, now)
    requires root < |db.txs| && !HasPrevious(db.corrections, root)
    ensures !HasPrevious(now.corrections, root)
  {
    assert db.txs[root].uuid.Some?;
    assert TxEvolves(db.txs[root], now.txs[root]);
    forall i | 0 <= i < |now.corrections|
      ensures now.corrections[i].newId != root
    {
      assert EdgeOk(now.txs, now.corrections[i]);
    }
  }

  // ---- What a chain as a whole has moved ----

  ghost function ChainMovement(db: Db, path: seq<TxId>, p: ProductId): int
  {
    if |path| == 0 then 0
    else ChainMovement(db, path[..|path| - 1], p) + NetMovement(db, path[|path| - 1], p)
  }

  /** Superseded versions have moved nothing on balance. */
  lemma {:induction false} SupersededMovedNothing(opening: map<ProductId, int>, db: Db, path: seq<TxId>, k: nat, p: ProductId)
    requires Inv(opening, db) && k < |path| && Linked(db.corrections, path)
    ensures ChainMovement(db, path[..k], p) == 0
  {
    if k > 0 {
      SupersededMovedNothing(opening, db, path, k - 1, p);
      EdgeIsOk(db.txs, db.corrections, Correction(path[k - 1], path[k - 1 + 1]));
      NetMovementOf(opening, db, path[k - 1], p);
      assert path[..k][..k - 1] == path[..k - 1];
    }
  }

  /**
   However often a sale has been corrected, its whole chain has moved minus the quantities of
   the last version, provided the goods of that version left at all.
   */
  lemma ChainMovesLastVersion(opening: map<ProductId, int>, db: Db, path: seq<TxId>, p: ProductId)
    requires Inv(opening, db) && IsChain(db.txs, db.corrections, path)
    ensures
      var tip := db.txs[path[|path| - 1]];
      ChainMovement(db, path, p) == if GoodsLeft(tip) then -ItemQty(tip.items, p) else 0
  {
    SupersededMovedNothing(opening, db, path, |path| - 1, p);
    NetMovementOf(opening, db, path[|path| - 1], p);
  }
}
