/** Promotion in the transaction pool (txpool/tx_pool.go) is complete: whatever happens, no account
    is left with a queued transaction whose turn has come. */
module PoolEager {
  import opened TxSpec
  import opened TxList
  import opened PoolState
  import opened TxPool
  import opened PoolLimits
  import opened PoolOps

  /** No account has its next transaction, the one at its virtual nonce, waiting in the queue. */
  ghost predicate Eager(p: Pool, h: Head) {
    forall a :: EagerAt(p, h, a)
  }

  ghost predicate EagerAt(p: Pool, h: Head, a: Address) {
    VirtualNonce(p.nonces, h, a) !in QueueOf(p.queue, a).items
  }

  // Promotion.

  /** After the run has been taken, the nonce after it is not in what is left. */
  lemma RunIsComplete(items: Items, v: nat)
    requires Keyed(items)
    ensures NextNonce(Ready(items, v), v) !in AfterReady(items, v)
    ensures forall k :: k in AfterReady(items, v) ==> k in items
    ensures forall i :: 0 <= i < |Ready(items, v)| ==> Ready(items, v)[i].nonce in items
    ensures forall i :: 0 <= i < |Ready(items, v)| ==> Ready(items, v)[i].nonce !in AfterReady(items, v)
  {
    hide Ready, AfterReady;
    ReadyExactly(items, v);
    var run := Ready(items, v);
    forall i | 0 <= i < |run|
      ensures run[i].nonce == run[0].nonce + i && run[i].nonce in items
    {
      assert On(items, run[0].nonce + i, run[i]);
    }
  }

  lemma {:induction false} MergeAdds(items: Items, txs: seq<Tx>, k: nat)
    ensures k in Merge(items, txs) ==> k in items || exists i :: 0 <= i < |txs| && txs[i].nonce == k
    decreases |txs|
  {
    if txs != [] {
      MergeAdds(items[txs[0].nonce := txs[0]], txs[1..], k);
      if i :| 0 <= i < |txs[1..]| && txs[1..][i].nonce == k {
        assert txs[i + 1].nonce == k;
      }
      assert txs[0].nonce == k ==> exists i :: 0 <= i < |txs| && txs[i].nonce == k;
    }
  }

  /** The promoted accounts become eager, and nothing is both pending and queued. */
  lemma PromotedIsEager(p: Pool, q: Pool, h: Head, lim: Limits, accounts: set<Address>, a: Address)
    requires Partition(p) && Promoted(p, q, h, lim, accounts) && (a in accounts || EagerAt(p, h, a))
    ensures EagerAt(q, h, a) && PendOf(q.pending, a).items.Keys !! QueueOf(q.queue, a).items.Keys
  {
    hide PartitionWith, Ready, AfterReady, Merge, Cap, NextNonce, FitQueue;
    InFitQueue(p, h, a);
    PartitionLists(p, {}, a);
    var fit, v := FitQueue(QueueOf(p.queue, a).items, h, a), VirtualNonce(p.nonces, h, a);
    RunIsComplete(fit, v);
    if a in accounts {
      forall k | k in QueueOf(q.queue, a).items
        ensures k !in PendOf(q.pending, a).items.Keys
      {
        assert k in AfterReady(fit, v);
        MergeAdds(PendOf(p.pending, a).items, Ready(fit, v), k);
      }
    }
  }

  /** Enforcing the limits lowers a virtual nonce only to one that was pending. */
  lemma FitIsEager(p: Pool, p': Pool, h: Head, lim: Limits, level: nat, a: Address)
    requires EagerAt(p, h, a) && PendOf(p.pending, a).items.Keys !! QueueOf(p.queue, a).items.Keys
    requires KeptFit(p, p', h, lim, level)
    ensures EagerAt(p', h, a)
  {
    hide Total, Needed, Leveled, Cap;
    var pend, v, v' := PendOf(p.pending, a).items, VirtualNonce(p.nonces, h, a), VirtualNonce(p'.nonces, h, a);
    assert v' == v || v' in pend.Keys by {
      if Total(p.pending) > lim.globalSlots {
        LoweredIsPending(v, pend, level);
      }
    }
    forall k | k in QueueOf(p'.queue, a).items
      ensures k in QueueOf(p.queue, a).items.Keys
    {
      assert a in p'.queue;
    }
  }

  lemma LoweredIsPending(v: nat, items: Items, level: nat)
    ensures Lowered(v, items, level) == v || Lowered(v, items, level) in items.Keys
  {
    hide Cap;
  }

  // Additions.

  lemma AddedIsPartition(p: Pool, lim: Limits, tx: Tx)
    requires Partition(p)
    ensures Partition(Added(p, lim, tx)) && Added(p, lim, tx).nonces == p.nonces
  {
    hide PartitionWith, Accepts;
    if |p.all| < lim.globalSlots + lim.globalQueue {
      if tx.nonce in PendOf(p.pending, tx.from).items {
        if Accepts(PendOf(p.pending, tx.from), tx, lim.bump) {
          ReplaceKeeps(p, tx, lim.bump);
        }
      } else if Accepts(QueueOf(p.queue, tx.from), tx, lim.bump) {
        EnqueueKeeps(p, tx, lim.bump);
      }
    }
  }

  /** An addition gives a queue a new nonce only if the transaction is a new one of that account. */
  lemma AddedQueue(p: Pool, lim: Limits, tx: Tx, a: Address)
    requires tx.from != a || |p.all| >= lim.globalSlots + lim.globalQueue || Occupied(p, tx)
    ensures QueueOf(Added(p, lim, tx).queue, a).items.Keys == QueueOf(p.queue, a).items.Keys
  {
    hide Accepts;
    var queue := QueueOf(p.queue, a).items;
    if tx.from == a && tx.nonce in queue {
      assert queue[tx.nonce := tx].Keys == queue.Keys;
    }
  }

  lemma {:induction false} BatchIsPartition(p: Pool, lim: Limits, txs: seq<Tx>)
    requires Partition(p)
    ensures Partition(AddedAll(p, lim, txs)) && AddedAll(p, lim, txs).nonces == p.nonces
    decreases |txs|
  {
    hide PartitionWith, Added;
    if txs != [] {
      BatchIsPartition(p, lim, txs[..|txs| - 1]);
      AddedIsPartition(AddedAll(p, lim, txs[..|txs| - 1]), lim, txs[|txs| - 1]);
    }
  }

  /** Every account whose queue got a new nonce is dirty. */
  lemma {:induction false} BatchQueue(p: Pool, lim: Limits, txs: seq<Tx>, a: Address)
    requires a !in Dirty(p, lim, txs)
    ensures QueueOf(AddedAll(p, lim, txs).queue, a).items.Keys == QueueOf(p.queue, a).items.Keys
    decreases |txs|
  {
    hide Added, Occupied;
    if txs != [] {
      var rest, tx := txs[..|txs| - 1], txs[|txs| - 1];
      BatchQueue(p, lim, rest, a);
      AddedQueue(AddedAll(p, lim, rest), lim, tx, a);
    }
  }

  lemma SameKeysEager(p: Pool, p': Pool, h: Head, a: Address)
    requires EagerAt(p, h, a) && p'.nonces == p.nonces
    requires QueueOf(p'.queue, a).items.Keys == QueueOf(p.queue, a).items.Keys
    ensures EagerAt(p', h, a)
  {
    assert forall k :: k in QueueOf(p'.queue, a).items <==> k in QueueOf(p'.queue, a).items.Keys;
    assert forall k :: k in QueueOf(p.queue, a).items <==> k in QueueOf(p.queue, a).items.Keys;
  }

  lemma BatchIsEager(p: Pool, p': Pool, h: Head, lim: Limits, txs: seq<Tx>, q: Pool, l: nat, a: Address)
    requires Partition(p) && EagerAt(p, h, a) && BatchAdded(p, p', h, lim, txs, q, l)
    ensures EagerAt(p', h, a)
  {
    hide PartitionWith, AddedAll, Dirty, Promoted, KeptFit, EagerAt;
    var added := AddedAll(p, lim, txs);
    BatchIsPartition(p, lim, txs);
    if a !in Dirty(p, lim, txs) {
      BatchQueue(p, lim, txs, a);
      SameKeysEager(p, added, h, a);
    }
    if Dirty(p, lim, txs) != {} {
      PromotedIsEager(added, q, h, lim, Dirty(p, lim, txs), a);
      FitIsEager(q, p', h, lim, l, a);
    }
  }

  lemma SubmitIsEager(p: Pool, p': Pool, h: Head, lim: Limits, tx: Tx, a: Address)
    requires Partition(p) && EagerAt(p, h, a) && Submitted(p, p', h, lim, tx)
    ensures EagerAt(p', h, a)
  {
    hide PartitionWith, Added, Promoted, KeptFit, EagerAt, Occupied;
    var added := Added(p, lim, tx);
    AddedIsPartition(p, lim, tx);
    var known := |p.all| >= lim.globalSlots + lim.globalQueue || Occupied(p, tx);
    if known || tx.from != a {
      AddedQueue(p, lim, tx, a);
      SameKeysEager(p, added, h, a);
    }
    if !known {
      var r, l :| Promoted(added, r, h, lim, {tx.from}) && KeptFit(r, p', h, lim, l);
      PromotedIsEager(added, r, h, lim, {tx.from}, a);
      FitIsEager(r, p', h, lim, l, a);
    }
  }

  // Removals and head changes.

  /** A removed pending transaction takes those above it to the queue; its own nonce, to which the
      virtual nonce may fall, is not among them. */
  lemma RemovedIsEager(p: Pool, p': Pool, h: Head, tx: Tx, a: Address)
    requires Partition(p) && Partition(p') && Removed(p, p', h, tx) && EagerAt(p, h, a)
    ensures EagerAt(p', h, a)
  {
    hide PartitionWith, Remove, Below;
    var v := VirtualNonce(p'.nonces, h, a);
    var queue := QueueOf(p'.queue, a).items;
    PartitionLists(p', {}, a);
    PartitionLists(p, {}, a);
    AccountListFacts(QueueOf(p'.queue, a), false, a);
    ListedIsKnown(p, tx);
    if v in queue {
      var t := queue[v];
      ListedIsKnown(p', t);
      ListedIsKnown(p, t);
      RemovedNonce(p, p', h, tx, a);
      if Listed(PendOf(p.pending, tx.from).items, tx) && a == tx.from {
        BelowKeeps(PendOf(p.pending, a).items, tx.nonce, v);
      }
      assert false;
    }
  }

  lemma RemovedNonce(p: Pool, p': Pool, h: Head, tx: Tx, a: Address)
    requires Partition(p) && Removed(p, p', h, tx)
    ensures var v, v' := VirtualNonce(p.nonces, h, a), VirtualNonce(p'.nonces, h, a);
      v' == if Listed(PendOf(p.pending, tx.from).items, tx) && a == tx.from && tx.nonce < v then tx.nonce else v
  {
    hide PartitionWith;
    ListedIsKnown(p, tx);
  }

  lemma BelowKeeps(items: Items, n: nat, k: nat)
    ensures k in items && k < n ==> k in Below(items, n)
  {
  }

  /** A head change promotes every account that has something queued. */
  lemma ResetIsEager(p: Pool, p': Pool, h: Head, lim: Limits, reinject: seq<Tx>,
      mid: Pool, demoted: Pool, promoted: Pool, level: nat, a: Address)
    requires ResetSteps(p, p', h, lim, reinject, mid, demoted, promoted, level)
    ensures EagerAt(p', h, a)
  {
    hide PartitionWith, Promoted, KeptFit, Executable, Unpayable, AfterLast, BatchAdded;
    PromotedIsEager(demoted, promoted, h, lim, demoted.queue.Keys, a);
    FitIsEager(promoted, p', h, lim, level, a);
  }

  // Runs.

  lemma StepIsEager(s: Situation, e: Event, s': Situation, lim: Limits)
    requires Partition(s.pool) && Partition(s'.pool) && Eager(s.pool, s.head) && Stepped(s, e, s', lim)
    ensures Eager(s'.pool, s'.head)
  {
    hide PartitionWith, Submitted, BatchAdded, Removed, ResetSteps;
    forall a
      ensures EagerAt(s'.pool, s'.head, a)
    {
      assert EagerAt(s.pool, s.head, a);
      match e
      case Submit(tx) =>
        SubmitIsEager(s.pool, s'.pool, s.head, lim, tx, a);
      case SubmitAll(txs) =>
        var q, l :| BatchAdded(s.pool, s'.pool, s.head, lim, txs, q, l);
        BatchIsEager(s.pool, s'.pool, s.head, lim, txs, q, l, a);
      case Drop(tx) =>
        RemovedIsEager(s.pool, s'.pool, s.head, tx, a);
      case Idle(b) =>
      case NewHead(h, reinject) =>
        var mid, demoted, promoted, l :| ResetSteps(s.pool, s'.pool, h, lim, reinject, mid, demoted, promoted, l);
        ResetIsEager(s.pool, s'.pool, h, lim, reinject, mid, demoted, promoted, l, a);
    }
  }

  /** At every point of every run the next transaction of each account is pending or absent, never
      queued. */
  lemma {:induction false} RunIsEager(trace: seq<Situation>, events: seq<Event>, lim: Limits, i: nat)
    requires |trace| == |events| + 1 && i <= |events| && trace[0].pool == EMPTY
    requires forall j :: 0 <= j < |events| ==> Stepped(trace[j], events[j], trace[j + 1], lim)
    requires forall j :: 0 <= j <= |events| ==> Sound(trace[j].pool, lim)
    ensures Eager(trace[i].pool, trace[i].head)
  {
    hide Stepped, PartitionWith, Eager;
    if i == 0 {
      EmptyIsEager(trace[0].head);
    } else {
      RunIsEager(trace, events, lim, i - 1);
      assert Sound(trace[i - 1].pool, lim) && Sound(trace[i].pool, lim);
      assert Stepped(trace[i - 1], events[i - 1], trace[i - 1 + 1], lim);
      StepIsEager(trace[i - 1], events[i - 1], trace[i], lim);
    }
  }

  lemma EmptyIsEager(h: Head)
    ensures Eager(EMPTY, h)
  {
  }
}
