/** The public operations of the transaction pool (txpool/tx_pool.go), each of which keeps the
    partition of the known transactions and, between head changes, the contiguity of the pending
    nonces. */
module PoolOps {
  import opened TxSpec
  import opened TxList
  import opened PoolState
  import opened TxPool
  import opened PoolLimits

  /** The pool is within its global limits: too many pending transactions are tolerated only if no
      account has more than its guaranteed slots. */
  ghost predicate WithinLimits(p: Pool, lim: Limits) {
    && (Total(p.pending) <= lim.globalSlots || forall a :: a in p.pending ==> |p.pending[a].items| <= lim.accountSlots)
    && Total(p.queue) <= lim.globalQueue
  }

  /** Lists a set of accounts in some order; which one depends on their heartbeats. */
  method Order(keys: set<Address>) returns (order: seq<Address>)
    ensures NoDup(order) && PoolLimits.ToSet(order) == keys
  {
    order := [];
    var rest := keys;
    while rest != {}
      invariant NoDup(order) && PoolLimits.ToSet(order) + rest == keys && PoolLimits.ToSet(order) !! rest
      decreases rest
    {
      var a :| a in rest;
      assert a !in PoolLimits.ToSet(order);
      assert PoolLimits.ToSet(order + [a]) == PoolLimits.ToSet(order) + {a};
      order, rest := order + [a], rest - {a};
    }
  }

  /** How the limits are enforced: pending lists are cut to one common level, which is no lower than
      it has to be nor than the guaranteed slots, and low enough for the total unless it is these
      slots; the virtual nonces are lowered to what was dropped; the queue is cut to its limit, each
      list from the top. */
  ghost predicate KeptFit(p: Pool, p': Pool, h: Head, lim: Limits, level: nat) {
    && p'.pending == (if Total(p.pending) <= lim.globalSlots then p.pending else Leveled(p.pending, level))
    && (Total(p.pending) > lim.globalSlots ==>
          && level >= lim.accountSlots && Needed(p.pending, level, lim.globalSlots)
          && (Total(p'.pending) <= lim.globalSlots || level == lim.accountSlots))
    && (if Total(p.pending) <= lim.globalSlots then p'.nonces == p.nonces
        else NoncesCut(p.pending, p.nonces, p'.nonces, h, level))
    && Total(p'.queue) == (if Total(p.queue) <= lim.globalQueue then Total(p.queue) else lim.globalQueue)
    && forall a :: a in p'.queue ==> a in p.queue && p'.queue[a].items == Cap(p.queue[a].items, |p'.queue[a].items|)
  }

  /** Enforces the global limits. */
  method KeepFit(p: Pool, h: Head, lim: Limits) returns (p': Pool, ghost level: nat)
    requires Partition(p) && lim.accountSlots >= 1
    ensures Partition(p') && WithinLimits(p', lim) && KeptFit(p, p', h, lim, level) && p'.all <= p.all
    ensures Gapless(p.pending, p.nonces, h) ==> Gapless(p'.pending, p'.nonces, h)
  {
    hide PartitionWith, Gapless, Total, Leveled, Needed, Cap, Above, NoncesCut;
    var q;
    q, level := LimitPending(p, h, lim);
    var order := Order(q.queue.Keys);
    p' := LimitQueue(q, h, lim, order);
    FitIsPart(p, p', h, lim, level);
    FitIsWithin(p, p', h, lim, level);
  }

  /** The way the limits are enforced is enough to meet them. */
  lemma FitIsWithin(p: Pool, p': Pool, h: Head, lim: Limits, level: nat)
    requires KeptFit(p, p', h, lim, level)
    ensures WithinLimits(p', lim)
  {
    hide Total, Leveled, Needed, Cap, Above, NoncesCut;
    if Total(p.pending) > lim.globalSlots {
      LevelIsFair(p.pending, level, lim.accountSlots, lim.globalSlots);
    }
  }

  lemma FitIsPart(p: Pool, p': Pool, h: Head, lim: Limits, level: nat)
    requires Partition(p) && Partition(p') && KeptFit(p, p', h, lim, level)
    ensures p'.all <= p.all
  {
    hide PartitionWith, Total, Needed, NoncesCut;
    forall t | t in p'.all
      ensures t in p.all
    {
      ListedIsKnown(p, t);
      ListedIsKnown(p', t);
    }
  }

  /** What is left of an account's queue without the outdated and the unpayable. */
  function FitQueue(items: Items, h: Head, a: Address): Items {
    Scan(AtLeast(items, Nonce(h, a)), false, Balance(h, a), h.maxGas)
  }

  /** A queued transaction survives if it is not outdated and its sender can pay for it. */
  lemma InFitQueueExactly(items: Items, h: Head, a: Address, k: nat)
    ensures k in FitQueue(items, h, a) <==>
      && k in items && k >= Nonce(h, a)
      && items[k].value + items[k].price * items[k].gas <= Balance(h, a) && items[k].gas <= h.maxGas
    ensures k in FitQueue(items, h, a) ==> FitQueue(items, h, a)[k] == items[k]
  {
    ScanExactly(AtLeast(items, Nonce(h, a)), false, Balance(h, a), h.maxGas, k);
  }

  /** Of each of the given accounts, the executable run has moved from the queue to the pending list,
      the virtual nonce is the one after it, and the rest of the queue fits the account's limit; other
      accounts are as they were. */
  ghost predicate Promoted(p: Pool, q: Pool, h: Head, lim: Limits, accounts: set<Address>) {
    forall a ::
      var fit, v := FitQueue(QueueOf(p.queue, a).items, h, a), VirtualNonce(p.nonces, h, a);
      && PendOf(q.pending, a).items ==
           (if a in accounts then Merge(PendOf(p.pending, a).items, Ready(fit, v)) else PendOf(p.pending, a).items)
      && QueueOf(q.queue, a).items ==
           (if a in accounts then Cap(AfterReady(fit, v), lim.accountQueue) else QueueOf(p.queue, a).items)
      && VirtualNonce(q.nonces, h, a) == (if a in accounts then NextNonce(Ready(fit, v), v) else v)
  }

  lemma PromotedNone(p: Pool, h: Head, lim: Limits)
    ensures Promoted(p, p, h, lim, {})
  {
    hide FitQueue, Ready, AfterReady, Merge, Cap;
  }

  lemma PromotedNext(p: Pool, q: Pool, q': Pool, h: Head, lim: Limits, accounts: set<Address>, a: Address)
    requires Promoted(p, q, h, lim, accounts) && a !in accounts && Elsewhere(q, q', a)
    requires
      var fit, v := FitQueue(QueueOf(q.queue, a).items, h, a), VirtualNonce(q.nonces, h, a);
      && PendOf(q'.pending, a).items == Merge(PendOf(q.pending, a).items, Ready(fit, v))
      && QueueOf(q'.queue, a).items == Cap(AfterReady(fit, v), lim.accountQueue)
      && VirtualNonce(q'.nonces, h, a) == NextNonce(Ready(fit, v), v)
    ensures Promoted(p, q', h, lim, accounts + {a})
  {
    hide FitQueue, Ready, AfterReady, Merge, Cap, NextNonce;
  }

  lemma NothingToPromote(p: Pool, h: Head, lim: Limits, a: Address)
    requires a !in p.queue
    ensures
      var fit, v := FitQueue(QueueOf(p.queue, a).items, h, a), VirtualNonce(p.nonces, h, a);
      && PendOf(p.pending, a).items == Merge(PendOf(p.pending, a).items, Ready(fit, v))
      && QueueOf(p.queue, a).items == Cap(AfterReady(fit, v), lim.accountQueue)
      && v == NextNonce(Ready(fit, v), v)
  {
    assert FitQueue(map[], h, a) == map[];
    assert Cap(map[], lim.accountQueue) == map[];
  }

  /** Promotes the executable transactions of the given accounts, then enforces the limits. */
  method PromoteExecutables(p: Pool, h: Head, lim: Limits, accounts: seq<Address>)
      returns (p': Pool, ghost promoted: Pool, ghost level: nat)
    requires Partition(p) && lim.accountSlots >= 1
    ensures Partition(p') && WithinLimits(p', lim) && p'.all <= p.all
    ensures Gapless(p.pending, p.nonces, h) ==> Gapless(p'.pending, p'.nonces, h)
    ensures NoDup(accounts) ==> Promoted(p, promoted, h, lim, PoolLimits.ToSet(accounts))
    ensures KeptFit(promoted, p', h, lim, level)
  {
    hide PartitionWith, Gapless, Total, Elsewhere, WithinLimits, KeptFit, Promoted, Merge, Cap, AfterReady, Ready,
      NextNonce;
    p' := p;
    PromotedNone(p, h, lim);
    assert PoolLimits.ToSet(accounts[..0]) == {};
    for i := 0 to |accounts|
      invariant Partition(p') && p'.all <= p.all
      invariant Gapless(p.pending, p.nonces, h) ==> Gapless(p'.pending, p'.nonces, h)
      invariant NoDup(accounts) ==> Promoted(p, p', h, lim, PoolLimits.ToSet(accounts[..i]))
    {
      ghost var before := p';
      if accounts[i] in p'.queue {
        p' := PromoteAccount(p', h, lim, accounts[i]);
      } else {
        NothingToPromote(p', h, lim, accounts[i]);
        ElsewhereRefl(p', accounts[i]);
      }
      if NoDup(accounts) {
        PrefixAccounts(accounts, i);
        PromotedNext(p, before, p', h, lim, PoolLimits.ToSet(accounts[..i]), accounts[i]);
      }
    }
    assert accounts[..|accounts|] == accounts;
    promoted := p';
    p', level := KeepFit(p', h, lim);
  }

  lemma PrefixAccounts(accounts: seq<Address>, i: nat)
    requires NoDup(accounts) && i < |accounts|
    ensures PoolLimits.ToSet(accounts[..i + 1]) == PoolLimits.ToSet(accounts[..i]) + {accounts[i]}
    ensures accounts[i] !in PoolLimits.ToSet(accounts[..i])
  {
    assert accounts[..i + 1] == accounts[..i] + [accounts[i]];
  }

  /** Adding one transaction: nothing if the pool is full; in place of a pending transaction with the
      same nonce; otherwise to the queue. */
  function Added(p: Pool, lim: Limits, tx: Tx): Pool {
    if |p.all| >= lim.globalSlots + lim.globalQueue then p
    else if tx.nonce in PendOf(p.pending, tx.from).items then ReplacePending(p, tx, lim.bump)
    else Enqueue(p, tx, lim.bump)
  }

  function AddedAll(p: Pool, lim: Limits, txs: seq<Tx>): Pool
    decreases |txs|
  {
    if txs == [] then p else Added(AddedAll(p, lim, txs[..|txs| - 1]), lim, txs[|txs| - 1])
  }

  /** The senders that got a transaction they did not have. */
  function Dirty(p: Pool, lim: Limits, txs: seq<Tx>): set<Address>
    decreases |txs|
  {
    if txs == [] then {} else
      var rest, tx := txs[..|txs| - 1], txs[|txs| - 1];
      var q := AddedAll(p, lim, rest);
      Dirty(p, lim, rest) +
      (if |q.all| >= lim.globalSlots + lim.globalQueue || Occupied(q, tx) then {} else {tx.from})
  }

  /** The i-th transaction finds room in the pool and its nonce free, and comes from this account. */
  ghost predicate IsNew(p: Pool, lim: Limits, txs: seq<Tx>, a: Address, i: nat) {
    && i < |txs| && txs[i].from == a
    && var q := AddedAll(p, lim, txs[..i]);
    && |q.all| < lim.globalSlots + lim.globalQueue
    && txs[i].nonce !in PendOf(q.pending, a).items && txs[i].nonce !in QueueOf(q.queue, a).items
  }

  lemma {:induction false} DirtyExactly(p: Pool, lim: Limits, txs: seq<Tx>, a: Address)
    ensures a in Dirty(p, lim, txs) <==> exists i :: IsNew(p, lim, txs, a, i)
    decreases |txs|
  {
    hide AddedAll, IsNew;
    if txs == [] {
      NoneNew(p, lim, txs, a);
    } else {
      var n := |txs| - 1;
      var front := txs[..n];
      DirtyExactly(p, lim, front, a);
      LastNew(p, lim, txs, a);
      forall i: nat
        ensures i != n ==> (IsNew(p, lim, txs, a, i) <==> IsNew(p, lim, front, a, i))
        ensures !IsNew(p, lim, front, a, n)
      {
        NewBefore(p, lim, txs, a, i);
      }
    }
  }

  lemma NoneNew(p: Pool, lim: Limits, txs: seq<Tx>, a: Address)
    requires txs == []
    ensures forall i :: !IsNew(p, lim, txs, a, i)
  {
  }

  lemma LastNew(p: Pool, lim: Limits, txs: seq<Tx>, a: Address)
    requires txs != []
    ensures var n := |txs| - 1;
      var q := AddedAll(p, lim, txs[..n]);
      IsNew(p, lim, txs, a, n) <==>
        txs[n].from == a && |q.all| < lim.globalSlots + lim.globalQueue && !Occupied(q, txs[n])
  {
    hide AddedAll;
  }

  lemma NewBefore(p: Pool, lim: Limits, txs: seq<Tx>, a: Address, i: nat)
    requires txs != []
    ensures var front := txs[..|txs| - 1];
      && (i != |txs| - 1 ==> (IsNew(p, lim, txs, a, i) <==> IsNew(p, lim, front, a, i)))
      && !IsNew(p, lim, front, a, |txs| - 1)
  {
    hide AddedAll;
    if i < |txs| - 1 {
      assert txs[..|txs| - 1][..i] == txs[..i];
    }
  }

  datatype AddError = Accepted | PoolFull | Underpriced

  /** Adds a transaction: in place of a pending one of the same nonce, if it pays enough more, and
      otherwise to the queue. */
  method Add(p: Pool, h: Head, lim: Limits, tx: Tx) returns (p': Pool, replaced: bool, err: AddError)
    requires Partition(p)
    ensures Partition(p') && p'.nonces == p.nonces && p' == Added(p, lim, tx)
    ensures Gapless(p.pending, p.nonces, h) ==> Gapless(p'.pending, p'.nonces, h)
    ensures err != Accepted ==> p' == p && !replaced
    ensures err == PoolFull <==> |p.all| >= lim.globalSlots + lim.globalQueue
    ensures err == Accepted ==> tx in p'.all && replaced == Occupied(p, tx)
    ensures err == Accepted ==> p'.all == p.all - Displaced(p, tx) + {tx}
    ensures err == Underpriced <==> |p.all| < lim.globalSlots + lim.globalQueue && Outbid(p, tx, lim.bump)
    ensures err == Underpriced ==> Occupied(p, tx)
    ensures tx.nonce !in PendOf(p.pending, tx.from).items ==> p'.pending == p.pending
    ensures forall a :: PendOf(p'.pending, a).items.Keys == PendOf(p.pending, a).items.Keys
  {
    hide PartitionWith, Gapless, Outbid, Accepts;
    if |p.all| >= lim.globalSlots + lim.globalQueue {
      return p, false, PoolFull;
    }
    OutbidExactly(p, tx, lim.bump);
    var l := PendOf(p.pending, tx.from);
    if tx.nonce in l.items {
      if !Accepts(l, tx, lim.bump) {
        return p, false, Underpriced;
      }
      ReplaceKeeps(p, tx, lim.bump);
      p' := ReplacePending(p, tx, lim.bump);
      SameKeysGapless(p, p', h);
      return p', true, Accepted;
    }
    var q := QueueOf(p.queue, tx.from);
    if !Accepts(q, tx, lim.bump) {
      return p, false, Underpriced;
    }
    EnqueueKeeps(p, tx, lim.bump);
    p' := Enqueue(p, tx, lim.bump);
    return p', tx.nonce in q.items, Accepted;
  }

  /** The sender has a transaction with the same nonce, pending or else queued, whose price the new one
      does not exceed by more than `bump` per cent. */
  ghost predicate Outbid(p: Pool, tx: Tx, bump: nat) {
    var pend, queue := PendOf(p.pending, tx.from).items, QueueOf(p.queue, tx.from).items;
    if tx.nonce in pend then tx.price * 100 <= pend[tx.nonce].price * (100 + bump)
    else tx.nonce in queue && tx.price * 100 <= queue[tx.nonce].price * (100 + bump)
  }

  lemma OutbidExactly(p: Pool, tx: Tx, bump: nat)
    ensures var pend, queue := PendOf(p.pending, tx.from), QueueOf(p.queue, tx.from);
      Outbid(p, tx, bump) <==> !Accepts(if tx.nonce in pend.items then pend else queue, tx, bump)
    ensures Outbid(p, tx, bump) ==> Occupied(p, tx)
  {
    var pend, queue := PendOf(p.pending, tx.from), QueueOf(p.queue, tx.from);
    if tx.nonce in pend.items {
      AcceptsExactly(pend, tx, bump);
    } else if tx.nonce in queue.items {
      AcceptsExactly(queue, tx, bump);
    }
  }

  /** The account already has a transaction with this nonce. */
  predicate Occupied(p: Pool, tx: Tx) {
    tx.nonce in PendOf(p.pending, tx.from).items || tx.nonce in QueueOf(p.queue, tx.from).items
  }

  /** The transaction that an accepted one takes the place of. */
  ghost function Displaced(p: Pool, tx: Tx): set<Tx> {
    var pend, queue := PendOf(p.pending, tx.from).items, QueueOf(p.queue, tx.from).items;
    if tx.nonce in pend then {pend[tx.nonce]} else if tx.nonce in queue then {queue[tx.nonce]} else {}
  }

  lemma SameKeysGapless(p: Pool, p': Pool, h: Head)
    requires p'.nonces == p.nonces && forall a :: PendOf(p'.pending, a).items.Keys == PendOf(p.pending, a).items.Keys
    ensures Gapless(p.pending, p.nonces, h) ==> Gapless(p'.pending, p'.nonces, h)
  {
    if Gapless(p.pending, p.nonces, h) {
      forall a
        ensures Contiguous(PendOf(p'.pending, a).items, Nonce(h, a), VirtualNonce(p'.nonces, h, a))
      {
        GaplessFact(p, h, a);
        assert forall k :: k in PendOf(p'.pending, a).items <==> k in PendOf(p'.pending, a).items.Keys;
      }
    }
  }

  /** Adds one transaction and promotes what that makes executable. */
  method AddTx(p: Pool, h: Head, lim: Limits, tx: Tx)
      returns (p': Pool, err: AddError, ghost added: Pool, ghost promoted: Pool, ghost level: nat)
    requires Partition(p) && lim.accountSlots >= 1
    ensures Partition(p')
    ensures Gapless(p.pending, p.nonces, h) ==> Gapless(p'.pending, p'.nonces, h)
    ensures err != Accepted ==> p' == p
    ensures err == PoolFull <==> |p.all| >= lim.globalSlots + lim.globalQueue
    ensures err == Underpriced <==> |p.all| < lim.globalSlots + lim.globalQueue && Outbid(p, tx, lim.bump)
    ensures err == Underpriced ==> Occupied(p, tx)
    ensures added == Added(p, lim, tx) && (err != Accepted ==> added == p)
    ensures err == Accepted ==> added.all == p.all - Displaced(p, tx) + {tx} && p'.all <= added.all
    ensures err == Accepted && Occupied(p, tx) ==> p' == added
    ensures err == Accepted && !Occupied(p, tx) ==>
      Promoted(added, promoted, h, lim, {tx.from}) && KeptFit(promoted, p', h, lim, level)
  {
    hide PartitionWith, Gapless, WithinLimits, Occupied, Displaced, Outbid, Promoted, KeptFit;
    OutbidExactly(p, tx, lim.bump);
    var replaced;
    p', replaced, err := Add(p, h, lim, tx);
    added, promoted, level := p', p', 0;
    if err == Accepted && !replaced {
      assert PoolLimits.ToSet([tx.from]) == {tx.from};
      p', promoted, level := PromoteExecutables(p', h, lim, [tx.from]);
    }
  }

  /** Drops everything queued for an inactive account. */
  method Evict(p: Pool, h: Head, lim: Limits, a: Address) returns (p': Pool)
    requires Partition(p)
    ensures Partition(p') && p'.pending == p.pending && p'.nonces == p.nonces && p'.queue == p.queue - {a}
    ensures p'.all <= p.all
  {
    hide PartitionWith, Cap, Total;
    if a !in p.queue {
      assert p.queue - {a} == p.queue;
      return p;
    }
    p' := DropQueued(p, h, lim, a, |p.queue[a].items|);
    DroppedSize(p.queue[a].items, |p.queue[a].items|);
    forall t | t in p'.all
      ensures t in p.all
    {
      ListedIsKnown(p, t);
      ListedIsKnown(p', t);
    }
  }

  /** What a batch does: every transaction is added in turn, then the dirty accounts, if any, are
      promoted and the limits enforced. */
  ghost predicate BatchAdded(p: Pool, p': Pool, h: Head, lim: Limits, txs: seq<Tx>, promoted: Pool, level: nat) {
    var added, dirty := AddedAll(p, lim, txs), Dirty(p, lim, txs);
    if dirty == {} then p' == added
    else Promoted(added, promoted, h, lim, dirty) && KeptFit(promoted, p', h, lim, level)
  }

  /** Adds a batch and then promotes the accounts that got something new. The pool never outgrows
      its total size. */
  method AddTxs(p: Pool, h: Head, lim: Limits, txs: seq<Tx>) returns (p': Pool, ghost promoted: Pool, ghost level: nat)
    requires Partition(p) && lim.accountSlots >= 1
    ensures Partition(p') && BatchAdded(p, p', h, lim, txs, promoted, level) && Partition(AddedAll(p, lim, txs))
    ensures Gapless(p.pending, p.nonces, h) ==> Gapless(p'.pending, p'.nonces, h)
    ensures |p.all| <= lim.globalSlots + lim.globalQueue ==> |p'.all| <= lim.globalSlots + lim.globalQueue
  {
    hide PartitionWith, Gapless, WithinLimits, Occupied, Displaced, Outbid, Promoted, KeptFit, Added;
    p' := p;
    var dirty := {};
    for i := 0 to |txs|
      invariant Partition(p') && p' == AddedAll(p, lim, txs[..i]) && dirty == Dirty(p, lim, txs[..i])
      invariant Gapless(p.pending, p.nonces, h) ==> Gapless(p'.pending, p'.nonces, h)
      invariant |p.all| <= lim.globalSlots + lim.globalQueue ==> |p'.all| <= lim.globalSlots + lim.globalQueue
    {
      assert txs[..i + 1][..i] == txs[..i];
      var replaced, err;
      ghost var before := p';
      p', replaced, err := Add(p', h, lim, txs[i]);
      GrowsByOne(before.all, Displaced(before, txs[i]), txs[i]);
      if err == Accepted && !replaced {
        dirty := dirty + {txs[i].from};
      }
    }
    assert txs[..|txs|] == txs;
    promoted, level := p', 0;
    if dirty != {} {
      var accounts := Order(dirty);
      ghost var added := p';
      p', promoted, level := PromoteExecutables(p', h, lim, accounts);
      SmallerSet(p'.all, added.all);
    }
  }

  lemma GrowsByOne(all: set<Tx>, displaced: set<Tx>, tx: Tx)
    ensures |all - displaced + {tx}| <= |all| + 1
  {
    SmallerSet(all - displaced, all);
  }

  lemma SmallerSet(a: set<Tx>, b: set<Tx>)
    requires a <= b
    ensures |a| <= |b|
  {
    assert b == a + (b - a);
  }

  // Demotion.

  /** What the account can still pay for, from its chain nonce on. */
  function Payable(items: Items, h: Head, a: Address): Items {
    Within(AtLeast(items, Nonce(h, a)), Balance(h, a), h.maxGas)
  }

  /** The pending transactions that survive the filters: in strict mode, those below the first
      unpayable one. */
  function Fit(items: Items, h: Head, a: Address): Items {
    Scan(AtLeast(items, Nonce(h, a)), true, Balance(h, a), h.maxGas)
  }

  /** What stays pending: nothing at all if the chain nonce itself is missing. */
  function Executable(items: Items, h: Head, a: Address): Items {
    if Nonce(h, a) in Fit(items, h, a) then Fit(items, h, a) else map[]
  }

  lemma FitSub(items: Items, h: Head, a: Address)
    ensures Sub(Fit(items, h, a), Payable(items, h, a)) && Sub(Payable(items, h, a), items)
    ensures Lost(Payable(items, h, a), Fit(items, h, a)) <= Lost(items, Fit(items, h, a))
    ensures Keyed(items) ==>
      Lost(items, Fit(items, h, a)) - Lost(Payable(items, h, a), Fit(items, h, a)) == Lost(items, Payable(items, h, a))
  {
  }

  /** Drops the outdated and the unpayable from a pending list; what lies above the first
      unpayable one stays in hand. */
  method FilterPending(p: Pool, h: Head, a: Address) returns (p': Pool, invalids: set<Tx>)
    requires Partition(p)
    ensures PartitionWith(p', invalids) && p'.queue == p.queue && p'.nonces == p.nonces
    ensures PendOf(p'.pending, a).items == Fit(PendOf(p.pending, a).items, h, a)
    ensures forall b :: b != a ==> PendOf(p'.pending, b) == PendOf(p.pending, b)
    ensures p'.all == p.all - Lost(PendOf(p.pending, a).items, Payable(PendOf(p.pending, a).items, h, a))
    ensures p'.pending.Keys <= p.pending.Keys + {a}
  {
    hide PartitionWith, AccountList, Lost, Sub, Payable, Fit, Refresh;
    var l := PendOf(p.pending, a);
    var l1 := Refresh(l, h, a);
    PartitionLists(p, {}, a);
    AccountListFacts(l, true, a);
    RefreshIsFit(l, h, a);
    FitSub(l.items, h, a);
    invalids := Lost(Payable(l.items, h, a), l1.items);
    ShrinkPendKeeps(p, a, l1, invalids);
    p' := SetPend(p, a, l1, Lost(l.items, l1.items) - invalids);
    PutGet(p.pending, true, a, l1);
  }

  lemma RefreshIsFit(l: TList, h: Head, a: Address)
    requires AccountList(l, true, a)
    ensures AccountList(Refresh(l, h, a), true, a) && Sub(Refresh(l, h, a).items, l.items)
    ensures Refresh(l, h, a).items == Fit(l.items, h, a)
  {
    RefreshFacts(l, true, h, a);
  }

  /** Takes everything pending for one account into hand. */
  method TakePending(p: Pool, a: Address) returns (p': Pool, taken: set<Tx>)
    requires Partition(p)
    ensures PartitionWith(p', taken) && p'.queue == p.queue && p'.nonces == p.nonces && p'.all == p.all
    ensures PendOf(p'.pending, a).items == map[]
    ensures forall b :: b != a ==> PendOf(p'.pending, b) == PendOf(p.pending, b)
    ensures p'.pending.Keys <= p.pending.Keys
  {
    hide PartitionWith, AccountList, Lost;
    var l := PendOf(p.pending, a);
    PartitionLists(p, {}, a);
    taken := Lost(l.items, map[]);
    SubList(l, true, a, map[]);
    ShrinkPendKeeps(p, a, l.(items := map[]), taken);
    assert taken - taken == {} && p.all - {} == p.all;
    p' := SetPend(p, a, l.(items := map[]), {});
    PutGet(p.pending, true, a, l.(items := map[]));
  }

  /** Demotes one account. Nothing is lost but the outdated and the unpayable. */
  method DemoteAccount(p: Pool, h: Head, lim: Limits, a: Address) returns (p': Pool)
    requires Partition(p)
    ensures Partition(p') && p'.nonces == p.nonces
    ensures PendOf(p'.pending, a).items == Executable(PendOf(p.pending, a).items, h, a)
    ensures forall b :: b != a ==> PendOf(p'.pending, b) == PendOf(p.pending, b)
    ensures p'.all == p.all - Lost(PendOf(p.pending, a).items, Payable(PendOf(p.pending, a).items, h, a))
    ensures p'.pending.Keys <= p.pending.Keys + {a}
  {
    hide PartitionWith, Lost, Payable, Fit;
    var hand;
    p', hand := FilterPending(p, h, a);
    p' := EnqueueAll(p', hand, lim.bump);
    var left := PendOf(p'.pending, a).items;
    if left != map[] && Nonce(h, a) !in left {
      p', hand := TakePending(p', a);
      p' := EnqueueAll(p', hand, lim.bump);
    }
  }

  /** The nonces form an interval. */
  ghost predicate Interval(items: Items) {
    exists x: nat, y: nat :: Contiguous(items, x, y)
  }

  /** The account's pending nonces start at the chain nonce and have no gaps. */
  ghost predicate Grounded(items: Items, n: nat) {
    exists y: nat :: Contiguous(items, n, y)
  }

  /** Demotion looks for a gap in front only; a list that was an interval ends up grounded. */
  lemma DemotedIsGrounded(items: Items, h: Head, a: Address)
    requires Interval(items)
    ensures Grounded(Executable(items, h, a), Nonce(h, a))
  {
    var n := Nonce(h, a);
    var x: nat, y: nat :| Contiguous(items, x, y);
    var lo := if x < n then n else x;
    var hi := if y < lo then lo else y;
    var rest := AtLeast(items, n);
    if y < lo {
      assert Contiguous(rest, lo, hi) by {
        assert forall k :: k !in rest;
        assert rest == map[];
      }
    }
    var c := StrictScanPrefix(rest, Balance(h, a), h.maxGas, lo, hi);
    if n in Fit(items, h, a) {
      assert Contiguous(Executable(items, h, a), n, c);
    } else {
      assert Contiguous(Executable(items, h, a), n, n);
    }
  }

  /** The account can pay for the transaction. */
  predicate Affordable(t: Tx, h: Head, a: Address) {
    Cost(t) <= Balance(h, a) && t.gas <= h.maxGas
  }

  lemma AffordableExactly(t: Tx, h: Head, a: Address)
    ensures Affordable(t, h, a) <==> t.value + t.price * t.gas <= Balance(h, a) && t.gas <= h.maxGas
  {
  }

  /** Everything listed from the chain nonce up to `k` can be paid for. */
  ghost predicate PaidUpTo(items: Items, h: Head, a: Address, k: nat) {
    forall j :: Nonce(h, a) <= j <= k && j in items ==> Affordable(items[j], h, a)
  }

  /** What survives the filters, read off the list before them. */
  lemma InFit(items: Items, h: Head, a: Address, k: nat)
    ensures k in Fit(items, h, a) <==> k in items && k >= Nonce(h, a) && PaidUpTo(items, h, a, k)
  {
    var rest := AtLeast(items, Nonce(h, a));
    var kept := Within(rest, Balance(h, a), h.maxGas);
    var lost := rest.Keys - kept.Keys;
    if lost != {} {
      assert Lowest(lost) in rest && Lowest(lost) !in kept;
      assert forall j :: j in rest && j < Lowest(lost) ==> j !in lost;
    }
    forall j | j in rest && j !in lost
      ensures j in kept && Affordable(items[j], h, a)
    {
    }
  }

  /** Unless the chain nonce is missing or unpayable, there is no gap below a transaction that can be
      reached without meeting an unpayable one. */
  ghost predicate NoHole(items: Items, h: Head, a: Address) {
    var n := Nonce(h, a);
    n in items && Affordable(items[n], h, a) ==>
      forall k :: k in items && k > n && PaidUpTo(items, h, a, k) ==> k - 1 in items
  }

  /** Exactly when demotion leaves the account's pending nonces contiguous from the chain nonce. */
  lemma GroundedExactly(items: Items, h: Head, a: Address)
    ensures Grounded(Executable(items, h, a), Nonce(h, a)) <==> NoHole(items, h, a)
  {
    hide Fit;
    var n, fit := Nonce(h, a), Fit(items, h, a);
    InFit(items, h, a, n);
    if n !in fit {
      assert Contiguous(Executable(items, h, a), n, n);
    } else {
      if Grounded(fit, n) {
        GroundedMeansNoHole(items, h, a);
      }
      if NoHole(items, h, a) {
        NoHoleMeansGrounded(items, h, a);
      }
    }
  }

  lemma GroundedMeansNoHole(items: Items, h: Head, a: Address)
    requires Grounded(Fit(items, h, a), Nonce(h, a))
    ensures NoHole(items, h, a)
  {
    hide Fit;
    var n, fit := Nonce(h, a), Fit(items, h, a);
    var y: nat :| Contiguous(fit, n, y);
    forall k | k in items && k > n && PaidUpTo(items, h, a, k)
      ensures k - 1 in items
    {
      InFit(items, h, a, k);
      InFit(items, h, a, k - 1);
    }
  }

  lemma NoHoleMeansGrounded(items: Items, h: Head, a: Address)
    requires NoHole(items, h, a) && Nonce(h, a) in Fit(items, h, a)
    ensures Grounded(Fit(items, h, a), Nonce(h, a))
  {
    hide Fit, NoHole;
    var n, fit := Nonce(h, a), Fit(items, h, a);
    assert n in fit.Keys;
    var top := Highest(fit.Keys);
    forall k
      ensures k in fit <==> n <= k < top + 1
    {
      if k in fit {
        InFit(items, h, a, k);
        assert k in fit.Keys;
      }
      if n <= k <= top {
        DownToNonce(items, h, a, k, top);
      }
    }
    assert Contiguous(fit, n, top + 1);
  }

  lemma {:induction false} DownToNonce(items: Items, h: Head, a: Address, k: nat, top: nat)
    requires NoHole(items, h, a) && Nonce(h, a) in Fit(items, h, a) && top in Fit(items, h, a)
    requires Nonce(h, a) <= k <= top
    ensures k in Fit(items, h, a)
    decreases top - k
  {
    hide Fit;
    if k < top {
      DownToNonce(items, h, a, k + 1, top);
      InFit(items, h, a, Nonce(h, a));
      InFit(items, h, a, k + 1);
      InFit(items, h, a, k);
    }
  }

  /** A gap behind the first transaction goes unnoticed. */
  lemma GapMissed(a: Address, t: Tx, u: Tx)
    requires t.from == a && u.from == a && t.nonce == 3 && u.nonce == 5
    requires Cost(t) <= 100 && Cost(u) <= 100 && t.gas <= 50 && u.gas <= 50
    ensures var h := Head(map[a := 3], map[a := 100], 50);
      Executable(map[3 := t, 5 := u], h, a) == map[3 := t, 5 := u] && !NoHole(map[3 := t, 5 := u], h, a)
  {
    var items := map[3 := t, 5 := u];
    assert AtLeast(items, 3) == items;
    assert Within(items, 100, 50) == items;
    assert 5 in items && 4 !in items;
  }

  /** What demotion drops for good: outdated or unpayable pending transactions. */
  ghost predicate Unpayable(pending: Lists, h: Head, t: Tx) {
    var pend := PendOf(pending, t.from).items;
    t in Lost(pend, Payable(pend, h, t.from))
  }

  lemma UnpayableExactly(p: Pool, h: Head, t: Tx)
    requires Partition(p)
    ensures Unpayable(p.pending, h, t) <==>
      && Listed(PendOf(p.pending, t.from).items, t)
      && (t.nonce < Nonce(h, t.from) || t.value + t.price * t.gas > Balance(h, t.from) || t.gas > h.maxGas)
  {
    hide PartitionWith, AccountList;
    PartitionLists(p, {}, t.from);
    AccountListFacts(PendOf(p.pending, t.from), true, t.from);
  }

  /** Demotes every account. Nothing is lost but the outdated and the unpayable. */
  method DemoteUnexecutables(p: Pool, h: Head, lim: Limits) returns (p': Pool)
    requires Partition(p)
    ensures Partition(p') && p'.nonces == p.nonces
    ensures forall a :: PendOf(p'.pending, a).items == Executable(PendOf(p.pending, a).items, h, a)
    ensures forall t :: t in p'.all <==> t in p.all && !Unpayable(p.pending, h, t)
  {
    hide PartitionWith, Lost, Payable, Executable;
    p' := p;
    var rest := p.pending.Keys;
    NothingUnpayable(p, h);
    while rest != {}
      invariant Partition(p') && p'.nonces == p.nonces && rest <= p.pending.Keys
      invariant forall a :: a in rest ==> PendOf(p'.pending, a) == PendOf(p.pending, a)
      invariant forall a :: a in p.pending && a !in rest ==>
        PendOf(p'.pending, a).items == Executable(PendOf(p.pending, a).items, h, a)
      invariant forall a :: a !in p.pending && a !in rest ==> PendOf(p'.pending, a) == PendOf(p.pending, a)
      invariant forall t :: t in p'.all <==> t in p.all && (t.from in rest || !Unpayable(p.pending, h, t))
      decreases rest
    {
      var a :| a in rest;
      OwnLoss(p, h, a);
      p' := DemoteAccount(p', h, lim, a);
      rest := rest - {a};
    }
    NothingExecutable(h);
  }

  lemma NothingUnpayable(p: Pool, h: Head)
    ensures forall t: Tx :: t.from !in p.pending ==> !Unpayable(p.pending, h, t)
  {
  }

  /** What an account loses are transactions of its own. */
  lemma OwnLoss(p: Pool, h: Head, a: Address)
    requires Partition(p)
    ensures forall t :: t in Lost(PendOf(p.pending, a).items, Payable(PendOf(p.pending, a).items, h, a)) ==> t.from == a
  {
    hide PartitionWith, AccountList, Payable;
    PartitionLists(p, {}, a);
    AccountListFacts(PendOf(p.pending, a), true, a);
  }

  lemma NothingExecutable(h: Head)
    ensures forall a :: Executable(map[], h, a) == map[]
  {
    forall a
      ensures Executable(map[], h, a) == map[]
    {
      assert Fit(map[], h, a) == map[];
    }
  }

  // A new head.

  /** Sets the virtual nonce of every account with pending transactions to the one after the last of
      them. The entries of other accounts stay. */
  method PendingNonces(pending: Lists, before: map<Address, nat>) returns (nonces: map<Address, nat>)
    requires ListsOk(pending, true)
    ensures AfterLast(pending, before, nonces)
  {
    nonces := before;
    var rest := pending.Keys;
    while rest != {}
      invariant rest <= pending.Keys && nonces.Keys == before.Keys + (pending.Keys - rest)
      invariant forall a :: a in pending && a !in rest ==>
        pending[a].items.Keys != {} && nonces[a] == Highest(pending[a].items.Keys) + 1
      invariant forall a :: a in before && a !in pending ==> nonces[a] == before[a]
      decreases rest
    {
      var a :| a in rest;
      HasKeys(pending[a].items);
      nonces := nonces[a := Highest(pending[a].items.Keys) + 1];
      rest := rest - {a};
    }
  }

  /** With the virtual nonces set after the last pending transaction, the pending nonces fill exactly
      the interval from the chain nonce up to the virtual nonce if and only if every list is grounded
      at the chain nonce and accounts without a list are back at theirs. */
  lemma GroundedIsGapless(pending: Lists, before: map<Address, nat>, nonces: map<Address, nat>, h: Head)
    requires AfterLast(pending, before, nonces)
    ensures Gapless(pending, nonces, h) <==>
      forall a :: Grounded(PendOf(pending, a).items, Nonce(h, a)) &&
        (a !in pending ==> VirtualNonce(before, h, a) == Nonce(h, a))
  {
    forall a
      ensures Contiguous(PendOf(pending, a).items, Nonce(h, a), VirtualNonce(nonces, h, a)) <==>
        Grounded(PendOf(pending, a).items, Nonce(h, a)) &&
        (a !in pending ==> VirtualNonce(before, h, a) == Nonce(h, a))
    {
      GroundedAt(pending, before, nonces, h, a);
    }
  }

  lemma GroundedAt(pending: Lists, before: map<Address, nat>, nonces: map<Address, nat>, h: Head, a: Address)
    requires AfterLast(pending, before, nonces)
    ensures Contiguous(PendOf(pending, a).items, Nonce(h, a), VirtualNonce(nonces, h, a)) <==>
      Grounded(PendOf(pending, a).items, Nonce(h, a)) &&
      (a !in pending ==> VirtualNonce(before, h, a) == Nonce(h, a))
  {
    var items, n := PendOf(pending, a).items, Nonce(h, a);
    if a !in pending {
      assert Contiguous(items, n, n);
      assert VirtualNonce(nonces, h, a) == VirtualNonce(before, h, a);
      if VirtualNonce(before, h, a) > n {
        assert n !in items;
      }
    } else if Grounded(items, n) {
      var y: nat :| Contiguous(items, n, y);
      HighestOfInterval(items, n, y);
    }
  }

  lemma HighestOfInterval(items: Items, n: nat, y: nat)
    requires Contiguous(items, n, y) && items.Keys != {}
    ensures Highest(items.Keys) + 1 == y
  {
    assert Highest(items.Keys) in items;
    assert y - 1 in items.Keys;
  }

  /** What demotion makes of a pool: of each account the executable transactions stay pending, the
      outdated and the unpayable are gone, all others are queued, and the virtual nonce of each account
      with pending transactions is the one after the last of them; other virtual nonces stay. */
  ghost predicate Demoted(p: Pool, q: Pool, h: Head) {
    && Partition(q)
    && (forall a :: PendOf(q.pending, a).items == Executable(PendOf(p.pending, a).items, h, a))
    && (forall t :: t in q.all <==> t in p.all && !Unpayable(p.pending, h, t))
    && AfterLast(q.pending, p.nonces, q.nonces)
  }

  ghost predicate AfterLast(pending: Lists, before: map<Address, nat>, nonces: map<Address, nat>) {
    && nonces.Keys == before.Keys + pending.Keys
    && (forall a :: a in pending ==> pending[a].items.Keys != {} && nonces[a] == Highest(pending[a].items.Keys) + 1)
    && (forall a :: a in before && a !in pending ==> nonces[a] == before[a])
  }

  /** The condition under which demotion leaves an account without a gap, read off the pool before it:
      the list has no hole; and if its chain nonce is missing or unpayable, so that nothing stays
      pending, the virtual nonce is the chain nonce already. */
  ghost predicate Settles(p: Pool, h: Head, a: Address) {
    var items, n := PendOf(p.pending, a).items, Nonce(h, a);
    NoHole(items, h, a) && ((n in items && Affordable(items[n], h, a)) || VirtualNonce(p.nonces, h, a) == n)
  }

  /** Something stays pending if and only if the chain nonce is listed and payable. */
  lemma StaysPending(p: Pool, q: Pool, h: Head, a: Address)
    requires Demoted(p, q, h)
    ensures var items, n := PendOf(p.pending, a).items, Nonce(h, a);
      a in q.pending <==> n in items && Affordable(items[n], h, a)
  {
    hide Fit, Unpayable, AfterLast, Shares, AccountList;
    InFit(PendOf(p.pending, a).items, h, a, Nonce(h, a));
    assert PendOf(q.pending, a).items == Executable(PendOf(p.pending, a).items, h, a);
  }

  /** Exactly when demotion leaves the pending nonces of all accounts without gaps. */
  lemma DemotedExactly(p: Pool, q: Pool, h: Head)
    requires Demoted(p, q, h)
    ensures Gapless(q.pending, q.nonces, h) <==> forall a :: Settles(p, h, a)
  {
    hide PartitionWith, Gapless, Executable, Unpayable, AfterLast, NoHole, Grounded;
    GroundedIsGapless(q.pending, p.nonces, q.nonces, h);
    forall a
      ensures Settles(p, h, a) <==>
        Grounded(PendOf(q.pending, a).items, Nonce(h, a)) &&
        (a !in q.pending ==> VirtualNonce(p.nonces, h, a) == Nonce(h, a))
    {
      StaysPending(p, q, h, a);
      GroundedExactly(PendOf(p.pending, a).items, h, a);
      assert PendOf(q.pending, a).items == Executable(PendOf(p.pending, a).items, h, a);
    }
  }

  // Promotion does not close a gap.

  lemma {:induction false} MergeRun(items: Items, txs: seq<Tx>, low: nat)
    requires forall i :: 0 <= i < |txs| ==> txs[i].nonce == low + i
    ensures forall k :: k in Merge(items, txs) <==> k in items || low <= k < low + |txs|
    ensures forall k :: low <= k < low + |txs| ==> Merge(items, txs)[k] == txs[k - low]
    ensures forall k :: k in items && !(low <= k < low + |txs|) ==> Merge(items, txs)[k] == items[k]
    decreases |txs|
  {
    if txs != [] {
      var rest := txs[1..];
      assert forall i :: 0 <= i < |rest| ==> rest[i] == txs[i + 1];
      MergeRun(items[low := txs[0]], rest, low + 1);
    }
  }

  /** A promoted run takes the nonces from the lowest one on. */
  lemma ReadyRun(items: Items, start: nat)
    requires Keyed(items) && Ready(items, start) != []
    ensures items.Keys != {} && Lowest(items.Keys) <= start
    ensures var run, low := Ready(items, start), Lowest(items.Keys);
      && (forall i :: 0 <= i < |run| ==> run[i].nonce == low + i) && run[0] == items[low]
      && (forall k :: low <= k < low + |run| ==> k in items) && NextNonce(run, start) == low + |run|
  {
    var run, low := Ready(items, start), Lowest(items.Keys);
    forall i | 0 <= i < |run|
      ensures run[i].nonce == low + i && low + i in items
    {
      assert On(items, low + i, run[i]);
    }
    forall k | low <= k < low + |run|
      ensures k in items
    {
      var i := k - low;
      assert run[i].nonce == low + i;
    }
    assert On(items, low + 0, run[0]);
  }

  lemma WindowClosesNoGap(pend: set<nat>, low: nat, next: nat, n: nat, v: nat)
    requires n <= low <= v && low < next && forall k :: low <= k < next ==> k !in pend
    requires if pend == {} then v <= n else v == Highest(pend) + 1
    requires forall k :: k in pend || low <= k < next <==> n <= k < next
    ensures n <= v && forall k :: k in pend <==> n <= k < v
  {
    if pend != {} {
      var top := Highest(pend);
      assert top in pend && n <= top < next && !(low <= top < next);
    }
  }

  /** If a promoted run ends without a gap, there was none before: the nonces of the run are not
      pending, and the virtual nonce was the one after the last pending one. */
  lemma RunClosesNoGap(pend: Items, queue: Items, n: nat, v: nat)
    requires Keyed(queue) && pend.Keys !! queue.Keys && forall k :: k in queue ==> k >= n
    requires if pend.Keys == {} then v <= n else v == Highest(pend.Keys) + 1
    requires Contiguous(Merge(pend, Ready(queue, v)), n, NextNonce(Ready(queue, v), v))
    ensures Contiguous(pend, n, v)
  {
    hide Ready, Merge, NextNonce, Lowest, Highest;
    var run := Ready(queue, v);
    if run == [] {
      assert Merge(pend, run) == pend && NextNonce(run, v) == v by {
        NoRun(pend, v);
      }
    } else {
      ReadyRun(queue, v);
      var low := Lowest(queue.Keys);
      MergeRun(pend, run, low);
      assert low in queue;
      forall k | low <= k < low + |run|
        ensures k !in pend.Keys
      {
        assert k in queue.Keys;
      }
      WindowClosesNoGap(pend.Keys, low, low + |run|, n, v);
    }
  }

  lemma NoRun(items: Items, v: nat)
    ensures Merge(items, []) == items && NextNonce([], v) == v
  {
  }

  /** The stages of a reset: the discarded transactions are back, the unexecutable ones demoted, the
      executable ones promoted, the limits enforced. */
  ghost predicate ResetSteps(p: Pool, p': Pool, h: Head, lim: Limits, reinject: seq<Tx>,
      mid: Pool, demoted: Pool, promoted: Pool, level: nat)
  {
    && (exists q, l :: BatchAdded(p.(nonces := map[]), mid, h, lim, reinject, q, l))
    && Partition(mid) && Demoted(mid, demoted, h)
    && Promoted(demoted, promoted, h, lim, demoted.queue.Keys)
    && KeptFit(promoted, p', h, lim, level)
  }

  lemma {:induction false} AddingKeepsNonces(p: Pool, lim: Limits, txs: seq<Tx>)
    ensures AddedAll(p, lim, txs).nonces == p.nonces
    decreases |txs|
  {
    if txs != [] {
      AddingKeepsNonces(p, lim, txs[..|txs| - 1]);
    }
  }

  /** When the virtual nonces have started over and discarded transactions come back, the virtual nonce
      of an account rises above its chain nonce only with a payable pending transaction there, and
      falls below it only if too many transactions became pending. */
  lemma ReaddedNonces(p: Pool, mid: Pool, h: Head, lim: Limits, txs: seq<Tx>, q: Pool, l: nat, a: Address)
    requires Partition(p) && p.nonces == map[] && BatchAdded(p, mid, h, lim, txs, q, l)
    requires Partition(AddedAll(p, lim, txs))
    ensures var items, n, v := PendOf(mid.pending, a).items, Nonce(h, a), VirtualNonce(mid.nonces, h, a);
      && (v > n ==> n in items && Affordable(items[n], h, a))
      && (v < n ==> Total(q.pending) > lim.globalSlots)
  {
    hide PartitionWith, Total, Needed, Cap, Dirty, AddedAll, Ready, AfterReady, Merge, FitQueue;
    AddingKeepsNonces(p, lim, txs);
    var added, n := AddedAll(p, lim, txs), Nonce(h, a);
    if Dirty(p, lim, txs) != {} {
      PromotedNonce(added, q, h, lim, Dirty(p, lim, txs), a);
      if Total(q.pending) > lim.globalSlots {
        CutKeepsNonce(PendOf(q.pending, a).items, l, n, VirtualNonce(q.nonces, h, a));
      }
    }
  }

  /** Promotion from the chain nonce. */
  lemma PromotedNonce(p: Pool, q: Pool, h: Head, lim: Limits, accounts: set<Address>, a: Address)
    requires Partition(p) && Promoted(p, q, h, lim, accounts) && VirtualNonce(p.nonces, h, a) == Nonce(h, a)
    ensures var items, n, v := PendOf(q.pending, a).items, Nonce(h, a), VirtualNonce(q.nonces, h, a);
      v >= n && (v > n ==> n in items && Affordable(items[n], h, a))
  {
    hide PartitionWith, Ready, Merge, Cap, AfterReady, FitQueue, Affordable;
    var fit, n := FitQueue(QueueOf(p.queue, a).items, h, a), Nonce(h, a);
    InFitQueue(p, h, a);
    var run := Ready(fit, n);
    if a in accounts && run != [] {
      RunFromNonce(PendOf(p.pending, a).items, fit, n);
      assert Affordable(fit[n], h, a);
    }
  }

  lemma RunFromNonce(pend: Items, fit: Items, n: nat)
    requires Keyed(fit) && (forall k :: k in fit ==> k >= n) && Ready(fit, n) != []
    ensures n in fit && NextNonce(Ready(fit, n), n) > n
    ensures n in Merge(pend, Ready(fit, n)) && Merge(pend, Ready(fit, n))[n] == fit[n]
  {
    hide Ready, Merge, NextNonce, Lowest;
    ReadyRun(fit, n);
    assert Lowest(fit.Keys) in fit;
    MergeRun(pend, Ready(fit, n), n);
  }

  lemma InFitQueue(p: Pool, h: Head, a: Address)
    requires Partition(p)
    ensures var fit := FitQueue(QueueOf(p.queue, a).items, h, a);
      && Keyed(fit) && fit.Keys !! PendOf(p.pending, a).items.Keys
      && forall k :: k in fit ==> k >= Nonce(h, a) && Affordable(fit[k], h, a)
  {
    hide PartitionWith, AccountList;
    PartitionLists(p, {}, a);
    AccountListFacts(QueueOf(p.queue, a), false, a);
  }

  lemma CutKeepsNonce(items: Items, level: nat, n: nat, v: nat)
    ensures n in items && Lowered(v, items, level) > n ==> n in Cap(items, level) && Cap(items, level)[n] == items[n]
    ensures Lowered(v, items, level) <= v
  {
    hide Cap;
    if n in items && n !in Cap(items, level) {
      assert n in items.Keys - Cap(items, level).Keys;
    }
  }

  /** Promotion closes no gap that demotion has left. */
  lemma GapShows(mid: Pool, demoted: Pool, promoted: Pool, h: Head, lim: Limits, accounts: set<Address>)
    requires Demoted(mid, demoted, h) && Promoted(demoted, promoted, h, lim, accounts)
    requires forall a :: VirtualNonce(mid.nonces, h, a) > Nonce(h, a) ==>
      Nonce(h, a) in PendOf(mid.pending, a).items && Affordable(PendOf(mid.pending, a).items[Nonce(h, a)], h, a)
    requires Gapless(promoted.pending, promoted.nonces, h)
    ensures Gapless(demoted.pending, demoted.nonces, h)
  {
    hide PartitionWith, Ready, Merge, Cap, AfterReady, FitQueue, Executable, Unpayable, Contiguous, NextNonce;
    forall a
      ensures Contiguous(PendOf(demoted.pending, a).items, Nonce(h, a), VirtualNonce(demoted.nonces, h, a))
    {
      GaplessFact(promoted, h, a);
      StaysPending(mid, demoted, h, a);
      InFitQueue(demoted, h, a);
      if a in accounts {
        RunClosesNoGap(PendOf(demoted.pending, a).items, FitQueue(QueueOf(demoted.queue, a).items, h, a),
                       Nonce(h, a), VirtualNonce(demoted.nonces, h, a));
      }
    }
  }

  /** Moves the pool to a new chain head: virtual nonces start over, discarded transactions come
      back, what the new head makes unexecutable is demoted, and the queue is looked through again.
      The partition always survives. Demotion leaves the pending nonces of all accounts without gaps if
      and only if every account settles once the discarded transactions are back. Then they have no
      gaps in the end either; and only then, if nothing has to be cut in the end. */
  method Reset(p: Pool, h: Head, lim: Limits, reinject: seq<Tx>)
      returns (p': Pool, ghost mid: Pool, ghost demoted: Pool, ghost promoted: Pool, ghost level: nat)
    requires Partition(p) && lim.accountSlots >= 1
    ensures Partition(p') && WithinLimits(p', lim)
    ensures ResetSteps(p, p', h, lim, reinject, mid, demoted, promoted, level)
    ensures reinject == [] ==> mid == p.(nonces := map[])
    ensures Gapless(demoted.pending, demoted.nonces, h) <==> forall a :: Settles(mid, h, a)
    ensures Gapless(demoted.pending, demoted.nonces, h) ==> Gapless(p'.pending, p'.nonces, h)
    ensures Total(promoted.pending) <= lim.globalSlots && Gapless(p'.pending, p'.nonces, h) ==>
      Gapless(demoted.pending, demoted.nonces, h)
    ensures |p.all| <= lim.globalSlots + lim.globalQueue ==> |p'.all| <= lim.globalSlots + lim.globalQueue
  {
    hide PartitionWith, Gapless, WithinLimits, Executable, AfterLast, Unpayable, Promoted, KeptFit, BatchAdded, Settles,
      AddedAll, Total;
    NoncesDontMatter(p, {}, map[]);
    var start := p.(nonces := map[]);
    ghost var q, l;
    p', q, l := AddTxs(start, h, lim, reinject);
    mid := p';
    EmptyBatch(start, mid, h, lim, reinject, q, l);
    p' := DemoteUnexecutables(p', h, lim);
    PartitionListsOk(p');
    var nonces := PendingNonces(p'.pending, p'.nonces);
    NoncesDontMatter(p', {}, nonces);
    p' := p'.(nonces := nonces);
    demoted := p';
    DemotedExactly(mid, demoted, h);
    var accounts := Order(p'.queue.Keys);
    p', promoted, level := PromoteExecutables(p', h, lim, accounts);
    if Total(promoted.pending) <= lim.globalSlots && Gapless(p'.pending, p'.nonces, h) {
      NothingCut(promoted, p', h, lim, level);
      forall a
        ensures VirtualNonce(mid.nonces, h, a) > Nonce(h, a) ==>
          Nonce(h, a) in PendOf(mid.pending, a).items && Affordable(PendOf(mid.pending, a).items[Nonce(h, a)], h, a)
      {
        ReaddedNonces(start, mid, h, lim, reinject, q, l, a);
      }
      GapShows(mid, demoted, promoted, h, lim, demoted.queue.Keys);
    }
    assert demoted.all <= mid.all;
    SmallerSet(p'.all, mid.all);
  }

  lemma NothingCut(p: Pool, p': Pool, h: Head, lim: Limits, level: nat)
    requires KeptFit(p, p', h, lim, level) && Total(p.pending) <= lim.globalSlots
    ensures p'.pending == p.pending && p'.nonces == p.nonces
  {
  }

  lemma EmptyBatch(p: Pool, p': Pool, h: Head, lim: Limits, txs: seq<Tx>, q: Pool, l: nat)
    requires BatchAdded(p, p', h, lim, txs, q, l)
    ensures txs == [] ==> p' == p
  {
  }

  lemma PartitionListsOk(p: Pool)
    requires Partition(p)
    ensures ListsOk(p.pending, true)
  {
  }

  /** With no discarded transactions, a pool without gaps settles at any new head. */
  lemma GaplessSettles(p: Pool, h: Head, h': Head)
    requires Gapless(p.pending, p.nonces, h)
    ensures forall a :: Settles(p.(nonces := map[]), h', a)
  {
    hide Executable, NoHole, Grounded;
    forall a
      ensures Settles(p.(nonces := map[]), h', a)
    {
      GaplessFact(p, h, a);
      DemotedIsGrounded(PendOf(p.pending, a).items, h', a);
      GroundedExactly(PendOf(p.pending, a).items, h', a);
    }
  }

  lemma EmptyPool(h: Head)
    ensures Partition(EMPTY) && Gapless(EMPTY.pending, EMPTY.nonces, h)
  {
  }

  // The pool as an object, and its runs.

  /** Adding one transaction: into a full pool, or in competition with one of the same nonce, nothing
      more happens; otherwise the sender is promoted and the limits enforced. */
  ghost predicate Submitted(p: Pool, p': Pool, h: Head, lim: Limits, tx: Tx) {
    var q := Added(p, lim, tx);
    if |p.all| >= lim.globalSlots + lim.globalQueue || Occupied(p, tx) then p' == q
    else exists r, l :: Promoted(q, r, h, lim, {tx.from}) && KeptFit(r, p', h, lim, l)
  }

  /** Removing one transaction: a queued one just leaves; a pending one takes everything above it
      back to the queue and lowers the virtual nonce. */
  ghost predicate Removed(p: Pool, p': Pool, h: Head, tx: Tx) {
    && p'.all == p.all - {tx} && (tx !in p.all ==> p' == p)
    && (Listed(QueueOf(p.queue, tx.from).items, tx) ==>
          && p'.pending == p.pending && p'.nonces == p.nonces
          && p'.queue == PutList(p.queue, tx.from, Remove(QueueOf(p.queue, tx.from), tx.nonce)))
    && (Listed(PendOf(p.pending, tx.from).items, tx) ==>
          && PendOf(p'.pending, tx.from).items == Below(PendOf(p.pending, tx.from).items, tx.nonce)
          && p'.nonces == LowerNonce(p, h, tx.from, tx.nonce).nonces
          && forall b :: b != tx.from ==> PendOf(p'.pending, b) == PendOf(p.pending, b))
  }

  ghost predicate Sound(p: Pool, lim: Limits) {
    Partition(p) && |p.all| <= lim.globalSlots + lim.globalQueue
  }

  class TransactionPool {
    const lim: Limits
    var pending: Lists
    var queue: Lists
    var all: set<Tx>
    var nonces: map<Address, nat>
    var head: Head
    /** No head change has brought back transactions of abandoned blocks. */
    ghost var calm: bool

    function View(): Pool
      reads this
    {
      Pool(pending, queue, all, nonces)
    }

    ghost predicate Valid()
      reads this
    {
      lim.accountSlots >= 1 && Sound(View(), lim) && (calm ==> Gapless(pending, nonces, head))
    }

    constructor (lim: Limits, head: Head)
      requires lim.accountSlots >= 1
      ensures Valid() && this.lim == lim && this.head == head && calm && View() == EMPTY
    {
      this.lim, this.head, this.calm := lim, head, true;
      pending, queue, all, nonces := map[], map[], {}, map[];
      new;
      EmptyPool(head);
    }

    /** Takes over a new state of the pool. */
    method Store(p: Pool)
      modifies `pending, `queue, `all, `nonces
      ensures View() == p
    {
      pending, queue, all, nonces := p.pending, p.queue, p.all, p.nonces;
    }

    method AddTransaction(tx: Tx) returns (err: AddError)
      requires Valid()
      modifies `pending, `queue, `all, `nonces
      ensures Valid() && Submitted(old(View()), View(), head, lim, tx)
      ensures err == PoolFull <==> |old(all)| >= lim.globalSlots + lim.globalQueue
      ensures err == Underpriced <==>
        |old(all)| < lim.globalSlots + lim.globalQueue && Outbid(old(View()), tx, lim.bump)
    {
      hide PartitionWith, Gapless, Occupied, Displaced, Promoted, KeptFit, Added, Outbid;
      var p;
      ghost var added, promoted, level;
      p, err, added, promoted, level := AddTx(View(), head, lim, tx);
      if err == Accepted {
        GrowsByOne(all, Displaced(View(), tx), tx);
        SmallerSet(p.all, added.all);
      }
      Store(p);
    }

    method AddTransactions(txs: seq<Tx>)
      requires Valid()
      modifies `pending, `queue, `all, `nonces
      ensures Valid() && exists q, l :: BatchAdded(old(View()), View(), head, lim, txs, q, l)
    {
      hide PartitionWith, Gapless, BatchAdded;
      var p;
      ghost var promoted, level;
      p, promoted, level := AddTxs(View(), head, lim, txs);
      Store(p);
      assert BatchAdded(old(View()), View(), head, lim, txs, promoted, level);
    }

    method RemoveTransaction(tx: Tx)
      requires Valid()
      modifies `pending, `queue, `all, `nonces
      ensures Valid() && Removed(old(View()), View(), head, tx)
    {
      hide PartitionWith, Gapless, LowerNonce;
      var p := RemoveTx(View(), head, lim, tx);
      SmallerSet(p.all, all);
      Store(p);
    }

    /** Drops everything queued for an account that has been idle for too long. */
    method EvictAccount(a: Address)
      requires Valid()
      modifies `pending, `queue, `all, `nonces
      ensures Valid() && pending == old(pending) && nonces == old(nonces) && queue == old(queue) - {a}
    {
      hide PartitionWith, Gapless;
      var p := Evict(View(), head, lim, a);
      SmallerSet(p.all, all);
      Store(p);
    }

    /** Follows the chain to a new head. */
    method ResetTo(h: Head, reinject: seq<Tx>)
      requires Valid()
      modifies this
      ensures Valid() && head == h && WithinLimits(View(), lim)
      ensures exists mid, demoted, promoted, level ::
        ResetSteps(old(View()), View(), h, lim, reinject, mid, demoted, promoted, level)
      ensures calm == (old(calm) && reinject == [])
    {
      hide PartitionWith, Gapless, WithinLimits, Settles, ResetSteps;
      var p;
      ghost var mid, demoted, promoted, level;
      p, mid, demoted, promoted, level := Reset(View(), h, lim, reinject);
      if calm && reinject == [] {
        GaplessSettles(View(), head, h);
      }
      Store(p);
      head, calm := h, calm && reinject == [];
      assert ResetSteps(old(View()), View(), h, lim, reinject, mid, demoted, promoted, level);
    }
  }

  datatype Event =
    | Submit(tx: Tx)
    | SubmitAll(txs: seq<Tx>)
    | Drop(tx: Tx)
    | Idle(account: Address)
    | NewHead(head: Head, reinject: seq<Tx>)

  datatype Situation = Situation(pool: Pool, head: Head)

  ghost predicate Stepped(s: Situation, e: Event, s': Situation, lim: Limits) {
    match e
    case Submit(tx) => s'.head == s.head && Submitted(s.pool, s'.pool, s.head, lim, tx)
    case SubmitAll(txs) => s'.head == s.head && exists q, l :: BatchAdded(s.pool, s'.pool, s.head, lim, txs, q, l)
    case Drop(tx) => s'.head == s.head && Removed(s.pool, s'.pool, s.head, tx)
    case Idle(a) => s'.head == s.head && s'.pool == s.pool.(queue := s.pool.queue - {a}, all := s'.pool.all)
    case NewHead(h, reinject) =>
      s'.head == h &&
      exists mid, demoted, promoted, level ::
        ResetSteps(s.pool, s'.pool, h, lim, reinject, mid, demoted, promoted, level)
  }

  // The limits over a run.

  lemma SameSizes(m: Lists, a: Address, l: TList)
    requires a in m && |l.items| == |m[a].items|
    ensures Total(m[a := l]) == Total(m)
    ensures forall b :: b in m[a := l] ==> b in m && |m[a := l][b].items| == |m[b].items|
  {
    hide Total;
    TotalUpdate(m, a, l);
  }

  lemma SameKeySize(items: Items, k: nat, t: Tx)
    requires k in items
    ensures |items[k := t]| == |items|
  {
    assert items[k := t].Keys == items.Keys;
  }

  /** An addition that brings no new nonce changes no count. */
  lemma ReplacingKeepsLimits(p: Pool, lim: Limits, tx: Tx)
    requires WithinLimits(p, lim) && (|p.all| >= lim.globalSlots + lim.globalQueue || Occupied(p, tx))
    ensures WithinLimits(Added(p, lim, tx), lim)
  {
    hide Total, Accepts;
    var pend, queue, q := PendOf(p.pending, tx.from).items, QueueOf(p.queue, tx.from).items, Added(p, lim, tx);
    if q != p && tx.nonce in pend {
      SameKeySize(pend, tx.nonce, tx);
      SameSizes(p.pending, tx.from, q.pending[tx.from]);
      assert q.pending == p.pending[tx.from := q.pending[tx.from]];
    } else if q != p {
      SameKeySize(queue, tx.nonce, tx);
      SameSizes(p.queue, tx.from, q.queue[tx.from]);
      assert q.queue == p.queue[tx.from := q.queue[tx.from]];
    }
  }

  lemma {:induction false} CleanBatchKeepsLimits(p: Pool, lim: Limits, txs: seq<Tx>)
    requires WithinLimits(p, lim) && Dirty(p, lim, txs) == {}
    ensures WithinLimits(AddedAll(p, lim, txs), lim)
    decreases |txs|
  {
    hide WithinLimits, Added, Occupied;
    if txs != [] {
      var rest, tx := txs[..|txs| - 1], txs[|txs| - 1];
      assert Dirty(p, lim, rest) <= Dirty(p, lim, txs);
      assert tx.from in Dirty(p, lim, txs) || |AddedAll(p, lim, rest).all| >= lim.globalSlots + lim.globalQueue
             || Occupied(AddedAll(p, lim, rest), tx);
      CleanBatchKeepsLimits(p, lim, rest);
      ReplacingKeepsLimits(AddedAll(p, lim, rest), lim, tx);
    }
  }

  /** Taking away queued transactions keeps the limits. */
  lemma UnqueueKeepsLimits(p: Pool, p': Pool, lim: Limits, a: Address, l: TList)
    requires WithinLimits(p, lim) && p'.pending == p.pending && |l.items| <= |QueueOf(p.queue, a).items|
    requires p'.queue == PutList(p.queue, a, l) || p'.queue == p.queue - {a}
    ensures WithinLimits(p', lim)
  {
    hide Total;
    if a in p.queue {
      TotalPut(p.queue, a, l);
      TotalRemove(p.queue, a);
    } else {
      assert p.queue - {a} == p.queue;
    }
  }

  /** Every step keeps the limits, except that removing a pending transaction may fill the queue. */
  lemma StepKeepsLimits(s: Situation, e: Event, s': Situation, lim: Limits)
    requires Partition(s.pool) && WithinLimits(s.pool, lim) && Stepped(s, e, s', lim)
    requires e.Drop? ==> !Listed(PendOf(s.pool.pending, e.tx.from).items, e.tx)
    ensures WithinLimits(s'.pool, lim)
  {
    hide PartitionWith, WithinLimits, Promoted, KeptFit, Added, AddedAll, Dirty, Occupied, Demoted;
    match e
    case Submit(tx) =>
      var q := Added(s.pool, lim, tx);
      if |s.pool.all| >= lim.globalSlots + lim.globalQueue || Occupied(s.pool, tx) {
        ReplacingKeepsLimits(s.pool, lim, tx);
      } else {
        var r, l :| Promoted(q, r, s.head, lim, {tx.from}) && KeptFit(r, s'.pool, s.head, lim, l);
        FitIsWithin(r, s'.pool, s.head, lim, l);
      }
    case SubmitAll(txs) =>
      var q, l :| BatchAdded(s.pool, s'.pool, s.head, lim, txs, q, l);
      if Dirty(s.pool, lim, txs) == {} {
        CleanBatchKeepsLimits(s.pool, lim, txs);
      } else {
        FitIsWithin(q, s'.pool, s.head, lim, l);
      }
    case Drop(tx) =>
      ListedIsKnown(s.pool, tx);
      if tx in s.pool.all {
        var queue := QueueOf(s.pool.queue, tx.from);
        PartitionLists(s.pool, {}, tx.from);
        RemovedSize(queue, tx.nonce);
        UnqueueKeepsLimits(s.pool, s'.pool, lim, tx.from, Remove(queue, tx.nonce));
      }
    case Idle(a) =>
      UnqueueKeepsLimits(s.pool, s'.pool, lim, a, NewList(false));
    case NewHead(h, reinject) =>
      var mid, demoted, promoted, l :| ResetSteps(s.pool, s'.pool, h, lim, reinject, mid, demoted, promoted, l);
      FitIsWithin(promoted, s'.pool, h, lim, l);
  }

  lemma RemovedSize(l: TList, k: nat)
    ensures !l.strict ==> |Remove(l, k).items| <= |l.items|
  {
    assert (l.items - {k}).Keys == l.items.Keys - {k};
  }

  /** None of the first `i` events removes a pending transaction. */
  ghost predicate Undisturbed(trace: seq<Situation>, events: seq<Event>, i: nat) {
    forall j :: 0 <= j < i && j < |trace| && j < |events| && events[j].Drop? ==>
      !Listed(PendOf(trace[j].pool.pending, events[j].tx.from).items, events[j].tx)
  }

  /** Over a run the limits hold until a pending transaction is removed. */
  lemma {:induction false} RunKeepsLimits(trace: seq<Situation>, events: seq<Event>, lim: Limits, i: nat)
    requires |trace| == |events| + 1 && i <= |events| && trace[0].pool == EMPTY && Undisturbed(trace, events, i)
    requires forall j :: 0 <= j < |events| ==> Stepped(trace[j], events[j], trace[j + 1], lim)
    requires forall j :: 0 <= j <= |events| ==> Sound(trace[j].pool, lim)
    ensures WithinLimits(trace[i].pool, lim)
  {
    hide WithinLimits, Stepped, PartitionWith;
    if i == 0 {
      EmptyWithin(lim);
    } else {
      RunKeepsLimits(trace, events, lim, i - 1);
      assert Sound(trace[i - 1].pool, lim);
      assert Stepped(trace[i - 1], events[i - 1], trace[i - 1 + 1], lim);
      StepKeepsLimits(trace[i - 1], events[i - 1], trace[i], lim);
    }
  }

  lemma EmptyWithin(lim: Limits)
    ensures WithinLimits(EMPTY, lim)
  {
  }

  /** None of the events brings back transactions of abandoned blocks. */
  predicate Calm(events: seq<Event>) {
    forall e :: e in events && e.NewHead? ==> e.reinject == []
  }

  /** Whatever happens to a pool, at every point of the run: the index holds exactly the listed
      transactions, no nonce is both pending and queued, the total size is bounded; until a pending
      transaction is removed, the global limits hold; and as long as no transactions of abandoned
      blocks have come back, the pending nonces of each account run from its chain nonce up to its
      virtual nonce. */
  method Run(lim: Limits, genesis: Head, events: seq<Event>) returns (trace: seq<Situation>)
    requires lim.accountSlots >= 1
    ensures |trace| == |events| + 1 && trace[0] == Situation(EMPTY, genesis)
    ensures forall i :: 0 <= i < |events| ==> Stepped(trace[i], events[i], trace[i + 1], lim)
    ensures forall i :: 0 <= i <= |events| ==> Sound(trace[i].pool, lim)
    ensures forall i :: 0 <= i <= |events| && Undisturbed(trace, events, i) ==> WithinLimits(trace[i].pool, lim)
    ensures forall i :: 0 <= i <= |events| && Calm(events[..i]) ==>
      Gapless(trace[i].pool.pending, trace[i].pool.nonces, trace[i].head)
  {
    hide Sound, Gapless, Stepped, Calm, Undisturbed, WithinLimits;
    var pool := new TransactionPool(lim, genesis);
    trace := [Situation(EMPTY, genesis)];
    CalmSoFar(events, 0);
    for i := 0 to |events|
      invariant pool.Valid() && fresh(pool) && pool.lim == lim
      invariant |trace| == i + 1 && trace[0] == Situation(EMPTY, genesis)
      invariant trace[i] == Situation(pool.View(), pool.head)
      invariant pool.calm == Calm(events[..i])
      invariant forall j :: 0 <= j < i ==> Stepped(trace[j], events[j], trace[j + 1], lim)
      invariant forall j :: 0 <= j <= i ==> Sound(trace[j].pool, lim)
      invariant forall j :: 0 <= j <= i && Calm(events[..j]) ==>
        Gapless(trace[j].pool.pending, trace[j].pool.nonces, trace[j].head)
    {
      CalmSoFar(events, i);
      Next(pool, events[i]);
      trace := trace + [Situation(pool.View(), pool.head)];
    }
    forall i | 0 <= i <= |events| && Undisturbed(trace, events, i)
      ensures WithinLimits(trace[i].pool, lim)
    {
      RunKeepsLimits(trace, events, lim, i);
    }
  }

  lemma CalmSoFar(events: seq<Event>, i: nat)
    requires i <= |events|
    ensures Calm(events[..0])
    ensures i < |events| ==>
      (Calm(events[..i + 1]) <==> Calm(events[..i]) && (events[i].NewHead? ==> events[i].reinject == []))
  {
    if i < |events| {
      assert events[..i + 1] == events[..i] + [events[i]];
    }
  }

  /** One event. */
  method Next(pool: TransactionPool, e: Event)
    requires pool.Valid()
    modifies pool
    ensures pool.Valid()
    ensures Stepped(Situation(old(pool.View()), old(pool.head)), e, Situation(pool.View(), pool.head), pool.lim)
    ensures pool.calm == (old(pool.calm) && (e.NewHead? ==> e.reinject == []))
  {
    hide Sound, Gapless, WithinLimits, Submitted, Removed, BatchAdded, ResetSteps;
    match e
    case Submit(tx) =>
      var err := pool.AddTransaction(tx);
    case SubmitAll(txs) =>
      pool.AddTransactions(txs);
    case Drop(tx) =>
      pool.RemoveTransaction(tx);
    case Idle(a) =>
      pool.EvictAccount(a);
    case NewHead(h, reinject) =>
      pool.ResetTo(h, reinject);
  }
}
