/** The operations of the transaction pool (txpool/tx_pool.go). */
module TxPool {
  import opened TxSpec
  import opened TxList
  import opened PoolState

  ghost predicate Distinct(txs: seq<Tx>) {
    forall i, j :: 0 <= i < j < |txs| ==> txs[i] != txs[j]
  }

  function ToSet(txs: seq<Tx>): set<Tx> {
    set t | t in txs
  }

  lemma ToSetHead(txs: seq<Tx>)
    requires Distinct(txs) && txs != []
    ensures ToSet(txs) == ToSet(txs[1..]) + {txs[0]} && txs[0] !in ToSet(txs[1..]) && Distinct(txs[1..])
  {
    assert txs == [txs[0]] + txs[1..];
  }

  /** Moves transactions in hand into the queue, in any order. */
  method EnqueueAll(p: Pool, hand: set<Tx>, bump: nat) returns (p': Pool)
    requires PartitionWith(p, hand)
    ensures Partition(p') && p'.pending == p.pending && p'.nonces == p.nonces && p'.all == p.all
    ensures forall b :: (forall t :: t in hand ==> t.from != b) ==> QueueOf(p'.queue, b) == QueueOf(p.queue, b)
  {
    hide PartitionWith;
    p' := p;
    var rest := hand;
    while rest != {}
      invariant rest <= hand && PartitionWith(p', rest)
      invariant p'.pending == p.pending && p'.nonces == p.nonces && p'.all == p.all
      invariant forall b :: (forall t :: t in hand ==> t.from != b) ==> QueueOf(p'.queue, b) == QueueOf(p.queue, b)
      decreases rest
    {
      var tx :| tx in rest;
      assert rest == (rest - {tx}) + {tx};
      RequeueKeeps(p', tx, rest - {tx}, bump);
      InHandIsKnown(p', rest, tx);
      p' := Enqueue(p', tx, bump);
      rest := rest - {tx};
    }
  }

  lemma ToSetEmpty()
    ensures ToSet([]) == {}
  {
  }

  lemma InHandIsKnown(p: Pool, hand: set<Tx>, t: Tx)
    requires PartitionWith(p, hand) && t in hand
    ensures t in p.all
  {
    assert Share(t.from, PendOf(p.pending, t.from).items, QueueOf(p.queue, t.from).items, p.all, hand);
  }

  // Contiguity.

  ghost predicate GaplessAt(p: Pool, h: Head, a: Address) {
    Contiguous(PendOf(p.pending, a).items, Nonce(h, a), VirtualNonce(p.nonces, h, a))
  }

  lemma GaplessStep(p: Pool, p': Pool, h: Head, a: Address)
    requires Gapless(p.pending, p.nonces, h)
    requires forall b :: b != a ==> PendOf(p'.pending, b) == PendOf(p.pending, b)
    requires forall b :: b != a ==> VirtualNonce(p'.nonces, h, b) == VirtualNonce(p.nonces, h, b)
    requires GaplessAt(p', h, a)
    ensures Gapless(p'.pending, p'.nonces, h)
  {
  }

  /** `txs` continues the pending nonces of account `a`. */
  ghost predicate Continues(txs: seq<Tx>, a: Address, v: nat) {
    forall i :: 0 <= i < |txs| ==> txs[i].from == a && txs[i].nonce == v + i
  }

  lemma PromoteGapless(p: Pool, h: Head, tx: Tx, bump: nat)
    requires Gapless(p.pending, p.nonces, h) && Accepts(PendOf(p.pending, tx.from), tx, bump)
    requires tx.nonce == VirtualNonce(p.nonces, h, tx.from)
    ensures var p' := Promote(p, tx, bump);
      Gapless(p'.pending, p'.nonces, h) && VirtualNonce(p'.nonces, h, tx.from) == tx.nonce + 1
  {
    GaplessStep(p, Promote(p, tx, bump), h, tx.from);
  }

  /** Nothing but account `a` is affected. */
  ghost predicate Elsewhere(p: Pool, p': Pool, a: Address) {
    forall b :: b != a ==>
      && PendOf(p'.pending, b) == PendOf(p.pending, b) && QueueOf(p'.queue, b) == QueueOf(p.queue, b)
      && (b in p'.nonces <==> b in p.nonces) && (b in p.nonces ==> p'.nonces[b] == p.nonces[b])
  }

  lemma ElsewhereTrans(p: Pool, q: Pool, r: Pool, a: Address)
    requires Elsewhere(p, q, a) && Elsewhere(q, r, a)
    ensures Elsewhere(p, r, a)
  {
  }

  /** The items with the given transactions put in, one after the other. */
  function Merge(items: Items, txs: seq<Tx>): Items
    decreases |txs|
  {
    if txs == [] then items else Merge(items[txs[0].nonce := txs[0]], txs[1..])
  }

  /** The virtual nonce once a run has been promoted: the one after its last transaction. */
  function NextNonce(run: seq<Tx>, v: nat): nat {
    if run == [] then v else run[|run| - 1].nonce + 1
  }

  ghost predicate AllFrom(txs: seq<Tx>, a: Address) {
    forall i :: 0 <= i < |txs| ==> txs[i].from == a
  }

  /** Moves transactions in hand into the pending list of their account. If they continue the
      pending nonces, the pending nonces stay without gaps. */
  method PromoteAll(p: Pool, h: Head, txs: seq<Tx>, bump: nat, ghost a: Address) returns (p': Pool)
    requires PartitionWith(p, ToSet(txs)) && Distinct(txs) && AllFrom(txs, a)
    ensures Partition(p') && p'.queue == p.queue && p'.all == p.all && Elsewhere(p, p', a)
    ensures PendOf(p'.pending, a).items == Merge(PendOf(p.pending, a).items, txs)
    ensures VirtualNonce(p'.nonces, h, a) == NextNonce(txs, VirtualNonce(p.nonces, h, a))
    ensures Gapless(p.pending, p.nonces, h) && Continues(txs, a, VirtualNonce(p.nonces, h, a)) ==>
      Gapless(p'.pending, p'.nonces, h)
  {
    hide PartitionWith, ToSet, Distinct, Gapless, Promote, Elsewhere;
    p' := p;
    var rest := txs;
    ghost var nice := Gapless(p.pending, p.nonces, h) && Continues(txs, a, VirtualNonce(p.nonces, h, a));
    assert Elsewhere(p, p', a) by {
      ElsewhereRefl(p, a);
    }
    while rest != []
      invariant PartitionWith(p', ToSet(rest)) && Distinct(rest) && AllFrom(rest, a)
      invariant p'.queue == p.queue && p'.all == p.all && Elsewhere(p, p', a)
      invariant Merge(PendOf(p'.pending, a).items, rest) == Merge(PendOf(p.pending, a).items, txs)
      invariant txs != [] && rest != [] ==> rest[|rest| - 1] == txs[|txs| - 1]
      invariant if |rest| == |txs| then p'.nonces == p.nonces else a in p'.nonces
      invariant |rest| < |txs| && rest == [] ==> p'.nonces[a] == txs[|txs| - 1].nonce + 1
      invariant |rest| <= |txs|
      invariant nice ==> Gapless(p'.pending, p'.nonces, h) && Continues(rest, a, VirtualNonce(p'.nonces, h, a))
      decreases |rest|
    {
      ToSetHead(rest);
      PromoteKeeps(p', rest[0], ToSet(rest[1..]), bump);
      InHandIsKnown(p', ToSet(rest), rest[0]);
      if nice {
        PromoteGapless(p', h, rest[0], bump);
      }
      PromoteFrame(p', rest[0], bump);
      ElsewhereTrans(p, p', Promote(p', rest[0], bump), a);
      p' := Promote(p', rest[0], bump);
      rest := rest[1..];
    }
    ToSetEmpty();
  }

  lemma ElsewhereRefl(p: Pool, a: Address)
    ensures Elsewhere(p, p, a)
  {
  }

  lemma PromoteFrame(p: Pool, tx: Tx, bump: nat)
    requires Accepts(PendOf(p.pending, tx.from), tx, bump) && tx.nonce !in PendOf(p.pending, tx.from).items
    requires tx in p.all
    ensures Promote(p, tx, bump).queue == p.queue && Promote(p, tx, bump).all == p.all
    ensures PendOf(Promote(p, tx, bump).pending, tx.from).items == PendOf(p.pending, tx.from).items[tx.nonce := tx]
    ensures Promote(p, tx, bump).nonces == p.nonces[tx.from := tx.nonce + 1]
    ensures Elsewhere(p, Promote(p, tx, bump), tx.from)
  {
  }

  /** After the outdated nonces are gone, the queue of an account lies above its pending nonces, so
      the executable run starts exactly at the virtual nonce. */
  lemma ReadyStartsAtVirtual(pend: Items, queue: Items, n: nat, v: nat, a: Address)
    requires Contiguous(pend, n, v) && pend.Keys !! queue.Keys && Keyed(queue)
    requires forall k :: k in queue ==> k >= n && queue[k].from == a
    ensures Continues(Ready(queue, v), a, v)
  {
    if Ready(queue, v) != [] {
      var low := Lowest(queue.Keys);
      assert low in queue;
      assert low == v;
    }
  }

  lemma ReadyLost(queue: Items, start: nat)
    requires Keyed(queue)
    ensures Sub(AfterReady(queue, start), queue) && Distinct(Ready(queue, start))
    ensures forall a :: (forall k :: k in queue ==> queue[k].from == a) ==> AllFrom(Ready(queue, start), a)
    ensures ToSet(Ready(queue, start)) == Lost(queue, AfterReady(queue, start))
  {
    var run := Ready(queue, start);
    if run != [] {
      var low := Lowest(queue.Keys);
      forall t
        ensures t in run <==> t in Lost(queue, AfterReady(queue, start))
      {
        if t in run {
          var i :| 0 <= i < |run| && run[i] == t;
          assert low + i in queue && queue[low + i] == t;
        }
        if t in Lost(queue, AfterReady(queue, start)) {
          var k :| k in queue && low <= k < low + |run| && queue[k] == t;
          assert run[k - low] == t;
        }
      }
      forall i, j | 0 <= i < j < |run|
        ensures run[i] != run[j]
      {
        assert run[i].nonce == low + i && run[j].nonce == low + j;
      }
    }
  }

  // Changing one list of one account.

  function SetQueue(p: Pool, a: Address, l: TList, drop: set<Tx>): Pool {
    p.(queue := PutList(p.queue, a, l), all := p.all - drop)
  }

  function SetPend(p: Pool, a: Address, l: TList, drop: set<Tx>): Pool {
    p.(pending := PutList(p.pending, a, l), all := p.all - drop)
  }

  lemma ShrinkQueueKeeps(p: Pool, a: Address, l: TList, taken: set<Tx>)
    requires Partition(p) && AccountList(l, false, a) && Sub(l.items, QueueOf(p.queue, a).items)
    requires taken <= Lost(QueueOf(p.queue, a).items, l.items)
    ensures PartitionWith(SetQueue(p, a, l, Lost(QueueOf(p.queue, a).items, l.items) - taken), taken)
  {
    hide Shares, ListOk;
    var pend := PendOf(p.pending, a);
    ListOfOk(p.pending, true, a);
    ShrinkKeeps(p, a, pend, l, {}, taken);
    assert Lost(pend.items, pend.items) + Lost(QueueOf(p.queue, a).items, l.items)
      == Lost(QueueOf(p.queue, a).items, l.items);
    assert PutList(p.pending, a, pend) == p.pending;
    assert {} + taken == taken;
  }

  lemma ShrinkPendKeeps(p: Pool, a: Address, l: TList, taken: set<Tx>)
    requires Partition(p) && AccountList(l, true, a) && Sub(l.items, PendOf(p.pending, a).items)
    requires taken <= Lost(PendOf(p.pending, a).items, l.items)
    ensures PartitionWith(SetPend(p, a, l, Lost(PendOf(p.pending, a).items, l.items) - taken), taken)
  {
    hide Shares, ListOk;
    var queue := QueueOf(p.queue, a);
    ListOfOk(p.queue, false, a);
    ShrinkKeeps(p, a, l, queue, {}, taken);
    assert Lost(PendOf(p.pending, a).items, l.items) + Lost(queue.items, queue.items)
      == Lost(PendOf(p.pending, a).items, l.items);
    assert PutList(p.queue, a, queue) == p.queue;
    assert {} + taken == taken;
  }

  lemma SubList(l: TList, strict: bool, a: Address, items: Items)
    requires AccountList(l, strict, a) && Sub(items, l.items)
    ensures AccountList(l.(items := items), strict, a)
  {
    ShrinkListKeeps(l, items);
  }

  /** Drops the nonces below the chain's and then what the account cannot pay for. */
  function Refresh(l: TList, h: Head, a: Address): TList {
    Filter(l.(items := AtLeast(l.items, Nonce(h, a))), Balance(h, a), h.maxGas)
  }

  lemma RefreshFacts(l: TList, strict: bool, h: Head, a: Address)
    requires AccountList(l, strict, a)
    ensures AccountList(Refresh(l, h, a), strict, a) && Sub(Refresh(l, h, a).items, l.items)
    ensures Refresh(l, h, a).items == Scan(AtLeast(l.items, Nonce(h, a)), strict, Balance(h, a), h.maxGas)
    ensures forall k :: k in Refresh(l, h, a).items ==> k >= Nonce(h, a)
  {
    SubList(l, strict, a, AtLeast(l.items, Nonce(h, a)));
    FilterIsScan(l.(items := AtLeast(l.items, Nonce(h, a))), Balance(h, a), h.maxGas);
  }

  /** Drops outdated and unpayable transactions from one account's queue. */
  method RefreshQueue(p: Pool, h: Head, a: Address) returns (p': Pool)
    requires Partition(p)
    ensures Partition(p') && p'.pending == p.pending && p'.nonces == p.nonces && Elsewhere(p, p', a)
    ensures QueueOf(p'.queue, a).items
      == Scan(AtLeast(QueueOf(p.queue, a).items, Nonce(h, a)), false, Balance(h, a), h.maxGas)
    ensures p'.all <= p.all
  {
    hide PartitionWith, AccountList, Refresh, Scan, Elsewhere, PutList;
    var l := QueueOf(p.queue, a);
    var l1 := Refresh(l, h, a);
    PartitionLists(p, {}, a);
    RefreshFacts(l, false, h, a);
    ShrinkQueueKeeps(p, a, l1, {});
    assert Lost(l.items, l1.items) - {} == Lost(l.items, l1.items);
    p' := SetQueue(p, a, l1, Lost(l.items, l1.items));
    QueueElsewhere(p, a, l1, Lost(l.items, l1.items));
  }

  /** Takes the executable run of one account off its queue, into the hands of the caller. */
  method TakeRun(p: Pool, h: Head, a: Address) returns (p': Pool, ready: seq<Tx>)
    requires Partition(p) && forall k :: k in QueueOf(p.queue, a).items ==> k >= Nonce(h, a)
    ensures PartitionWith(p', ToSet(ready)) && Distinct(ready) && AllFrom(ready, a)
    ensures p'.pending == p.pending && p'.nonces == p.nonces && p'.all <= p.all && Elsewhere(p, p', a)
    ensures ready == Ready(QueueOf(p.queue, a).items, VirtualNonce(p.nonces, h, a))
    ensures QueueOf(p'.queue, a).items == AfterReady(QueueOf(p.queue, a).items, VirtualNonce(p.nonces, h, a))
    ensures Gapless(p.pending, p.nonces, h) ==> Continues(ready, a, VirtualNonce(p.nonces, h, a))
  {
    hide PartitionWith, AccountList, Contiguous, Gapless, ToSet, Distinct, Lost, Continues, AfterReady, AllFrom,
      Elsewhere, PutList;
    var l := QueueOf(p.queue, a);
    var v := VirtualNonce(p.nonces, h, a);
    ready := Ready(l.items, v);
    var l1 := l.(items := AfterReady(l.items, v));
    PartitionLists(p, {}, a);
    AccountListFacts(l, false, a);
    ReadyLost(l.items, v);
    SubList(l, false, a, l1.items);
    ShrinkQueueKeeps(p, a, l1, ToSet(ready));
    assert Lost(l.items, l1.items) - ToSet(ready) == {};
    p' := SetQueue(p, a, l1, {});
    QueueElsewhere(p, a, l1, {});
    if Gapless(p.pending, p.nonces, h) {
      GaplessFact(p, h, a);
      ReadyStartsAtVirtual(PendOf(p.pending, a).items, l.items, Nonce(h, a), v, a);
    }
  }

  /** Enforces the limit on one account's queue. */
  method CapQueue(p: Pool, lim: Limits, a: Address) returns (p': Pool)
    requires Partition(p)
    ensures Partition(p') && p'.pending == p.pending && p'.nonces == p.nonces && Elsewhere(p, p', a)
    ensures QueueOf(p'.queue, a).items == Cap(QueueOf(p.queue, a).items, lim.accountQueue)
    ensures p'.all <= p.all
  {
    hide PartitionWith, AccountList, Lost, Sub, Cap, Elsewhere, PutList;
    var l := QueueOf(p.queue, a);
    var l1 := l.(items := Cap(l.items, lim.accountQueue));
    PartitionLists(p, {}, a);
    CapSub(l.items, lim.accountQueue);
    SubList(l, false, a, l1.items);
    ShrinkQueueKeeps(p, a, l1, {});
    assert Lost(l.items, l1.items) - {} == Lost(l.items, l1.items);
    p' := SetQueue(p, a, l1, Lost(l.items, l1.items));
    QueueElsewhere(p, a, l1, Lost(l.items, l1.items));
  }

  lemma CapSub(items: Items, n: nat)
    ensures Sub(Cap(items, n), items)
  {
  }

  lemma QueueElsewhere(p: Pool, a: Address, l: TList, drop: set<Tx>)
    ensures Elsewhere(p, SetQueue(p, a, l, drop), a) && QueueOf(SetQueue(p, a, l, drop).queue, a).items == l.items
  {
  }

  lemma PutGet(m: Lists, strict: bool, a: Address, l: TList)
    ensures ListOf(PutList(m, a, l), strict, a).items == l.items
  {
  }

  /** Promotes what has become executable for one account. The outdated and the unpayable leave
      the queue, the executable run moves to the pending list, and the rest stays queued within the
      account's limit. Pending nonces stay without gaps. */
  method PromoteAccount(p: Pool, h: Head, lim: Limits, a: Address) returns (p': Pool)
    requires Partition(p)
    ensures Partition(p') && p'.all <= p.all && Elsewhere(p, p', a)
    ensures
      var fit := Scan(AtLeast(QueueOf(p.queue, a).items, Nonce(h, a)), false, Balance(h, a), h.maxGas);
      var v := VirtualNonce(p.nonces, h, a);
      && PendOf(p'.pending, a).items == Merge(PendOf(p.pending, a).items, Ready(fit, v))
      && QueueOf(p'.queue, a).items == Cap(AfterReady(fit, v), lim.accountQueue)
      && VirtualNonce(p'.nonces, h, a) == NextNonce(Ready(fit, v), v)
    ensures Gapless(p.pending, p.nonces, h) ==> Gapless(p'.pending, p'.nonces, h)
  {
    hide PartitionWith, Gapless, ToSet, Distinct, Elsewhere, AllFrom, Continues, Ready, AfterReady, Cap, Merge,
      NextNonce;
    var p1 := RefreshQueue(p, h, a);
    var p2, ready := TakeRun(p1, h, a);
    ElsewhereTrans(p, p1, p2, a);
    var p3 := PromoteAll(p2, h, ready, lim.bump, a);
    ElsewhereTrans(p, p2, p3, a);
    p' := CapQueue(p3, lim, a);
    ElsewhereTrans(p, p3, p', a);
  }

  lemma GaplessFact(p: Pool, h: Head, a: Address)
    requires Gapless(p.pending, p.nonces, h)
    ensures Contiguous(PendOf(p.pending, a).items, Nonce(h, a), VirtualNonce(p.nonces, h, a))
  {
  }

  lemma PartitionLists(p: Pool, hand: set<Tx>, a: Address)
    requires PartitionWith(p, hand)
    ensures AccountList(PendOf(p.pending, a), true, a) && AccountList(QueueOf(p.queue, a), false, a)
    ensures PendOf(p.pending, a).items.Keys !! QueueOf(p.queue, a).items.Keys
  {
    assert Share(a, PendOf(p.pending, a).items, QueueOf(p.queue, a).items, p.all, hand);
  }

  // Removing one transaction.

  /** Lowers the virtual nonce of an account to a nonce that has become free. */
  function LowerNonce(p: Pool, h: Head, a: Address, nonce: nat): Pool {
    if VirtualNonce(p.nonces, h, a) > nonce then p.(nonces := p.nonces[a := nonce]) else p
  }

  lemma NoncesDontMatter(p: Pool, hand: set<Tx>, nonces: map<Address, nat>)
    requires PartitionWith(p, hand)
    ensures PartitionWith(p.(nonces := nonces), hand)
  {
    hide Share;
  }

  /** Where a known transaction is: pending exactly if its nonce is pending. */
  lemma KnownPlace(p: Pool, tx: Tx)
    requires Partition(p) && tx in p.all
    ensures Listed(PendOf(p.pending, tx.from).items, tx) <==> tx.nonce in PendOf(p.pending, tx.from).items
    ensures Listed(QueueOf(p.queue, tx.from).items, tx) <==> tx.nonce !in PendOf(p.pending, tx.from).items
  {
    assert Share(tx.from, PendOf(p.pending, tx.from).items, QueueOf(p.queue, tx.from).items, p.all, {});
  }

  /** Takes a pending transaction and everything above it off the account's pending list; the rest
      stays in hand. */
  method CutPending(p: Pool, tx: Tx) returns (p': Pool, invalids: set<Tx>)
    requires Partition(p) && Listed(PendOf(p.pending, tx.from).items, tx)
    ensures PartitionWith(p', invalids) && p'.queue == p.queue && p'.nonces == p.nonces
    ensures PendOf(p'.pending, tx.from).items == Below(PendOf(p.pending, tx.from).items, tx.nonce)
    ensures forall b :: b != tx.from ==> PendOf(p'.pending, b) == PendOf(p.pending, b)
    ensures p'.all == p.all - {tx} && tx !in invalids && forall t :: t in invalids ==> t.from == tx.from
  {
    hide PartitionWith, AccountList;
    var a, l := tx.from, PendOf(p.pending, tx.from);
    PartitionLists(p, {}, a);
    AccountListFacts(l, true, a);
    var l1 := l.(items := Below(l.items, tx.nonce));
    var lost := Lost(l.items, l1.items);
    invalids := lost - {tx};
    assert tx in lost;
    SubList(l, true, a, l1.items);
    ShrinkPendKeeps(p, a, l1, invalids);
    assert lost - invalids == {tx};
    p' := SetPend(p, a, l1, {tx});
    PutGet(p.pending, true, a, l1);
  }

  lemma NotStrict(l: TList, a: Address)
    requires AccountList(l, false, a)
    ensures !l.strict
  {
  }

  method CutQueued(p: Pool, tx: Tx) returns (p': Pool)
    requires Partition(p) && Listed(QueueOf(p.queue, tx.from).items, tx)
    ensures Partition(p') && p'.pending == p.pending && p'.nonces == p.nonces
    ensures p'.queue == PutList(p.queue, tx.from, Remove(QueueOf(p.queue, tx.from), tx.nonce))
    ensures p'.all == p.all - {tx}
  {
    hide PartitionWith, AccountList;
    var a, l := tx.from, QueueOf(p.queue, tx.from);
    PartitionLists(p, {}, a);
    NotStrict(l, a);
    var l1 := Remove(l, tx.nonce);
    SubList(l, false, a, l1.items);
    ShrinkQueueKeeps(p, a, l1, {});
    assert Lost(l.items, l1.items) - {} == {tx};
    p' := SetQueue(p, a, l1, {tx});
  }

  lemma CutGapless(p: Pool, p': Pool, h: Head, a: Address, nonce: nat)
    requires Gapless(p.pending, p.nonces, h) && nonce in PendOf(p.pending, a).items
    requires PendOf(p'.pending, a).items == Below(PendOf(p.pending, a).items, nonce)
    requires forall b :: b != a ==> PendOf(p'.pending, b) == PendOf(p.pending, b)
    requires p'.nonces == p.nonces
    ensures Gapless(LowerNonce(p', h, a, nonce).pending, LowerNonce(p', h, a, nonce).nonces, h)
  {
    GaplessFact(p, h, a);
    GaplessStep(p, LowerNonce(p', h, a, nonce), h, a);
  }

  /** Removes one transaction. A pending one takes everything above it back to the queue; removing
      a queued one never touches the pending lists. */
  method RemoveTx(p: Pool, h: Head, lim: Limits, tx: Tx) returns (p': Pool)
    requires Partition(p)
    ensures Partition(p') && p'.all == p.all - {tx}
    ensures Gapless(p.pending, p.nonces, h) ==> Gapless(p'.pending, p'.nonces, h)
    ensures tx !in p.all ==> p' == p
    ensures Listed(QueueOf(p.queue, tx.from).items, tx) ==>
      && p'.pending == p.pending && p'.nonces == p.nonces
      && p'.queue == PutList(p.queue, tx.from, Remove(QueueOf(p.queue, tx.from), tx.nonce))
    ensures Listed(PendOf(p.pending, tx.from).items, tx) ==>
      && PendOf(p'.pending, tx.from).items == Below(PendOf(p.pending, tx.from).items, tx.nonce)
      && p'.nonces == LowerNonce(p, h, tx.from, tx.nonce).nonces
      && forall b :: b != tx.from ==> PendOf(p'.pending, b) == PendOf(p.pending, b)
  {
    hide PartitionWith, Gapless;
    ListedIsKnown(p, tx);
    if tx !in p.all {
      assert p.all - {tx} == p.all;
      return p;
    }
    KnownPlace(p, tx);
    if tx.nonce in PendOf(p.pending, tx.from).items {
      var invalids;
      p', invalids := CutPending(p, tx);
      if Gapless(p.pending, p.nonces, h) {
        CutGapless(p, p', h, tx.from, tx.nonce);
      }
      p' := EnqueueAll(p', invalids, lim.bump);
      NoncesDontMatter(p', {}, LowerNonce(p', h, tx.from, tx.nonce).nonces);
      p' := LowerNonce(p', h, tx.from, tx.nonce);
    } else {
      p' := CutQueued(p, tx);
    }
  }

  lemma ListedIsKnown(p: Pool, tx: Tx)
    requires Partition(p)
    ensures tx in p.all <==> Listed(PendOf(p.pending, tx.from).items, tx) || Listed(QueueOf(p.queue, tx.from).items, tx)
    ensures !(Listed(PendOf(p.pending, tx.from).items, tx) && Listed(QueueOf(p.queue, tx.from).items, tx))
  {
    assert Share(tx.from, PendOf(p.pending, tx.from).items, QueueOf(p.queue, tx.from).items, p.all, {});
  }
}
