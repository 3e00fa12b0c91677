/** Two runs of the transaction pool (txpool/tx_pool.go) in which a reorganisation leaves the pending
    nonces of an account with a gap: inside its list, or in front of its next transaction. */
module PoolGap {
  import opened TxSpec
  import opened TxList
  import opened PoolState
  import opened TxPool
  import opened PoolLimits
  import opened PoolOps

  const LIMITS := Limits(10, 16, 64, 16, 64)

  /** One guaranteed slot for each account, two in all. */
  const TIGHT := Limits(10, 1, 2, 16, 64)

  /** The accounts have reached these nonces on the chain, and can pay 100 each. */
  function At(nonces: map<Address, nat>): Head {
    Head(nonces, map a | a in nonces :: 100, 50)
  }

  predicate Cheap(t: Tx) {
    Cost(t) <= 100 && t.gas <= 50
  }

  type Table = map<Address, Items>

  function ItemsAt(table: Table, a: Address): Items {
    if a in table then table[a] else map[]
  }

  /** These transactions are pending, and these are queued, all for account `c`. */
  ghost predicate Holds(p: Pool, pend: Table, c: Address, queue: Items) {
    forall a ::
      && PendOf(p.pending, a).items == ItemsAt(pend, a)
      && QueueOf(p.queue, a).items == (if a == c then queue else map[])
  }

  lemma HoldsAt(p: Pool, pend: Table, c: Address, queue: Items, a: Address)
    requires Holds(p, pend, c, queue)
    ensures PendOf(p.pending, a).items == ItemsAt(pend, a)
    ensures QueueOf(p.queue, a).items == if a == c then queue else map[]
  {
  }

  // Counting.

  lemma {:induction false} TotalOfTwo(m: Lists, a: Address, b: Address, x: nat, y: nat)
    requires a != b
    requires forall c :: c in m ==> |m[c].items| == if c == a then x else if c == b then y else 0
    requires (a in m || x == 0) && (b in m || y == 0)
    ensures Total(m) == x + y
    decreases |m|
  {
    hide Total;
    if c :| c in m && c != a && c != b {
      TotalRemove(m, c);
      TotalOfTwo(m - {c}, a, b, x, y);
    } else if a in m {
      TotalRemove(m, a);
      TotalOfTwo(m - {a}, a, b, 0, y);
    } else if b in m {
      TotalRemove(m, b);
      TotalOfTwo(m - {b}, a, b, 0, 0);
    } else {
      assert m == map[];
      TotalNone();
    }
  }

  /** What is pending in all, if only two accounts have something. */
  lemma PendingTotal(p: Pool, pend: Table, c: Address, queue: Items, a: Address, b: Address)
    requires Holds(p, pend, c, queue) && a != b && pend.Keys <= {a, b}
    ensures Total(p.pending) == |ItemsAt(pend, a)| + |ItemsAt(pend, b)|
  {
    hide Total, Holds;
    forall d
      ensures d in p.pending ==>
        |p.pending[d].items| == if d == a then |ItemsAt(pend, a)| else if d == b then |ItemsAt(pend, b)| else 0
      ensures d in p.pending || |ItemsAt(pend, d)| == 0
    {
      HoldsAt(p, pend, c, queue, d);
    }
    TotalOfTwo(p.pending, a, b, |ItemsAt(pend, a)|, |ItemsAt(pend, b)|);
  }

  lemma QueuedTotal(m: Lists, c: Address)
    requires forall d :: d != c ==> QueueOf(m, d).items == map[]
    ensures Total(m) == |QueueOf(m, c).items|
  {
    hide Total;
    forall d | d in m && d != c
      ensures |m[d].items| == 0
    {
      assert QueueOf(m, d).items == map[];
    }
    TotalOfTwo(m, c, c + 1, |QueueOf(m, c).items|, 0);
  }

  /** All known transactions are listed. */
  lemma KnownAre(p: Pool, pend: Table, c: Address, queue: Items, known: set<Tx>)
    requires Partition(p) && Holds(p, pend, c, queue)
    requires forall a, k :: a in pend && k in pend[a] ==> pend[a][k] in known
    requires forall k :: k in queue ==> queue[k] in known
    ensures |p.all| <= |known|
  {
    hide PartitionWith, Holds;
    forall t | t in p.all
      ensures t in known
    {
      ListedIsKnown(p, t);
      HoldsAt(p, pend, c, queue, t.from);
    }
    SmallerSet(p.all, known);
  }

  // The stages of an event in a small pool.

  /** Within the limits nothing is cut. */
  lemma SmallEnough(r: Pool, p: Pool, h: Head, lim: Limits, l: nat, pend: Table, c: Address, queue: Items)
    requires Holds(r, pend, c, queue) && KeptFit(r, p, h, lim, l)
    requires Total(r.pending) <= lim.globalSlots && |queue| <= lim.globalQueue
    ensures Holds(p, pend, c, queue) && p.nonces == r.nonces
  {
    hide Total, Leveled, Needed, NoncesCut, Cap;
    QueueCut(r, p, h, lim, l, pend, c, queue);
    forall a
      ensures PendOf(p.pending, a).items == ItemsAt(pend, a)
    {
      HoldsAt(r, pend, c, queue, a);
    }
  }

  lemma QueueCut(r: Pool, p: Pool, h: Head, lim: Limits, l: nat, pend: Table, c: Address, queue: Items)
    requires Holds(r, pend, c, queue) && KeptFit(r, p, h, lim, l) && |queue| <= lim.globalQueue
    ensures forall a :: QueueOf(p.queue, a).items == if a == c then queue else map[]
  {
    hide Total, Leveled, Needed, NoncesCut, Cap;
    forall a
      ensures a != c ==> QueueOf(r.queue, a).items == map[] && QueueOf(p.queue, a).items == map[]
    {
      HoldsAt(r, pend, c, queue, a);
      if a in p.queue {
        CapNone(|p.queue[a].items|);
      }
    }
    HoldsAt(r, pend, c, queue, c);
    QueuedTotal(r.queue, c);
    QueuedTotal(p.queue, c);
    CapWithin(queue, |queue|);
    if c !in p.queue {
      assert |queue| == 0;
    }
  }

  lemma CapNone(n: nat)
    ensures Cap(map[], n) == map[]
  {
  }

  lemma NoneReady(h: Head, a: Address, v: nat)
    ensures FitQueue(map[], h, a) == map[] && Ready(map[], v) == [] && AfterReady(map[], v) == map[]
  {
    assert AtLeast(map[], Nonce(h, a)) == map[];
    assert Within(map[], Balance(h, a), h.maxGas) == map[];
  }

  /** The transactions of one account are promoted as far as they are ready. */
  lemma Promotes(q: Pool, r: Pool, h: Head, lim: Limits, accounts: set<Address>, pend: Table, c: Address, queue: Items)
    requires Holds(q, pend, c, queue) && Promoted(q, r, h, lim, accounts) && (c in accounts || queue == map[])
    ensures var fit, v := FitQueue(queue, h, c), VirtualNonce(q.nonces, h, c);
      && Holds(r, pend[c := Merge(ItemsAt(pend, c), Ready(fit, v))], c, Cap(AfterReady(fit, v), lim.accountQueue))
      && VirtualNonce(r.nonces, h, c) == NextNonce(Ready(fit, v), v)
      && forall a :: a != c ==> VirtualNonce(r.nonces, h, a) == VirtualNonce(q.nonces, h, a)
  {
    hide Ready, AfterReady, FitQueue, Cap;
    CapNone(lim.accountQueue);
    var fit, v := FitQueue(queue, h, c), VirtualNonce(q.nonces, h, c);
    forall a
      ensures PendOf(r.pending, a).items == ItemsAt(pend[c := Merge(ItemsAt(pend, c), Ready(fit, v))], a)
      ensures QueueOf(r.queue, a).items == if a == c then Cap(AfterReady(fit, v), lim.accountQueue) else map[]
      ensures VirtualNonce(r.nonces, h, a) ==
        if a == c then NextNonce(Ready(fit, v), v) else VirtualNonce(q.nonces, h, a)
    {
      HoldsAt(q, pend, c, queue, a);
      NoneReady(h, a, VirtualNonce(q.nonces, h, a));
    }
  }

  /** With nothing queued nothing is promoted. */
  lemma PromotesNone(q: Pool, r: Pool, h: Head, lim: Limits, accounts: set<Address>, pend: Table, c: Address)
    requires Holds(q, pend, c, map[]) && Promoted(q, r, h, lim, accounts)
    ensures Holds(r, pend, c, map[])
    ensures forall a :: VirtualNonce(r.nonces, h, a) == VirtualNonce(q.nonces, h, a)
  {
    hide Ready, AfterReady, FitQueue, Cap, Promoted, Holds;
    Promotes(q, r, h, lim, accounts, pend, c, map[]);
    NoneReady(h, c, VirtualNonce(q.nonces, h, c));
    CapNone(lim.accountQueue);
    SameTable(r, pend[c := ItemsAt(pend, c)], pend, c, map[]);
  }

  lemma SameTable(p: Pool, pend: Table, pend': Table, c: Address, queue: Items)
    requires Holds(p, pend, c, queue) && forall a :: ItemsAt(pend, a) == ItemsAt(pend', a)
    ensures Holds(p, pend', c, queue)
  {
  }

  /** With an empty queue it does not matter whose queue it is, and virtual nonces are not listed. */
  lemma SameLists(p: Pool, pend: Table, c: Address, d: Address, nonces: map<Address, nat>)
    requires Holds(p, pend, c, map[])
    ensures Holds(p, pend, d, map[]) && Holds(p.(nonces := nonces), pend, d, map[])
  {
  }

  /** Of a queue in which only one transaction can be paid for, that one is promoted if its turn has
      come. */
  lemma OneReady(queue: Items, x: Tx, h: Head, a: Address, v: nat)
    requires x.nonce in queue && queue[x.nonce] == x && x.nonce >= Nonce(h, a) && Affordable(x, h, a)
    requires forall k :: k in queue && k != x.nonce ==> !Affordable(queue[k], h, a)
    ensures FitQueue(queue, h, a) == map[x.nonce := x]
    ensures x.nonce <= v ==> Ready(map[x.nonce := x], v) == [x] && AfterReady(map[x.nonce := x], v) == map[]
    ensures x.nonce > v ==> Ready(map[x.nonce := x], v) == [] && AfterReady(map[x.nonce := x], v) == map[x.nonce := x]
  {
    var items := map[x.nonce := x];
    assert items.Keys == {x.nonce};
    assert FitQueue(queue, h, a) == items;
    assert items - {x.nonce} == map[];
    assert RunFrom(items, x.nonce) == [x] + RunFrom(items - {x.nonce}, x.nonce + 1);
    assert RunFrom(map[], x.nonce + 1) == [];
    if x.nonce <= v {
      assert AfterReady(items, v).Keys == {};
    }
  }

  lemma PromotesOne(q: Pool, r: Pool, h: Head, lim: Limits, accounts: set<Address>, pend: Table, c: Address,
      queue: Items, x: Tx)
    requires Holds(q, pend, c, queue) && Promoted(q, r, h, lim, accounts) && c in accounts
    requires x.nonce in queue && queue[x.nonce] == x && x.nonce >= Nonce(h, c) && Affordable(x, h, c)
    requires forall k :: k in queue && k != x.nonce ==> !Affordable(queue[k], h, c)
    requires x.nonce == VirtualNonce(q.nonces, h, c)
    ensures Holds(r, pend[c := ItemsAt(pend, c)[x.nonce := x]], c, map[])
    ensures VirtualNonce(r.nonces, h, c) == x.nonce + 1
    ensures forall a :: a != c ==> VirtualNonce(r.nonces, h, a) == VirtualNonce(q.nonces, h, a)
  {
    hide Ready, AfterReady, FitQueue, Cap, Promoted, Holds, Affordable;
    Promotes(q, r, h, lim, accounts, pend, c, queue);
    OneReady(queue, x, h, c, x.nonce);
    CapNone(lim.accountQueue);
    assert Merge(ItemsAt(pend, c), [x]) == ItemsAt(pend, c)[x.nonce := x] by {
      assert [x][1..] == [];
    }
  }

  /** Adding a transaction whose nonce is free queues it. */
  lemma AddsOne(p: Pool, lim: Limits, pend: Table, c: Address, queue: Items, x: Tx)
    requires Holds(p, pend, c, queue) && x.from == c && x.nonce !in ItemsAt(pend, c) && x.nonce !in queue
    requires |p.all| < lim.globalSlots + lim.globalQueue
    ensures Holds(Added(p, lim, x), pend, c, queue[x.nonce := x])
    ensures Added(p, lim, x).nonces == p.nonces && !Occupied(p, x) && |Added(p, lim, x).all| <= |p.all| + 1
  {
    HoldsAt(p, pend, c, queue, c);
    var q := Added(p, lim, x);
    forall a
      ensures PendOf(q.pending, a).items == ItemsAt(pend, a)
      ensures QueueOf(q.queue, a).items == if a == c then queue[x.nonce := x] else map[]
    {
      HoldsAt(p, pend, c, queue, a);
    }
    GrowsByOne(p.all, {}, x);
  }

  lemma Unlimited(r: Pool, p: Pool, h: Head, lim: Limits, l: nat, pend: Table, c: Address, items: Items)
    requires Holds(r, pend, c, map[]) && KeptFit(r, p, h, lim, l) && pend == map[c := items]
    requires |items| <= lim.globalSlots
    ensures Holds(p, pend, c, map[]) && p.nonces == r.nonces
  {
    hide Holds, KeptFit, Total;
    PendingTotal(r, pend, c, map[], c, c + 1);
    SmallEnough(r, p, h, lim, l, pend, c, map[]);
  }

  /** An executable transaction is added to a small pool and becomes pending. */
  lemma BecomesPending(p: Pool, p': Pool, h: Head, lim: Limits, pend: Table, pend': Table, c: Address, x: Tx)
    requires pend.Keys <= {c} && x.nonce !in ItemsAt(pend, c) && pend' == map[c := ItemsAt(pend, c)[x.nonce := x]]
    requires |p.all| < lim.globalSlots + lim.globalQueue && |ItemsAt(pend, c)| + 1 <= lim.globalSlots
    requires x.from == c && x.nonce == VirtualNonce(p.nonces, h, c) >= Nonce(h, c) && Affordable(x, h, c)
    requires Holds(p, pend, c, map[]) && Submitted(p, p', h, lim, x)
    ensures Holds(p', pend', c, map[]) && VirtualNonce(p'.nonces, h, c) == x.nonce + 1
  {
    hide Holds, Promoted, KeptFit, Added, Occupied, Total, Affordable, ItemsAt, VirtualNonce;
    AddsOne(p, lim, pend, c, map[], x);
    var q := Added(p, lim, x);
    var r, l :| Promoted(q, r, h, lim, {x.from}) && KeptFit(r, p', h, lim, l);
    PromotesOne(q, r, h, lim, {x.from}, pend, c, map[x.nonce := x], x);
    var items := ItemsAt(pend, c)[x.nonce := x];
    assert pend[c := items] == pend';
    assert items.Keys == ItemsAt(pend, c).Keys + {x.nonce};
    Unlimited(r, p', h, lim, l, pend', c, items);
  }

  // Demotion in a small pool.

  /** What is left after demotion, if nothing is demoted to the queue. */
  lemma Demotes(mid: Pool, demoted: Pool, h: Head, pend: Table, pend': Table, c: Address)
    requires Partition(mid) && Holds(mid, pend, c, map[]) && Demoted(mid, demoted, h)
    requires forall a :: ItemsAt(pend', a) == Executable(ItemsAt(pend, a), h, a)
    requires forall a :: Executable(ItemsAt(pend, a), h, a) == Payable(ItemsAt(pend, a), h, a)
    ensures Holds(demoted, pend', c, map[])
  {
    hide PartitionWith, Executable, Payable, Unpayable, AfterLast, Holds;
    forall a
      ensures PendOf(demoted.pending, a).items == ItemsAt(pend', a) && QueueOf(demoted.queue, a).items == map[]
    {
      HoldsAt(mid, pend, c, map[], a);
      NothingQueued(mid, demoted, h, a);
    }
    assert Holds(demoted, pend', c, map[]) by {
      HoldsAll(demoted, pend', c);
    }
  }

  lemma HoldsAll(p: Pool, pend: Table, c: Address)
    requires forall a :: PendOf(p.pending, a).items == ItemsAt(pend, a) && QueueOf(p.queue, a).items == map[]
    ensures Holds(p, pend, c, map[])
  {
  }

  lemma NothingQueued(mid: Pool, demoted: Pool, h: Head, a: Address)
    requires Partition(mid) && Demoted(mid, demoted, h) && QueueOf(mid.queue, a).items == map[]
    requires Executable(PendOf(mid.pending, a).items, h, a) == Payable(PendOf(mid.pending, a).items, h, a)
    ensures QueueOf(demoted.queue, a).items == map[]
  {
    hide PartitionWith, Executable, Payable, AfterLast;
    var queue := QueueOf(demoted.queue, a);
    PartitionLists(demoted, {}, a);
    AccountListFacts(queue, false, a);
    if queue.items != map[] {
      var k :| k in queue.items;
      var t := queue.items[k];
      ListedIsKnown(demoted, t);
      ListedIsKnown(mid, t);
      StillListed(PendOf(mid.pending, a).items, Payable(PendOf(mid.pending, a).items, h, a), t);
      assert false;
    }
  }

  lemma StillListed(items: Items, kept: Items, t: Tx)
    requires Listed(items, t) && t !in Lost(items, kept)
    ensures t.nonce in kept
  {
  }

  lemma NoneExecutable(h: Head, a: Address)
    ensures Executable(map[], h, a) == map[] && Payable(map[], h, a) == map[]
  {
    NothingExecutable(h);
    assert Payable(map[], h, a) == map[];
  }

  // A gap inside the list.

  /** Transactions 3 and 4 come back, but only 3 can be paid for. */
  lemma OneComesBack(p: Pool, mid: Pool, h: Head, c: Address, t: Tx, w: Tx, u: Tx, pend: Table, pend': Table,
      txs: seq<Tx>, q: Pool, l: nat)
    requires t.from == w.from == c && t.nonce == 3 && w.nonce == 4 && Cheap(t) && !Cheap(w) && txs == [t, w]
    requires h == At(map[c := 3]) && pend == map[c := map[5 := u]] && pend' == map[c := map[3 := t, 5 := u]]
    requires |p.all| < 100 && p.nonces == map[]
    requires Holds(p, pend, c, map[]) && BatchAdded(p, mid, h, LIMITS, txs, q, l)
    ensures Holds(mid, pend', c, map[])
  {
    hide Holds, Promoted, KeptFit, Added, Occupied, Total, AddedAll, Dirty;
    TwoAdded(p, LIMITS, t, w);
    AddsOne(p, LIMITS, pend, c, map[], t);
    var p1 := Added(p, LIMITS, t);
    AddsOne(p1, LIMITS, pend, c, map[3 := t], w);
    var p2 := Added(p1, LIMITS, w);
    assert map[3 := t][4 := w] == map[3 := t, 4 := w];
    PromotesOne(p2, q, h, LIMITS, {c}, pend, c, map[3 := t, 4 := w], t);
    var items := map[3 := t, 5 := u];
    assert map[5 := u][3 := t] == items;
    assert pend[c := ItemsAt(pend, c)[3 := t]] == pend';
    assert items.Keys == {3, 5};
    Unlimited(q, mid, h, LIMITS, l, pend', c, items);
  }

  lemma TwoAdded(p: Pool, lim: Limits, t: Tx, w: Tx)
    ensures AddedAll(p, lim, [t, w]) == Added(Added(p, lim, t), lim, w)
    ensures t.from == w.from && |p.all| < lim.globalSlots + lim.globalQueue && !Occupied(p, t) ==>
      Dirty(p, lim, [t, w]) == {t.from}
  {
    hide Added, Occupied;
    OneAdded(p, lim, t);
    assert [t, w][..1] == [t];
  }

  lemma OneAdded(p: Pool, lim: Limits, t: Tx)
    ensures AddedAll(p, lim, [t]) == Added(p, lim, t)
    ensures |p.all| < lim.globalSlots + lim.globalQueue && !Occupied(p, t) ==> Dirty(p, lim, [t]) == {t.from}
  {
    hide Added, Occupied;
    assert [t][..0] == [];
    assert AddedAll(p, lim, [t][..0]) == p && Dirty(p, lim, [t][..0]) == {};
  }

  /** After the reset the account's pending nonces are 3 and 5. */
  lemma GapStays(p: Pool, p': Pool, h: Head, c: Address, t: Tx, w: Tx, u: Tx, pend: Table, pend': Table,
      txs: seq<Tx>, mid: Pool, demoted: Pool, promoted: Pool, l: nat)
    requires t.from == w.from == u.from == c && t.nonce == 3 && w.nonce == 4 && u.nonce == 5 && txs == [t, w]
    requires Cheap(t) && Cheap(u) && !Cheap(w) && |p.all| < 100
    requires h == At(map[c := 3]) && pend == map[c := map[5 := u]] && pend' == map[c := map[3 := t, 5 := u]]
    requires Holds(p, pend, c, map[]) && ResetSteps(p, p', h, LIMITS, txs, mid, demoted, promoted, l)
    ensures Holds(p', pend', c, map[])
  {
    hide Holds, Promoted, KeptFit, BatchAdded, Demoted, Partition, Total, Executable, Payable, At, ItemsAt, Cheap;
    var q, k :| BatchAdded(p.(nonces := map[]), mid, h, LIMITS, txs, q, k);
    SameLists(p, pend, c, c, map[]);
    OneComesBack(p.(nonces := map[]), mid, h, c, t, w, u, pend, pend', txs, q, k);
    StillExecutable(c, t, u);
    Unmoved(mid, demoted, promoted, p', h, LIMITS, l, pend', c, map[3 := t, 5 := u]);
  }

  /** If everything pending stays executable, the rest of the reset changes no list. */
  lemma Unmoved(mid: Pool, demoted: Pool, promoted: Pool, p': Pool, h: Head, lim: Limits, l: nat, pend: Table,
      c: Address, items: Items)
    requires pend == map[c := items] && |items| <= lim.globalSlots
    requires forall a :: ItemsAt(pend, a) == Executable(ItemsAt(pend, a), h, a)
    requires forall a :: Executable(ItemsAt(pend, a), h, a) == Payable(ItemsAt(pend, a), h, a)
    requires Partition(mid) && Holds(mid, pend, c, map[]) && Demoted(mid, demoted, h)
    requires Promoted(demoted, promoted, h, lim, demoted.queue.Keys) && KeptFit(promoted, p', h, lim, l)
    ensures Holds(p', pend, c, map[])
  {
    hide Holds, Promoted, KeptFit, Demoted, Partition, Executable, Payable, ItemsAt;
    Demotes(mid, demoted, h, pend, pend, c);
    PromotesNone(demoted, promoted, h, lim, demoted.queue.Keys, pend, c);
    Unlimited(promoted, p', h, lim, l, pend, c, items);
  }

  lemma StillExecutable(c: Address, t: Tx, u: Tx)
    requires t.from == u.from == c && t.nonce == 3 && u.nonce == 5 && Cheap(t) && Cheap(u)
    ensures |map[3 := t, 5 := u]| == 2
    ensures var pend, h := map[c := map[3 := t, 5 := u]], At(map[c := 3]);
      && (forall a :: ItemsAt(pend, a) == Executable(ItemsAt(pend, a), h, a))
      && (forall a :: Executable(ItemsAt(pend, a), h, a) == Payable(ItemsAt(pend, a), h, a))
  {
    hide Executable, Payable;
    var h, items := At(map[c := 3]), map[3 := t, 5 := u];
    var pend := map[c := items];
    assert items.Keys == {3, 5};
    GapMissed(c, t, u);
    AllPayable(items, h, c);
    assert h == Head(map[c := 3], map[c := 100], 50);
    forall a
      ensures ItemsAt(pend, a) == Executable(ItemsAt(pend, a), h, a) == Payable(ItemsAt(pend, a), h, a)
    {
      NoneExecutable(h, a);
    }
  }

  lemma AllPayable(items: Items, h: Head, a: Address)
    requires forall k :: k in items ==> k >= Nonce(h, a) && Affordable(items[k], h, a)
    ensures Payable(items, h, a) == items
  {
  }

  /** A run that leaves a gap inside the list: with nonce 5 next, transaction 5 becomes pending; then
      the chain falls back to nonce 3, and transactions 3 and 4 come back. The account can no longer
      pay for 4. The gap at 4 survives the reset. */
  method GapReached(c: Address, t: Tx, w: Tx, u: Tx) returns (trace: seq<Situation>)
    requires t.from == w.from == u.from == c && t.nonce == 3 && w.nonce == 4 && u.nonce == 5
    requires Cheap(t) && Cheap(u) && !Cheap(w)
    ensures |trace| == 3 && trace[0] == Situation(EMPTY, At(map[c := 5])) && trace[2].head == At(map[c := 3])
    ensures Stepped(trace[0], Submit(u), trace[1], LIMITS)
    ensures Stepped(trace[1], NewHead(At(map[c := 3]), [t, w]), trace[2], LIMITS)
    ensures PendOf(trace[2].pool.pending, c).items == map[3 := t, 5 := u]
    ensures !Gapless(trace[2].pool.pending, trace[2].pool.nonces, trace[2].head)
  {
    hide Submitted, ResetSteps, Sound, WithinLimits, Holds, Undisturbed, Partition;
    var h5, h3 := At(map[c := 5]), At(map[c := 3]);
    var events := [Submit(u), NewHead(h3, [t, w])];
    trace := Run(LIMITS, h5, events);
    assert Stepped(trace[0], events[0], trace[1], LIMITS) && Stepped(trace[1], events[1], trace[2], LIMITS);
    ghost var p1, p2 := trace[1].pool, trace[2].pool;
    ghost var pend1, pend2 := map[c := map[5 := u]], map[c := map[3 := t, 5 := u]];
    NothingHeld(c);
    BecomesPending(EMPTY, p1, h5, LIMITS, map[], pend1, c, u);
    SoundParts(p1, LIMITS);
    KnownAre(p1, pend1, c, map[], {u});
    ghost var mid, demoted, promoted, l :| ResetSteps(p1, p2, h3, LIMITS, [t, w], mid, demoted, promoted, l);
    GapStays(p1, p2, h3, c, t, w, u, pend1, pend2, [t, w], mid, demoted, promoted, l);
    HoldsAt(p2, pend2, c, map[], c);
    HoleShows(p2, h3, c, 4, 5);
  }

  lemma NothingHeld(c: Address)
    ensures Holds(EMPTY, map[], c, map[])
  {
  }

  lemma SoundParts(p: Pool, lim: Limits)
    requires Sound(p, lim)
    ensures Partition(p)
  {
  }

  lemma HoleShows(p: Pool, h: Head, a: Address, hole: nat, above: nat)
    requires above in PendOf(p.pending, a).items && hole !in PendOf(p.pending, a).items && Nonce(h, a) <= hole < above
    ensures !Gapless(p.pending, p.nonces, h)
  {
    if Gapless(p.pending, p.nonces, h) {
      GaplessFact(p, h, a);
      assert false;
    }
  }

  // A virtual nonce left behind.

  /** Account a has transactions 0 and 1 pending, account b its transaction 0. */
  function Full(a: Address, b: Address, t: Tx, u: Tx, w: Tx): Table {
    map[a := map[0 := t, 1 := u], b := map[0 := w]]
  }

  /** Each of them has only its transaction 0. */
  function Short(a: Address, b: Address, t: Tx, w: Tx): Table {
    map[a := map[0 := t], b := map[0 := w]]
  }

  lemma FullItems(a: Address, b: Address, t: Tx, u: Tx, w: Tx)
    requires a != b
    ensures Full(a, b, t, u, w).Keys == {a, b} && |map[0 := t, 1 := u]| == 2 && |map[0 := w]| == 1
    ensures ItemsAt(Full(a, b, t, u, w), a) == map[0 := t, 1 := u] && ItemsAt(Full(a, b, t, u, w), b) == map[0 := w]
    ensures Lowered(2, map[0 := t, 1 := u], 1) == 1
    ensures forall d :: ItemsAt(Short(a, b, t, w), d) == Cap(ItemsAt(Full(a, b, t, u, w), d), 1)
  {
    hide Cap, Lowered;
    CutOfTwo(t, u, w);
    CapNone(1);
  }

  /** A transaction of account b comes back and is one too many: account a is cut to one transaction,
      and its virtual nonce is lowered with it. */
  lemma CutByReturn(p: Pool, mid: Pool, h: Head, a: Address, b: Address, t: Tx, u: Tx, w: Tx, pend: Table,
      txs: seq<Tx>, q: Pool, l: nat)
    requires a != b && pend == map[a := map[0 := t, 1 := u]] && |p.all| < 50 && p.nonces == map[]
    requires w.from == b && w.nonce == 0 && Cheap(w) && txs == [w] && h == At(map[a := 2, b := 0])
    requires Holds(p, pend, a, map[]) && BatchAdded(p, mid, h, TIGHT, txs, q, l)
    ensures Holds(mid, Short(a, b, t, w), b, map[]) && VirtualNonce(mid.nonces, h, a) == 1
  {
    hide Holds, Promoted, KeptFit, Added, Occupied, Total, AddedAll, Dirty, Short;
    SameLists(p, pend, a, b, map[]);
    OneAdded(p, TIGHT, w);
    AddsOne(p, TIGHT, pend, b, map[], w);
    PromotesOne(Added(p, TIGHT, w), q, h, TIGHT, {b}, pend, b, map[0 := w], w);
    assert pend[b := map[0 := w]] == Full(a, b, t, u, w);
    CutToOne(q, mid, h, l, a, b, t, u, w);
  }

  lemma CutToOne(q: Pool, mid: Pool, h: Head, l: nat, a: Address, b: Address, t: Tx, u: Tx, w: Tx)
    requires a != b && Holds(q, Full(a, b, t, u, w), b, map[])
    requires VirtualNonce(q.nonces, h, a) == 2 && KeptFit(q, mid, h, TIGHT, l)
    ensures Holds(mid, Short(a, b, t, w), b, map[]) && VirtualNonce(mid.nonces, h, a) == 1
  {
    hide Total, Needed, Cap, Holds, Lowered, Full, Short, ItemsAt, KeptFit, VirtualNonce;
    var full := Full(a, b, t, u, w);
    FullItems(a, b, t, u, w);
    PendingTotal(q, full, b, map[], a, b);
    QueueCut(q, mid, h, TIGHT, l, full, b, map[]);
    LevelIsOne(q, mid, h, l, a, b, full);
    forall d
      ensures PendOf(mid.pending, d).items == ItemsAt(Short(a, b, t, w), d) && QueueOf(mid.queue, d).items == map[]
    {
      HoldsAt(q, full, b, map[], d);
      CapNone(1);
    }
    HoldsAll(mid, Short(a, b, t, w), b);
    HoldsAt(q, full, b, map[], a);
  }

  /** With three transactions pending and two slots, the level is the one guaranteed slot. */
  lemma LevelIsOne(q: Pool, mid: Pool, h: Head, l: nat, a: Address, b: Address, full: Table)
    requires Holds(q, full, b, map[]) && full.Keys == {a, b} && |ItemsAt(full, a)| == 2 && |ItemsAt(full, b)| == 1
    requires Total(q.pending) == 3 && KeptFit(q, mid, h, TIGHT, l)
    ensures mid.pending == Leveled(q.pending, 1)
    ensures VirtualNonce(mid.nonces, h, a) == Lowered(VirtualNonce(q.nonces, h, a), PendOf(q.pending, a).items, 1)
  {
    hide Total, Needed, Cap, Holds, Lowered, Leveled, VirtualNonce;
    if l >= 2 {
      UncutTotal(q, full, b, a, l);
    }
    assert l == 1;
  }

  lemma CutOfTwo(t: Tx, u: Tx, w: Tx)
    ensures |map[0 := t, 1 := u]| == 2 && |map[0 := w]| == 1
    ensures Cap(map[0 := t, 1 := u], 1) == map[0 := t] && Cap(map[0 := w], 1) == map[0 := w]
    ensures Lowered(2, map[0 := t, 1 := u], 1) == 1
  {
    var items := map[0 := t, 1 := u];
    assert items.Keys == {0, 1} && |items.Keys| == 2;
    assert map[0 := w].Keys == {0};
    var top := Highest(items.Keys);
    assert top == 1 && items - {1} == map[0 := t] && map[0 := t].Keys == {0};
    CapWithin(map[0 := t], 1);
    assert items.Keys - {0} == {1} && Lowest({1}) == 1;
  }

  /** A level that no list exceeds cuts nothing. */
  lemma UncutTotal(q: Pool, full: Table, b: Address, a: Address, l: nat)
    requires Holds(q, full, b, map[]) && full.Keys == {a, b} && forall d :: d in full ==> |full[d]| <= l
    ensures Total(Leveled(q.pending, l)) == Total(q.pending)
  {
    hide Total, Cap;
    forall d | d in q.pending
      ensures Cap(q.pending[d].items, l) == q.pending[d].items
    {
      HoldsAt(q, full, b, map[], d);
      CapWithin(q.pending[d].items, l);
    }
    assert Leveled(q.pending, l) == q.pending;
  }

  /** Of the two, only account b still has something executable. */
  lemma OnlyOther(h: Head, a: Address, b: Address, t: Tx, w: Tx)
    requires a != b && w.nonce == 0 && Cheap(w) && h == At(map[a := 2, b := 0])
    ensures forall d :: ItemsAt(map[b := map[0 := w]], d) == Executable(ItemsAt(Short(a, b, t, w), d), h, d)
    ensures forall d :: Executable(ItemsAt(Short(a, b, t, w), d), h, d) == Payable(ItemsAt(Short(a, b, t, w), d), h, d)
  {
    hide Executable, Payable;
    forall d
      ensures ItemsAt(map[b := map[0 := w]], d) == Executable(ItemsAt(Short(a, b, t, w), d), h, d)
      ensures Executable(ItemsAt(Short(a, b, t, w), d), h, d) == Payable(ItemsAt(Short(a, b, t, w), d), h, d)
    {
      NoneExecutable(h, d);
      Outdated(h, a, t);
      FirstStays(h, b, w);
    }
  }

  lemma Outdated(h: Head, a: Address, t: Tx)
    requires Nonce(h, a) == 2
    ensures Executable(map[0 := t], h, a) == map[] && Payable(map[0 := t], h, a) == map[]
  {
    assert AtLeast(map[0 := t], 2) == map[];
  }

  lemma FirstStays(h: Head, b: Address, w: Tx)
    requires Nonce(h, b) == 0 && Affordable(w, h, b)
    ensures Executable(map[0 := w], h, b) == map[0 := w] && Payable(map[0 := w], h, b) == map[0 := w]
  {
    var items := map[0 := w];
    assert AtLeast(items, 0) == items;
    assert Within(items, Balance(h, b), h.maxGas) == items;
  }

  /** An account with nothing pending keeps its virtual nonce over the demotion. */
  lemma NonceStays(mid: Pool, demoted: Pool, h: Head, pend: Table, c: Address, a: Address)
    requires Demoted(mid, demoted, h) && Holds(demoted, pend, c, map[]) && a !in pend
    ensures VirtualNonce(demoted.nonces, h, a) == VirtualNonce(mid.nonces, h, a)
  {
    hide Executable, Unpayable, Holds, Shares, AccountList;
    HoldsAt(demoted, pend, c, map[], a);
    assert a !in demoted.pending;
  }

  /** Account a ends up without pending transactions and with a virtual nonce below its chain nonce. */
  lemma LeftBehind(p: Pool, p': Pool, h: Head, a: Address, b: Address, t: Tx, u: Tx, w: Tx, pend: Table,
      pend': Table, txs: seq<Tx>, mid: Pool, demoted: Pool, promoted: Pool, l: nat)
    requires a != b && pend == map[a := map[0 := t, 1 := u]] && pend' == map[b := map[0 := w]] && |p.all| < 50
    requires w.from == b && w.nonce == 0 && Cheap(w) && txs == [w] && h == At(map[a := 2, b := 0])
    requires Holds(p, pend, a, map[]) && ResetSteps(p, p', h, TIGHT, txs, mid, demoted, promoted, l)
    ensures Holds(p', pend', b, map[]) && VirtualNonce(p'.nonces, h, a) == 1
  {
    hide Holds, Promoted, KeptFit, BatchAdded, Demoted, Partition, Executable, Payable, At, ItemsAt, Cheap, Short,
      VirtualNonce;
    var q, k :| BatchAdded(p.(nonces := map[]), mid, h, TIGHT, txs, q, k);
    SameLists(p, pend, a, a, map[]);
    CutByReturn(p.(nonces := map[]), mid, h, a, b, t, u, w, pend, txs, q, k);
    OnlyOther(h, a, b, t, w);
    Demotes(mid, demoted, h, Short(a, b, t, w), pend', b);
    NonceStays(mid, demoted, h, pend', b, a);
    PromotesNone(demoted, promoted, h, TIGHT, demoted.queue.Keys, pend', b);
    assert map[0 := w].Keys == {0};
    Unlimited(promoted, p', h, TIGHT, l, pend', b, map[0 := w]);
  }

  /** A transaction above the virtual nonce stays queued. */
  lemma StaysQueued(p: Pool, p': Pool, h: Head, lim: Limits, pend: Table, b: Address, items: Items, c: Address, x: Tx)
    requires pend == map[b := items] && |items| <= lim.globalSlots && b != c
    requires |p.all| < lim.globalSlots + lim.globalQueue && 1 <= lim.globalQueue && 1 <= lim.accountQueue
    requires x.from == c && VirtualNonce(p.nonces, h, c) < x.nonce && x.nonce >= Nonce(h, c) && Affordable(x, h, c)
    requires Holds(p, pend, c, map[]) && Submitted(p, p', h, lim, x)
    ensures Holds(p', pend, c, map[x.nonce := x])
  {
    hide Holds, Promoted, KeptFit, Added, Occupied, Total, Affordable, VirtualNonce, FitQueue, Ready, AfterReady, Cap;
    var queue := map[x.nonce := x];
    AddsOne(p, lim, pend, c, map[], x);
    var q := Added(p, lim, x);
    var r, l :| Promoted(q, r, h, lim, {x.from}) && KeptFit(r, p', h, lim, l);
    Promotes(q, r, h, lim, {x.from}, pend, c, queue);
    OneReady(queue, x, h, c, VirtualNonce(q.nonces, h, c));
    assert queue.Keys == {x.nonce};
    CapWithin(queue, lim.accountQueue);
    SameTable(r, pend[c := ItemsAt(pend, c)], pend, c, queue);
    PendingTotal(r, pend, c, queue, b, c);
    SmallEnough(r, p', h, lim, l, pend, c, queue);
  }

  /** A run that leaves a virtual nonce behind: transactions 0 and 1 of account a are pending. The new
      head has both of them, and a transaction of account b comes back. With that one the pending
      transactions are one too many, so a loses its transaction 1 and its virtual nonce is lowered to 1;
      then its transaction 0 is found outdated. All lists are grounded, but the virtual nonce of a stays
      at 1 with 2 on the chain, and its transaction 2 has to wait in the queue. */
  method NonceLeftBehind(a: Address, b: Address, t: Tx, u: Tx, w: Tx, x: Tx) returns (trace: seq<Situation>)
    requires a != b && t.from == u.from == x.from == a && t.nonce == 0 && u.nonce == 1 && x.nonce == 2
    requires w.from == b && w.nonce == 0 && Cheap(t) && Cheap(u) && Cheap(w) && Cheap(x)
    ensures |trace| == 5 && trace[0] == Situation(EMPTY, At(map[a := 0, b := 1]))
    ensures Stepped(trace[0], Submit(t), trace[1], TIGHT) && Stepped(trace[1], Submit(u), trace[2], TIGHT)
    ensures Stepped(trace[2], NewHead(At(map[a := 2, b := 0]), [w]), trace[3], TIGHT)
    ensures Stepped(trace[3], Submit(x), trace[4], TIGHT)
    ensures forall d :: Grounded(PendOf(trace[3].pool.pending, d).items, Nonce(trace[3].head, d))
    ensures VirtualNonce(trace[3].pool.nonces, trace[3].head, a) == 1 && Nonce(trace[3].head, a) == 2
    ensures !Gapless(trace[3].pool.pending, trace[3].pool.nonces, trace[3].head)
    ensures PendOf(trace[4].pool.pending, a).items == map[] && QueueOf(trace[4].pool.queue, a).items == map[2 := x]
  {
    hide Submitted, ResetSteps, Sound, WithinLimits, Holds, Undisturbed, Partition, Grounded, Gapless;
    var h, h' := At(map[a := 0, b := 1]), At(map[a := 2, b := 0]);
    var events := [Submit(t), Submit(u), NewHead(h', [w]), Submit(x)];
    trace := Run(TIGHT, h, events);
    assert Stepped(trace[0], events[0], trace[1], TIGHT) && Stepped(trace[1], events[1], trace[2], TIGHT);
    assert Stepped(trace[2], events[2], trace[3], TIGHT) && Stepped(trace[3], events[3], trace[4], TIGHT);
    ghost var p1, p2, p3, p4 := trace[1].pool, trace[2].pool, trace[3].pool, trace[4].pool;
    ghost var pend2, pend3 := map[a := map[0 := t, 1 := u]], map[b := map[0 := w]];
    TwoPending(p1, p2, h, a, b, t, u, pend2);
    ghost var mid, demoted, promoted, l :| ResetSteps(p2, p3, h', TIGHT, [w], mid, demoted, promoted, l);
    LeftBehind(p2, p3, h', a, b, t, u, w, pend2, pend3, [w], mid, demoted, promoted, l);
    AllGrounded(p3, h', a, b, w, pend3);
    Waits(p3, p4, h', a, b, w, x, pend3);
  }

  lemma TwoPending(p1: Pool, p2: Pool, h: Head, a: Address, b: Address, t: Tx, u: Tx, pend: Table)
    requires a != b && t.from == u.from == a && t.nonce == 0 && u.nonce == 1 && Cheap(t) && Cheap(u)
    requires h == At(map[a := 0, b := 1]) && pend == map[a := map[0 := t, 1 := u]]
    requires Sound(p1, TIGHT) && Sound(p2, TIGHT)
    requires Submitted(EMPTY, p1, h, TIGHT, t) && Submitted(p1, p2, h, TIGHT, u)
    ensures Holds(p2, pend, a, map[]) && |p2.all| < 50
  {
    hide Submitted, Sound, Holds, Partition;
    var pend1 := map[a := map[0 := t]];
    NothingHeld(a);
    BecomesPending(EMPTY, p1, h, TIGHT, map[], pend1, a, t);
    SoundParts(p1, TIGHT);
    KnownAre(p1, pend1, a, map[], {t});
    assert map[0 := t].Keys == {0};
    assert pend == map[a := map[0 := t][1 := u]];
    BecomesPending(p1, p2, h, TIGHT, pend1, pend, a, u);
    SoundParts(p2, TIGHT);
    KnownAre(p2, pend, a, map[], {t, u});
  }

  lemma AllGrounded(p: Pool, h: Head, a: Address, b: Address, w: Tx, pend: Table)
    requires pend == map[b := map[0 := w]] && a != b && h == At(map[a := 2, b := 0]) && Holds(p, pend, b, map[])
    requires VirtualNonce(p.nonces, h, a) == 1
    ensures forall d :: Grounded(PendOf(p.pending, d).items, Nonce(h, d))
    ensures !Gapless(p.pending, p.nonces, h)
  {
    hide Holds;
    forall d
      ensures Grounded(PendOf(p.pending, d).items, Nonce(h, d))
    {
      HoldsAt(p, pend, b, map[], d);
      assert Contiguous(ItemsAt(pend, d), Nonce(h, d), if d == b then 1 else Nonce(h, d));
    }
    if Gapless(p.pending, p.nonces, h) {
      GaplessFact(p, h, a);
      assert false;
    }
  }

  lemma Waits(p: Pool, p': Pool, h: Head, a: Address, b: Address, w: Tx, x: Tx, pend: Table)
    requires a != b && x.from == a && x.nonce == 2 && Cheap(x)
    requires pend == map[b := map[0 := w]] && h == At(map[a := 2, b := 0]) && VirtualNonce(p.nonces, h, a) == 1
    requires Sound(p, TIGHT) && Holds(p, pend, b, map[]) && Submitted(p, p', h, TIGHT, x)
    ensures PendOf(p'.pending, a).items == map[] && QueueOf(p'.queue, a).items == map[2 := x]
  {
    hide Submitted, Sound, Holds, Partition;
    SoundParts(p, TIGHT);
    KnownAre(p, pend, b, map[], {w});
    SameLists(p, pend, b, a, map[]);
    assert map[0 := w].Keys == {0};
    StaysQueued(p, p', h, TIGHT, pend, b, map[0 := w], a, x);
    HoldsAt(p', pend, a, map[2 := x], a);
  }
}
