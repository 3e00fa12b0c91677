/** The state of the transaction pool (txpool/tx_pool.go) and the two invariants its operations
    keep: the partition of the known transactions over the pending and queued lists, and the
    contiguity of the pending nonces. The hash index is a set of transactions here, because the
    hash is injective. */
module PoolState {
  import opened TxSpec
  import opened TxList

  type Lists = map<Address, TList>

  datatype Pool = Pool(pending: Lists, queue: Lists, all: set<Tx>, nonces: map<Address, nat>)

  /** The chain state that the pool was last reset to. */
  datatype Head = Head(nonces: map<Address, nat>, balances: map<Address, nat>, maxGas: nat)

  datatype Limits = Limits(bump: nat, accountSlots: nat, globalSlots: nat, accountQueue: nat, globalQueue: nat)

  const EMPTY := Pool(map[], map[], {}, map[])

  function Nonce(h: Head, a: Address): nat {
    if a in h.nonces then h.nonces[a] else 0
  }

  function Balance(h: Head, a: Address): nat {
    if a in h.balances then h.balances[a] else 0
  }

  /** The next nonce as the pool sees it: the chain's, unless overridden. */
  function VirtualNonce(nonces: map<Address, nat>, h: Head, a: Address): nat {
    if a in nonces then nonces[a] else Nonce(h, a)
  }

  /** The list of an account; a missing list is an empty one. */
  function ListOf(m: Lists, strict: bool, a: Address): TList {
    if a in m then m[a] else NewList(strict)
  }

  function PendOf(m: Lists, a: Address): TList {
    ListOf(m, true, a)
  }

  function QueueOf(m: Lists, a: Address): TList {
    ListOf(m, false, a)
  }

  /** Stores a list, or deletes the entry if the list became empty. */
  function PutList(m: Lists, a: Address, l: TList): Lists {
    if l.items == map[] then m - {a} else m[a := l]
  }

  predicate Listed(items: Items, t: Tx) {
    On(items, t.nonce, t)
  }

  /** A well-formed, non-empty list of one account. */
  ghost predicate AccountList(l: TList, strict: bool, a: Address) {
    && l.strict == strict && ListOk(l)
    && (forall k :: k in l.items ==> l.items[k].from == a)
  }

  ghost predicate ListsOk(m: Lists, strict: bool) {
    forall a :: a in m ==> AccountList(m[a], strict, a) && m[a].items != map[]
  }

  /** One account's share: no nonce is both pending and queued, the index holds exactly what is
      pending, queued or in the hands of the running operation, and what is in hand has nonces of
      its own. */
  ghost predicate Share(a: Address, pend: Items, queue: Items, all: set<Tx>, hand: set<Tx>) {
    && pend.Keys !! queue.Keys
    && (forall t: Tx :: t.from == a ==> (t in all <==> Listed(pend, t) || Listed(queue, t) || t in hand))
    && (forall t :: t in hand && t.from == a ==> t.nonce !in pend && t.nonce !in queue)
    && (forall t, u :: t in hand && u in hand && t.from == a && u.from == a && t.nonce == u.nonce ==> t == u)
  }

  ghost predicate Shares(p: Pool, hand: set<Tx>) {
    forall a :: Share(a, PendOf(p.pending, a).items, QueueOf(p.queue, a).items, p.all, hand)
  }

  ghost predicate PartitionWith(p: Pool, hand: set<Tx>) {
    ListsOk(p.pending, true) && ListsOk(p.queue, false) && Shares(p, hand)
  }

  ghost predicate Partition(p: Pool) {
    PartitionWith(p, {})
  }

  /** Every account's pending nonces run from its chain nonce up to its virtual nonce. */
  ghost predicate Gapless(pending: Lists, nonces: map<Address, nat>, h: Head) {
    forall a :: Contiguous(PendOf(pending, a).items, Nonce(h, a), VirtualNonce(nonces, h, a))
  }

  // Queueing a transaction.

  function Enqueue(p: Pool, tx: Tx, bump: nat): Pool {
    var l := QueueOf(p.queue, tx.from);
    if !Accepts(l, tx, bump) then p
    else
      var replaced := if tx.nonce in l.items then {l.items[tx.nonce]} else {};
      p.(queue := p.queue[tx.from := Add(l, tx, bump)], all := p.all - replaced + {tx})
  }

  /** Changing one account leaves the shares of the others alone. */
  lemma OneAccount(p: Pool, p': Pool, hand: set<Tx>, hand': set<Tx>, a: Address)
    requires Shares(p, hand)
    requires forall b :: b != a ==>
      PendOf(p'.pending, b) == PendOf(p.pending, b) && QueueOf(p'.queue, b) == QueueOf(p.queue, b)
    requires forall t: Tx :: t.from != a ==> (t in p'.all <==> t in p.all) && (t in hand' <==> t in hand)
    requires Share(a, PendOf(p'.pending, a).items, QueueOf(p'.queue, a).items, p'.all, hand')
    ensures Shares(p', hand')
  {
    forall b
      ensures Share(b, PendOf(p'.pending, b).items, QueueOf(p'.queue, b).items, p'.all, hand')
    {
      if b != a {
        assert Share(b, PendOf(p.pending, b).items, QueueOf(p.queue, b).items, p.all, hand);
      }
    }
  }

  lemma AddKeepsLists(m: Lists, strict: bool, tx: Tx, bump: nat)
    requires ListsOk(m, strict) && Accepts(ListOf(m, strict, tx.from), tx, bump)
    ensures ListsOk(m[tx.from := Add(ListOf(m, strict, tx.from), tx, bump)], strict)
  {
    AddKeeps(ListOf(m, strict, tx.from), tx, bump);
  }

  lemma EnqueueShare(a: Address, pend: Items, queue: Items, all: set<Tx>, tx: Tx)
    requires Share(a, pend, queue, all, {}) && tx.from == a && tx.nonce !in pend && !Listed(queue, tx)
    requires Keyed(queue) && forall k :: k in queue ==> queue[k].from == a
    ensures var replaced := if tx.nonce in queue then {queue[tx.nonce]} else {};
      Share(a, pend, queue[tx.nonce := tx], all - replaced + {tx}, {})
  {
  }

  /** A new transaction that does not share its nonce with a pending one enters the queue, possibly
      in place of a cheaper one, and the partition is kept. */
  lemma EnqueueKeeps(p: Pool, tx: Tx, bump: nat)
    requires Partition(p) && tx.nonce !in PendOf(p.pending, tx.from).items
    ensures Partition(Enqueue(p, tx, bump))
  {
    hide Share;
    var l := QueueOf(p.queue, tx.from);
    if Accepts(l, tx, bump) {
      AddKeepsLists(p.queue, false, tx, bump);
      if Listed(l.items, tx) {
        NoSelfReplacement(l, tx, bump);
      }
      EnqueueShare(tx.from, PendOf(p.pending, tx.from).items, l.items, p.all, tx);
      OneAccount(p, Enqueue(p, tx, bump), {}, {}, tx.from);
    }
  }

  lemma RequeueShare(a: Address, pend: Items, queue: Items, all: set<Tx>, hand: set<Tx>, tx: Tx)
    requires Share(a, pend, queue, all, hand + {tx}) && tx.from == a && tx !in hand
    ensures tx.nonce !in queue && Share(a, pend, queue[tx.nonce := tx], all + {tx}, hand)
  {
    assert tx in hand + {tx};
    assert forall t :: t in hand ==> t in hand + {tx};
  }

  /** A transaction in hand always finds its place in the queue free. */
  lemma RequeueKeeps(p: Pool, tx: Tx, hand: set<Tx>, bump: nat)
    requires PartitionWith(p, hand + {tx}) && tx !in hand
    ensures Accepts(QueueOf(p.queue, tx.from), tx, bump) && tx.nonce !in QueueOf(p.queue, tx.from).items
    ensures PartitionWith(Enqueue(p, tx, bump), hand)
  {
    hide Share;
    var l := QueueOf(p.queue, tx.from);
    RequeueShare(tx.from, PendOf(p.pending, tx.from).items, l.items, p.all, hand, tx);
    AddKeepsLists(p.queue, false, tx, bump);
    assert Enqueue(p, tx, bump).all == p.all + {tx};
    OneAccount(p, Enqueue(p, tx, bump), hand + {tx}, hand, tx.from);
  }

  // Promoting a transaction.

  function Promote(p: Pool, tx: Tx, bump: nat): Pool {
    var l := PendOf(p.pending, tx.from);
    if !Accepts(l, tx, bump) then p.(all := p.all - {tx})
    else
      var replaced := if tx.nonce in l.items then {l.items[tx.nonce]} else {};
      p.(pending := p.pending[tx.from := Add(l, tx, bump)], all := p.all - replaced + {tx},
         nonces := p.nonces[tx.from := tx.nonce + 1])
  }

  lemma PromoteShare(a: Address, pend: Items, queue: Items, all: set<Tx>, hand: set<Tx>, tx: Tx)
    requires Share(a, pend, queue, all, hand + {tx}) && tx.from == a && tx !in hand
    ensures tx.nonce !in pend && Share(a, pend[tx.nonce := tx], queue, all + {tx}, hand)
  {
    assert tx in hand + {tx};
    assert forall t :: t in hand ==> t in hand + {tx};
  }

  /** A transaction taken from the queue never meets a pending one with its nonce. */
  lemma PromoteKeeps(p: Pool, tx: Tx, hand: set<Tx>, bump: nat)
    requires PartitionWith(p, hand + {tx}) && tx !in hand
    ensures Accepts(PendOf(p.pending, tx.from), tx, bump) && tx.nonce !in PendOf(p.pending, tx.from).items
    ensures PartitionWith(Promote(p, tx, bump), hand)
  {
    hide Share;
    var l := PendOf(p.pending, tx.from);
    PromoteShare(tx.from, l.items, QueueOf(p.queue, tx.from).items, p.all, hand, tx);
    AddKeepsLists(p.pending, true, tx, bump);
    assert Promote(p, tx, bump).all == p.all + {tx};
    OneAccount(p, Promote(p, tx, bump), hand + {tx}, hand, tx.from);
  }

  /** Replacing a pending transaction by a better one of the same nonce. */
  function ReplacePending(p: Pool, tx: Tx, bump: nat): Pool {
    var l := PendOf(p.pending, tx.from);
    if !Accepts(l, tx, bump) || tx.nonce !in l.items then p
    else p.(pending := p.pending[tx.from := Add(l, tx, bump)], all := p.all - {l.items[tx.nonce]} + {tx})
  }

  lemma ReplaceShare(a: Address, pend: Items, queue: Items, all: set<Tx>, tx: Tx)
    requires Share(a, pend, queue, all, {}) && tx.from == a && tx.nonce in pend && !Listed(pend, tx)
    requires Keyed(pend) && forall k :: k in pend ==> pend[k].from == a
    ensures Share(a, pend[tx.nonce := tx], queue, all - {pend[tx.nonce]} + {tx}, {})
  {
  }

  lemma ReplaceKeeps(p: Pool, tx: Tx, bump: nat)
    requires Partition(p)
    ensures Partition(ReplacePending(p, tx, bump))
    ensures forall a :: PendOf(ReplacePending(p, tx, bump).pending, a).items.Keys == PendOf(p.pending, a).items.Keys
  {
    hide Share;
    var l := PendOf(p.pending, tx.from);
    if Accepts(l, tx, bump) && tx.nonce in l.items {
      if Listed(l.items, tx) {
        NoSelfReplacement(l, tx, bump);
      }
      AddKeepsLists(p.pending, true, tx, bump);
      ReplaceShare(tx.from, l.items, QueueOf(p.queue, tx.from).items, p.all, tx);
      OneAccount(p, ReplacePending(p, tx, bump), {}, {}, tx.from);
      assert l.items[tx.nonce := tx].Keys == l.items.Keys;
    }
  }

  // Shrinking the lists of one account.

  ghost predicate Sub(part: Items, whole: Items) {
    forall k :: k in part ==> k in whole && part[k] == whole[k]
  }

  function Lost(whole: Items, part: Items): set<Tx> {
    set k | k in whole && k !in part :: whole[k]
  }

  lemma ShrinkShare(a: Address, pend: Items, queue: Items, pend': Items, queue': Items,
      all: set<Tx>, hand: set<Tx>, taken: set<Tx>)
    requires Share(a, pend, queue, all, hand) && Sub(pend', pend) && Sub(queue', queue)
    requires Keyed(pend) && Keyed(queue)
    requires (forall k :: k in pend ==> pend[k].from == a) && (forall k :: k in queue ==> queue[k].from == a)
    requires taken <= Lost(pend, pend') + Lost(queue, queue')
    ensures Share(a, pend', queue', all - (Lost(pend, pend') + Lost(queue, queue') - taken), hand + taken)
  {
    var lost := Lost(pend, pend') + Lost(queue, queue');
    forall t: Tx | t.from == a
      ensures t in all - (lost - taken) <==> Listed(pend', t) || Listed(queue', t) || t in hand + taken
    {
      LostOrListed(pend, pend', t);
      LostOrListed(queue, queue', t);
    }
  }

  lemma LostOrListed(whole: Items, part: Items, t: Tx)
    requires Sub(part, whole) && Keyed(whole)
    ensures Listed(whole, t) <==> Listed(part, t) || t in Lost(whole, part)
    ensures t in Lost(whole, part) ==> !Listed(part, t) && t.nonce !in part && t.nonce in whole
  {
  }

  function SetLists(p: Pool, a: Address, pend: TList, queue: TList, drop: set<Tx>): Pool {
    p.(pending := PutList(p.pending, a, pend), queue := PutList(p.queue, a, queue), all := p.all - drop)
  }

  lemma PutKeepsLists(m: Lists, strict: bool, a: Address, l: TList)
    requires ListsOk(m, strict) && AccountList(l, strict, a)
    ensures ListsOk(PutList(m, a, l), strict)
    ensures ListOf(PutList(m, a, l), strict, a).items == l.items
    ensures forall b :: b != a ==> ListOf(PutList(m, a, l), strict, b) == ListOf(m, strict, b)
  {
  }

  lemma ListOfOk(m: Lists, strict: bool, a: Address)
    requires ListsOk(m, strict)
    ensures AccountList(ListOf(m, strict, a), strict, a)
  {
  }

  /** Taking transactions off one account's lists keeps the partition, if they either leave the
      index or stay in hand. */
  lemma ShrinkKeeps(p: Pool, a: Address, pend: TList, queue: TList, hand: set<Tx>, taken: set<Tx>)
    requires PartitionWith(p, hand)
    requires AccountList(pend, true, a) && Sub(pend.items, PendOf(p.pending, a).items)
    requires AccountList(queue, false, a) && Sub(queue.items, QueueOf(p.queue, a).items)
    requires taken <= Lost(PendOf(p.pending, a).items, pend.items) + Lost(QueueOf(p.queue, a).items, queue.items)
    ensures var lost := Lost(PendOf(p.pending, a).items, pend.items) + Lost(QueueOf(p.queue, a).items, queue.items);
      PartitionWith(SetLists(p, a, pend, queue, lost - taken), hand + taken)
  {
    hide Share, ListOk;
    var pend0, queue0 := PendOf(p.pending, a).items, QueueOf(p.queue, a).items;
    var lost := Lost(pend0, pend.items) + Lost(queue0, queue.items);
    var p' := SetLists(p, a, pend, queue, lost - taken);
    ListOfOk(p.pending, true, a);
    ListOfOk(p.queue, false, a);
    AccountListFacts(PendOf(p.pending, a), true, a);
    AccountListFacts(QueueOf(p.queue, a), false, a);
    PutKeepsLists(p.pending, true, a, pend);
    PutKeepsLists(p.queue, false, a, queue);
    ShrinkShare(a, pend0, queue0, pend.items, queue.items, p.all, hand, taken);
    forall t | t in lost
      ensures t.from == a
    {
    }
    OneAccount(p, p', hand, hand + taken, a);
  }

  lemma AccountListFacts(l: TList, strict: bool, a: Address)
    requires AccountList(l, strict, a)
    ensures Keyed(l.items) && forall k :: k in l.items ==> l.items[k].from == a
  {
  }
}
