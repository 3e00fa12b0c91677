/** Writing blocks: fork choice, chain reorganisation, the canonical index and the transaction
    lookup index (blockchain/blockchain.go, blockchain/database_util.go).

    A block is represented by its header, which commits to its transactions (`Txs`). */
module BlockChain {
  import opened Chain
  import opened Ancestry

  datatype Status = NonStat | CanonStat | SideStat

  /** Positional metadata of a transaction. */
  datatype TxPos = TxPos(blockHash: Hash, number: nat, index: nat)

  /** No transaction occurs twice in the given blocks. */
  ghost predicate NoRepeat(bs: seq<Header>) {
    forall j, i, k, l ::
      0 <= j < |bs| && 0 <= i < |Txs(bs[j])| && 0 <= k < |bs| && 0 <= l < |Txs(bs[k])| ==>
      Txs(bs[j])[i] == Txs(bs[k])[l] ==> j == k && i == l
  }

  /** The entries of `l` for the transactions of block `b` are right. */
  ghost predicate Placed(l: map<Tx, TxPos>, b: Header) {
    forall i :: 0 <= i < |Txs(b)| ==> Txs(b)[i] in l && l[Txs(b)[i]] == TxPos(HashOf(b), b.number, i)
  }

  /** The entry of `t` points at `t` on the chain of `head`. */
  ghost predicate PointsTo(pos: TxPos, t: Tx, head: Header) {
    && pos.number <= head.number
    && pos.blockHash == HashOf(Path(head)[pos.number])
    && pos.index < |Txs(Path(head)[pos.number])|
    && Txs(Path(head)[pos.number])[pos.index] == t
  }

  /** The lookup index maps the transactions on the chain of `head`, each to its block and
      position, and no others. */
  ghost predicate LookupExact(l: map<Tx, TxPos>, head: Header) {
    (forall t :: t in l ==> PointsTo(l[t], t, head)) &&
    (forall n :: 0 <= n <= head.number ==> Placed(l, Path(head)[n]))
  }

  /** `l` is `l0` with the entries of the blocks `bs` written over it. */
  ghost predicate Overlay(l0: map<Tx, TxPos>, l: map<Tx, TxPos>, bs: seq<Header>) {
    (forall j :: 0 <= j < |bs| ==> Placed(l, bs[j])) &&
    (forall t :: t !in TxsOf(bs) ==> (t in l <==> t in l0) && (t in l0 ==> l[t] == l0[t])) &&
    (forall t :: t in TxsOf(bs) ==> t in l)
  }

  /** The index reports the head's ancestor at every number up to the head. */
  ghost predicate CanonUpTo(canon: map<nat, Hash>, head: Header) {
    forall n :: 0 <= n <= head.number ==> n in canon && canon[n] == HashOf(Path(head)[n])
  }

  /** Stored blocks are under their own key, reach genesis, and have their parent stored. */
  ghost predicate Closed(blocks: Db, g: Header) {
    Keyed(blocks) && (0, HashOf(g)) in blocks && g.number == 0 &&
    forall k {:trigger blocks[k]} :: k in blocks ==>
      Rooted(blocks[k], g) && (blocks[k] != g ==> (blocks[k].number - 1, blocks[k].parentHash) in blocks)
  }

  function Key(h: Header): (nat, Hash) {
    (h.number, HashOf(h))
  }

  ghost predicate Stored(blocks: Db, h: Header) {
    Key(h) in blocks
  }

  /** Stored total difficulties are those of the paths, and the head's is the largest. */
  ghost predicate TdsOk(tds: map<(nat, Hash), nat>, blocks: Db, head: Header, g: Header) {
    && tds.Keys == blocks.Keys && Key(head) in tds
    && (forall k {:trigger tds[k]} :: k in tds ==> tds[k] == PathTd(blocks[k], g) && tds[k] <= tds[Key(head)])
  }

  lemma {:induction false} TdsStep(tds: map<(nat, Hash), nat>, blocks: Db, head: Header, g: Header, b: Header,
      p: Header, next: Header)
    requires Closed(blocks, g) && TdsOk(tds, blocks, head, g)
    requires Stored(blocks, p) && Rooted(b, g) && b.parentHash == HashOf(p) && b.number == p.number + 1
    requires var td := b.difficulty + tds[Key(p)];
      (next == b && td >= tds[Key(head)]) || (next == head && td <= tds[Key(head)])
    ensures TdsOk(tds[Key(b) := b.difficulty + tds[Key(p)]], blocks[Key(b) := b], next, g)
  {
    assert blocks[Key(p)] == p;
    if Stored(blocks, b) {
      assert blocks[Key(b)] == b && tds[Key(b)] == PathTd(b, g);
    }
  }

  lemma {:induction false} StoredIsUnbroken(blocks: Db, h: Header, g: Header)
    requires Closed(blocks, g) && Stored(blocks, h)
    ensures Unbroken(blocks, h) && Rooted(h, g)
    decreases h
  {
    assert blocks[(h.number, HashOf(h))] == h;
    RootedNumber(h, g);
    if h != g {
      var p := h.parentHash.header;
      StoredIsUnbroken(blocks, p, g);
      PathFacts(p, g);
      forall n | 0 <= n < h.number
        ensures (n, HashOf(Path(h)[n])) in blocks
      {
        assert Path(h)[n] == Path(p)[n];
      }
    }
  }

  lemma ChildIsUnbroken(blocks: Db, h: Header, g: Header)
    requires Closed(blocks, g) && WellNumbered(h)
    requires h.number > 0 && (h.number - 1, h.parentHash) in blocks
    ensures Rooted(h, g) && Unbroken(blocks, h)
    ensures Closed(blocks[(h.number, HashOf(h)) := h], g)
  {
    hide Closed, Unbroken;
    ParentIsRooted(blocks, h, g);
    ClosedGrows(blocks, h, g);
    var p := blocks[(h.number - 1, h.parentHash)];
    StoredIsUnbroken(blocks, p, g);
    UnbrokenGrows(blocks, p, h, g);
  }

  lemma ParentIsRooted(blocks: Db, h: Header, g: Header)
    requires Closed(blocks, g) && WellNumbered(h)
    requires h.number > 0 && (h.number - 1, h.parentHash) in blocks
    ensures var p := blocks[(h.number - 1, h.parentHash)];
      h.parentHash == HashOf(p) && p.number == h.number - 1 && Stored(blocks, p) && Rooted(p, g) && Rooted(h, g)
  {
    var p := blocks[(h.number - 1, h.parentHash)];
    assert h.parentHash == HashOf(p) && Rooted(p, g);
  }

  lemma {:induction false} ClosedGrows(blocks: Db, h: Header, g: Header)
    requires Closed(blocks, g) && Rooted(h, g) && h.number > 0 && (h.number - 1, h.parentHash) in blocks
    ensures Closed(blocks[(h.number, HashOf(h)) := h], g)
  {
    hide Rooted;
  }

  lemma UnbrokenGrows(blocks: Db, p: Header, h: Header, g: Header)
    requires Rooted(p, g) && Rooted(h, g) && h.parentHash == HashOf(p) && h.number == p.number + 1
    requires Unbroken(blocks, p) && Stored(blocks, p)
    ensures Unbroken(blocks, h)
  {
    PathFacts(p, g);
    forall n | 0 <= n < h.number
      ensures (n, HashOf(Path(h)[n])) in blocks
    {
      assert Path(h)[n] == Path(p)[n];
      if n == p.number {
        assert Path(p)[n] == p;
      }
    }
  }

  lemma HeadFacts(blocks: Db, tds: map<(nat, Hash), nat>, head: Header, g: Header)
    requires Closed(blocks, g) && Stored(blocks, head) && TdsOk(tds, blocks, head, g)
    ensures Keyed(blocks) && Rooted(head, g) && Unbroken(blocks, head)
    ensures tds.Keys == blocks.Keys && Key(head) in tds
  {
    hide Unbroken, Rooted;
    StoredIsUnbroken(blocks, head, g);
  }

  lemma GenesisIsLowest(blocks: Db, g: Header)
    requires Closed(blocks, g)
    ensures g.number == 0
  {
  }

  lemma NoRepeatPrefix(bs: seq<Header>, m: nat)
    requires NoRepeat(bs) && m <= |bs|
    ensures NoRepeat(bs[..m])
  {
  }

  lemma NoRepeatAbove(path: seq<Header>, m: nat)
    requires NoRepeat(path) && m < |path|
    ensures NoRepeat(Above(path, m))
  {
    var hs := Above(path, m);
    forall j, i, k, l | 0 <= j < |hs| && 0 <= i < |Txs(hs[j])| && 0 <= k < |hs| && 0 <= l < |Txs(hs[k])|
      && Txs(hs[j])[i] == Txs(hs[k])[l]
      ensures j == k && i == l
    {
      assert hs[j] == path[|path| - 1 - j] && hs[k] == path[|path| - 1 - k];
    }
  }

  /** A transaction at or below index `m` does not occur above it. */
  lemma NotAbove(path: seq<Header>, m: nat, n: nat, i: nat)
    requires NoRepeat(path) && n <= m < |path| && i < |Txs(path[n])|
    ensures Txs(path[n])[i] !in TxsOf(Above(path, m))
  {
    var t := Txs(path[n])[i];
    TxsOfMember(Above(path, m), t);
  }

  /** A transaction of the path that is not above index `m` sits at or below it. */
  lemma NotAboveMeansBelow(path: seq<Header>, m: nat, n: nat)
    requires m < |path| && n < |path| && n > m
    ensures forall t :: t in Txs(path[n]) ==> t in TxsOf(Above(path, m))
  {
    forall t | t in Txs(path[n])
      ensures t in TxsOf(Above(path, m))
    {
      TxsOfMember(Above(path, m), t);
      assert Above(path, m)[|path| - 1 - n] == path[n];
    }
  }

  lemma SharedEntryKept(a: Header, b: Header, g: Header, m: nat, n: nat,
      l0: map<Tx, TxPos>, l1: map<Tx, TxPos>, l2: map<Tx, TxPos>)
    requires Rooted(a, g) && Rooted(b, g) && ForkAt(a, b, m) && n <= m
    requires NoRepeat(Path(a)) && NoRepeat(Path(b))
    requires Placed(l0, Path(a)[n])
    requires Overlay(l0, l1, Segment(b, m))
    requires l2 == l1 - (set t | t in TxsOf(Segment(a, m)) && t !in TxsOf(Segment(b, m)))
    ensures Placed(l2, Path(b)[n])
  {
    SharedBelow(a, b, g, m, n);
    forall i | 0 <= i < |Txs(Path(b)[n])|
      ensures Txs(Path(b)[n])[i] !in TxsOf(Segment(a, m)) && Txs(Path(b)[n])[i] !in TxsOf(Segment(b, m))
    {
      NotAbove(Path(a), m, n, i);
      NotAbove(Path(b), m, n, i);
    }
  }

  lemma NewEntryPlaced(a: Header, b: Header, m: nat, n: nat,
      l0: map<Tx, TxPos>, l1: map<Tx, TxPos>, l2: map<Tx, TxPos>)
    requires m < n <= b.number
    requires Overlay(l0, l1, Segment(b, m))
    requires l2 == l1 - (set t | t in TxsOf(Segment(a, m)) && t !in TxsOf(Segment(b, m)))
    ensures Placed(l2, Path(b)[n])
  {
    assert Segment(b, m)[b.number - n] == Path(b)[n];
    assert Placed(l1, Path(b)[n]);
    NotAboveMeansBelow(Path(b), m, n);
  }

  lemma NewEntryPoints(b: Header, g: Header, m: nat, l: map<Tx, TxPos>, t: Tx)
    requires Rooted(b, g) && m <= b.number
    requires forall j :: 0 <= j < |Segment(b, m)| ==> Placed(l, Segment(b, m)[j])
    requires t in l && t in TxsOf(Segment(b, m))
    ensures PointsTo(l[t], t, b)
  {
    hide Rooted, TxsOf, At;
    PathFacts(b, g);
    TxsOfMember(Segment(b, m), t);
    var j :| 0 <= j < |Segment(b, m)| && t in Txs(Segment(b, m)[j]);
    assert Placed(l, Segment(b, m)[j]);
    assert Segment(b, m)[j] == Path(b)[b.number - j];
  }

  lemma KeptEntryPoints(a: Header, b: Header, g: Header, m: nat, pos: TxPos, t: Tx)
    requires Rooted(a, g) && Rooted(b, g) && ForkAt(a, b, m)
    requires PointsTo(pos, t, a) && t !in TxsOf(Segment(a, m))
    ensures PointsTo(pos, t, b)
  {
    if pos.number > m {
      NotAboveMeansBelow(Path(a), m, pos.number);
      assert false;
    }
    SharedBelow(a, b, g, m, pos.number);
  }

  lemma ReorgLeavesNoStale(a: Header, b: Header, g: Header, m: nat,
      l0: map<Tx, TxPos>, l1: map<Tx, TxPos>, l2: map<Tx, TxPos>)
    requires Rooted(a, g) && Rooted(b, g) && ForkAt(a, b, m)
    requires forall t :: t in l0 ==> PointsTo(l0[t], t, a)
    requires Overlay(l0, l1, Segment(b, m))
    requires l2 == l1 - (set t | t in TxsOf(Segment(a, m)) && t !in TxsOf(Segment(b, m)))
    ensures forall t :: t in l2 ==> PointsTo(l2[t], t, b)
  {
    forall t | t in l2
      ensures PointsTo(l2[t], t, b)
    {
      if t in TxsOf(Segment(b, m)) {
        NewEntryPoints(b, g, m, l1, t);
      } else {
        KeptEntryPoints(a, b, g, m, l0[t], t);
      }
    }
  }

  /** Moving the lookup index across a fork: write the entries of the new segment over it, then
      delete the transactions that only the old segment had. The result is exact for the new
      head. */
  lemma ReorgLookup(a: Header, b: Header, g: Header, m: nat,
      l0: map<Tx, TxPos>, l1: map<Tx, TxPos>, l2: map<Tx, TxPos>)
    requires Rooted(a, g) && Rooted(b, g) && ForkAt(a, b, m)
    requires NoRepeat(Path(a)) && NoRepeat(Path(b))
    requires LookupExact(l0, a)
    requires Overlay(l0, l1, Segment(b, m))
    requires l2 == l1 - (set t | t in TxsOf(Segment(a, m)) && t !in TxsOf(Segment(b, m)))
    ensures LookupExact(l2, b)
  {
    forall n | 0 <= n <= b.number
      ensures Placed(l2, Path(b)[n])
    {
      if n <= m {
        SharedEntryKept(a, b, g, m, n, l0, l1, l2);
      } else {
        NewEntryPlaced(a, b, m, n, l0, l1, l2);
      }
    }
    ReorgLeavesNoStale(a, b, g, m, l0, l1, l2);
  }

  /** `l'` is `l` with the entries of one block written over it. */
  ghost predicate Wrote(l: map<Tx, TxPos>, l': map<Tx, TxPos>, b: Header) {
    && Placed(l', b)
    && (forall t :: t in l' <==> t in l || t in Txs(b))
    && (forall t :: t in l && t !in Txs(b) ==> l'[t] == l[t])
  }

  lemma OverlayStep(l0: map<Tx, TxPos>, l: map<Tx, TxPos>, l': map<Tx, TxPos>, bs: seq<Header>, b: Header)
    requires Overlay(l0, l, bs) && Wrote(l, l', b) && NoRepeat(bs + [b])
    ensures Overlay(l0, l', bs + [b])
  {
    TxsOfAppend(bs, b);
    var all := bs + [b];
    forall j | 0 <= j < |all|
      ensures Placed(l', all[j])
    {
      if j < |bs| {
        forall i | 0 <= i < |Txs(bs[j])|
          ensures Txs(bs[j])[i] in l' && l'[Txs(bs[j])[i]] == TxPos(HashOf(bs[j]), bs[j].number, i)
        {
          assert all[j] == bs[j] && all[|bs|] == b;
          assert Placed(l, bs[j]);
          assert Txs(all[j])[i] !in Txs(all[|bs|]);
        }
      }
    }
  }

  /** Writing the entries of a child of the head makes the index exact for the child. */
  lemma ExtendLookup(a: Header, b: Header, g: Header, l: map<Tx, TxPos>, l': map<Tx, TxPos>)
    requires Rooted(a, g) && Rooted(b, g) && b.parentHash == HashOf(a) && b != g
    requires NoRepeat(Path(a)) && NoRepeat(Path(b))
    requires LookupExact(l, a) && Wrote(l, l', b)
    ensures ForkAt(a, b, a.number) && LookupExact(l', b)
  {
    hide NoRepeat, LookupExact, Wrote, Overlay;
    var m := a.number;
    ForkAtHead(a, b, g);
    assert NoRepeat([b]) by {
      NoRepeatAbove(Path(b), m);
    }
    OverlayNone(l);
    assert [] + [b] == [b];
    OverlayStep(l, l, l', [], b);
    assert l' == l' - (set t | t in TxsOf(Segment(a, m)) && t !in TxsOf(Segment(b, m)));
    ReorgLookup(a, b, g, m, l, l', l');
  }

  /** A child of the head forks off at the head. */
  lemma ForkAtHead(a: Header, b: Header, g: Header)
    requires Rooted(a, g) && Rooted(b, g) && b.parentHash == HashOf(a) && b != g
    ensures ForkAt(a, b, a.number) && b.number == a.number + 1
    ensures Segment(b, a.number) == [b] && Segment(a, a.number) == []
  {
    PathFacts(a, g);
    PathFacts(b, g);
    assert Path(b)[a.number] == a;
  }

  lemma OverlayNone(l: map<Tx, TxPos>)
    ensures Overlay(l, l, [])
  {
  }

  /** Writing the entries of a block that is already on the chain changes nothing. */
  lemma RewriteLookup(b: Header, l: map<Tx, TxPos>, l': map<Tx, TxPos>)
    requires Placed(l, b) && Wrote(l, l', b)
    ensures l' == l
  {
    forall t | t in l
      ensures t in l' && l'[t] == l[t]
    {
      if t in Txs(b) {
        var i :| 0 <= i < |Txs(b)| && Txs(b)[i] == t;
      }
    }
  }

  /** The block database, the two indexes and the head. */
  datatype ChainState = ChainState(blocks: Db, tds: map<(nat, Hash), nat>, canon: map<nat, Hash>,
                                   lookup: map<Tx, TxPos>, head: Header)

  function Fresh(g: Header): ChainState {
    ChainState(map[Key(g) := g], map[Key(g) := g.difficulty], map[0 := HashOf(g)], map[], g)
  }

  /** Difficulties are those of the paths, the head is the heaviest block, the canonical index up to
      the head is its path, and the lookup index maps exactly the transactions on it. */
  ghost predicate Exact(s: ChainState, g: Header) {
    && Closed(s.blocks, g) && Stored(s.blocks, s.head)
    && TdsOk(s.tds, s.blocks, s.head, g)
    && NoRepeat(Path(s.head))
    && CanonUpTo(s.canon, s.head)
    && LookupExact(s.lookup, s.head)
  }

  lemma FreshIsExact(g: Header)
    requires g.number == 0 && Txs(g) == []
    ensures Exact(Fresh(g), g)
  {
    assert Path(g) == [g];
  }

  /** A block with an unknown parent is refused and changes nothing. Any other is stored with its
      total difficulty, and becomes the head exactly if it wins the fork choice. */
  ghost predicate Written(s: ChainState, s': ChainState, b: Header, coin: bool, status: Status) {
    if b.number == 0 || (b.number - 1, b.parentHash) !in s.tds || Key(s.head) !in s.tds
      then s' == s && status == NonStat
    else
      var externTd, localTd := b.difficulty + s.tds[(b.number - 1, b.parentHash)], s.tds[Key(s.head)];
      var wins := externTd > localTd || (externTd == localTd && coin);
      && s'.blocks == s.blocks[Key(b) := b] && s'.tds == s.tds[Key(b) := externTd]
      && status == (if wins then CanonStat else SideStat)
      && (if wins then s'.head == b else s'.head == s.head && s'.canon == s.canon && s'.lookup == s.lookup)
  }

  class BlockChain {
    const genesisBlock: Header
    var blocks: Db
    var tds: map<(nat, Hash), nat>
    var canon: map<nat, Hash>
    var lookup: map<Tx, TxPos>
    var currentBlock: Header
    var currentHeader: Header
    var currentFast: Header

    ghost predicate Valid()
      reads this
    {
      Exact(View(), genesisBlock)
    }

    /** A chain that holds only a genesis block without transactions. */
    constructor (genesis: Header)
      requires genesis.number == 0 && Txs(genesis) == []
      ensures Valid() && genesisBlock == genesis && View() == Fresh(genesis)
    {
      genesisBlock := genesis;
      var start := Fresh(genesis);
      blocks, tds, canon, lookup, currentBlock := start.blocks, start.tds, start.canon, start.lookup, start.head;
      currentHeader, currentFast := genesis, genesis;
      new;
      FreshIsExact(genesis);
    }

    function View(): ChainState
      reads this
    {
      ChainState(blocks, tds, canon, lookup, currentBlock)
    }

    /** Marks a block as the head and as canonical at its number. The head header and the fast block
        follow only if the block was not canonical before. */
    method Insert(block: Header)
      modifies this`canon, this`currentBlock, this`currentHeader, this`currentFast
      ensures canon == old(canon)[block.number := HashOf(block)] && currentBlock == block
      ensures
        if block.number in old(canon) && old(canon)[block.number] == HashOf(block)
        then currentHeader == old(currentHeader) && currentFast == old(currentFast)
        else currentHeader == block && currentFast == block
    {
      if block.number !in canon || canon[block.number] != HashOf(block) {
        currentHeader, currentFast := block, block;
      }
      canon := canon[block.number := HashOf(block)];
      currentBlock := block;
    }

    method WriteTxLookupEntries(block: Header)
      requires NoRepeat([block])
      modifies this`lookup
      ensures Wrote(old(lookup), lookup, block)
    {
      var txs := Txs(block);
      assert forall i, k :: 0 <= i < k < |txs| ==> txs[i] != txs[k] by {
        forall i, k | 0 <= i < k < |txs|
          ensures txs[i] != txs[k]
        {
          assert [block][0] == block;
        }
      }
      for i := 0 to |txs|
        invariant forall k :: 0 <= k < i ==> txs[k] in lookup && lookup[txs[k]] == TxPos(HashOf(block), block.number, k)
        invariant forall t :: t in lookup <==> t in old(lookup) || t in txs[..i]
        invariant forall t :: t in old(lookup) && t !in txs[..i] ==> lookup[t] == old(lookup)[t]
      {
        lookup := lookup[txs[i] := TxPos(HashOf(block), block.number, i)];
        assert txs[..i + 1] == txs[..i] + [txs[i]];
      }
      assert txs[..|txs|] == txs;
    }

    method DeleteTxLookupEntries(txs: seq<Tx>)
      modifies this`lookup
      ensures lookup == old(lookup) - (set t | t in txs)
    {
      for i := 0 to |txs|
        invariant lookup == old(lookup) - (set t | t in txs[..i])
      {
        lookup := lookup - {txs[i]};
        assert txs[..i + 1] == txs[..i] + [txs[i]];
      }
      assert txs[..|txs|] == txs;
    }

    /** Re-inserts the blocks of the new segment, highest first. */
    method Adopt(newChain: seq<Header>, ghost newBlock: Header, ghost m: nat)
      requires m <= newBlock.number && newChain == Segment(newBlock, m) && Chained(Path(newBlock))
      requires NoRepeat(newChain)
      modifies this`canon, this`lookup, this`currentBlock, this`currentHeader, this`currentFast
      ensures Overlay(old(lookup), lookup, newChain)
      ensures forall n :: m < n <= newBlock.number ==> n in canon && canon[n] == HashOf(Path(newBlock)[n])
      ensures forall n :: 0 <= n <= m ==>
        (n in canon <==> n in old(canon)) && (n in canon ==> canon[n] == old(canon)[n])
    {
      hide Overlay, NoRepeat, Wrote, Placed;
      OverlayNone(lookup);
      assert newChain[..0] == [];
      for i := 0 to |newChain|
        invariant Overlay(old(lookup), lookup, newChain[..i])
        invariant forall n :: newBlock.number - i < n <= newBlock.number ==>
          n in canon && canon[n] == HashOf(Path(newBlock)[n])
        invariant forall n :: 0 <= n <= m ==>
          (n in canon <==> n in old(canon)) && (n in canon ==> canon[n] == old(canon)[n])
      {
        var block := newChain[i];
        assert block == Path(newBlock)[newBlock.number - i];
        Insert(block);
        ghost var before := lookup;
        OneOf(newChain, i);
        WriteTxLookupEntries(block);
        OverlayStep(old(lookup), before, lookup, newChain[..i], block);
      }
      assert newChain[..|newChain|] == newChain;
    }

    /** Reorganises from the old head onto the chain of the new block. It cannot fail while every
        ancestor is stored. */
    method Reorg(oldBlock: Header, newBlock: Header) returns (ok: bool)
      requires Keyed(blocks) && Rooted(oldBlock, genesisBlock) && Rooted(newBlock, genesisBlock)
      requires Unbroken(blocks, oldBlock) && Unbroken(blocks, newBlock)
      requires NoRepeat(Path(oldBlock)) && NoRepeat(Path(newBlock))
      requires CanonUpTo(canon, oldBlock) && LookupExact(lookup, oldBlock)
      modifies this`canon, this`lookup, this`currentBlock, this`currentHeader, this`currentFast
      ensures ok
      ensures CanonUpTo(canon, newBlock) && LookupExact(lookup, newBlock)
    {
      hide Overlay, NoRepeat, LookupExact, Chained, Unbroken, Rooted, TxsOf, At;
      var walk := ReorgWalk(blocks, oldBlock, newBlock, genesisBlock);
      if walk.None? {
        return false;
      }
      var (x, y) := walk.value;
      ghost var m := x.at.number;
      PathFacts(newBlock, genesisBlock);
      NoRepeatAbove(Path(newBlock), m);
      ghost var l0 := lookup;
      Adopt(y.chain, newBlock, m);
      ghost var l1 := lookup;
      var diff := TxDifference(x.txs, y.txs);
      DeleteTxLookupEntries(diff);
      assert (set t | t in diff) == (set t | t in x.txs && t !in y.txs);
      ReorgLookup(oldBlock, newBlock, genesisBlock, m, l0, l1, lookup);
      forall n | 0 <= n <= newBlock.number
        ensures n in canon && canon[n] == HashOf(Path(newBlock)[n])
      {
        if n <= m {
          SharedBelow(oldBlock, newBlock, genesisBlock, m, n);
        }
      }
      return true;
    }

    /** Makes a block canonical: reorganise first if it does not extend the head. */
    method MakeCanonical(block: Header)
      requires Keyed(blocks) && Rooted(currentBlock, genesisBlock) && Rooted(block, genesisBlock)
      requires block != genesisBlock
      requires Unbroken(blocks, currentBlock) && Unbroken(blocks, block)
      requires NoRepeat(Path(currentBlock)) && NoRepeat(Path(block))
      requires CanonUpTo(canon, currentBlock) && LookupExact(lookup, currentBlock)
      modifies this`canon, this`lookup, this`currentBlock, this`currentHeader, this`currentFast
      ensures currentBlock == block && CanonUpTo(canon, block) && LookupExact(lookup, block)
    {
      PathFacts(block, genesisBlock);
      ghost var old0 := currentBlock;
      if block.parentHash != HashOf(currentBlock) {
        var ok := Reorg(currentBlock, block);
        assert Placed(lookup, Path(block)[block.number]);
      }
      ghost var before := lookup;
      OneOf(Path(block), block.number);
      WriteTxLookupEntries(block);
      if block.parentHash != HashOf(old0) {
        RewriteLookup(block, before, lookup);
      } else {
        ExtendLookup(old0, block, genesisBlock, before, lookup);
        forall n | 0 <= n < block.number
          ensures Path(block)[n] == Path(old0)[n]
        {
          SharedBelow(old0, block, genesisBlock, old0.number, n);
        }
      }
      Insert(block);
    }

    /** Writes a block. An unknown parent is refused and changes nothing; otherwise the block and
        its total difficulty are stored, and the block becomes the head exactly when it wins the
        fork choice. `Valid` then says that the canonical and the lookup index are those of the
        head, whichever it is. */
    method WriteBlockAndState(block: Header, coin: bool) returns (status: Status)
      requires Valid() && WellNumbered(block) && NoRepeat(Path(block))
      modifies this
      ensures Valid()
      ensures Written(old(View()), View(), block, coin, status)
    {
      hide NoRepeat, LookupExact, CanonUpTo, Unbroken, Closed, TdsOk, Rooted;
      HeadFacts(blocks, tds, currentBlock, genesisBlock);
      if block.number == 0 || (block.number - 1, block.parentHash) !in tds {
        return NonStat;
      }
      ghost var blocks0, tds0, head0 := blocks, tds, currentBlock;
      ParentIsRooted(blocks0, block, genesisBlock);
      ChildIsUnbroken(blocks0, block, genesisBlock);
      GenesisIsLowest(blocks0, genesisBlock);
      ghost var parent := blocks[(block.number - 1, block.parentHash)];
      var localTd := tds[Key(currentBlock)];
      var externTd := block.difficulty + tds[(block.number - 1, block.parentHash)];
      tds := tds[Key(block) := externTd];
      if externTd > localTd || (externTd == localTd && coin) {
        MakeCanonical(block);
        status := CanonStat;
      } else {
        status := SideStat;
      }
      blocks := blocks[Key(block) := block];
      TdsStep(tds0, blocks0, head0, genesisBlock, block, parent, currentBlock);
    }
  }

  lemma OneOf(bs: seq<Header>, i: nat)
    requires NoRepeat(bs) && i < |bs|
    ensures NoRepeat([bs[i]]) && NoRepeat(bs[..i] + [bs[i]]) && bs[..i + 1] == bs[..i] + [bs[i]]
  {
    hide NoRepeat;
    NoRepeatPrefix(bs, i + 1);
    assert bs[..i + 1] == bs[..i] + [bs[i]];
    OneBlock(bs, i);
  }

  lemma OneBlock(bs: seq<Header>, i: nat)
    requires NoRepeat(bs) && i < |bs|
    ensures NoRepeat([bs[i]])
  {
    var one := [bs[i]];
    forall j, k, p, q | 0 <= j < |one| && 0 <= k < |Txs(one[j])| && 0 <= p < |one| && 0 <= q < |Txs(one[p])|
      && Txs(one[j])[k] == Txs(one[p])[q]
      ensures j == p && k == q
    {
      assert one[j] == bs[i] && one[p] == bs[i];
      assert Txs(bs[i])[k] == Txs(bs[i])[q];
    }
  }

  datatype WriteEvent = WriteEvent(block: Header, coin: bool)

  /** Over every sequence of block writes from genesis, reorganisations of any depth included, both
      indexes are exact after every write. No chain repeats a transaction. */
  method Run(g: Header, events: seq<WriteEvent>) returns (trace: seq<ChainState>, statuses: seq<Status>)
    requires g.number == 0 && Txs(g) == []
    requires forall i :: 0 <= i < |events| ==> WellNumbered(events[i].block) && NoRepeat(Path(events[i].block))
    ensures |trace| == |events| + 1 && |statuses| == |events| && trace[0] == Fresh(g)
    ensures forall i :: 0 <= i < |events| ==>
      Written(trace[i], trace[i + 1], events[i].block, events[i].coin, statuses[i])
    ensures forall i :: 0 <= i <= |events| ==> Exact(trace[i], g)
  {
    hide Exact, Written, NoRepeat, Fresh;
    var chain := new BlockChain(g);
    trace, statuses := [chain.View()], [];
    for i := 0 to |events|
      invariant chain.Valid() && fresh(chain) && chain.genesisBlock == g
      invariant |trace| == i + 1 && |statuses| == i && trace[0] == Fresh(g) && trace[i] == chain.View()
      invariant forall j :: 0 <= j < i ==> Written(trace[j], trace[j + 1], events[j].block, events[j].coin, statuses[j])
      invariant forall j :: 0 <= j <= i ==> Exact(trace[j], g)
    {
      var status := chain.WriteBlockAndState(events[i].block, events[i].coin);
      trace, statuses := trace + [chain.View()], statuses + [status];
    }
  }
}
