/** The three walks that look for the fork point of two chains: `FindCommonAncestor`
    (blockchain/database_util.go), the one in `reorg` (blockchain/blockchain.go) and the one in
    the transaction pool's `reset` (txpool/tx_pool.go). */
module Ancestry {
  import opened Chain
  import opened Options

  /** The headers from genesis up to `h`, indexed by block number. */
  ghost function Path(h: Header): seq<Header> {
    seq(h.number + 1, n requires 0 <= n => At(h, n))
  }

  /** `m` is the number of the deepest common ancestor of `a` and `b`. */
  ghost predicate ForkAt(a: Header, b: Header, m: nat) {
    m <= a.number && m <= b.number && Path(a)[m] == Path(b)[m] &&
    forall n :: m < n <= a.number && n <= b.number ==> Path(a)[n] != Path(b)[n]
  }

  /** The headers of `h`'s path above number `m`, highest first. */
  ghost function Segment(h: Header, m: nat): seq<Header> {
    Above(Path(h), m)
  }

  /** The elements of `path` from the last one down to, and excluding, index `m`. */
  ghost function Above(path: seq<Header>, m: nat): seq<Header> {
    seq(if m < |path| then |path| - 1 - m else 0, i requires 0 <= i < |path| => path[|path| - 1 - i])
  }

  lemma AboveStep(path: seq<Header>, m: nat)
    requires 0 < m < |path|
    ensures Above(path, m - 1) == Above(path, m) + [path[m]]
    ensures TxsOf(Above(path, m - 1)) == TxsOf(Above(path, m)) + Txs(path[m])
  {
    TxsOfAppend(Above(path, m), path[m]);
  }

  ghost predicate Chained(path: seq<Header>) {
    (forall n :: 0 <= n < |path| ==> path[n].number == n) &&
    (forall n :: 0 < n < |path| ==> path[n].parentHash == HashOf(path[n - 1]))
  }

  lemma PathFacts(h: Header, g: Header)
    requires Rooted(h, g)
    ensures Path(h)[h.number] == h && Path(h)[0] == g
    ensures Chained(Path(h))
  {
    AtOnPath(h, g, 0);
    forall n | 0 <= n <= h.number
      ensures Path(h)[n].number == n
      ensures n > 0 ==> Path(h)[n].parentHash == HashOf(Path(h)[n - 1])
    {
      AtOnPath(h, g, n);
      if n > 0 {
        AtOnPath(h, g, n - 1);
      }
    }
  }

  /** Two rooted chains that share the header at `n` share everything below it. */
  lemma SharedBelow(a: Header, b: Header, g: Header, m: nat, n: nat)
    requires Rooted(a, g) && Rooted(b, g)
    requires n <= m <= a.number && m <= b.number && Path(a)[m] == Path(b)[m]
    ensures Path(a)[n] == Path(b)[n]
  {
    AgreeBelow(a, b, g, m, n);
  }

  /** Two chains with the same genesis have one fork number, and only one. */
  lemma ForkExists(a: Header, b: Header, g: Header) returns (m: nat)
    requires Rooted(a, g) && Rooted(b, g)
    ensures ForkAt(a, b, m)
    ensures forall k: nat :: ForkAt(a, b, k) ==> k == m
  {
    PathFacts(a, g);
    PathFacts(b, g);
    m := if a.number <= b.number then a.number else b.number;
    while Path(a)[m] != Path(b)[m]
      invariant 0 <= m <= a.number && m <= b.number
      invariant forall n :: m < n <= a.number && n <= b.number ==> Path(a)[n] != Path(b)[n]
      decreases m
    {
      m := m - 1;
    }
  }

  /** Every header common to both chains is an ancestor of the fork header: it is the deepest. */
  lemma ForkIsDeepest(a: Header, b: Header, g: Header, m: nat, n: nat, k: nat)
    requires Rooted(a, g) && Rooted(b, g) && ForkAt(a, b, m)
    requires n <= a.number && k <= b.number && Path(a)[n] == Path(b)[k]
    ensures n == k && n <= m && Path(a)[n] == At(Path(a)[m], n)
  {
    PathFacts(a, g);
    PathFacts(b, g);
    AtOfAt(a, g, m, n);
  }

  /** The parts of the two chains above the fork have no header in common. */
  lemma {:induction false} SegmentsDisjoint(a: Header, b: Header, g: Header, m: nat, i: nat, j: nat)
    requires Rooted(a, g) && Rooted(b, g) && ForkAt(a, b, m)
    requires i < |Segment(a, m)| && j < |Segment(b, m)|
    ensures Segment(a, m)[i] != Segment(b, m)[j]
  {
    PathFacts(a, g);
    PathFacts(b, g);
    assert Segment(a, m)[i] == Path(a)[a.number - i];
    assert Segment(b, m)[j] == Path(b)[b.number - j];
  }

  /** Header database: entries are written under the header's own number and hash. */
  type Db = map<(nat, Hash), Header>

  ghost predicate Keyed(db: Db) {
    forall k :: k in db ==> k == (db[k].number, HashOf(db[k]))
  }

  /** Every strict ancestor of `h` is in the database. */
  ghost predicate Unbroken(db: Db, h: Header) {
    forall n :: 0 <= n < h.number ==> (n, HashOf(Path(h)[n])) in db
  }

  /** Reads the parent of a header that lies on the path `path`. */
  method GetParent(db: Db, h: Header, ghost path: seq<Header>) returns (p: Option<Header>)
    requires Keyed(db) && Chained(path)
    requires h.number < |path| && h == path[h.number]
    ensures p.Some? ==> h.number > 0 && p.value == path[h.number - 1] && p.value.number == h.number - 1
    ensures p.None? <==> h.number == 0 || (h.number - 1, HashOf(path[h.number - 1])) !in db
  {
    if h.number > 0 && (h.number - 1, h.parentHash) in db {
      p := Some(db[(h.number - 1, h.parentHash)]);
    } else {
      p := None;
    }
  }

  /** Whatever the database holds, an answer is the deepest common ancestor; there is an answer
      whenever no ancestor is missing. */
  method FindCommonAncestor(db: Db, a0: Header, b0: Header, ghost g: Header) returns (r: Option<Header>)
    requires Keyed(db) && Rooted(a0, g) && Rooted(b0, g)
    ensures r.Some? ==> ForkAt(a0, b0, r.value.number) && r.value == Path(a0)[r.value.number]
    ensures Unbroken(db, a0) && Unbroken(db, b0) ==> r.Some?
  {
    PathFacts(a0, g);
    PathFacts(b0, g);
    ghost var pa, pb := Path(a0), Path(b0);
    var a, b := a0, b0;
    while a.number > b.number
      invariant a.number < |pa| && pa[a.number] == a && (a.number < b.number ==> a == a0)
    {
      var p := GetParent(db, a, pa);
      if p.None? {
        return None;
      }
      a := p.value;
    }
    while a.number < b.number
      invariant b.number < |pb| && pb[b.number] == b
      invariant a.number <= b.number && (a.number < b.number ==> a == a0) && (b == b0 || a == a0)
    {
      var p := GetParent(db, b, pb);
      if p.None? {
        return None;
      }
      b := p.value;
    }
    while HashOf(a) != HashOf(b)
      invariant a.number == b.number < |pa| && b.number < |pb| && pa[a.number] == a && pb[b.number] == b
      invariant forall n :: a.number < n <= a0.number && n <= b0.number ==> pa[n] != pb[n]
      decreases a.number
    {
      var p := GetParent(db, a, pa);
      if p.None? {
        return None;
      }
      var q := GetParent(db, b, pb);
      if q.None? {
        return None;
      }
      a, b := p.value, q.value;
    }
    return Some(a);
  }

  /** The transactions that a header commits to. */
  function Txs(h: Header): seq<Tx> {
    if h.txHash.ListRoot? then h.txHash.items else []
  }

  ghost function TxsOf(hs: seq<Header>): seq<Tx> {
    if hs == [] then [] else TxsOf(hs[..|hs| - 1]) + Txs(hs[|hs| - 1])
  }

  lemma TxsOfAppend(hs: seq<Header>, h: Header)
    ensures TxsOf(hs + [h]) == TxsOf(hs) + Txs(h)
  {
    assert (hs + [h])[..|hs|] == hs;
  }

  lemma {:induction false} TxsOfMember(hs: seq<Header>, t: Tx)
    ensures t in TxsOf(hs) <==> exists i :: 0 <= i < |hs| && t in Txs(hs[i])
  {
    if hs != [] {
      var front := hs[..|hs| - 1];
      TxsOfMember(front, t);
      if t in TxsOf(front) {
        var i :| 0 <= i < |front| && t in Txs(front[i]);
        assert hs[i] == front[i];
      }
      if i :| 0 <= i < |hs| && t in Txs(hs[i]) {
        assert i < |front| ==> front[i] == hs[i];
      }
    }
  }

  /** One side of a walk: where it stands, and what it has passed on the way down. */
  datatype Side = Side(at: Header, chain: seq<Header>, txs: seq<Tx>)

  /** The side stands on `path` and has collected exactly what lies above. */
  ghost predicate Walked(side: Side, path: seq<Header>) {
    && side.at.number < |path| && path[side.at.number] == side.at
    && side.chain == Above(path, side.at.number)
    && side.txs == TxsOf(side.chain)
  }

  /** Every header of the path below its top is in the database. */
  ghost predicate Present(db: Db, path: seq<Header>) {
    forall n :: 0 <= n < |path| - 1 ==> (n, HashOf(path[n])) in db
  }

  method Step(db: Db, side: Side, ghost path: seq<Header>) returns (r: Option<Side>)
    requires Keyed(db) && Chained(path) && Walked(side, path)
    ensures r.Some? ==> Walked(r.value, path) && r.value.at.number == side.at.number - 1
    ensures Present(db, path) && side.at.number > 0 ==> r.Some?
  {
    var p := GetParent(db, side.at, path);
    if p.None? {
      return None;
    }
    AboveStep(path, side.at.number);
    return Some(Side(p.value, side.chain + [side.at], side.txs + Txs(side.at)));
  }

  /** Walks one side down to the given number. */
  method Descend(db: Db, side: Side, number: nat, ghost path: seq<Header>) returns (r: Option<Side>)
    requires Keyed(db) && Chained(path) && Walked(side, path)
    ensures r.Some? ==> Walked(r.value, path)
    ensures r.Some? ==> r.value.at.number == if number < side.at.number then number else side.at.number
    ensures Present(db, path) ==> r.Some?
  {
    var cur := side;
    while cur.at.number > number
      invariant Walked(cur, path)
      invariant if number < side.at.number then number <= cur.at.number else cur == side
      decreases cur.at.number
    {
      var next := Step(db, cur, path);
      if next.None? {
        return None;
      }
      cur := next.value;
    }
    return Some(cur);
  }

  /** Walks both sides down together until they stand on the same header. */
  method Lockstep(db: Db, x0: Side, y0: Side, ghost pa: seq<Header>, ghost pb: seq<Header>)
      returns (r: Option<(Side, Side)>)
    requires Keyed(db) && Chained(pa) && Chained(pb) && pa != [] && pb != [] && pa[0] == pb[0]
    requires Walked(x0, pa) && Walked(y0, pb) && x0.at.number == y0.at.number
    ensures r.Some? ==> Walked(r.value.0, pa) && Walked(r.value.1, pb)
    ensures r.Some? ==> r.value.0.at == r.value.1.at
    ensures r.Some? ==> forall n :: r.value.0.at.number < n <= x0.at.number ==> pa[n] != pb[n]
    ensures Present(db, pa) && Present(db, pb) ==> r.Some?
  {
    var x, y := x0, y0;
    while HashOf(x.at) != HashOf(y.at)
      invariant Walked(x, pa) && Walked(y, pb) && x.at.number == y.at.number <= x0.at.number
      invariant forall n :: x.at.number < n <= x0.at.number ==> pa[n] != pb[n]
      decreases x.at.number
    {
      var p := Step(db, x, pa);
      var q := Step(db, y, pb);
      if p.None? || q.None? {
        return None;
      }
      x, y := p.value, q.value;
    }
    return Some((x, y));
  }

  /** The outcome of a walk from two heads: it meets at their deepest common ancestor, and each
      side has collected exactly the headers above it, with their transactions. */
  ghost predicate Met(oldHead: Header, newHead: Header, x: Side, y: Side) {
    && x.at == y.at
    && ForkAt(oldHead, newHead, x.at.number)
    && x.at == Path(oldHead)[x.at.number]
    && x.chain == Segment(oldHead, x.at.number) && x.txs == TxsOf(x.chain)
    && y.chain == Segment(newHead, x.at.number) && y.txs == TxsOf(y.chain)
  }

  /** The walk of `reorg`: first reduce whichever side is higher, then both together. It fails
      only if an ancestor is missing. */
  method ReorgWalk(db: Db, oldHead: Header, newHead: Header, ghost g: Header) returns (r: Option<(Side, Side)>)
    requires Keyed(db) && Rooted(oldHead, g) && Rooted(newHead, g)
    ensures r.Some? ==> Met(oldHead, newHead, r.value.0, r.value.1)
    ensures Unbroken(db, oldHead) && Unbroken(db, newHead) ==> r.Some?
  {
    PathFacts(oldHead, g);
    PathFacts(newHead, g);
    ghost var pa, pb := Path(oldHead), Path(newHead);
    var x, y := Side(oldHead, [], []), Side(newHead, [], []);
    if oldHead.number > newHead.number {
      var p := Descend(db, x, newHead.number, pa);
      if p.None? {
        return None;
      }
      x := p.value;
    } else {
      var p := Descend(db, y, oldHead.number, pb);
      if p.None? {
        return None;
      }
      y := p.value;
    }
    r := Lockstep(db, x, y, pa, pb);
  }

  /** The walk of the pool's `reset`: the old side first, then the new one, then both. */
  method ResetWalk(db: Db, oldHead: Header, newHead: Header, ghost g: Header) returns (r: Option<(Side, Side)>)
    requires Keyed(db) && Rooted(oldHead, g) && Rooted(newHead, g)
    ensures r.Some? ==> Met(oldHead, newHead, r.value.0, r.value.1)
    ensures Unbroken(db, oldHead) && Unbroken(db, newHead) ==> r.Some?
  {
    PathFacts(oldHead, g);
    PathFacts(newHead, g);
    ghost var pa, pb := Path(oldHead), Path(newHead);
    var rem := Descend(db, Side(oldHead, [], []), newHead.number, pa);
    if rem.None? {
      return None;
    }
    var add := Descend(db, Side(newHead, [], []), rem.value.at.number, pb);
    if add.None? {
      return None;
    }
    r := Lockstep(db, rem.value, add.value, pa, pb);
  }

  function TxDifference(a: seq<Tx>, b: seq<Tx>): (keep: seq<Tx>)
    ensures forall t :: t in keep <==> t in a && t !in b
  {
    if a == [] then []
    else TxDifference(a[..|a| - 1], b) + (if a[|a| - 1] in b then [] else [a[|a| - 1]])
  }

  /** The transactions that a head change puts back into the pool: none when the new head extends
      the old one or the heads are more than 64 numbers apart; otherwise exactly those of the
      abandoned segment that the adopted one does not contain. */
  method Reinject(db: Db, oldHead: Header, newHead: Header, ghost g: Header) returns (r: Option<seq<Tx>>)
    requires Keyed(db) && Rooted(oldHead, g) && Rooted(newHead, g)
    ensures HashOf(oldHead) == newHead.parentHash ==> r == Some([])
    ensures oldHead.number > newHead.number + 64 || newHead.number > oldHead.number + 64 ==> r == Some([])
    ensures HashOf(oldHead) != newHead.parentHash && -64 <= oldHead.number - newHead.number <= 64 && r.Some? ==>
      exists m: nat :: ForkAt(oldHead, newHead, m) &&
        forall t :: t in r.value <==>
          (exists i :: 0 <= i < |Segment(oldHead, m)| && t in Txs(Segment(oldHead, m)[i])) &&
          !(exists j :: 0 <= j < |Segment(newHead, m)| && t in Txs(Segment(newHead, m)[j]))
    ensures Unbroken(db, oldHead) && Unbroken(db, newHead) ==> r.Some?
  {
    if HashOf(oldHead) == newHead.parentHash || Depth(oldHead, newHead) > 64 {
      return Some([]);
    }
    hide Rooted, Unbroken, ForkAt, Segment, TxsOf, Keyed;
    var walk := ResetWalk(db, oldHead, newHead, g);
    if walk.None? {
      return None;
    }
    var (rem, add) := walk.value;
    ghost var m := rem.at.number;
    r := Some(TxDifference(rem.txs, add.txs));
    forall t
      ensures t in TxsOf(Segment(oldHead, m)) <==>
        exists i :: 0 <= i < |Segment(oldHead, m)| && t in Txs(Segment(oldHead, m)[i])
      ensures t in TxsOf(Segment(newHead, m)) <==>
        exists j :: 0 <= j < |Segment(newHead, m)| && t in Txs(Segment(newHead, m)[j])
    {
      TxsOfMember(Segment(oldHead, m), t);
      TxsOfMember(Segment(newHead, m), t);
    }
  }

  function Depth(a: Header, b: Header): nat {
    if a.number >= b.number then a.number - b.number else b.number - a.number
  }
}
