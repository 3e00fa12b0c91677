/** Headers, ideal hashes, and the path of ancestors that a header names.

    Hashing is modelled as an ideal (collision-free) one: the digest of a header is a term that
    holds the header, so equal digests mean equal headers. `Zero` is the all-zero hash that the
    system uses for "absent", and `Foreign` stands for any other byte string that is not the hash
    of a header. */
module Chain {

  datatype Item = Item(id: nat)

  type Tx = Item
  type Receipt = Item

  datatype Root =
    | ListRoot(items: seq<Item>)      // root of a list of transactions or receipts
    | UncleRoot(uncles: seq<Header>)  // hash of a list of uncle headers
    | OtherRoot(id: nat)              // any other 32-byte string

  datatype Hash =
    | Zero
    | Digest(header: Header)
    | Foreign(id: nat)

  datatype Header = Header(
    number: nat,
    parentHash: Hash,
    difficulty: nat,
    txHash: Root,
    uncleHash: Root,
    receiptHash: Root,
    extra: nat)

  function HashOf(h: Header): Hash {
    Digest(h)
  }

  function DeriveSha(items: seq<Item>): Root {
    ListRoot(items)
  }

  function CalcUncleHash(uncles: seq<Header>): Root {
    UncleRoot(uncles)
  }

  /** The number checks done on every header before it is written. */
  predicate WellNumbered(h: Header) {
    h.parentHash.Digest? ==> h.number == h.parentHash.header.number + 1
  }

  /** `h` reaches the genesis header `g` by parent hashes, one number at a time. */
  ghost predicate Rooted(h: Header, g: Header)
    decreases h
  {
    g.number == 0 &&
    (h == g || (h.parentHash.Digest? && WellNumbered(h) && Rooted(h.parentHash.header, g)))
  }

  /** The ancestor of `h` at number `n` (`h` itself when it is not above `n`). */
  ghost function At(h: Header, n: nat): Header
    decreases h
  {
    if h.number <= n || !h.parentHash.Digest? then h else At(h.parentHash.header, n)
  }

  /** Total difficulty of the path from the genesis header to `h`. */
  ghost function PathTd(h: Header, g: Header): nat
    decreases h
  {
    if h == g || !h.parentHash.Digest? then h.difficulty
    else h.difficulty + PathTd(h.parentHash.header, g)
  }

  /** The same total, as a plain sum over block numbers. */
  ghost function SumUpTo(h: Header, n: nat): nat {
    At(h, n).difficulty + (if n == 0 then 0 else SumUpTo(h, n - 1))
  }

  lemma {:induction false} RootedNumber(h: Header, g: Header)
    requires Rooted(h, g)
    ensures h.number == 0 <==> h == g
  {
    if h != g {
      RootedNumber(h.parentHash.header, g);
    }
  }

  /** Every number up to the head has exactly one ancestor, itself rooted. */
  lemma {:induction false} AtOnPath(h: Header, g: Header, n: nat)
    requires Rooted(h, g)
    requires n <= h.number
    ensures At(h, n).number == n
    ensures Rooted(At(h, n), g)
    ensures n == 0 ==> At(h, n) == g
    ensures n < h.number ==> At(h, n + 1).parentHash == HashOf(At(h, n))
    decreases h
  {
    RootedNumber(h, g);
    if n < h.number {
      AtOnPath(h.parentHash.header, g, n);
    }
  }

  /** An ancestor of an ancestor is an ancestor. */
  lemma {:induction false} AtOfAt(h: Header, g: Header, m: nat, n: nat)
    requires Rooted(h, g)
    requires n <= m <= h.number
    ensures At(At(h, m), n) == At(h, n)
    decreases h
  {
    RootedNumber(h, g);
    if m < h.number {
      AtOfAt(h.parentHash.header, g, m, n);
    }
  }

  /** Two paths that meet at one number agree at every number below it. */
  lemma AgreeBelow(a: Header, b: Header, g: Header, m: nat, n: nat)
    requires Rooted(a, g) && Rooted(b, g)
    requires n <= m <= a.number && m <= b.number
    requires At(a, m) == At(b, m)
    ensures At(a, n) == At(b, n)
  {
    AtOfAt(a, g, m, n);
    AtOfAt(b, g, m, n);
  }

  lemma {:induction false} SumUpToParent(h: Header, g: Header, n: nat)
    requires Rooted(h, g) && h != g
    requires n < h.number
    ensures SumUpTo(h, n) == SumUpTo(h.parentHash.header, n)
  {
    RootedNumber(h, g);
    if n > 0 {
      SumUpToParent(h, g, n - 1);
    }
  }

  /** The recursive total difficulty is the sum of the difficulties on the path. */
  lemma {:induction false} PathTdIsSum(h: Header, g: Header)
    requires Rooted(h, g)
    ensures PathTd(h, g) == SumUpTo(h, h.number)
    decreases h
  {
    RootedNumber(h, g);
    if h != g {
      PathTdIsSum(h.parentHash.header, g);
      SumUpToParent(h, g, h.number - 1);
    }
  }
}
