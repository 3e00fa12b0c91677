/** What the per-account transaction lists compute, on plain maps from nonce to transaction
    (txpool/tx_list.go). The heap-backed implementation is proved to compute the same. */
module TxSpec {

  type Address = nat

  datatype Tx = Tx(from: Address, nonce: nat, price: nat, gas: nat, value: nat, payload: nat)

  type Items = map<nat, Tx>

  /** What the sender must be able to pay. */
  function Cost(tx: Tx): nat {
    tx.value + tx.price * tx.gas
  }

  ghost predicate Keyed(items: Items) {
    forall k :: k in items ==> items[k].nonce == k
  }

  // Lowest and highest nonce.

  lemma {:induction false} LowestExists(s: set<nat>) returns (m: nat)
    requires s != {}
    ensures m in s && forall x :: x in s ==> m <= x
  {
    var x :| x in s;
    m := x;
    if s != {x} {
      assert s - {x} != {};
      var rest := LowestExists(s - {x});
      m := if rest < x then rest else x;
      assert forall y :: y in s ==> y == x || y in s - {x};
    }
  }

  lemma {:induction false} HighestExists(s: set<nat>) returns (m: nat)
    requires s != {}
    ensures m in s && forall x :: x in s ==> x <= m
  {
    var x :| x in s;
    m := x;
    if s != {x} {
      assert s - {x} != {};
      var rest := HighestExists(s - {x});
      m := if rest > x then rest else x;
      assert forall y :: y in s ==> y == x || y in s - {x};
    }
  }

  function Lowest(s: set<nat>): (m: nat)
    requires s != {}
    ensures m in s && forall x :: x in s ==> m <= x
  {
    assert exists m :: m in s && forall x :: x in s ==> m <= x by {
      var m := LowestExists(s);
    }
    var m :| m in s && forall x :: x in s ==> m <= x;
    m
  }

  function Highest(s: set<nat>): (m: nat)
    requires s != {}
    ensures m in s && forall x :: x in s ==> x <= m
  {
    assert exists m :: m in s && forall x :: x in s ==> x <= m by {
      var m := HighestExists(s);
    }
    var m :| m in s && forall x :: x in s ==> x <= m;
    m
  }

  // The operations of a sorted map.

  function Below(items: Items, threshold: nat): Items {
    map k | k in items && k < threshold :: items[k]
  }

  function AtLeast(items: Items, threshold: nat): Items {
    map k | k in items && k >= threshold :: items[k]
  }

  /** The transactions that a cost and a gas limit leave. */
  function Within(items: Items, costLimit: nat, gasLimit: nat): Items {
    map k | k in items && Cost(items[k]) <= costLimit && items[k].gas <= gasLimit :: items[k]
  }

  /** Drops the highest nonces until at most `n` are left. */
  function Cap(items: Items, n: nat): (kept: Items)
    ensures kept.Keys <= items.Keys && (forall k :: k in kept ==> kept[k] == items[k])
    ensures |kept| == if |items| <= n then |items| else n
    ensures forall k, d :: k in kept && d in items && d !in kept ==> k < d
    decreases |items|
  {
    if |items| <= n then items
    else
      assert items.Keys != {};
      var top := Highest(items.Keys);
      assert (items - {top}).Keys == items.Keys - {top};
      Cap(items - {top}, n)
  }

  lemma CapWithin(items: Items, n: nat)
    ensures |items| <= n ==> Cap(items, n) == items
  {
  }

  lemma HasKeys(items: Items)
    requires items != map[]
    ensures items.Keys != {}
  {
    var k :| k in items;
    assert k in items.Keys;
  }

  /** The transaction with this nonce. */
  predicate On(items: Items, nonce: nat, tx: Tx) {
    nonce in items && items[nonce] == tx
  }

  lemma RunStep(items: Items, next: nat, rest: seq<Tx>)
    requires next in items && next + 1 + |rest| !in items - {next}
    requires forall i :: 0 <= i < |rest| ==> On(items - {next}, next + 1 + i, rest[i])
    ensures var run := [items[next]] + rest;
      next + |run| !in items && forall i :: 0 <= i < |run| ==> On(items, next + i, run[i])
  {
    var run := [items[next]] + rest;
    assert next + |run| == next + 1 + |rest|;
    forall i | 0 <= i < |run|
      ensures On(items, next + i, run[i])
    {
      if i > 0 {
        var j := i - 1;
        assert run[i] == rest[j] && next + 1 + j == next + i;
        assert On(items - {next}, next + 1 + j, rest[j]);
        OnLess(items, next, next + 1 + j, rest[j]);
      }
    }
  }

  lemma OnLess(items: Items, gone: nat, nonce: nat, tx: Tx)
    requires On(items - {gone}, nonce, tx)
    ensures On(items, nonce, tx)
  {
  }

  /** The consecutive transactions from `next` on. */
  function RunFrom(items: Items, next: nat): (run: seq<Tx>)
    ensures forall i :: 0 <= i < |run| ==> On(items, next + i, run[i])
    ensures next + |run| !in items
    decreases |items|
  {
    if next !in items then []
    else
      assert (items - {next}).Keys == items.Keys - {next};
      var rest := RunFrom(items - {next}, next + 1);
      RunStep(items, next, rest);
      [items[next]] + rest
  }

  /** The executable run: it starts at the lowest nonce, if that is not above `start`. */
  function Ready(items: Items, start: nat): seq<Tx> {
    if items.Keys == {} || Lowest(items.Keys) > start then [] else RunFrom(items, Lowest(items.Keys))
  }

  /** What is left after the first `n` nonces from `first` on are taken. */
  function Without(items: Items, first: nat, n: nat): Items {
    map k | k in items && !(first <= k < first + n) :: items[k]
  }

  function AfterReady(items: Items, start: nat): Items {
    if Ready(items, start) == [] then items else Without(items, Lowest(items.Keys), |Ready(items, start)|)
  }

  /** `run` has been taken out of `all`, which leaves `rest`: nothing if everything is above `start`,
      and otherwise the lowest nonce and those that follow it without a gap. */
  ghost predicate RunTaken(all: Items, rest: Items, start: nat, run: seq<Tx>) {
    && (run == [] <==> forall k :: k in all ==> k > start)
    && (run != [] ==>
          && (forall k :: k in all ==> k >= run[0].nonce) && run[0].nonce + |run| !in all
          && forall i :: 0 <= i < |run| ==> On(all, run[0].nonce + i, run[i]))
    && (forall k :: k in rest <==> k in all && !(run != [] && 0 <= k - run[0].nonce < |run|))
    && (forall k :: k in rest ==> rest[k] == all[k])
  }

  lemma ReadyExactly(items: Items, start: nat)
    requires Keyed(items)
    ensures RunTaken(items, AfterReady(items, start), start, Ready(items, start))
  {
    var run := Ready(items, start);
    if items.Keys != {} {
      var low := Lowest(items.Keys);
      assert low in items;
      if low <= start {
        assert run == RunFrom(items, low) && run != [];
        assert On(items, low + 0, run[0]);
      }
    }
  }

  // Sorted contents.

  /** `txs` lists the contents of `items` in nonce order. */
  ghost predicate IsFlat(txs: seq<Tx>, items: Items) {
    && (forall i, j :: 0 <= i < j < |txs| ==> txs[i].nonce < txs[j].nonce)
    && (forall i :: 0 <= i < |txs| ==> txs[i].nonce in items && items[txs[i].nonce] == txs[i])
    && (forall k :: k in items ==> items[k] in txs)
  }

  lemma FlatHead(a: seq<Tx>, items: Items)
    requires Keyed(items) && IsFlat(a, items)
    ensures a == [] <==> items == map[]
    ensures a != [] ==> a[0].nonce in items && items[a[0].nonce] == a[0] && forall k :: k in items ==> a[0].nonce <= k
  {
    if a == [] {
      assert items == map[];
    } else {
      assert a[0].nonce in items;
      forall k | k in items
        ensures a[0].nonce <= k
      {
        assert items[k] in a;
      }
    }
  }

  /** The nonce order determines the list. */
  lemma {:induction false} FlatUnique(a: seq<Tx>, b: seq<Tx>, items: Items)
    requires Keyed(items) && IsFlat(a, items) && IsFlat(b, items)
    ensures a == b
    decreases |a|
  {
    hide IsFlat;
    FlatHead(a, items);
    FlatHead(b, items);
    if a != [] {
      FlatTail(a, items);
      FlatTail(b, items);
      FlatUnique(a[1..], b[1..], items - {a[0].nonce});
      assert a == [a[0]] + a[1..] && b == [b[0]] + b[1..];
    }
  }

  lemma FlatTail(a: seq<Tx>, items: Items)
    requires Keyed(items) && IsFlat(a, items) && a != []
    ensures IsFlat(a[1..], items - {a[0].nonce})
  {
    var rest := items - {a[0].nonce};
    forall k | k in rest
      ensures rest[k] in a[1..]
    {
      assert items[k] in a;
      assert items[k] != a[0];
    }
  }

  lemma {:induction false} FlatSize(a: seq<Tx>, items: Items)
    requires Keyed(items) && IsFlat(a, items)
    ensures |a| == |items|
    decreases |a|
  {
    if a == [] {
      assert items == map[];
    } else {
      FlatTail(a, items);
      FlatSize(a[1..], items - {a[0].nonce});
      assert (items - {a[0].nonce}).Keys == items.Keys - {a[0].nonce};
    }
  }

  /** A threshold splits the sorted list where it splits the map. */
  lemma FlatSplit(a: seq<Tx>, items: Items, low: seq<Tx>, threshold: nat)
    requires Keyed(items) && IsFlat(a, items) && IsFlat(low, Below(items, threshold))
    ensures |low| <= |a| && a[..|low|] == low && IsFlat(a[|low|..], AtLeast(items, threshold))
  {
    var r := 0;
    while r < |a| && a[r].nonce < threshold
      invariant 0 <= r <= |a| && forall i :: 0 <= i < r ==> a[i].nonce < threshold
    {
      r := r + 1;
    }
    FlatPrefix(a, items, threshold, r);
    FlatSuffix(a, items, threshold, r);
    FlatUnique(a[..r], low, Below(items, threshold));
  }

  lemma FlatPrefix(a: seq<Tx>, items: Items, threshold: nat, r: nat)
    requires Keyed(items) && IsFlat(a, items) && r <= |a|
    requires forall i :: 0 <= i < r ==> a[i].nonce < threshold
    requires forall i :: r <= i < |a| ==> a[i].nonce >= threshold
    ensures IsFlat(a[..r], Below(items, threshold))
  {
    forall k | k in Below(items, threshold)
      ensures items[k] in a[..r]
    {
      var i :| 0 <= i < |a| && a[i] == items[k];
      assert a[..r][i] == items[k];
    }
  }

  lemma FlatSuffix(a: seq<Tx>, items: Items, threshold: nat, r: nat)
    requires Keyed(items) && IsFlat(a, items) && r <= |a|
    requires forall i :: 0 <= i < r ==> a[i].nonce < threshold
    requires forall i :: r <= i < |a| ==> a[i].nonce >= threshold
    ensures IsFlat(a[r..], AtLeast(items, threshold))
  {
    forall k | k in AtLeast(items, threshold)
      ensures items[k] in a[r..]
    {
      var i :| 0 <= i < |a| && a[i] == items[k];
      assert a[r..][i - r] == items[k];
    }
  }
}
