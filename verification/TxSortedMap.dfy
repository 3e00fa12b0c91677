/** The heap-indexed, cached nonce-to-transaction map (txpool/tx_list.go), proved to behave as the
    plain sorted map of module TxSpec. */
module TxSortedMap {
  import opened TxSpec
  import opened NonceHeap

  datatype Cached = NotCached | Sorted(txs: seq<Tx>)

  /** The heap holds each stored nonce exactly once. */
  ghost predicate Indexed(index: seq<nat>, items: Items) {
    IsHeap(index) && multiset(index) == multiset(items.Keys)
  }

  lemma IndexFacts(index: seq<nat>, items: Items)
    requires Indexed(index, items)
    ensures |index| == |items| && forall k :: k in index <==> k in items
    ensures index != [] ==> items.Keys != {} && index[0] == Lowest(items.Keys)
  {
    assert |multiset(index)| == |multiset(items.Keys)|;
    forall k
      ensures k in index <==> k in items
    {
      assert k in index <==> k in multiset(index);
      assert k in items <==> k in multiset(items.Keys);
    }
    if index != [] {
      assert index[0] in items;
      forall k | k in items
        ensures index[0] <= k
      {
        var i :| 0 <= i < |index| && index[i] == k;
        TopIsLeast(index, i);
      }
    }
  }

  lemma IndexIsHeap(index: seq<nat>, items: Items)
    requires Indexed(index, items)
    ensures IsHeap(index)
  {
  }

  lemma IndexPut(index: seq<nat>, index': seq<nat>, items: Items, tx: Tx)
    requires Indexed(index, items)
    requires if tx.nonce in items then index' == index
             else IsHeap(index') && multiset(index') == multiset(index) + multiset{tx.nonce}
    ensures Indexed(index', items[tx.nonce := tx])
  {
    hide IsHeap;
    assert items[tx.nonce := tx].Keys == items.Keys + {tx.nonce};
    assert tx.nonce !in items ==> multiset(items.Keys + {tx.nonce}) == multiset(items.Keys) + multiset{tx.nonce};
    assert tx.nonce in items ==> items.Keys + {tx.nonce} == items.Keys;
  }

  lemma IndexRemove(index: seq<nat>, index': seq<nat>, items: Items, k: nat)
    requires Indexed(index, items) && k in items
    requires IsHeap(index') && multiset(index) == multiset(index') + multiset{k}
    ensures Indexed(index', items - {k})
  {
    hide IsHeap;
    assert (items - {k}).Keys == items.Keys - {k};
    assert multiset(items.Keys - {k}) == multiset(items.Keys) - multiset{k};
  }

  class TxSortedMap {
    var items: Items
    var index: seq<nat>
    var cache: Cached

    /** Stored under the own nonce, indexed by a heap, and cached, if at all, in nonce order. */
    ghost predicate Valid()
      reads this
    {
      && Keyed(items)
      && Indexed(index, items)
      && (cache.Sorted? ==> IsFlat(cache.txs, items))
    }

    constructor ()
      ensures Valid() && items == map[]
    {
      items, index, cache := map[], [], NotCached;
    }

    method Put(tx: Tx)
      requires Valid()
      modifies this
      ensures Valid() && items == old(items)[tx.nonce := tx]
    {
      hide IsHeap, IsFlat, Indexed;
      ghost var before := index;
      if tx.nonce !in items {
        IndexIsHeap(index, items);
        index := HeapPush(index, tx.nonce);
      }
      IndexPut(before, index, items, tx);
      items, cache := items[tx.nonce := tx], NotCached;
    }

    /** Takes the least nonce off heap and map. */
    method PopLowest() returns (tx: Tx)
      requires Keyed(items) && Indexed(index, items) && index != []
      modifies this`items, this`index
      ensures Keyed(items) && Indexed(index, items)
      ensures old(items).Keys != {} && tx == old(items)[Lowest(old(items).Keys)] && items == old(items) - {tx.nonce}
    {
      IndexFacts(index, items);
      IndexIsHeap(index, items);
      var nonce;
      ghost var before := index;
      index, nonce := HeapPop(index);
      IndexRemove(before, index, items, nonce);
      tx := items[nonce];
      items := items - {nonce};
    }

    /** Removes everything below the threshold, and shifts the front of the cache accordingly. */
    method Forward(threshold: nat) returns (removed: seq<Tx>)
      requires Valid()
      modifies this
      ensures Valid() && items == AtLeast(old(items), threshold)
      ensures IsFlat(removed, Below(old(items), threshold))
      ensures forall k :: k in items <==> k in old(items) && k >= threshold
    {
      hide Taken, IsFlat, IsHeap;
      removed := [];
      ghost var all := items;
      IndexFacts(index, items);
      TakenNone(all, threshold);
      while |index| > 0 && index[0] < threshold
        invariant Keyed(items) && Indexed(index, items) && cache == old(cache)
        invariant Taken(removed, items, all, threshold)
        decreases |items|
      {
        IndexFacts(index, items);
        ghost var before := items;
        var tx := PopLowest();
        TakenStep(removed, before, all, threshold, tx);
        removed := removed + [tx];
        assert before.Keys == items.Keys + {tx.nonce};
      }
      IndexFacts(index, items);
      TakenAll(removed, items, all, threshold);
      if cache.Sorted? {
        FlatSplit(cache.txs, all, removed, threshold);
        cache := Sorted(cache.txs[|removed|..]);
      }
    }

    /** Rebuilds the heap after the contents changed in bulk. */
    method Reindex()
      requires Keyed(items)
      modifies this`index, this`cache
      ensures Valid() && cache == NotCached
    {
      var order := Listed(items.Keys);
      index := HeapInit(order);
      cache := NotCached;
    }

    /** Removes the transactions that satisfy the condition. They are returned in no particular
        order, each once. */
    method Filter(unwanted: Tx -> bool) returns (removed: seq<Tx>)
      requires Valid()
      modifies this
      ensures Valid() && Kept(old(items), items, unwanted)
      ensures TakenOut(old(items), items, removed)
    {
      var kept;
      kept, removed := FilterItems(items, unwanted);
      items := kept;
      if |removed| > 0 {
        Reindex();
      }
    }

    /** Drops the highest nonces beyond the limit, highest first, and shifts the back of the cache
        accordingly. */
    method Cap(threshold: nat) returns (drops: seq<Tx>)
      requires Valid()
      modifies this
      ensures Valid() && items == TxSpec.Cap(old(items), threshold)
      ensures TakenOut(old(items), items, drops) && Descending(drops)
    {
      hide Ok, IsFlat, Descending, TakenOut;
      if |items| <= threshold {
        TakenOutNone(items);
        return [];
      }
      ghost var all := items;
      IndexFacts(index, items);
      var sorted := SortNonces(index);
      assert |sorted| == |multiset(sorted)| == |all|;
      items, drops := DropTop(items, sorted, threshold);
      TakenOutSize(all, items, drops);
      index := HeapInit(sorted[..threshold]);
      if cache.Sorted? {
        FlatCut(cache.txs, all, items);
        cache := Sorted(cache.txs[..|cache.txs| - |drops|]);
      }
    }

    method Remove(nonce: nat) returns (found: bool)
      requires Valid()
      modifies this
      ensures Valid() && found == (nonce in old(items)) && items == old(items) - {nonce}
    {
      hide IsHeap, IsFlat, Indexed;
      if nonce !in items {
        assert items == items - {nonce};
        return false;
      }
      IndexFacts(index, items);
      IndexIsHeap(index, items);
      var i := 0;
      while i < |index| && index[i] != nonce
        invariant 0 <= i <= |index| && forall j :: 0 <= j < i ==> index[j] != nonce
      {
        i := i + 1;
      }
      ghost var before := index;
      index := HeapRemove(index, i);
      IndexRemove(before, index, items, nonce);
      items, cache := items - {nonce}, NotCached;
      return true;
    }

    /** Takes the next transaction of the run off the front. */
    method PopNext(ghost all: Items, ghost first: nat, ghost ready: seq<Tx>) returns (tx: Tx)
      requires Keyed(items) && Indexed(index, items) && Running(all, items, first, ready)
      requires |index| > 0 && index[0] == first + |ready|
      modifies this`items, this`index
      ensures Keyed(items) && Indexed(index, items) && Running(all, items, first, ready + [tx])
      ensures |items| < old(|items|)
    {
      hide Running, Indexed, Lowest;
      IndexFacts(index, items);
      ghost var before := items;
      tx := PopLowest();
      RunningStep(all, before, first, ready);
      assert before.Keys == items.Keys + {tx.nonce};
    }

    /** Takes the executable run off the front. */
    method Ready(start: nat) returns (ready: seq<Tx>)
      requires Valid()
      modifies this
      ensures Valid() && ready == TxSpec.Ready(old(items), start) && items == AfterReady(old(items), start)
      ensures RunTaken(old(items), items, start, ready)
    {
      hide Running, IsHeap, IsFlat, Indexed, Keyed, RunTaken, AfterReady, TxSpec.Ready, Lowest, RunFrom, Without;
      ReadyExactly(items, start);
      IndexFacts(index, items);
      if |index| == 0 || index[0] > start {
        NoneReady(items, start);
        return [];
      }
      ghost var all, first := items, index[0];
      var next := index[0];
      ready := [];
      cache := NotCached;
      RunningStart(all, first);
      while |index| > 0 && index[0] == next
        invariant Keyed(items) && Indexed(index, items) && cache == NotCached
        invariant next == first + |ready| && Running(all, items, first, ready)
        decreases |items|
      {
        var tx := PopNext(all, first, ready);
        ready := ready + [tx];
        next := next + 1;
      }
      IndexFacts(index, items);
      RunningEnd(all, items, first, ready);
      RunIsReady(all, start);
    }

    /** The contents in nonce order; sorted once, then served from the cache. */
    method Flatten() returns (txs: seq<Tx>)
      requires Valid()
      modifies this`cache
      ensures Valid() && IsFlat(txs, items)
    {
      hide IsFlat, Indexed, Ascending;
      if cache == NotCached {
        var order := Listed(items.Keys);
        order := SortNonces(order);
        SortedKeys(order, items);
        var contents := items;
        var sorted := seq(|order|, i requires 0 <= i < |order| && order[i] in contents => contents[order[i]]);
        FlatOfSorted(order, items, sorted);
        cache := Sorted(sorted);
      }
      txs := cache.txs;
    }
  }

  /** `out` lists, each once, what `rest` has lost against `all`. */
  ghost predicate TakenOut(all: Items, rest: Items, out: seq<Tx>) {
    && |out| == |all| - |rest|
    && (forall tx :: tx in out <==> tx.nonce in all && tx.nonce !in rest && all[tx.nonce] == tx)
  }

  ghost predicate Descending(txs: seq<Tx>) {
    forall i, j :: 0 <= i < j < |txs| ==> txs[i].nonce > txs[j].nonce
  }

  lemma TakenOutNone(all: Items)
    ensures TakenOut(all, all, []) && Descending([])
  {
  }

  lemma TakenOutSize(all: Items, rest: Items, out: seq<Tx>)
    requires TakenOut(all, rest, out)
    ensures |out| == |all| - |rest|
  {
  }

  lemma TakenOutStep(all: Items, rest: Items, out: seq<Tx>, k: nat)
    requires Keyed(rest) && TakenOut(all, rest, out) && k in rest
    requires forall x :: x in rest ==> x in all && rest[x] == all[x]
    ensures TakenOut(all, rest - {k}, out + [rest[k]])
  {
    assert (rest - {k}).Keys == rest.Keys - {k};
  }

  /** `kept` is what the condition leaves of `all`. */
  ghost predicate Kept(all: Items, kept: Items, unwanted: Tx -> bool) {
    && (forall k :: k in kept <==> k in all && !unwanted(all[k]))
    && (forall k :: k in kept ==> kept[k] == all[k])
  }

  /** Splits a map by a condition, visiting it in arbitrary order. */
  method FilterItems(all: Items, unwanted: Tx -> bool) returns (kept: Items, removed: seq<Tx>)
    requires Keyed(all)
    ensures Kept(all, kept, unwanted)
    ensures TakenOut(all, kept, removed) && (removed == [] ==> kept == all)
  {
    hide TakenOut;
    kept, removed := all, [];
    TakenOutNone(all);
    var todo := all.Keys;
    while todo != {}
      invariant todo <= kept.Keys
      invariant forall k :: k in kept <==> k in all && (k in todo || !unwanted(all[k]))
      invariant forall k :: k in kept ==> kept[k] == all[k]
      invariant TakenOut(all, kept, removed) && (removed == [] ==> kept == all)
      decreases todo
    {
      var k :| k in todo;
      if unwanted(kept[k]) {
        TakenOutStep(all, kept, removed, k);
        removed := removed + [kept[k]];
        kept := kept - {k};
      }
      todo := todo - {k};
    }
  }

  /** Takes the entries of the sorted index off the top, down to the limit. */
  method DropTop(all: Items, sorted: seq<nat>, threshold: nat) returns (items: Items, drops: seq<Tx>)
    requires Keyed(all) && Ascending(sorted) && multiset(sorted) == multiset(all.Keys)
    requires threshold <= |sorted| == |all|
    ensures items == Cap(all, threshold) && multiset(sorted[..threshold]) == multiset(items.Keys)
    ensures TakenOut(all, items, drops) && Descending(drops)
  {
    hide Dropping, Ascending, Cap;
    items, drops := all, [];
    DroppingStart(all);
    ghost var order := sorted;
    var size := |all|;
    while size > threshold
      invariant threshold <= size == |items| == |order|
      invariant order <= sorted && Ascending(order) && multiset(order) == multiset(items.Keys)
      invariant Keyed(items) && Dropping(all, items, drops)
      invariant Cap(items, threshold) == Cap(all, threshold)
    {
      var nonce := sorted[size - 1];
      DropLast(order, items, threshold);
      AscendingPrefix(order, size - 1);
      DroppingStep(all, items, drops, nonce);
      drops := drops + [items[nonce]];
      items := items - {nonce};
      size := size - 1;
      order := order[..size];
    }
    assert order == sorted[..threshold];
    CapWithin(items, threshold);
    DroppingEnd(all, items, drops);
  }

  /** The last entry of the sorted index is the transaction that capping drops next. */
  lemma DropLast(order: seq<nat>, items: Items, threshold: nat)
    requires Ascending(order) && multiset(order) == multiset(items.Keys) && order != [] && |items| > threshold
    ensures var top := order[|order| - 1];
      && top in items && (forall k :: k in items ==> k <= top)
      && |items - {top}| == |items| - 1
      && multiset(order[..|order| - 1]) == multiset((items - {top}).Keys)
      && Cap(items, threshold) == Cap(items - {top}, threshold)
  {
    var top := order[|order| - 1];
    TopOfSorted(order, items);
    assert order == order[..|order| - 1] + [top];
    IndexRemove(order, order[..|order| - 1], items, top);
    assert (items - {top}).Keys == items.Keys - {top};
  }

  /** `drops` has been taken off the top of `all`, leaving `items`. */
  ghost predicate Dropping(all: Items, items: Items, drops: seq<Tx>) {
    && (forall k :: k in items ==> k in all && items[k] == all[k])
    && TakenOut(all, items, drops) && Descending(drops)
    && (forall i, k :: 0 <= i < |drops| && k in items ==> drops[i].nonce > k)
  }

  lemma DroppingStart(all: Items)
    ensures Dropping(all, all, [])
  {
  }

  lemma DroppingStep(all: Items, items: Items, drops: seq<Tx>, top: nat)
    requires Keyed(items) && Dropping(all, items, drops) && top in items && forall k :: k in items ==> k <= top
    ensures Dropping(all, items - {top}, drops + [items[top]])
  {
    TakenOutStep(all, items, drops, top);
  }

  lemma DroppingEnd(all: Items, items: Items, drops: seq<Tx>)
    requires Dropping(all, items, drops)
    ensures TakenOut(all, items, drops) && Descending(drops)
  {
  }

  lemma AscendingPrefix(s: seq<nat>, n: nat)
    requires Ascending(s) && n <= |s|
    ensures Ascending(s[..n])
  {
  }

  lemma FlatOfSorted(order: seq<nat>, items: Items, txs: seq<Tx>)
    requires Keyed(items) && |txs| == |order|
    requires forall i, j :: 0 <= i < j < |order| ==> order[i] < order[j]
    requires forall k :: k in items <==> k in order
    requires forall i :: 0 <= i < |order| ==> order[i] in items && txs[i] == items[order[i]]
    ensures IsFlat(txs, items)
  {
    forall k | k in items
      ensures items[k] in txs
    {
      var i :| 0 <= i < |order| && order[i] == k;
      assert txs[i] == items[k];
    }
  }

  /** The run `ready` has been taken off the front of `all`, leaving `items`. */
  ghost predicate Running(all: Items, items: Items, first: nat, ready: seq<Tx>) {
    && items == Without(all, first, |ready|)
    && (forall k :: k in items ==> k >= first + |ready|)
    && RunFrom(all, first) == ready + RunFrom(items, first + |ready|)
  }

  lemma RunningStart(all: Items, first: nat)
    requires first in all && forall k :: k in all ==> first <= k
    ensures Running(all, all, first, [])
  {
    assert all == Without(all, first, 0);
  }

  lemma RunningStep(all: Items, items: Items, first: nat, ready: seq<Tx>)
    requires Running(all, items, first, ready) && first + |ready| in items
    ensures Running(all, items - {first + |ready|}, first, ready + [items[first + |ready|]])
  {
    var next := first + |ready|;
    var rest := items - {next};
    assert rest == Without(all, first, |ready| + 1);
    assert ready + ([items[next]] + RunFrom(rest, next + 1)) == (ready + [items[next]]) + RunFrom(rest, next + 1);
  }

  lemma NoneReady(items: Items, start: nat)
    requires items.Keys == {} || Lowest(items.Keys) > start
    ensures TxSpec.Ready(items, start) == [] && AfterReady(items, start) == items
  {
  }

  lemma RunIsReady(items: Items, start: nat)
    requires items.Keys != {} && Lowest(items.Keys) <= start
    ensures TxSpec.Ready(items, start) == RunFrom(items, Lowest(items.Keys))
    ensures AfterReady(items, start) == Without(items, Lowest(items.Keys), |RunFrom(items, Lowest(items.Keys))|)
  {
  }

  lemma RunningEnd(all: Items, items: Items, first: nat, ready: seq<Tx>)
    requires Running(all, items, first, ready)
    requires items.Keys == {} || Lowest(items.Keys) != first + |ready|
    ensures ready == RunFrom(all, first) && items == Without(all, first, |ready|)
  {
    assert ready + [] == ready;
  }

  /** Sorting a set of nonces leaves them strictly ascending. */
  lemma SortedKeys(order: seq<nat>, items: Items)
    requires Ascending(order) && multiset(order) == multiset(items.Keys)
    ensures forall k :: k in items <==> k in order
    ensures forall i, j :: 0 <= i < j < |order| ==> order[i] < order[j]
  {
    forall k
      ensures k in items <==> k in order
    {
      assert k in order <==> k in multiset(order);
    }
    forall i, j | 0 <= i < j < |order|
      ensures order[i] < order[j]
    {
      CountedTwice(order, i, j);
      assert multiset(items.Keys)[order[i]] <= 1;
    }
  }

  lemma CountedTwice(order: seq<nat>, i: nat, j: nat)
    requires i < j < |order|
    ensures order[i] == order[j] ==> multiset(order)[order[i]] >= 2
  {
    assert order == order[..j] + order[j..];
    assert order[i] in order[..j] && order[j] in order[j..];
  }

  lemma TopOfSorted(order: seq<nat>, items: Items)
    requires Ascending(order) && multiset(order) == multiset(items.Keys) && order != []
    ensures items.Keys != {} && order[|order| - 1] == Highest(items.Keys)
    ensures items.Keys - {order[|order| - 1]} == {}
      || forall k :: k in items && k != order[|order| - 1] ==> k < order[|order| - 1]
  {
    SortedKeys(order, items);
    assert order[|order| - 1] in items;
  }

  /** Collects the elements of a set in some order. */
  method Listed(keys: set<nat>) returns (r: seq<nat>)
    ensures multiset(r) == multiset(keys)
  {
    r := [];
    var todo := keys;
    while todo != {}
      invariant multiset(r) + multiset(todo) == multiset(keys)
      decreases todo
    {
      var k :| k in todo;
      assert multiset(todo) == multiset(todo - {k}) + multiset{k};
      r, todo := r + [k], todo - {k};
    }
  }

  /** The part of the sorted list that belongs to the lower part of the map is a prefix. */
  lemma FlatCut(a: seq<Tx>, all: Items, kept: Items)
    requires Keyed(all) && IsFlat(a, all)
    requires forall k :: k in kept ==> k in all && kept[k] == all[k]
    requires forall k, d :: k in kept && d in all && d !in kept ==> k < d
    ensures |kept| <= |a| == |all| && IsFlat(a[..|kept|], kept)
  {
    hide IsFlat;
    FlatSize(a, all);
    var r := 0;
    while r < |a| && a[r].nonce in kept
      invariant 0 <= r <= |a| && forall i :: 0 <= i < r ==> a[i].nonce in kept
    {
      r := r + 1;
    }
    FlatFront(a, all, kept, r);
    FlatSize(a[..r], kept);
  }

  lemma FlatFront(a: seq<Tx>, all: Items, kept: Items, r: nat)
    requires Keyed(all) && IsFlat(a, all) && r <= |a|
    requires forall k :: k in kept ==> k in all && kept[k] == all[k]
    requires forall k, d :: k in kept && d in all && d !in kept ==> k < d
    requires (forall i :: 0 <= i < r ==> a[i].nonce in kept) && (r < |a| ==> a[r].nonce !in kept)
    ensures IsFlat(a[..r], kept)
  {
    forall k | k in kept
      ensures kept[k] in a[..r]
    {
      KeptInFront(a, all, kept, r, k);
    }
  }

  lemma KeptInFront(a: seq<Tx>, all: Items, kept: Items, r: nat, k: nat)
    requires Keyed(all) && IsFlat(a, all) && r <= |a| && k in kept && k in all && kept[k] == all[k]
    requires forall k, d :: k in kept && d in all && d !in kept ==> k < d
    requires r < |a| ==> a[r].nonce !in kept
    ensures kept[k] in a[..r]
  {
    var i :| 0 <= i < |a| && a[i] == all[k];
    if r < |a| {
      assert a[r].nonce in all && k < a[r].nonce;
    }
    assert i < r;
    assert a[..r][i] == kept[k];
  }

  /** `removed` lists, in order, what has been taken off the low end of `all` so far. */
  ghost predicate Taken(removed: seq<Tx>, rest: Items, all: Items, threshold: nat) {
    && (forall k :: k in rest ==> k in all && rest[k] == all[k])
    && (forall i, j :: 0 <= i < j < |removed| ==> removed[i].nonce < removed[j].nonce)
    && (forall i :: 0 <= i < |removed| ==>
      removed[i].nonce < threshold && removed[i].nonce in all && all[removed[i].nonce] == removed[i])
    && (forall i, k :: 0 <= i < |removed| && k in rest ==> removed[i].nonce < k)
    && (forall k :: k in all && k !in rest ==> all[k] in removed)
  }

  lemma TakenNone(all: Items, threshold: nat)
    ensures Taken([], all, all, threshold)
  {
  }

  lemma TakenStep(removed: seq<Tx>, rest: Items, all: Items, threshold: nat, tx: Tx)
    requires Keyed(rest) && Taken(removed, rest, all, threshold)
    requires rest.Keys != {} && tx == rest[Lowest(rest.Keys)] && tx.nonce < threshold
    ensures Taken(removed + [tx], rest - {tx.nonce}, all, threshold)
  {
    hide Lowest;
    var more := removed + [tx];
    assert tx.nonce == Lowest(rest.Keys) && tx.nonce in rest;
    forall k | k in all && k !in rest - {tx.nonce}
      ensures all[k] in more
    {
      if k == tx.nonce {
        assert more[|removed|] == all[k];
      } else {
        assert all[k] in removed;
      }
    }
  }

  lemma TakenAll(removed: seq<Tx>, rest: Items, all: Items, threshold: nat)
    requires Keyed(all) && Taken(removed, rest, all, threshold)
    requires rest.Keys == {} || Lowest(rest.Keys) >= threshold
    ensures rest == AtLeast(all, threshold) && IsFlat(removed, Below(all, threshold))
  {
    forall k | k in all
      ensures k in rest <==> k >= threshold
    {
      if k !in rest {
        assert all[k] in removed;
      }
    }
  }
}
