/** The per-account transaction list (txpool/tx_list.go): replacement by price, the cached cost and
    gas caps, and strict mode, in which the nonces stay contiguous. */
module TxList {
  import opened TxSpec
  import opened TxSortedMap

  /** The value of a list. */
  datatype TList = TList(strict: bool, items: Items, costcap: nat, gascap: nat)

  function NewList(strict: bool): TList {
    TList(strict, map[], 0, 0)
  }

  /** The cached caps bound every listed transaction. */
  ghost predicate CapsOk(l: TList) {
    forall k :: k in l.items ==> Cost(l.items[k]) <= l.costcap && l.items[k].gas <= l.gascap
  }

  ghost predicate ListOk(l: TList) {
    Keyed(l.items) && CapsOk(l)
  }

  // Replacement by price.

  /** The price that a replacement must exceed. */
  function Threshold(price: nat, bump: nat): nat {
    price * (100 + bump) / 100
  }

  predicate Accepts(l: TList, tx: Tx, bump: nat) {
    tx.nonce in l.items ==> Threshold(l.items[tx.nonce].price, bump) < tx.price
  }

  /** A replacement is accepted if and only if its price exceeds the old one by more than `bump` per
      cent. */
  lemma AcceptsExactly(l: TList, tx: Tx, bump: nat)
    requires tx.nonce in l.items
    ensures Accepts(l, tx, bump) <==> l.items[tx.nonce].price * (100 + bump) < tx.price * 100
  {
    DivFloor(l.items[tx.nonce].price * (100 + bump), tx.price);
  }

  function Max(a: nat, b: nat): nat {
    if a < b then b else a
  }

  function Add(l: TList, tx: Tx, bump: nat): TList {
    if !Accepts(l, tx, bump) then l
    else l.(items := l.items[tx.nonce := tx], costcap := Max(l.costcap, Cost(tx)), gascap := Max(l.gascap, tx.gas))
  }

  lemma AddKeeps(l: TList, tx: Tx, bump: nat)
    requires ListOk(l)
    ensures ListOk(Add(l, tx, bump))
  {
  }

  /** A transaction never replaces itself. */
  lemma NoSelfReplacement(l: TList, tx: Tx, bump: nat)
    requires tx.nonce in l.items && l.items[tx.nonce] == tx
    ensures !Accepts(l, tx, bump)
  {
    DivFloor(tx.price * (100 + bump), tx.price);
    MulGrows(tx.price, 100, 100 + bump);
  }

  lemma DivFloor(a: nat, b: nat)
    ensures a / 100 < b <==> a < b * 100
  {
  }

  lemma MulGrows(a: nat, b: nat, c: nat)
    requires b <= c
    ensures a * b <= a * c
  {
  }

  function Pow(b: nat, k: nat): nat {
    if k == 0 then 1 else b * Pow(b, k - 1)
  }

  lemma {:induction false} PowPositive(b: nat, k: nat)
    requires b > 0
    ensures Pow(b, k) > 0
  {
    if k > 0 {
      PowPositive(b, k - 1);
      MulPositive(b, Pow(b, k - 1));
    }
  }

  lemma MulPositive(a: nat, b: nat)
    requires a > 0 && b > 0
    ensures a * b > 0
  {
  }

  /** Each price in turn was accepted as a replacement of the one before. */
  ghost predicate Replacements(prices: seq<nat>, bump: nat) {
    forall i :: 0 <= i < |prices| - 1 ==> Threshold(prices[i], bump) < prices[i + 1]
  }

  lemma Compound(p: nat, q: nat, r: nat, u: nat, v: nat, bump: nat)
    requires q * 100 > p * (100 + bump)
    requires p * u >= r * v && u > 0
    ensures q * (100 * u) > r * ((100 + bump) * v)
  {
    var b := 100 + bump;
    calc {
      q * (100 * u);
    ==
      (q * 100) * u;
    >  { MulStrict(q * 100, p * b, u); }
      (p * b) * u;
    ==
      b * (p * u);
    >= { MulGrows(b, r * v, p * u); }
      b * (r * v);
    ==
      r * (b * v);
    }
  }

  lemma MulStrict(a: nat, b: nat, c: nat)
    requires a > b && c > 0
    ensures a * c > b * c
  {
  }

  /** After k replacements at one nonce the price has grown by more than the bump, compounded k
      times. */
  lemma {:induction false} BumpCompounds(prices: seq<nat>, bump: nat)
    requires |prices| >= 2 && Replacements(prices, bump)
    ensures var k := |prices| - 1;
      prices[k] * Pow(100, k) > prices[0] * Pow(100 + bump, k)
  {
    var k := |prices| - 1;
    DivFloor(prices[k - 1] * (100 + bump), prices[k]);
    assert prices[k] * 100 > prices[k - 1] * (100 + bump);
    PowPositive(100, k - 1);
    if k > 1 {
      BumpCompounds(prices[..k], bump);
    }
    Compound(prices[k - 1], prices[k], prices[0], Pow(100, k - 1), Pow(100 + bump, k - 1), bump);
  }

  // Filtering by cost and gas.

  /** What a scan of the whole list leaves: the payable transactions and, in strict mode, of those
      only the ones below the first unpayable. */
  function Scan(items: Items, strict: bool, costLimit: nat, gasLimit: nat): Items {
    var kept := Within(items, costLimit, gasLimit);
    if !strict || items.Keys - kept.Keys == {} then kept else Below(kept, Lowest(items.Keys - kept.Keys))
  }

  /** A transaction stays if the limits allow it and, in strict mode, everything below it. */
  ghost predicate Filtered(all: Items, rest: Items, strict: bool, costLimit: nat, gasLimit: nat) {
    && (forall k :: k in rest <==>
          && k in all && all[k].value + all[k].price * all[k].gas <= costLimit && all[k].gas <= gasLimit
          && (strict ==> forall j :: j in all && j < k ==>
                all[j].value + all[j].price * all[j].gas <= costLimit && all[j].gas <= gasLimit))
    && (forall k :: k in rest ==> rest[k] == all[k])
  }

  lemma ScanFilters(items: Items, strict: bool, costLimit: nat, gasLimit: nat)
    ensures Filtered(items, Scan(items, strict, costLimit, gasLimit), strict, costLimit, gasLimit)
  {
    var rest := Scan(items, strict, costLimit, gasLimit);
    hide Scan;
    forall k
      ensures k in rest <==>
        && k in items && items[k].value + items[k].price * items[k].gas <= costLimit && items[k].gas <= gasLimit
        && (strict ==> forall j :: j in items && j < k ==>
              items[j].value + items[j].price * items[j].gas <= costLimit && items[j].gas <= gasLimit)
      ensures k in rest ==> rest[k] == items[k]
    {
      ScanExactly(items, strict, costLimit, gasLimit, k);
    }
  }

  lemma ScanExactly(items: Items, strict: bool, costLimit: nat, gasLimit: nat, k: nat)
    ensures k in Scan(items, strict, costLimit, gasLimit) <==>
      && k in items
      && items[k].value + items[k].price * items[k].gas <= costLimit && items[k].gas <= gasLimit
      && (strict ==> forall j :: j in items && j < k ==>
            items[j].value + items[j].price * items[j].gas <= costLimit && items[j].gas <= gasLimit)
    ensures k in Scan(items, strict, costLimit, gasLimit) ==> Scan(items, strict, costLimit, gasLimit)[k] == items[k]
  {
    var kept := Within(items, costLimit, gasLimit);
    var lost := items.Keys - kept.Keys;
    forall j | j in items
      ensures j in lost <==>
        !(items[j].value + items[j].price * items[j].gas <= costLimit && items[j].gas <= gasLimit)
    {
      assert Cost(items[j]) == items[j].value + items[j].price * items[j].gas;
    }
    if lost != {} {
      assert Lowest(lost) in items && Lowest(lost) in lost;
    }
  }

  /** What the code does: nothing at all if the caps are within the limits. */
  function Filter(l: TList, costLimit: nat, gasLimit: nat): TList {
    if l.costcap <= costLimit && l.gascap <= gasLimit then l
    else TList(l.strict, Scan(l.items, l.strict, costLimit, gasLimit), costLimit, gasLimit)
  }

  /** The caps are sound: the short circuit gives what the full scan would. */
  lemma FilterIsScan(l: TList, costLimit: nat, gasLimit: nat)
    requires ListOk(l)
    ensures Filter(l, costLimit, gasLimit).items == Scan(l.items, l.strict, costLimit, gasLimit)
    ensures ListOk(Filter(l, costLimit, gasLimit))
  {
    if l.costcap <= costLimit && l.gascap <= gasLimit {
      assert Within(l.items, costLimit, gasLimit) == l.items;
    }
  }

  /** The nonces are exactly those from `a` up to, and excluding, `b`. */
  ghost predicate Contiguous(items: Items, a: nat, b: nat) {
    a <= b && forall k :: k in items <==> a <= k < b
  }

  /** In strict mode filtering cuts a contiguous list down to a contiguous prefix, which ends at
      the first unpayable transaction. */
  lemma StrictScanPrefix(items: Items, costLimit: nat, gasLimit: nat, a: nat, b: nat) returns (c: nat)
    requires Contiguous(items, a, b)
    ensures a <= c <= b && Contiguous(Scan(items, true, costLimit, gasLimit), a, c)
    ensures c < b ==> Cost(items[c]) > costLimit || items[c].gas > gasLimit
    ensures forall k :: a <= k < c ==> Cost(items[k]) <= costLimit && items[k].gas <= gasLimit
  {
    var lost := items.Keys - Within(items, costLimit, gasLimit).Keys;
    c := if lost == {} then b else Lowest(lost);
    forall k | a <= k < c
      ensures k in Within(items, costLimit, gasLimit)
      ensures Cost(items[k]) <= costLimit && items[k].gas <= gasLimit
    {
      assert k in items && k !in lost;
    }
  }

  // Removal.

  function Remove(l: TList, nonce: nat): TList {
    if nonce !in l.items then l
    else l.(items := if l.strict then Below(l.items, nonce) else l.items - {nonce})
  }

  lemma RemoveKeeps(l: TList, nonce: nat)
    requires ListOk(l)
    ensures ListOk(Remove(l, nonce))
  {
  }

  lemma StrictRemovePrefix(l: TList, nonce: nat, a: nat, b: nat)
    requires l.strict && Contiguous(l.items, a, b) && a <= nonce < b
    ensures Contiguous(Remove(l, nonce).items, a, nonce)
  {
  }

  // Thresholds, caps and runs.

  lemma ShrinkListKeeps(l: TList, items: Items)
    requires ListOk(l) && items.Keys <= l.items.Keys && forall k :: k in items ==> items[k] == l.items[k]
    ensures ListOk(l.(items := items))
  {
  }

  lemma {:induction false} CapPrefix(items: Items, a: nat, b: nat, n: nat)
    requires Contiguous(items, a, b) && n <= b - a
    ensures |items| == b - a && Contiguous(Cap(items, n), a, a + n)
    decreases b - a - n
  {
    ContiguousSize(items, a, b);
    if n < b - a {
      var top := Highest(items.Keys);
      assert b - 1 in items.Keys;
      assert top == b - 1;
      CapPrefix(items - {top}, a, b - 1, n);
    }
  }

  lemma {:induction false} ContiguousSize(items: Items, a: nat, b: nat)
    requires Contiguous(items, a, b)
    ensures |items| == b - a
    decreases b - a
  {
    if a < b {
      ContiguousSize(items - {b - 1}, a, b - 1);
      assert (items - {b - 1}).Keys == items.Keys - {b - 1};
    } else {
      assert items == map[];
    }
  }

  class TxList {
    const strict: bool
    const txs: TxSortedMap
    var costcap: nat
    var gascap: nat

    ghost predicate Valid()
      reads this, txs
    {
      txs.Valid() && ListOk(View())
    }

    ghost function View(): TList
      reads this, txs
    {
      TList(strict, txs.items, costcap, gascap)
    }

    constructor (strict: bool)
      ensures Valid() && View() == NewList(strict) && fresh(txs)
    {
      this.strict := strict;
      txs := new TxSortedMap();
      costcap, gascap := 0, 0;
    }

    /** Inserts a transaction unless the one it would replace is too expensive to beat. */
    method AddTx(tx: Tx, bump: nat) returns (inserted: bool, old0: seq<Tx>)
      requires Valid()
      modifies this, txs
      ensures Valid() && View() == Add(old(View()), tx, bump)
      ensures txs.items == if inserted then old(txs.items)[tx.nonce := tx] else old(txs.items)
      ensures inserted <==>
        (tx.nonce in old(txs.items) ==> old(txs.items)[tx.nonce].price * (100 + bump) < tx.price * 100)
      ensures old0 == if inserted && tx.nonce in old(txs.items) then [old(txs.items)[tx.nonce]] else []
    {
      AddKeeps(View(), tx, bump);
      if tx.nonce in txs.items {
        AcceptsExactly(View(), tx, bump);
      }
      old0 := [];
      if tx.nonce in txs.items {
        old0 := [txs.items[tx.nonce]];
        if Threshold(old0[0].price, bump) >= tx.price {
          return false, [];
        }
      }
      txs.Put(tx);
      costcap := Max(costcap, Cost(tx));
      gascap := Max(gascap, tx.gas);
      return true, old0;
    }

    method Forward(threshold: nat) returns (removed: seq<Tx>)
      requires Valid()
      modifies txs
      ensures Valid() && View() == old(View()).(items := AtLeast(old(txs.items), threshold))
      ensures IsFlat(removed, Below(old(txs.items), threshold))
    {
      ShrinkListKeeps(View(), AtLeast(txs.items, threshold));
      removed := txs.Forward(threshold);
    }

    /** Drops what the limits no longer allow and, in strict mode, what that leaves stranded. */
    method FilterTxs(costLimit: nat, gasLimit: nat) returns (removed: seq<Tx>, invalids: seq<Tx>)
      requires Valid()
      modifies this, txs
      ensures Valid() && View() == Filter(old(View()), costLimit, gasLimit)
      ensures TakenOut(old(txs.items), Within(old(txs.items), costLimit, gasLimit), removed)
      ensures TakenOut(Within(old(txs.items), costLimit, gasLimit), txs.items, invalids)
      ensures Filtered(old(txs.items), txs.items, strict, costLimit, gasLimit)
    {
      hide IsFlat, TakenOut, CapsOk, Indexed, Kept, Within, Below, Filtered;
      FilterIsScan(View(), costLimit, gasLimit);
      ScanFilters(txs.items, strict, costLimit, gasLimit);
      ghost var all, kept := txs.items, Within(txs.items, costLimit, gasLimit);
      if costcap <= costLimit && gascap <= gasLimit {
        NothingFiltered(View(), costLimit, gasLimit);
        TakenOutNone(all);
        return [], [];
      }
      costcap, gascap := costLimit, gasLimit;
      var unpayable := (tx: Tx) => Cost(tx) > costLimit || tx.gas > gasLimit;
      removed := txs.Filter(unpayable);
      KeptWithin(all, txs.items, unpayable, costLimit, gasLimit);
      invalids := [];
      WithinKeys(all, costLimit, gasLimit);
      LostSome(all, kept, removed);
      TakenOutNone(kept);
      if strict && |removed| > 0 {
        var lowest := LowestNonce(removed, all, kept);
        var stranded := (tx: Tx) => tx.nonce > lowest;
        invalids := txs.Filter(stranded);
        KeptBelow(kept, txs.items, stranded, lowest);
      }
    }

    method CapTxs(threshold: nat) returns (drops: seq<Tx>)
      requires Valid()
      modifies txs
      ensures Valid() && View() == old(View()).(items := Cap(old(txs.items), threshold))
      ensures TakenOut(old(txs.items), txs.items, drops) && Descending(drops)
    {
      ShrinkListKeeps(View(), Cap(txs.items, threshold));
      drops := txs.Cap(threshold);
    }

    /** Removes a transaction and, in strict mode, everything above it. */
    method RemoveTx(tx: Tx) returns (found: bool, invalids: seq<Tx>)
      requires Valid()
      modifies txs
      ensures Valid() && View() == Remove(old(View()), tx.nonce) && found == (tx.nonce in old(txs.items))
      ensures TakenOut(old(txs.items) - {tx.nonce}, txs.items, invalids)
      ensures forall k :: k in txs.items <==>
        k in old(txs.items) && k != tx.nonce && (strict && found ==> k < tx.nonce)
    {
      hide IsFlat, TakenOut, CapsOk, Indexed, Kept;
      RemoveKeeps(View(), tx.nonce);
      ghost var all := txs.items;
      found := txs.Remove(tx.nonce);
      invalids := [];
      TakenOutNone(txs.items);
      assert !found ==> all - {tx.nonce} == all;
      if strict && found {
        var nonce := tx.nonce;
        var stranded := (t: Tx) => t.nonce > nonce;
        invalids := txs.Filter(stranded);
        KeptBelow(all - {nonce}, txs.items, stranded, nonce);
        assert Below(all - {nonce}, nonce) == Below(all, nonce);
      }
    }

    method ReadyTxs(start: nat) returns (ready: seq<Tx>)
      requires Valid()
      modifies txs
      ensures Valid() && View() == old(View()).(items := AfterReady(old(txs.items), start))
      ensures ready == Ready(old(txs.items), start) && RunTaken(old(txs.items), txs.items, start, ready)
    {
      ShrinkListKeeps(View(), AfterReady(txs.items, start));
      ready := txs.Ready(start);
    }

    method Flatten() returns (sorted: seq<Tx>)
      requires Valid()
      modifies txs
      ensures Valid() && View() == old(View()) && IsFlat(sorted, txs.items)
    {
      sorted := txs.Flatten();
    }
  }

  lemma NothingFiltered(l: TList, costLimit: nat, gasLimit: nat)
    requires ListOk(l) && l.costcap <= costLimit && l.gascap <= gasLimit
    ensures Within(l.items, costLimit, gasLimit) == l.items
  {
  }

  lemma WithinKeys(items: Items, costLimit: nat, gasLimit: nat)
    ensures Within(items, costLimit, gasLimit).Keys <= items.Keys
    ensures Keyed(items) ==> Keyed(Within(items, costLimit, gasLimit))
  {
  }

  lemma LostSome(all: Items, kept: Items, removed: seq<Tx>)
    requires Keyed(all) && kept.Keys <= all.Keys && TakenOut(all, kept, removed)
    ensures |removed| > 0 <==> all.Keys - kept.Keys != {}
  {
    if |removed| > 0 {
      assert removed[0] in removed;
      assert removed[0].nonce in all.Keys - kept.Keys;
    }
    if k :| k in all.Keys - kept.Keys {
      assert all[k] in removed;
    }
  }

  /** The lowest nonce among removed transactions. */
  method LowestNonce(removed: seq<Tx>, ghost all: Items, ghost kept: Items) returns (lowest: nat)
    requires Keyed(all) && kept.Keys <= all.Keys && TakenOut(all, kept, removed) && |removed| > 0
    ensures all.Keys - kept.Keys != {} && lowest == Lowest(all.Keys - kept.Keys)
  {
    hide TakenOut, Keyed;
    lowest := removed[0].nonce;
    ghost var at := 0;
    for i := 1 to |removed|
      invariant 0 <= at < i && removed[at].nonce == lowest
      invariant forall j :: 0 <= j < i ==> lowest <= removed[j].nonce
    {
      if removed[i].nonce < lowest {
        lowest := removed[i].nonce;
        at := i;
      }
    }
    LostSome(all, kept, removed);
    LowestLost(all, kept, removed, at);
  }

  lemma LowestLost(all: Items, kept: Items, removed: seq<Tx>, at: nat)
    requires Keyed(all) && kept.Keys <= all.Keys && TakenOut(all, kept, removed)
    requires at < |removed| && forall j :: 0 <= j < |removed| ==> removed[at].nonce <= removed[j].nonce
    ensures all.Keys - kept.Keys != {} && removed[at].nonce == Lowest(all.Keys - kept.Keys)
  {
    var lost := all.Keys - kept.Keys;
    assert removed[at] in removed;
    assert removed[at].nonce in lost;
    forall k | k in lost
      ensures removed[at].nonce <= k
    {
      assert all[k] in removed;
    }
  }

  lemma KeptBelow(rest: Items, kept: Items, unwanted: Tx -> bool, nonce: nat)
    requires Keyed(rest) && nonce !in rest && Kept(rest, kept, unwanted)
    requires forall t :: unwanted(t) == (t.nonce > nonce)
    ensures kept == Below(rest, nonce)
  {
  }

  lemma KeptWithin(all: Items, kept: Items, unwanted: Tx -> bool, costLimit: nat, gasLimit: nat)
    requires Kept(all, kept, unwanted)
    requires forall t :: unwanted(t) == (Cost(t) > costLimit || t.gas > gasLimit)
    ensures kept == Within(all, costLimit, gasLimit)
  {
  }
}
