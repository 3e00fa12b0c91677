/** The binary min-heap of nonces behind a sorted transaction map (txpool/tx_list.go), with the
    sift-up and sift-down procedures of the heap it is built on. */
module NonceHeap {

  function Parent(k: nat): nat
    requires k > 0
  {
    (k - 1) / 2
  }

  /** Entry `k` is not below its parent, as far as parents from `lo` on are concerned. */
  ghost predicate Ok(h: seq<nat>, lo: nat, k: nat)
    requires 0 < k < |h|
  {
    Parent(k) >= lo ==> h[Parent(k)] <= h[k]
  }

  /** The heap order holds below every parent from `lo` on. */
  ghost predicate HeapFrom(h: seq<nat>, lo: nat) {
    forall k :: 0 < k < |h| ==> Ok(h, lo, k)
  }

  ghost predicate IsHeap(h: seq<nat>) {
    HeapFrom(h, 0)
  }

  /** The first entry of a heap is its least. */
  lemma {:induction false} TopIsLeast(h: seq<nat>, k: nat)
    requires IsHeap(h) && k < |h|
    ensures h[0] <= h[k]
  {
    if k > 0 {
      assert Ok(h, 0, k);
      TopIsLeast(h, Parent(k));
    }
  }

  function Swap(h: seq<nat>, i: nat, j: nat): (r: seq<nat>)
    requires i < |h| && j < |h|
    ensures |r| == |h| && multiset(r) == multiset(h)
    ensures r[i] == h[j] && r[j] == h[i] && forall k :: 0 <= k < |h| && k != i && k != j ==> r[k] == h[k]
  {
    h[i := h[j]][j := h[i]]
  }

  /** The order holds except below `i` and, possibly, above `spot`. */
  ghost predicate OkExcept(h: seq<nat>, lo: nat, i: nat, spot: nat) {
    forall k :: 0 < k < |h| && Parent(k) != i && k != spot ==> Ok(h, lo, k)
  }

  /** The children of `i` are not below the parent of `i`. */
  ghost predicate Bridged(h: seq<nat>, lo: nat, i: nat) {
    i > 0 && Parent(i) >= lo && i < |h| ==> forall k :: 0 < k < |h| && Parent(k) == i ==> h[Parent(i)] <= h[k]
  }

  lemma DownStep(h: seq<nat>, lo: nat, spot: nat, i: nat, j: nat)
    requires lo <= spot <= i < |h| && i < j < |h| && Parent(j) == i
    requires OkExcept(h, lo, i, spot) && Bridged(h, lo, i)
    requires i > spot && spot > 0 ==> Ok(h, lo, spot)
    requires h[j] < h[i] && forall k :: 0 < k < |h| && Parent(k) == i ==> h[j] <= h[k]
    ensures var r := Swap(h, i, j);
      OkExcept(r, lo, j, spot) && Bridged(r, lo, j) && (spot > 0 ==> Ok(r, lo, spot))
  {
    var r := Swap(h, i, j);
    forall k | 0 < k < |r| && Parent(k) != j && k != spot
      ensures Ok(r, lo, k)
    {
      if k != i && Parent(k) != i {
        assert Ok(h, lo, k);
      }
    }
    forall k | 0 < k < |r| && Parent(k) == j
      ensures r[Parent(j)] <= r[k]
    {
      assert Ok(h, lo, k);
    }
  }

  /** Position `k` is in the subtree of `spot`. */
  ghost predicate Under(k: nat, spot: nat) {
    k == spot || (k > spot && k > 0 && Under(Parent(k), spot))
  }

  /** Sift down, inside the subtree of `spot`. If nothing moved, only the entry at `spot` can still be
      below its parent. */
  method Down(h: seq<nat>, spot: nat, lo: nat) returns (r: seq<nat>, moved: bool)
    requires lo <= spot < |h| && OkExcept(h, lo, spot, spot) && Bridged(h, lo, spot)
    ensures |r| == |h| && multiset(r) == multiset(h)
    ensures forall k :: 0 < k < |r| && k != spot ==> Ok(r, lo, k)
    ensures moved && spot > 0 ==> Ok(r, lo, spot)
    ensures !moved ==> r == h
    ensures forall k :: 0 <= k < |h| && !Under(k, spot) ==> r[k] == h[k]
  {
    hide OkExcept, Bridged, Ok;
    r := h;
    var i := spot;
    while true
      invariant spot <= i < |r| && |r| == |h| && multiset(r) == multiset(h)
      invariant i == spot ==> r == h
      invariant OkExcept(r, lo, i, spot) && Bridged(r, lo, i)
      invariant i > spot && spot > 0 ==> Ok(r, lo, spot)
      invariant Under(i, spot) && forall k :: 0 <= k < |h| && !Under(k, spot) ==> r[k] == h[k]
      decreases |r| - i
    {
      var j1 := 2 * i + 1;
      if j1 >= |r| {
        Settled(r, lo, spot, i);
        break;
      }
      var j := j1;
      if j1 + 1 < |r| && r[j1 + 1] < r[j1] {
        j := j1 + 1;
      }
      if r[i] <= r[j] {
        Settled(r, lo, spot, i);
        break;
      }
      DownStep(r, lo, spot, i, j);
      r := Swap(r, i, j);
      i := j;
    }
    moved := i > spot;
  }

  lemma Settled(h: seq<nat>, lo: nat, spot: nat, i: nat)
    requires i < |h| && OkExcept(h, lo, i, spot)
    requires forall k :: 0 < k < |h| && Parent(k) == i ==> h[i] <= h[k]
    ensures forall k :: 0 < k < |h| && k != spot ==> Ok(h, lo, k)
  {
  }

  /** Sift up an entry that may be below its parent. */
  method Up(h: seq<nat>, spot: nat) returns (r: seq<nat>)
    requires spot < |h| && (forall k :: 0 < k < |h| && k != spot ==> Ok(h, 0, k)) && Bridged(h, 0, spot)
    ensures IsHeap(r) && |r| == |h| && multiset(r) == multiset(h)
  {
    r := h;
    var j: nat := spot;
    while j > 0 && r[j] < r[Parent(j)]
      invariant j < |r| && |r| == |h| && multiset(r) == multiset(h)
      invariant (forall k :: 0 < k < |r| && k != j ==> Ok(r, 0, k)) && Bridged(r, 0, j)
    {
      UpStep(r, j);
      r := Swap(r, Parent(j), j);
      j := Parent(j);
    }
  }

  lemma UpStep(h: seq<nat>, j: nat)
    requires 0 < j < |h| && h[j] < h[Parent(j)]
    requires (forall k :: 0 < k < |h| && k != j ==> Ok(h, 0, k)) && Bridged(h, 0, j)
    ensures var r := Swap(h, Parent(j), j);
      (forall k :: 0 < k < |r| && k != Parent(j) ==> Ok(r, 0, k)) && Bridged(r, 0, Parent(j))
  {
    var i := Parent(j);
    var r := Swap(h, i, j);
    forall k | 0 < k < |r| && k != i
      ensures Ok(r, 0, k)
    {
      if k != j {
        assert Ok(h, 0, k);
      }
    }
    if i > 0 {
      assert Ok(h, 0, i);
      forall k | 0 < k < |r| && Parent(k) == i
        ensures r[Parent(i)] <= r[k]
      {
        if k != j {
          assert Ok(h, 0, k);
        }
      }
    }
  }

  method HeapPush(h: seq<nat>, x: nat) returns (r: seq<nat>)
    requires IsHeap(h)
    ensures IsHeap(r) && multiset(r) == multiset(h) + multiset{x}
  {
    r := h + [x];
    forall k | 0 < k < |r| && k != |h|
      ensures Ok(r, 0, k)
    {
      assert Ok(h, 0, k);
    }
    r := Up(r, |h|);
  }

  /** Moves the entry at `i` to the end, restores the order, and takes it off. */
  method HeapRemove(h: seq<nat>, i: nat) returns (r: seq<nat>)
    requires IsHeap(h) && i < |h|
    ensures IsHeap(r) && multiset(h) == multiset(r) + multiset{h[i]}
  {
    var n := |h| - 1;
    var swapped := Swap(h, i, n);
    assert swapped == swapped[..n] + [h[i]];
    r := swapped[..n];
    if i != n {
      RemoveSpot(h, i);
      var moved;
      r, moved := Down(r, i, 0);
      if !moved {
        assert Bridged(r, 0, i);
        r := Up(r, i);
      }
    } else {
      forall k | 0 < k < |r|
        ensures Ok(r, 0, k)
      {
        assert Ok(h, 0, k);
      }
    }
  }

  lemma RemoveSpot(h: seq<nat>, i: nat)
    requires IsHeap(h) && i < |h| - 1
    ensures var r := Swap(h, i, |h| - 1)[..|h| - 1];
      OkExcept(r, 0, i, i) && Bridged(r, 0, i)
  {
    var r := Swap(h, i, |h| - 1)[..|h| - 1];
    forall k | 0 < k < |r| && Parent(k) != i && k != i
      ensures Ok(r, 0, k)
    {
      assert Ok(h, 0, k);
    }
    if i > 0 {
      assert Ok(h, 0, i);
      forall k | 0 < k < |r| && Parent(k) == i
        ensures r[Parent(i)] <= r[k]
      {
        assert Ok(h, 0, k);
      }
    }
  }

  /** Takes the least nonce off the heap. */
  method HeapPop(h: seq<nat>) returns (r: seq<nat>, x: nat)
    requires IsHeap(h) && h != []
    ensures x == h[0] && IsHeap(r) && multiset(h) == multiset(r) + multiset{x}
    ensures forall k :: k in h ==> x <= k
  {
    forall k | 0 <= k < |h|
      ensures h[0] <= h[k]
    {
      TopIsLeast(h, k);
    }
    x := h[0];
    r := HeapRemove(h, 0);
  }

  /** Establishes the heap order on any sequence. */
  method HeapInit(h: seq<nat>) returns (r: seq<nat>)
    ensures IsHeap(r) && multiset(r) == multiset(h)
  {
    r := h;
    var i := |h| / 2;
    assert HeapFrom(r, i);
    while i > 0
      invariant 0 <= i <= |h| / 2 && |r| == |h| && multiset(r) == multiset(h) && HeapFrom(r, i)
    {
      i := i - 1;
      ghost var above := i + 1;
      forall k | 0 < k < |r| && Parent(k) != i && k != i
        ensures Ok(r, i, k)
      {
        assert Ok(r, above, k);
      }
      var moved;
      r, moved := Down(r, i, i);
    }
  }

  /** Sorting, as used for capping and flattening. */
  ghost predicate Ascending(s: seq<nat>) {
    forall i, j :: 0 <= i < j < |s| ==> s[i] <= s[j]
  }

  function InsertSorted(s: seq<nat>, x: nat): (r: seq<nat>)
    ensures multiset(r) == multiset(s) + multiset{x}
  {
    if s == [] || x <= s[0] then [x] + s
    else
      assert s == [s[0]] + s[1..];
      [s[0]] + InsertSorted(s[1..], x)
  }

  lemma {:induction false} InsertSortedAscends(s: seq<nat>, x: nat)
    requires Ascending(s)
    ensures Ascending(InsertSorted(s, x))
  {
    hide InsertSorted;
    if s != [] && x > s[0] {
      var rest := InsertSorted(s[1..], x);
      InsertSortedAscends(s[1..], x);
      InsertSortedKeeps(s[1..], x, s[0]);
      AscendingCons(s[0], rest);
    }
    InsertSortedStep(s, x);
    if s != [] && x <= s[0] {
      AscendingCons(x, s);
    }
  }

  lemma InsertSortedStep(s: seq<nat>, x: nat)
    ensures InsertSorted(s, x) == if s == [] || x <= s[0] then [x] + s else [s[0]] + InsertSorted(s[1..], x)
  {
  }

  /** A lower bound of the sequence and of what is inserted bounds the result. */
  lemma InsertSortedKeeps(s: seq<nat>, x: nat, low: nat)
    requires low <= x && forall k :: k in s ==> low <= k
    ensures forall k :: k in InsertSorted(s, x) ==> low <= k
  {
    hide InsertSorted;
    forall k | k in InsertSorted(s, x)
      ensures low <= k
    {
      assert k in multiset(InsertSorted(s, x));
      assert k == x || k in s;
    }
  }

  lemma AscendingCons(x: nat, s: seq<nat>)
    requires Ascending(s) && forall k :: k in s ==> x <= k
    ensures Ascending([x] + s)
  {
    var all := [x] + s;
    forall j | 0 < j < |all|
      ensures x <= all[j]
    {
      assert all[j] == s[j - 1] && s[j - 1] in s;
    }
  }

  method SortNonces(s: seq<nat>) returns (r: seq<nat>)
    ensures Ascending(r) && multiset(r) == multiset(s)
  {
    r := [];
    for i := 0 to |s|
      invariant Ascending(r) && multiset(r) == multiset(s[..i])
    {
      InsertSortedAscends(r, s[i]);
      r := InsertSorted(r, s[i]);
      assert s[..i + 1] == s[..i] + [s[i]];
    }
    assert s[..|s|] == s;
  }
}
