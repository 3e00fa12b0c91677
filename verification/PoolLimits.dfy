/** The pool's global limits (txpool/tx_pool.go): if too many transactions are pending, the largest
    accounts are cut back evenly; if too many are queued, the surplus is dropped. */
module PoolLimits {
  import opened TxSpec
  import opened TxList
  import opened PoolState
  import opened TxPool

  // Counting.

  ghost function Total(m: Lists): nat
    decreases |m|
  {
    if m == map[] then 0
    else
      var a :| a in m;
      |m[a].items| + Total(m - {a})
  }

  lemma {:induction false} TotalRemove(m: Lists, a: Address)
    requires a in m
    ensures Total(m) == |m[a].items| + Total(m - {a})
    decreases |m|
  {
    var b :| b in m && Total(m) == |m[b].items| + Total(m - {b});
    if b != a {
      TotalRemove(m - {b}, a);
      TotalRemove(m - {a}, b);
      assert m - {b} - {a} == m - {a} - {b};
    }
  }

  lemma TotalUpdate(m: Lists, a: Address, l: TList)
    requires a in m
    ensures Total(m[a := l]) == Total(m) - |m[a].items| + |l.items|
  {
    TotalRemove(m, a);
    TotalRemove(m[a := l], a);
    assert m[a := l] - {a} == m - {a};
  }

  method Count(m: Lists) returns (count: nat)
    ensures count == Total(m)
  {
    count := 0;
    var rest := m;
    while rest != map[]
      invariant count + Total(rest) == Total(m)
      decreases |rest|
    {
      var a :| a in rest;
      TotalRemove(rest, a);
      count := count + |rest[a].items|;
      rest := rest - {a};
    }
  }

  // Levels.

  /** Every list cut down to at most `level` transactions, the lowest nonces staying. */
  ghost function Leveled(m: Lists, level: nat): Lists {
    map a | a in m :: m[a].(items := Cap(m[a].items, level))
  }

  /** The accounts that a cut below `level` + 1 affects. */
  ghost function Above(m: Lists, level: nat): set<Address> {
    set a | a in m && |m[a].items| > level
  }

  lemma {:induction false} CapCap(items: Items, n: nat, k: nat)
    requires k <= n
    ensures Cap(Cap(items, n), k) == Cap(items, k)
    decreases |items|
  {
    if |items| > n {
      var top := Highest(items.Keys);
      assert (items - {top}).Keys == items.Keys - {top};
      CapCap(items - {top}, n, k);
    }
  }

  lemma LeveledRemove(m: Lists, level: nat, a: Address)
    requires a in m
    ensures Total(Leveled(m, level))
      == (if |m[a].items| <= level then |m[a].items| else level) + Total(Leveled(m - {a}, level))
  {
    hide Cap, Total;
    TotalRemove(Leveled(m, level), a);
    assert Leveled(m, level) - {a} == Leveled(m - {a}, level);
  }

  lemma AboveRemove(m: Lists, level: nat, a: Address)
    requires a in m
    ensures |Above(m, level)| == |Above(m - {a}, level)| + (if |m[a].items| > level then 1 else 0)
  {
    var rest := Above(m - {a}, level);
    if |m[a].items| > level {
      assert Above(m, level) == rest + {a};
    } else {
      assert Above(m, level) == rest;
    }
  }

  /** Cutting everything one level lower costs one transaction for every account above it. */
  lemma {:induction false} LevelStep(m: Lists, level: nat)
    ensures Total(Leveled(m, level + 1)) == Total(Leveled(m, level)) + |Above(m, level)|
    decreases |m|
  {
    hide Leveled, Above, Total;
    if m == map[] {
      LevelNone(level);
      LevelNone(level + 1);
    } else {
      var a :| a in m;
      LevelStep(m - {a}, level);
      LeveledRemove(m, level, a);
      LeveledRemove(m, level + 1, a);
      AboveRemove(m, level, a);
    }
  }

  lemma LevelNone(level: nat)
    ensures Total(Leveled(map[], level)) == 0 && |Above(map[], level)| == 0
  {
    assert Leveled(map[], level) == map[];
    assert Above(map[], level) == {};
  }

  lemma LeveledAll(m: Lists, level: nat)
    requires Above(m, level) == {}
    ensures Leveled(m, level) == m
  {
    forall a | a in m
      ensures m[a].(items := Cap(m[a].items, level)) == m[a]
    {
      assert a !in Above(m, level);
    }
  }

  // Dropping one transaction.

  function DropTop(p: Pool, h: Head, a: Address): Pool
    requires a in p.pending && p.pending[a].items.Keys != {}
  {
    var l := p.pending[a];
    var top := Highest(l.items.Keys);
    LowerNonce(p.(pending := p.pending[a := l.(items := l.items - {top})], all := p.all - {l.items[top]}), h, a, top)
  }

  lemma CapOne(items: Items)
    requires items.Keys != {}
    ensures Cap(items, |items| - 1) == items - {Highest(items.Keys)} && |items - {Highest(items.Keys)}| == |items| - 1
  {
    var top := Highest(items.Keys);
    assert (items - {top}).Keys == items.Keys - {top};
  }

  /** Dropping the highest pending nonce of an account keeps both invariants. */
  lemma DropKeeps(p: Pool, h: Head, a: Address)
    requires Partition(p) && a in p.pending && |p.pending[a].items| >= 2
    ensures p.pending[a].items.Keys != {} && Partition(DropTop(p, h, a))
    ensures Gapless(p.pending, p.nonces, h) ==> Gapless(DropTop(p, h, a).pending, DropTop(p, h, a).nonces, h)
  {
    hide PartitionWith, Gapless, AccountList;
    var l := p.pending[a];
    assert l.items.Keys != {};
    var top := Highest(l.items.Keys);
    CapOne(l.items);
    PartitionLists(p, {}, a);
    var l1 := l.(items := l.items - {top});
    SubList(l, true, a, l1.items);
    ShrinkPendKeeps(p, a, l1, {});
    assert Lost(l.items, l1.items) - {} == {l.items[top]};
    assert l1.items != map[];
    var p1 := SetPend(p, a, l1, {l.items[top]});
    NoncesDontMatter(p1, {}, LowerNonce(p1, h, a, top).nonces);
    if Gapless(p.pending, p.nonces, h) {
      DropGapless(p, p1, h, a, top);
    }
  }

  lemma DropGapless(p: Pool, p': Pool, h: Head, a: Address, top: nat)
    requires Gapless(p.pending, p.nonces, h) && a in p.pending && top in p.pending[a].items
    requires forall k :: k in p.pending[a].items ==> k <= top
    requires a in p'.pending && p'.pending[a].items == p.pending[a].items - {top}
    requires p'.pending == p.pending[a := p'.pending[a]] && p'.nonces == p.nonces
    ensures Gapless(LowerNonce(p', h, a, top).pending, LowerNonce(p', h, a, top).nonces, h)
  {
    GaplessFact(p, h, a);
    GaplessStep(p, LowerNonce(p', h, a, top), h, a);
  }

  // Cutting back the largest accounts.

  ghost predicate NoDup(s: seq<Address>) {
    forall i, j :: 0 <= i < j < |s| ==> s[i] != s[j]
  }

  /** All of `m0` cut to `level`, and the accounts in `cut` one lower. */
  ghost function PartLeveled(m0: Lists, level: nat, cut: set<Address>): Lists
    requires level > 0
  {
    map a | a in m0 :: m0[a].(items := Cap(m0[a].items, if a in cut then level - 1 else level))
  }

  lemma PartLeveledNone(m0: Lists, level: nat)
    requires level > 0
    ensures PartLeveled(m0, level, {}) == Leveled(m0, level)
  {
  }

  /** Once every account above the lower level is cut, the lower level is reached. */
  lemma PartLeveledAll(m0: Lists, level: nat, cut: set<Address>)
    requires level > 0 && cut == Above(m0, level - 1)
    ensures PartLeveled(m0, level, cut) == Leveled(m0, level - 1)
  {
    forall a | a in m0
      ensures Cap(m0[a].items, if a in cut then level - 1 else level) == Cap(m0[a].items, level - 1)
    {
    }
  }

  lemma PartLeveledStep(m0: Lists, level: nat, cut: set<Address>, a: Address)
    requires level > 0 && a in m0 && a !in cut && |m0[a].items| >= level
    ensures var m := PartLeveled(m0, level, cut);
      && |m[a].items| == level && m[a].items.Keys != {}
      && m[a := m[a].(items := m[a].items - {Highest(m[a].items.Keys)})] == PartLeveled(m0, level, cut + {a})
  {
    hide Cap;
    var m := PartLeveled(m0, level, cut);
    assert |m[a].items| == level;
    assert m[a].items.Keys != {};
    CapOne(m[a].items);
    CapCap(m0[a].items, level, level - 1);
    PartLeveledPut(m0, level, cut, a);
  }

  lemma PartLeveledPut(m0: Lists, level: nat, cut: set<Address>, a: Address)
    requires level > 0 && a in m0
    ensures PartLeveled(m0, level, cut)[a := m0[a].(items := Cap(m0[a].items, level - 1))]
      == PartLeveled(m0, level, cut + {a})
  {
    hide Cap;
  }

  function ToSet(s: seq<Address>): set<Address> {
    set a | a in s
  }

  // The virtual nonces follow the cuts.

  function Least(a: nat, b: nat): nat {
    if a < b then a else b
  }

  /** The virtual nonce of an account once its list is cut to `level`: at most the lowest nonce that
      was dropped. */
  function Lowered(v: nat, items: Items, level: nat): nat {
    var dropped := items.Keys - Cap(items, level).Keys;
    if dropped == {} then v else Least(v, Lowest(dropped))
  }

  lemma LowestWith(s: set<nat>, low: nat)
    requires forall x :: x in s ==> low < x
    ensures s + {low} != {} && Lowest(s + {low}) == low && (s != {} ==> low < Lowest(s))
  {
    assert low in s + {low};
  }

  /** Cutting one level lower frees the highest nonce that was left. */
  lemma LoweredStep(v: nat, items: Items, level: nat)
    requires 0 < level <= |items|
    ensures Cap(items, level).Keys != {}
    ensures Lowered(v, items, level - 1) == Least(Lowered(v, items, level), Highest(Cap(items, level).Keys))
  {
    hide Cap, Lowest, Highest;
    var kept := Cap(items, level);
    HasKeys(kept);
    var top := Highest(kept.Keys);
    CapOne(kept);
    CapCap(items, level, level - 1);
    assert Cap(items, level - 1).Keys == kept.Keys - {top};
    var dropped := items.Keys - kept.Keys;
    assert items.Keys - (kept.Keys - {top}) == dropped + {top};
    LowestWith(dropped, top);
  }

  lemma LoweredNone(v: nat, items: Items, level: nat)
    requires |items| <= level
    ensures Lowered(v, items, level) == v
  {
    assert items.Keys - Cap(items, level).Keys == {};
  }

  /** Of the accounts in `cut`, the lists are at `level` - 1, of the others at `level`. */
  ghost predicate NoncesPartCut(m0: Lists, n0: map<Address, nat>, nonces: map<Address, nat>, h: Head, level: nat,
      cut: set<Address>)
    requires level > 0
  {
    forall a :: VirtualNonce(nonces, h, a)
      == Lowered(VirtualNonce(n0, h, a), PendOf(m0, a).items, if a in cut then level - 1 else level)
  }

  ghost predicate NoncesCut(m0: Lists, n0: map<Address, nat>, nonces: map<Address, nat>, h: Head, level: nat) {
    forall a :: VirtualNonce(nonces, h, a) == Lowered(VirtualNonce(n0, h, a), PendOf(m0, a).items, level)
  }

  lemma NoncesUncut(m0: Lists, n0: map<Address, nat>, h: Head, level: nat)
    requires Above(m0, level) == {}
    ensures NoncesCut(m0, n0, n0, h, level)
  {
    hide Lowered;
    forall a
      ensures VirtualNonce(n0, h, a) == Lowered(VirtualNonce(n0, h, a), PendOf(m0, a).items, level)
    {
      assert a in m0 ==> a !in Above(m0, level);
      LoweredNone(VirtualNonce(n0, h, a), PendOf(m0, a).items, level);
    }
  }

  lemma NoncesCutStart(m0: Lists, n0: map<Address, nat>, nonces: map<Address, nat>, h: Head, level: nat)
    requires level > 0 && NoncesCut(m0, n0, nonces, h, level)
    ensures NoncesPartCut(m0, n0, nonces, h, level, {})
  {
    hide Lowered;
  }

  lemma NoncesCutAll(m0: Lists, n0: map<Address, nat>, nonces: map<Address, nat>, h: Head, level: nat,
      cut: set<Address>)
    requires level > 0 && cut == Above(m0, level - 1) && NoncesPartCut(m0, n0, nonces, h, level, cut)
    ensures NoncesCut(m0, n0, nonces, h, level - 1)
  {
    hide Lowered;
    forall a
      ensures VirtualNonce(nonces, h, a) == Lowered(VirtualNonce(n0, h, a), PendOf(m0, a).items, level - 1)
    {
      var items := PendOf(m0, a).items;
      if a !in cut {
        assert |items| <= level - 1;
        LoweredNone(VirtualNonce(n0, h, a), items, level);
        LoweredNone(VirtualNonce(n0, h, a), items, level - 1);
      }
    }
  }

  lemma NoncesCutStep(m0: Lists, n0: map<Address, nat>, p: Pool, h: Head, level: nat, cut: set<Address>, a: Address)
    requires level > 0 && a in m0 && a !in cut && |m0[a].items| >= level
    requires NoncesPartCut(m0, n0, p.nonces, h, level, cut)
    requires p.pending == PartLeveled(m0, level, cut) && a in p.pending && p.pending[a].items.Keys != {}
    ensures NoncesPartCut(m0, n0, DropTop(p, h, a).nonces, h, level, cut + {a})
  {
    hide Lowered, Cap;
    assert p.pending[a].items == Cap(m0[a].items, level);
    LoweredStep(VirtualNonce(n0, h, a), m0[a].items, level);
    var nonces := DropTop(p, h, a).nonces;
    forall b
      ensures VirtualNonce(nonces, h, b)
        == Lowered(VirtualNonce(n0, h, b), PendOf(m0, b).items, if b in cut + {a} then level - 1 else level)
    {
      assert b != a ==> VirtualNonce(nonces, h, b) == VirtualNonce(p.nonces, h, b);
    }
  }

  /** Drops one transaction from each of the given accounts, keeping count. */
  method DropEach(p: Pool, h: Head, addrs: seq<Address>, count: nat,
      ghost m0: Lists, ghost n0: map<Address, nat>, ghost level: nat) returns (p': Pool, count': int)
    requires Partition(p) && level >= 2 && p.pending == Leveled(m0, level) && count == Total(p.pending)
    requires NoncesCut(m0, n0, p.nonces, h, level)
    requires NoDup(addrs) && ToSet(addrs) == Above(m0, level - 1)
    ensures Partition(p') && p'.pending == Leveled(m0, level - 1) && p'.queue == p.queue && count' == Total(p'.pending)
    ensures NoncesCut(m0, n0, p'.nonces, h, level - 1)
    ensures Gapless(p.pending, p.nonces, h) ==> Gapless(p'.pending, p'.nonces, h)
  {
    hide PartitionWith, Gapless, Leveled, PartLeveled, Total, NoncesCut, NoncesPartCut;
    p', count' := p, count;
    assert ToSet(addrs[..0]) == {};
    PartLeveledNone(m0, level);
    NoncesCutStart(m0, n0, p.nonces, h, level);
    for i := 0 to |addrs|
      invariant Partition(p') && p'.queue == p.queue && count' == Total(p'.pending)
      invariant p'.pending == PartLeveled(m0, level, ToSet(addrs[..i]))
      invariant NoncesPartCut(m0, n0, p'.nonces, h, level, ToSet(addrs[..i]))
      invariant Gapless(p.pending, p.nonces, h) ==> Gapless(p'.pending, p'.nonces, h)
    {
      var a := addrs[i];
      assert a in Above(m0, level - 1) && a !in ToSet(addrs[..i]);
      PartLeveledStep(m0, level, ToSet(addrs[..i]), a);
      PartLeveledHas(m0, level, ToSet(addrs[..i]), a);
      DropKeeps(p', h, a);
      NoncesCutStep(m0, n0, p', h, level, ToSet(addrs[..i]), a);
      CapOne(p'.pending[a].items);
      TotalUpdate(p'.pending, a, DropTop(p', h, a).pending[a]);
      assert ToSet(addrs[..i + 1]) == ToSet(addrs[..i]) + {a};
      p' := DropTop(p', h, a);
      count' := count' - 1;
    }
    assert addrs[..|addrs|] == addrs;
    PartLeveledAll(m0, level, ToSet(addrs));
    NoncesCutAll(m0, n0, p'.nonces, h, level, ToSet(addrs));
  }

  lemma PartLeveledHas(m0: Lists, level: nat, cut: set<Address>, a: Address)
    requires level > 0 && a in m0
    ensures a in PartLeveled(m0, level, cut)
  {
  }

  lemma {:induction false} LargestExists(s: set<Address>, m: Lists) returns (a: Address)
    requires s != {} && s <= m.Keys
    ensures a in s && forall b :: b in s ==> |m[b].items| <= |m[a].items|
  {
    var x :| x in s;
    a := x;
    if s != {x} {
      assert s - {x} != {};
      var y := LargestExists(s - {x}, m);
      a := if |m[y].items| > |m[x].items| then y else x;
      assert forall b :: b in s ==> b == x || b in s - {x};
    }
  }

  /** The spam queue: pops an account with the most pending transactions. */
  method PopLargest(s: set<Address>, m: Lists) returns (a: Address)
    requires s != {} && s <= m.Keys
    ensures a in s && forall b :: b in s ==> |m[b].items| <= |m[a].items|
  {
    ghost var w := LargestExists(s, m);
    a :| a in s && forall b :: b in s ==> |m[b].items| <= |m[a].items|;
  }

  /** Where the cutting stands: the offenders so far are those at or above the level, the accounts
      still in the spam queue are not above it. */
  ghost predicate Standing(m0: Lists, slots: nat, offenders: set<Address>, spammers: set<Address>, level: nat) {
    && offenders + spammers == Above(m0, slots) && offenders !! spammers
    && (forall a :: a in offenders ==> |m0[a].items| >= level)
    && (forall a :: a in spammers ==> |m0[a].items| <= level)
  }

  /** No higher level would do. */
  ghost predicate Needed(m0: Lists, level: nat, limit: nat) {
    Above(m0, level) == {} || Total(Leveled(m0, level + 1)) > limit
  }

  /** Cuts the accounts in `addrs` back, one level at a time, until the total fits or the floor is
      reached. */
  method CutDown(p: Pool, h: Head, addrs: seq<Address>, count: nat, limit: nat, floor: nat,
      ghost m0: Lists, ghost n0: map<Address, nat>, ghost level: nat)
      returns (p': Pool, count': nat, ghost level': nat)
    requires Partition(p) && p.pending == Leveled(m0, level) && count == Total(p.pending)
    requires NoncesCut(m0, n0, p.nonces, h, level)
    requires 1 <= floor <= level && addrs != [] && NoDup(addrs) && Needed(m0, level, limit)
    requires forall a :: a in addrs ==> a in m0 && |m0[a].items| >= level
    requires forall a :: a in Above(m0, floor) ==> a in addrs
    ensures Partition(p') && p'.queue == p.queue && count' == Total(p'.pending)
    ensures floor <= level' <= level && p'.pending == Leveled(m0, level') && Needed(m0, level', limit)
    ensures NoncesCut(m0, n0, p'.nonces, h, level')
    ensures count' <= limit || level' == floor
    ensures Gapless(p.pending, p.nonces, h) ==> Gapless(p'.pending, p'.nonces, h)
  {
    hide PartitionWith, Gapless, Total, Leveled, Above, Needed, ToSet, NoDup, NoncesCut;
    p', count', level' := p, count, level;
    ghost var last := addrs[|addrs| - 1];
    LeveledLen(m0, level', last);
    while count' > limit && |p'.pending[addrs[|addrs| - 1]].items| > floor
      invariant Partition(p') && p'.queue == p.queue && count' == Total(p'.pending)
      invariant floor <= level' <= level && p'.pending == Leveled(m0, level') && Needed(m0, level', limit)
      invariant last in p'.pending && |p'.pending[last].items| == level'
      invariant NoncesCut(m0, n0, p'.nonces, h, level')
      invariant Gapless(p.pending, p.nonces, h) ==> Gapless(p'.pending, p'.nonces, h)
      decreases level'
    {
      AddrsAreAbove(m0, addrs, level', floor);
      NeededStep(m0, level', limit);
      var c;
      p', c := DropEach(p', h, addrs, count', m0, n0, level');
      count' := c;
      level' := level' - 1;
      LeveledLen(m0, level', last);
    }
  }

  lemma LeveledLen(m: Lists, level: nat, a: Address)
    requires a in m
    ensures a in Leveled(m, level)
    ensures |Leveled(m, level)[a].items| == if |m[a].items| <= level then |m[a].items| else level
  {
  }

  lemma AddrsAreAbove(m0: Lists, addrs: seq<Address>, level: nat, floor: nat)
    requires level > floor
    requires forall a :: a in addrs ==> a in m0 && |m0[a].items| >= level
    requires forall a :: a in Above(m0, floor) ==> a in addrs
    ensures ToSet(addrs) == Above(m0, level - 1)
  {
    forall a | a in Above(m0, level - 1)
      ensures a in addrs
    {
      assert a in Above(m0, floor);
    }
  }

  lemma NeededStep(m0: Lists, level: nat, limit: nat)
    requires level > 0 && Total(Leveled(m0, level)) > limit
    ensures Needed(m0, level - 1, limit)
  {
  }

  method Spammers(m: Lists, slots: nat) returns (s: set<Address>)
    ensures s == Above(m, slots) && s <= m.Keys
  {
    s := set a | a in m && |m[a].items| > slots;
  }

  /** Equalises the largest accounts until the total fits or they are all at the guaranteed number
      of slots. The outcome is one level for everybody, and no higher level would do. */
  method LimitPending(p: Pool, h: Head, lim: Limits) returns (p': Pool, ghost level: nat)
    requires Partition(p) && lim.accountSlots >= 1
    ensures Partition(p') && p'.queue == p.queue
    ensures Gapless(p.pending, p.nonces, h) ==> Gapless(p'.pending, p'.nonces, h)
    ensures Total(p.pending) <= lim.globalSlots ==> p' == p
    ensures Total(p.pending) > lim.globalSlots ==>
      && level >= lim.accountSlots && p'.pending == Leveled(p.pending, level)
      && (Total(p'.pending) <= lim.globalSlots || level == lim.accountSlots)
      && Needed(p.pending, level, lim.globalSlots)
      && NoncesCut(p.pending, p.nonces, p'.nonces, h, level)
  {
    hide PartitionWith, Gapless, Total, Leveled, Needed, Cap, Standing, NoDup, ToSet, Above, NoncesCut;
    ghost var m0, n0 := p.pending, p.nonces;
    p', level := p, lim.accountSlots;
    var count := Count(p.pending);
    if count <= lim.globalSlots {
      return;
    }
    var spammers := Spammers(p.pending, lim.accountSlots);
    if spammers == {} {
      LeveledAll(m0, level);
      NothingAbove(m0, level, lim.globalSlots);
      NoncesUncut(m0, n0, h, level);
      return;
    }
    var first := PopLargest(spammers, p.pending);
    var offenders := [first];
    spammers := spammers - {first};
    level := |m0[first].items|;
    FirstOffender(m0, lim.accountSlots, first, spammers, lim.globalSlots);
    NoncesUncut(m0, n0, h, level);
    while count > lim.globalSlots && spammers != {}
      invariant Partition(p') && p'.queue == p.queue && count == Total(p'.pending)
      invariant level > lim.accountSlots && p'.pending == Leveled(m0, level) && Needed(m0, level, lim.globalSlots)
      invariant offenders != [] && NoDup(offenders) && spammers <= m0.Keys
      invariant NoncesCut(m0, n0, p'.nonces, h, level)
      invariant count > lim.globalSlots ==> Standing(m0, lim.accountSlots, ToSet(offenders), spammers, level)
      invariant Gapless(p.pending, p.nonces, h) ==> Gapless(p'.pending, p'.nonces, h)
      decreases spammers
    {
      var a := PopLargest(spammers, p.pending);
      ghost var queued := spammers;
      spammers := spammers - {a};
      assert spammers + {a} == queued;
      p', count, level := CutToNext(p', h, lim, offenders, spammers, a, count, m0, n0, level);
      NoDupAppend(offenders, a);
      offenders := offenders + [a];
    }
    if count > lim.globalSlots {
      LastCut(m0, lim.accountSlots, offenders, level);
      p', count, level := CutDown(p', h, offenders, count, lim.globalSlots, lim.accountSlots, m0, n0, level);
    }
  }

  /** Cuts the offenders down to the next account in the spam queue, unless the total fits before. */
  method CutToNext(p: Pool, h: Head, lim: Limits, offenders: seq<Address>, ghost spammers: set<Address>, a: Address,
      count: nat, ghost m0: Lists, ghost n0: map<Address, nat>, ghost level: nat)
      returns (p': Pool, count': nat, ghost level': nat)
    requires NoncesCut(m0, n0, p.nonces, h, level)
    requires Partition(p) && p.pending == Leveled(m0, level) && count == Total(p.pending) > lim.globalSlots
    requires lim.accountSlots < level && Needed(m0, level, lim.globalSlots)
    requires offenders != [] && NoDup(offenders) && a !in spammers && spammers + {a} <= m0.Keys
    requires Standing(m0, lim.accountSlots, ToSet(offenders), spammers + {a}, level)
    requires forall b :: b in spammers + {a} ==> |m0[b].items| <= |m0[a].items|
    ensures Partition(p') && p'.queue == p.queue && count' == Total(p'.pending)
    ensures lim.accountSlots < level' && p'.pending == Leveled(m0, level') && Needed(m0, level', lim.globalSlots)
    ensures count' > lim.globalSlots ==> Standing(m0, lim.accountSlots, ToSet(offenders + [a]), spammers, level')
    ensures Gapless(p.pending, p.nonces, h) ==> Gapless(p'.pending, p'.nonces, h)
    ensures a !in offenders && NoncesCut(m0, n0, p'.nonces, h, level')
  {
    hide PartitionWith, Gapless, Total, Leveled, Needed, Cap, Standing, NoDup, Above, NoncesCut;
    assert a in spammers + {a};
    NextOffender(m0, lim.accountSlots, offenders, spammers + {a}, level, a);
    LeveledLen(m0, level, a);
    var threshold := |p.pending[a].items|;
    p', count', level' := CutDown(p, h, offenders, count, lim.globalSlots, threshold, m0, n0, level);
    if count' > lim.globalSlots {
      JoinOffender(m0, lim.accountSlots, offenders, spammers, level, a);
    }
  }

  lemma NoDupAppend(s: seq<Address>, a: Address)
    requires NoDup(s) && a !in s
    ensures NoDup(s + [a])
  {
  }

  lemma NothingAbove(m0: Lists, level: nat, limit: nat)
    requires Above(m0, level) == {}
    ensures Needed(m0, level, limit)
  {
  }

  lemma FirstOffender(m0: Lists, slots: nat, first: Address, spammers: set<Address>, limit: nat)
    requires first in m0 && first !in spammers && spammers + {first} == Above(m0, slots)
    requires forall b :: b in spammers ==> b in m0 && |m0[b].items| <= |m0[first].items|
    ensures var level := |m0[first].items|;
      && level > slots && m0 == Leveled(m0, level) && Needed(m0, level, limit) && NoDup([first])
      && Above(m0, level) == {}
      && Standing(m0, slots, ToSet([first]), spammers, level)
  {
    var level := |m0[first].items|;
    assert first in spammers + {first};
    forall a | a in m0
      ensures |m0[a].items| <= level
    {
      assert a in Above(m0, slots) ==> a in spammers || a == first;
    }
    assert Above(m0, level) == {};
    LeveledAll(m0, level);
    assert ToSet([first]) == {first};
  }

  lemma NextOffender(m0: Lists, slots: nat, offenders: seq<Address>, spammers: set<Address>, level: nat, a: Address)
    requires Standing(m0, slots, ToSet(offenders), spammers, level)
    requires a in spammers && a in m0 && forall b :: b in spammers ==> b in m0 && |m0[b].items| <= |m0[a].items|
    ensures slots < |m0[a].items| <= level && a !in offenders
    ensures forall b :: b in offenders ==> b in m0 && |m0[b].items| >= level
    ensures forall b :: b in Above(m0, |m0[a].items|) ==> b in offenders
  {
    assert a in Above(m0, slots);
    forall b | b in offenders
      ensures b in m0 && |m0[b].items| >= level
    {
      assert b in ToSet(offenders);
    }
    forall b | b in Above(m0, |m0[a].items|)
      ensures b in offenders
    {
      assert b in Above(m0, slots);
      assert b in ToSet(offenders) + spammers;
    }
  }

  /** The account just taken from the spam queue now stands at the common level. */
  lemma JoinOffender(m0: Lists, slots: nat, offenders: seq<Address>, spammers: set<Address>, level: nat, a: Address)
    requires Standing(m0, slots, ToSet(offenders), spammers + {a}, level) && a !in spammers && a !in offenders
    requires a in m0 && |m0[a].items| <= level
    requires forall b :: b in spammers ==> b in m0 && |m0[b].items| <= |m0[a].items|
    ensures Standing(m0, slots, ToSet(offenders + [a]), spammers, |m0[a].items|)
  {
    assert ToSet(offenders + [a]) == ToSet(offenders) + {a};
  }

  lemma LastCut(m0: Lists, slots: nat, offenders: seq<Address>, level: nat)
    requires Standing(m0, slots, ToSet(offenders), {}, level)
    ensures forall b :: b in offenders ==> b in m0 && |m0[b].items| >= level
    ensures forall b :: b in Above(m0, slots) ==> b in offenders
  {
    forall b | b in offenders
      ensures b in m0 && |m0[b].items| >= level
    {
      assert b in ToSet(offenders);
      assert b in Above(m0, slots);
    }
  }

  /** What one level for everybody means: accounts within their guaranteed slots are untouched, no
      account is cut below them, the total exceeds the limit only if every account is down to its
      slots, and it falls short of the limit by less than the number of accounts that were cut. */
  lemma LevelIsFair(m: Lists, level: nat, slots: nat, limit: nat)
    requires level >= slots && Needed(m, level, limit)
    requires Total(Leveled(m, level)) <= limit || level == slots
    ensures Leveled(m, level).Keys == m.Keys
    ensures forall a :: a in m && |m[a].items| <= slots ==> Leveled(m, level)[a] == m[a]
    ensures forall a :: a in m && |m[a].items| > slots ==> |Leveled(m, level)[a].items| >= slots
    ensures Total(Leveled(m, level)) <= limit || forall a :: a in m ==> |Leveled(m, level)[a].items| <= slots
    ensures Above(m, level) != {} ==> Total(Leveled(m, level)) + |Above(m, level)| > limit
  {
    hide Cap, Total;
    LevelStep(m, level);
    forall a | a in m
      ensures |Leveled(m, level)[a].items| == if |m[a].items| <= level then |m[a].items| else level
      ensures |m[a].items| <= level ==> Leveled(m, level)[a] == m[a]
    {
      CapWithin(m[a].items, level);
    }
  }

  // The queue limit.

  lemma TotalPut(m: Lists, a: Address, l: TList)
    requires a in m
    ensures Total(PutList(m, a, l)) == Total(m) - |m[a].items| + |l.items|
  {
    hide Total;
    if l.items == map[] {
      TotalRemove(m, a);
    } else {
      TotalUpdate(m, a, l);
    }
  }

  /** Removes the highest queued nonce of an account. */
  method DropHighest(p: Pool, h: Head, lim: Limits, a: Address) returns (p': Pool)
    requires Partition(p) && a in p.queue && p.queue[a].items != map[]
    ensures Partition(p') && p'.pending == p.pending && p'.nonces == p.nonces
    ensures p'.queue == PutList(p.queue, a, Capped(p.queue[a], |p.queue[a].items| - 1))
    ensures Total(p'.queue) == Total(p.queue) - 1
  {
    hide PartitionWith, Gapless, Total, Cap, AccountList, PutList;
    var l := p.queue[a];
    assert l.items.Keys != {} by {
      HasKeys(l.items);
    }
    var top := Highest(l.items.Keys);
    PartitionLists(p, {}, a);
    AccountListFacts(l, false, a);
    NotStrict(l, a);
    CapOne(l.items);
    TotalPut(p.queue, a, Remove(l, top));
    p' := RemoveTx(p, h, lim, l.items[top]);
  }

  /** Removes the `n` highest queued nonces of an account. */
  method DropQueued(p: Pool, h: Head, lim: Limits, a: Address, n: nat) returns (p': Pool)
    requires Partition(p) && a in p.queue && n <= |p.queue[a].items|
    ensures Partition(p') && p'.pending == p.pending && p'.nonces == p.nonces
    ensures p'.queue == PutList(p.queue, a, Capped(p.queue[a], |p.queue[a].items| - n))
    ensures Total(p'.queue) == Total(p.queue) - n
  {
    hide PartitionWith, Total, Capped, PutList;
    p' := p;
    var l := p.queue[a];
    var size := |l.items|;
    NonEmptyLists(p, a);
    CappedFull(l);
    PutSame(p.queue, a);
    for i := 0 to n
      invariant Partition(p') && p'.pending == p.pending && p'.nonces == p.nonces
      invariant size == |l.items| - i && p'.queue == PutList(p.queue, a, Capped(l, size))
      invariant Total(p'.queue) == Total(p.queue) - i
    {
      CappedStep(l, size);
      PutHas(p.queue, a, Capped(l, size));
      PutPut(p.queue, a, Capped(l, size), Capped(l, size - 1));
      p' := DropHighest(p', h, lim, a);
      size := size - 1;
    }
  }

  /** The list without all but its `n` lowest nonces. */
  function Capped(l: TList, n: nat): TList {
    l.(items := Cap(l.items, n))
  }

  lemma CappedFull(l: TList)
    ensures Capped(l, |l.items|) == l
  {
    CapWithin(l.items, |l.items|);
  }

  lemma CappedStep(l: TList, size: nat)
    requires 0 < size <= |l.items|
    ensures |Capped(l, size).items| == size && Capped(l, size).items != map[]
    ensures Capped(Capped(l, size), size - 1) == Capped(l, size - 1)
  {
    hide Cap;
    DroppedSize(l.items, |l.items| - size);
    CapCap(l.items, size, size - 1);
  }

  lemma PutSame(m: Lists, a: Address)
    requires a in m && m[a].items != map[]
    ensures PutList(m, a, m[a]) == m
  {
  }

  lemma PutHas(m: Lists, a: Address, l: TList)
    requires l.items != map[]
    ensures a in PutList(m, a, l) && PutList(m, a, l)[a] == l
  {
  }

  lemma NonEmptyLists(p: Pool, a: Address)
    requires Partition(p) && a in p.queue
    ensures p.queue[a].items != map[]
  {
  }

  lemma PutPut(m: Lists, a: Address, l: TList, l': TList)
    ensures PutList(PutList(m, a, l), a, l') == PutList(m, a, l')
  {
  }

  /** Drops queued transactions, account by account, until the total fits. `order` is the accounts
      with queued transactions, sorted by their last heartbeat. */
  method LimitQueue(p: Pool, h: Head, lim: Limits, order: seq<Address>) returns (p': Pool)
    requires Partition(p) && NoDup(order) && ToSet(order) == p.queue.Keys
    ensures Partition(p') && p'.pending == p.pending && p'.nonces == p.nonces
    ensures Total(p'.queue) == if Total(p.queue) <= lim.globalQueue then Total(p.queue) else lim.globalQueue
    ensures Total(p.queue) <= lim.globalQueue ==> p' == p
    ensures forall a :: a in p'.queue ==>
      a in p.queue && p'.queue[a].items == Cap(p.queue[a].items, |p'.queue[a].items|)
  {
    hide PartitionWith, Total, Cap, Draining, ToSet, NoDup;
    p' := p;
    var queued := Count(p.queue);
    DrainStart(p.queue, order);
    if queued <= lim.globalQueue {
      DrainEnd(p.queue, p.queue, order, true);
      return;
    }
    var drop: nat := queued - lim.globalQueue;
    var addresses := order;
    while drop > 0 && addresses != []
      invariant Partition(p') && p'.pending == p.pending && p'.nonces == p.nonces
      invariant Total(p'.queue) == lim.globalQueue + drop && Draining(p.queue, p'.queue, addresses, drop > 0)
      decreases |addresses|
    {
      var a := addresses[|addresses| - 1];
      DrainHas(p.queue, p'.queue, addresses);
      var size := |p'.queue[a].items|;
      var n := if size <= drop then size else drop;
      DroppedSize(p'.queue[a].items, n);
      DrainStep(p.queue, p'.queue, addresses, p'.queue[a].(items := Cap(p'.queue[a].items, size - n)), drop - n > 0);
      p' := DropQueued(p', h, lim, a, n);
      addresses := addresses[..|addresses| - 1];
      drop := drop - n;
    }
    DrainEnd(p.queue, p'.queue, addresses, drop > 0);
    if drop > 0 {
      TotalNone();
    }
  }

  /** Between two accounts: the ones still to come are untouched and, while there is more to drop,
      the only ones left. */
  ghost predicate Draining(q0: Lists, q: Lists, addresses: seq<Address>, more: bool) {
    && NoDup(addresses) && (more ==> q.Keys == ToSet(addresses))
    && (forall a :: a in addresses ==> a in q0 && (a in q ==> q[a] == q0[a]))
    && (forall a :: a in q ==> a in q0 && q[a].items == Cap(q0[a].items, |q[a].items|))
  }

  lemma DrainStart(q0: Lists, order: seq<Address>)
    requires NoDup(order) && ToSet(order) == q0.Keys
    ensures Draining(q0, q0, order, true)
  {
    forall a | a in order
      ensures a in q0
    {
      assert a in ToSet(order);
    }
    CapFulls(q0);
  }

  lemma DrainHas(q0: Lists, q: Lists, addresses: seq<Address>)
    requires Draining(q0, q, addresses, true) && addresses != []
    ensures addresses[|addresses| - 1] in q
  {
    assert addresses[|addresses| - 1] in ToSet(addresses);
  }

  lemma DrainStep(q0: Lists, q: Lists, addresses: seq<Address>, l: TList, more: bool)
    requires Draining(q0, q, addresses, true) && addresses != [] && addresses[|addresses| - 1] in q
    requires l.items == Cap(q[addresses[|addresses| - 1]].items, |l.items|) && (more ==> l.items == map[])
    ensures Draining(q0, PutList(q, addresses[|addresses| - 1], l), addresses[..|addresses| - 1], more)
  {
    hide Cap, ToSet;
    var a, rest := addresses[|addresses| - 1], addresses[..|addresses| - 1];
    WithoutLast(addresses);
    var q' := PutList(q, a, l);
    assert q[a] == q0[a];
    forall b | b in q'
      ensures b in q0 && q'[b].items == Cap(q0[b].items, |q'[b].items|)
    {
      assert b != a ==> b in q && q'[b] == q[b];
    }
    if more {
      assert q'.Keys == q.Keys - {a};
    }
  }

  lemma WithoutLast(addresses: seq<Address>)
    requires NoDup(addresses) && addresses != []
    ensures var a, rest := addresses[|addresses| - 1], addresses[..|addresses| - 1];
      NoDup(rest) && a !in rest && ToSet(rest) == ToSet(addresses) - {a} && forall b :: b in rest ==> b in addresses
  {
    var a, rest := addresses[|addresses| - 1], addresses[..|addresses| - 1];
    assert addresses == rest + [a];
  }

  lemma DrainEnd(q0: Lists, q: Lists, addresses: seq<Address>, more: bool)
    requires Draining(q0, q, addresses, more)
    ensures forall a :: a in q ==> a in q0 && q[a].items == Cap(q0[a].items, |q[a].items|)
    ensures more && addresses == [] ==> q == map[]
  {
    if more && addresses == [] {
      assert q.Keys == {};
    }
  }

  lemma TotalNone()
    ensures Total(map[]) == 0
  {
  }

  lemma CapFulls(m: Lists)
    ensures forall a :: a in m ==> m[a].items == Cap(m[a].items, |m[a].items|)
  {
  }

  lemma DroppedSize(items: Items, n: nat)
    requires n <= |items|
    ensures |Cap(items, |items| - n)| == |items| - n
    ensures n == |items| ==> Cap(items, |items| - n) == map[]
    ensures n < |items| ==> Cap(items, |items| - n) != map[]
  {
    var kept := Cap(items, |items| - n);
    if n == |items| {
      assert kept.Keys == {};
    }
  }
}
