/** The block download scheduler (synctrl/scheduler.go): it hands body and receipt tasks to peers,
    takes partial or bad deliveries, cancellations and timeouts, and releases finished blocks in
    order through a sliding result cache. */
module Scheduler {
  import opened Chain
  import opened Options
  import opened TaskLane

  datatype Mode = FullSync | FastSync | LightSync

  datatype Kind = Bodies | Receipts

  /** Set once per sync, by Prepare. */
  datatype Config = Config(mode: Mode, pivot: nat)

  /** What a peer delivers for one header; a body has no receipts and vice versa. */
  datatype Payload = Payload(txs: seq<Tx>, uncles: seq<Header>, receipts: seq<Receipt>)

  const NOTHING := Payload([], [], [])

  datatype FetchResult = FetchResult(pending: int, header: Header, content: Payload)

  type Cache = seq<Option<FetchResult>>

  datatype Sched = Sched(cfg: Config, body: Lane, receipt: Lane, cache: Cache, offset: nat)

  function LaneOf(s: Sched, kind: Kind): Lane {
    if kind == Bodies then s.body else s.receipt
  }

  function WithLane(s: Sched, kind: Kind, lane: Lane): Sched {
    if kind == Bodies then s.(body := lane) else s.(receipt := lane)
  }

  /** Fast phase of the fast sync: receipts are fetched too. */
  predicate NeedsReceipts(cfg: Config, h: Header) {
    cfg.mode == FastSync && h.number <= cfg.pivot
  }

  /** The delivered part hashes to what the header commits to. */
  predicate Matches(kind: Kind, h: Header, p: Payload) {
    match kind
    case Bodies => DeriveSha(p.txs) == h.txHash && CalcUncleHash(p.uncles) == h.uncleHash
    case Receipts => DeriveSha(p.receipts) == h.receiptHash
  }

  /** A body is checked against both of its roots, a list of receipts against its one. */
  lemma MatchesBoth(h: Header, p: Payload)
    ensures Matches(Bodies, h, p) <==> h.txHash == ListRoot(p.txs) && h.uncleHash == UncleRoot(p.uncles)
    ensures Matches(Receipts, h, p) <==> h.receiptHash == ListRoot(p.receipts)
  {
  }

  function Fill(kind: Kind, c: Payload, p: Payload): Payload {
    match kind
    case Bodies => c.(txs := p.txs, uncles := p.uncles)
    case Receipts => c.(receipts := p.receipts)
  }

  /** Nothing to fetch: the header commits to empty lists. */
  predicate IsNoop(kind: Kind, h: Header) {
    Matches(kind, h, NOTHING)
  }

  /** What needs no request: a block without transactions and without uncles, or without receipts. */
  lemma NoopExactly(h: Header)
    ensures IsNoop(Bodies, h) <==> h.txHash == ListRoot([]) && h.uncleHash == UncleRoot([])
    ensures IsNoop(Receipts, h) <==> h.receiptHash == ListRoot([])
  {
  }

  // The invariant.

  /** The live headers that need the given component; a prefix, as numbers ascend. */
  ghost function LiveFor(cfg: Config, offset: nat, kind: Kind, live: seq<Header>): seq<Header> {
    if kind == Bodies then live
    else if cfg.mode != FastSync || cfg.pivot < offset then []
    else if |live| <= cfg.pivot + 1 - offset then live
    else live[..cfg.pivot + 1 - offset]
  }

  predicate InRange(cache: Cache, offset: nat, h: Header) {
    offset <= h.number < offset + |cache|
  }

  /** The cache has a result container for this header. */
  predicate Slot(cache: Cache, offset: nat, h: Header) {
    InRange(cache, offset, h) && cache[h.number - offset].Some?
  }

  /** `pending` counts the components that are not done, and the done ones are filled with data
      that matches the header. */
  ghost predicate EntryOk(r: FetchResult, h: Header, needs: bool, bodyDone: bool, receiptDone: bool) {
    && r.header == h
    && r.pending == (if bodyDone then 0 else 1) + (if needs && !receiptDone then 1 else 0)
    && (if bodyDone then Matches(Bodies, h, r.content) else r.content.txs == [] && r.content.uncles == [])
    && (if receiptDone then Matches(Receipts, h, r.content) else r.content.receipts == [])
  }

  ghost predicate CacheOk(cache: Cache, live: seq<Header>, cfg: Config, bodyDone: set<Header>,
      receiptDone: set<Header>)
  {
    forall i :: 0 <= i < |cache| && cache[i].Some? ==>
      i < |live| && EntryOk(cache[i].value, live[i], NeedsReceipts(cfg, live[i]), live[i] in bodyDone,
        live[i] in receiptDone)
  }

  /** Whatever is done or in flight has a result container. */
  ghost predicate Backed(cache: Cache, offset: nat, done: set<Header>, flying: multiset<Header>) {
    forall h :: h in done || h in flying ==> Slot(cache, offset, h)
  }

  /** The invariant while an operation on one lane holds the headers of `hand`. */
  ghost predicate InvWith(s: Sched, kind: Kind, hand: multiset<Header>, live: seq<Header>) {
    && Numbered(live, s.offset)
    && Held(s.body, if kind == Bodies then hand else multiset{}, live)
    && Held(s.receipt, if kind == Receipts then hand else multiset{}, LiveFor(s.cfg, s.offset, Receipts, live))
    && CacheOk(s.cache, live, s.cfg, s.body.done, s.receipt.done)
    && Backed(s.cache, s.offset, s.body.done, InFlight(s.body.pend))
    && Backed(s.cache, s.offset, s.receipt.done, InFlight(s.receipt.pend))
  }

  ghost predicate Inv(s: Sched, live: seq<Header>) {
    InvWith(s, Bodies, multiset{}, live)
  }

  lemma LiveForFacts(cfg: Config, offset: nat, kind: Kind, live: seq<Header>)
    requires Numbered(live, offset)
    ensures Numbered(LiveFor(cfg, offset, kind, live), offset) && LiveFor(cfg, offset, kind, live) <= live
    ensures forall h :: h in LiveFor(cfg, offset, Receipts, live) <==> h in live && NeedsReceipts(cfg, h)
  {
    forall h | h in live
      ensures h in LiveFor(cfg, offset, Receipts, live) <==> NeedsReceipts(cfg, h)
    {
      NumberedDistinct(live, offset, h);
      if NeedsReceipts(cfg, h) {
        assert LiveFor(cfg, offset, Receipts, live)[h.number - offset] == h;
      }
    }
  }

  // Elementary changes of the cache.

  /** Creates the result container of a header that is requested for the first time. */
  function OpenSlot(cache: Cache, offset: nat, cfg: Config, h: Header): Cache
    requires InRange(cache, offset, h)
  {
    var i := h.number - offset;
    if cache[i].Some? then cache
    else cache[i := Some(FetchResult(if NeedsReceipts(cfg, h) then 2 else 1, h, NOTHING))]
  }

  /** One component of a header has arrived. */
  function FillSlot(cache: Cache, offset: nat, kind: Kind, h: Header, p: Payload): Cache
    requires Slot(cache, offset, h)
  {
    var i := h.number - offset;
    var r := cache[i].value;
    cache[i := Some(r.(pending := r.pending - 1, content := Fill(kind, r.content, p)))]
  }

  /** One component of a header is complete. */
  function Complete(s: Sched, kind: Kind, h: Header, p: Payload): Sched
    requires Slot(s.cache, s.offset, h)
  {
    var lane := LaneOf(s, kind);
    WithLane(s, kind, lane.(done := lane.done + {h}, pool := lane.pool - {h}))
      .(cache := FillSlot(s.cache, s.offset, kind, h, p))
  }

  lemma OpenSlotKeepsCache(cache: Cache, offset: nat, cfg: Config, live: seq<Header>, h: Header,
      bodyDone: set<Header>, receiptDone: set<Header>)
    requires Numbered(live, offset) && CacheOk(cache, live, cfg, bodyDone, receiptDone)
    requires h in live && InRange(cache, offset, h)
    requires !Slot(cache, offset, h) ==> h !in bodyDone && h !in receiptDone
    ensures CacheOk(OpenSlot(cache, offset, cfg, h), live, cfg, bodyDone, receiptDone)
  {
    NumberedDistinct(live, offset, h);
    var cache', k := OpenSlot(cache, offset, cfg, h), h.number - offset;
    forall i | 0 <= i < |cache'| && cache'[i].Some?
      ensures i < |live|
      ensures EntryOk(cache'[i].value, live[i], NeedsReceipts(cfg, live[i]), live[i] in bodyDone,
        live[i] in receiptDone)
    {
      if i != k {
        assert cache[i] == cache'[i];
      }
    }
  }

  /** A changed cache that still has every old container backs what was backed. */
  lemma BackedGrows(cache: Cache, cache': Cache, offset: nat, done: set<Header>, flying: multiset<Header>)
    requires Backed(cache, offset, done, flying)
    requires forall x :: Slot(cache, offset, x) ==> Slot(cache', offset, x)
    ensures Backed(cache', offset, done, flying)
  {
  }

  lemma OpenSlotGrows(cache: Cache, offset: nat, cfg: Config, h: Header)
    requires InRange(cache, offset, h)
    ensures var cache' := OpenSlot(cache, offset, cfg, h);
      && |cache'| == |cache| && Slot(cache', offset, h)
      && forall x :: Slot(cache, offset, x) ==> Slot(cache', offset, x)
  {
  }

  lemma OpenSlotKeeps(s: Sched, kind: Kind, hand: multiset<Header>, live: seq<Header>, h: Header)
    requires InvWith(s, kind, hand, live)
    requires h in live && InRange(s.cache, s.offset, h)
    ensures InvWith(s.(cache := OpenSlot(s.cache, s.offset, s.cfg, h)), kind, hand, live)
  {
    hide Held, EntryOk;
    var cache' := OpenSlot(s.cache, s.offset, s.cfg, h);
    OpenSlotGrows(s.cache, s.offset, s.cfg, h);
    assert !Slot(s.cache, s.offset, h) ==> h !in s.body.done && h !in s.receipt.done;
    OpenSlotKeepsCache(s.cache, s.offset, s.cfg, live, h, s.body.done, s.receipt.done);
    BackedGrows(s.cache, cache', s.offset, s.body.done, InFlight(s.body.pend));
    BackedGrows(s.cache, cache', s.offset, s.receipt.done, InFlight(s.receipt.pend));
  }

  lemma FillSlotKeepsCache(cache: Cache, offset: nat, cfg: Config, kind: Kind, live: seq<Header>, h: Header, p: Payload,
      bodyDone: set<Header>, receiptDone: set<Header>)
    requires CacheOk(cache, live, cfg, bodyDone, receiptDone) && Numbered(live, offset)
    requires Slot(cache, offset, h) && h in live && Matches(kind, h, p)
    requires kind == Bodies ==> h !in bodyDone
    requires kind == Receipts ==> h !in receiptDone && NeedsReceipts(cfg, h)
    ensures CacheOk(FillSlot(cache, offset, kind, h, p), live, cfg,
      if kind == Bodies then bodyDone + {h} else bodyDone, if kind == Receipts then receiptDone + {h} else receiptDone)
  {
    NumberedDistinct(live, offset, h);
    var cache', k := FillSlot(cache, offset, kind, h, p), h.number - offset;
    var bd := if kind == Bodies then bodyDone + {h} else bodyDone;
    var rd := if kind == Receipts then receiptDone + {h} else receiptDone;
    forall i | 0 <= i < |cache'| && cache'[i].Some?
      ensures i < |live| && EntryOk(cache'[i].value, live[i], NeedsReceipts(cfg, live[i]), live[i] in bd, live[i] in rd)
    {
      assert cache[i].Some?;
      if i != k {
        assert live[i] != h;
      }
    }
  }

  lemma FillSlotGrows(cache: Cache, offset: nat, kind: Kind, h: Header, p: Payload)
    requires Slot(cache, offset, h)
    ensures var cache' := FillSlot(cache, offset, kind, h, p);
      && |cache'| == |cache| && Slot(cache', offset, h)
      && forall x :: Slot(cache, offset, x) ==> Slot(cache', offset, x)
  {
  }

  lemma BackedFinish(cache: Cache, offset: nat, done: set<Header>, flying: multiset<Header>, h: Header)
    requires Backed(cache, offset, done, flying) && Slot(cache, offset, h)
    ensures Backed(cache, offset, done + {h}, flying)
  {
  }

  /** Finishing one component of a header in hand keeps the invariant. */
  lemma CompleteKeeps(s: Sched, kind: Kind, hand: multiset<Header>, live: seq<Header>, h: Header, p: Payload)
    requires InvWith(s, kind, hand + multiset{h}, live)
    requires Slot(s.cache, s.offset, h) && Matches(kind, h, p)
    ensures InvWith(Complete(s, kind, h, p), kind, hand, live)
    ensures h !in LaneOf(s, kind).done
  {
    hide Held, CacheOk, Backed;
    var lane := LaneOf(s, kind);
    LiveForFacts(s.cfg, s.offset, kind, live);
    FinishKeeps(lane, hand, LiveFor(s.cfg, s.offset, kind, live), s.offset, h);
    FillSlotKeepsCache(s.cache, s.offset, s.cfg, kind, live, h, p, s.body.done, s.receipt.done);
    FillSlotGrows(s.cache, s.offset, kind, h, p);
    var cache' := FillSlot(s.cache, s.offset, kind, h, p);
    BackedGrows(s.cache, cache', s.offset, s.body.done, InFlight(s.body.pend));
    BackedGrows(s.cache, cache', s.offset, s.receipt.done, InFlight(s.receipt.pend));
    BackedFinish(cache', s.offset, lane.done, InFlight(lane.pend), h);
  }

  /** Rearranging one lane without finishing anything keeps the invariant, as long as what is in
      flight has a result container. */
  lemma LaneMoveKeeps(s: Sched, kind: Kind, hand: multiset<Header>, lane: Lane, hand': multiset<Header>,
      live: seq<Header>)
    requires InvWith(s, kind, hand, live)
    requires Held(lane, hand', LiveFor(s.cfg, s.offset, kind, live))
    requires lane.done == LaneOf(s, kind).done
    requires Backed(s.cache, s.offset, lane.done, InFlight(lane.pend))
    ensures InvWith(WithLane(s, kind, lane), kind, hand', live)
  {
    hide Held, CacheOk, Backed;
  }

  // The loops of the operations, on the working copy of the state.

  /** What an operation on one lane leaves alone. */
  ghost predicate SameFrame(s: Sched, s': Sched, kind: Kind) {
    && s'.cfg == s.cfg && s'.offset == s.offset && |s'.cache| == |s.cache|
    && (kind == Bodies ==> s'.receipt == s.receipt) && (kind == Receipts ==> s'.body == s.body)
    && (forall x :: Slot(s.cache, s.offset, x) ==> Slot(s'.cache, s.offset, x))
  }

  datatype Verdict = Noop | Lacking | Wanted

  method PopOne(s: Sched, kind: Kind, ghost hand: multiset<Header>, ghost live: seq<Header>)
      returns (s': Sched, h: Header)
    requires InvWith(s, kind, hand, live) && LaneOf(s, kind).queue != []
    requires |LaneOf(s, kind).done| + |InFlight(LaneOf(s, kind).pend)| + |hand| < |s.cache|
    ensures h == LaneOf(s, kind).queue[0]
    ensures s' == WithLane(s, kind, LaneOf(s, kind).(queue := LaneOf(s, kind).queue[1..]))
    ensures InvWith(s', kind, hand + multiset{h}, live)
    ensures h in live && InRange(s.cache, s.offset, h)
  {
    hide Held, CacheOk, Backed;
    var lane := LaneOf(s, kind);
    h := lane.queue[0];
    s' := WithLane(s, kind, lane.(queue := lane.queue[1..]));
    LiveForFacts(s.cfg, s.offset, kind, live);
    LowestInRange(lane, hand, LiveFor(s.cfg, s.offset, kind, live), s.offset, |s.cache|);
    PopKeeps(lane, hand, LiveFor(s.cfg, s.offset, kind, live));
    LaneMoveKeeps(s, kind, hand, lane.(queue := lane.queue[1..]), hand + multiset{h}, live);
  }

  /** One round of the reservation loop: pop the lowest task, make sure it has a result container,
      and decide what to do with it. The throttle condition is all that keeps the cache index in
      range: the failure branch is dead. */
  method ReserveOne(s: Sched, kind: Kind, lacks: set<Header>, ghost hand: multiset<Header>, ghost live: seq<Header>)
      returns (s': Sched, h: Header, verdict: Verdict)
    requires InvWith(s, kind, hand, live) && LaneOf(s, kind).queue != []
    requires |LaneOf(s, kind).done| + |InFlight(LaneOf(s, kind).pend)| + |hand| < |s.cache|
    ensures InvWith(s', kind, if verdict == Noop then hand else hand + multiset{h}, live)
    ensures SameFrame(s, s', kind) && Slot(s'.cache, s'.offset, h)
    ensures h == LaneOf(s, kind).queue[0] && LaneOf(s', kind).queue == LaneOf(s, kind).queue[1..]
    ensures LaneOf(s', kind).pend == LaneOf(s, kind).pend
    ensures verdict == if IsNoop(kind, h) then Noop else if h in lacks then Lacking else Wanted
    ensures verdict == Noop ==> h !in LaneOf(s, kind).done && LaneOf(s', kind).done == LaneOf(s, kind).done + {h}
    ensures verdict != Noop ==> LaneOf(s', kind).done == LaneOf(s, kind).done
  {
    hide InvWith;
    s', h := PopOne(s, kind, hand, live);
    var index := h.number - s'.offset;
    if index >= |s'.cache| || index < 0 {
      assert false;
    }
    OpenSlotKeeps(s', kind, hand + multiset{h}, live, h);
    OpenSlotGrows(s'.cache, s'.offset, s'.cfg, h);
    s' := s'.(cache := OpenSlot(s'.cache, s'.offset, s'.cfg, h));
    if IsNoop(kind, h) {
      CompleteKeeps(s', kind, hand, live, h, NOTHING);
      FillSlotGrows(s'.cache, s'.offset, kind, h, NOTHING);
      s' := Complete(s', kind, h, NOTHING);
      verdict := Noop;
    } else if h in lacks {
      verdict := Lacking;
    } else {
      verdict := Wanted;
    }
  }

  method PushOne(s: Sched, kind: Kind, h: Header, ghost hand: multiset<Header>, ghost live: seq<Header>)
      returns (s': Sched)
    requires InvWith(s, kind, hand + multiset{h}, live)
    ensures InvWith(s', kind, hand, live)
    ensures s' == WithLane(s, kind, LaneOf(s, kind).(queue := Push(LaneOf(s, kind).queue, h)))
  {
    hide Held, CacheOk, Backed;
    var lane := LaneOf(s, kind);
    PushKeeps(lane, hand, LiveFor(s.cfg, s.offset, kind, live), h);
    LaneMoveKeeps(s, kind, hand + multiset{h}, lane.(queue := Push(lane.queue, h)), hand, live);
    s' := WithLane(s, kind, lane.(queue := Push(lane.queue, h)));
  }

  lemma NextOf(hand: multiset<Header>, hs: seq<Header>, i: nat)
    requires i < |hs|
    ensures hand + multiset(hs[i..]) == hand + multiset(hs[i + 1..]) + multiset{hs[i]}
    ensures multiset(hs[..i + 1]) == multiset(hs[..i]) + multiset{hs[i]}
  {
    assert hs[i..] == [hs[i]] + hs[i + 1..];
    assert hs[..i + 1] == hs[..i] + [hs[i]];
  }

  /** Puts headers back into the task queue. */
  method PushBack(s: Sched, kind: Kind, hs: seq<Header>, ghost hand: multiset<Header>, ghost live: seq<Header>)
      returns (s': Sched)
    requires InvWith(s, kind, hand + multiset(hs), live)
    ensures InvWith(s', kind, hand, live)
    ensures s' == WithLane(s, kind, LaneOf(s, kind).(queue := LaneOf(s', kind).queue))
    ensures multiset(LaneOf(s', kind).queue) == multiset(LaneOf(s, kind).queue) + multiset(hs)
  {
    hide InvWith;
    s' := s;
    assert hs[0..] == hs;
    for i := 0 to |hs|
      invariant InvWith(s', kind, hand + multiset(hs[i..]), live)
      invariant s' == WithLane(s, kind, LaneOf(s, kind).(queue := LaneOf(s', kind).queue))
      invariant multiset(LaneOf(s', kind).queue) == multiset(LaneOf(s, kind).queue) + multiset(hs[..i])
    {
      NextOf(hand, hs, i);
      s' := PushOne(s', kind, hs[i], hand + multiset(hs[i + 1..]), live);
    }
    assert hs[..|hs|] == hs && hs[|hs|..] == [];
    assert hand + multiset(hs[|hs|..]) == hand;
  }

  /** Takes a request out of the pending pool into the hands of the operation. */
  method Take(s: Sched, kind: Kind, peer: Peer, ghost live: seq<Header>) returns (s': Sched)
    requires InvWith(s, kind, multiset{}, live) && peer in LaneOf(s, kind).pend
    ensures InvWith(s', kind, multiset(LaneOf(s, kind).pend[peer]), live)
    ensures s' == WithLane(s, kind, LaneOf(s, kind).(pend := LaneOf(s, kind).pend - {peer}))
    ensures forall h :: h in LaneOf(s, kind).pend[peer] ==> Slot(s.cache, s.offset, h)
  {
    hide Held, CacheOk;
    var lane := LaneOf(s, kind);
    var lane' := lane.(pend := lane.pend - {peer});
    s' := WithLane(s, kind, lane');
    ghost var request := multiset(lane.pend[peer]);
    TakeKeeps(lane, multiset{}, LiveFor(s.cfg, s.offset, kind, live), peer);
    InFlightRemove(lane.pend, peer);
    assert multiset{} + request == request;
    assert Backed(s.cache, s.offset, lane'.done, InFlight(lane'.pend));
    LaneMoveKeeps(s, kind, multiset{}, lane', request, live);
    forall h | h in lane.pend[peer]
      ensures Slot(s.cache, s.offset, h)
    {
      assert h in request;
    }
  }

  /** Hands a batch to a peer. */
  method Assign(s: Sched, kind: Kind, peer: Peer, send: seq<Header>, ghost live: seq<Header>) returns (s': Sched)
    requires InvWith(s, kind, multiset(send), live) && peer !in LaneOf(s, kind).pend
    requires forall h :: h in send ==> Slot(s.cache, s.offset, h)
    ensures InvWith(s', kind, multiset{}, live)
    ensures s' == WithLane(s, kind, LaneOf(s, kind).(pend := LaneOf(s, kind).pend[peer := send]))
  {
    hide Held, CacheOk;
    var lane := LaneOf(s, kind);
    var lane' := lane.(pend := lane.pend[peer := send]);
    s' := WithLane(s, kind, lane');
    assert multiset{} + multiset(send) == multiset(send);
    AssignKeeps(lane, multiset{}, LiveFor(s.cfg, s.offset, kind, live), peer, send);
    InFlightAdd(lane.pend, peer, send);
    assert Backed(s.cache, s.offset, lane'.done, InFlight(lane'.pend));
    LaneMoveKeeps(s, kind, multiset(send), lane', multiset{}, live);
  }

  /** Free room in the cache: its size less what is done and what is in flight. */
  method Space(cache: Cache, lane: Lane) returns (space: int)
    ensures space == |cache| - |lane.done| - |InFlight(lane.pend)|
  {
    space := |cache| - |lane.done|;
    var rest := lane.pend;
    while |rest| > 0
      invariant space == |cache| - |lane.done| - |InFlight(lane.pend)| + |InFlight(rest)|
      decreases |rest|
    {
      assert rest.Keys != {};
      var p :| p in rest;
      InFlightRemove(rest, p);
      space := space - |rest[p]|;
      rest := rest - {p};
    }
  }

  /** The reservation loop. It stops at the peer's capacity, at the end of the queue, or when the
      cache has no room for more; noop tasks complete on the spot, tasks the peer lacks are set
      aside. */
  method ReserveBatch(s: Sched, kind: Kind, count: nat, lacks: set<Header>, space0: int, ghost live: seq<Header>)
      returns (s': Sched, send: seq<Header>, skip: seq<Header>, progress: bool)
    requires Inv(s, live)
    requires space0 == |s.cache| - |LaneOf(s, kind).done| - |InFlight(LaneOf(s, kind).pend)|
    ensures InvWith(s', kind, multiset(send) + multiset(skip), live)
    ensures SameFrame(s, s', kind) && LaneOf(s', kind).pend == LaneOf(s, kind).pend
    ensures |send| <= count
    ensures forall h :: h in send ==> Slot(s'.cache, s'.offset, h) && Reservable(s, kind, lacks, h)
    ensures forall h :: h in skip ==> h in lacks
    ensures LaneOf(s, kind).done <= LaneOf(s', kind).done
    ensures forall h :: h in LaneOf(s', kind).done && h !in LaneOf(s, kind).done ==> IsNoop(kind, h)
    ensures progress <==> LaneOf(s', kind).done != LaneOf(s, kind).done
    ensures space0 >= 0 ==>
      |LaneOf(s', kind).done| + |InFlight(LaneOf(s, kind).pend)| + |send| + |skip| <= |s.cache|
    ensures |send| == count || LaneOf(s', kind).queue == []
      || |LaneOf(s', kind).done| + |InFlight(LaneOf(s, kind).pend)| + |send| + |skip| >= |s.cache|
  {
    hide InvWith;
    s', send, skip, progress := s, [], [], false;
    var space, proc := space0, 0;
    assert multiset{} == multiset(send) + multiset(skip);
    assert InvWith(s', kind, multiset(send) + multiset(skip), live) by {
      InvForKind(s, kind, live);
    }
    while proc < space && |send| < count && LaneOf(s', kind).queue != []
      invariant InvWith(s', kind, multiset(send) + multiset(skip), live)
      invariant SameFrame(s, s', kind) && LaneOf(s', kind).pend == LaneOf(s, kind).pend
      invariant space == |s.cache| - |LaneOf(s', kind).done| - |InFlight(LaneOf(s, kind).pend)|
      invariant proc == |send| + |skip| && |send| <= count && (space0 >= 0 ==> proc <= space)
      invariant forall h :: h in LaneOf(s', kind).queue ==> h in LaneOf(s, kind).queue
      invariant forall h :: h in send ==> Slot(s'.cache, s'.offset, h) && Reservable(s, kind, lacks, h)
      invariant forall h :: h in skip ==> h in lacks
      invariant LaneOf(s, kind).done <= LaneOf(s', kind).done
      invariant forall h :: h in LaneOf(s', kind).done && h !in LaneOf(s, kind).done ==> IsNoop(kind, h)
      invariant progress <==> LaneOf(s', kind).done != LaneOf(s, kind).done
      decreases |LaneOf(s', kind).queue|
    {
      var h, verdict;
      ghost var hand := multiset(send) + multiset(skip);
      s', h, verdict := ReserveOne(s', kind, lacks, hand, live);
      match verdict {
        case Noop =>
          space, proc := space - 1, proc - 1;
          progress := true;
        case Lacking =>
          skip := skip + [h];
          assert multiset(send) + multiset(skip) == hand + multiset{h};
        case Wanted =>
          send := send + [h];
          assert multiset(send) + multiset(skip) == hand + multiset{h};
      }
      proc := proc + 1;
    }
  }

  ghost predicate Reservable(s: Sched, kind: Kind, lacks: set<Header>, h: Header) {
    h in LaneOf(s, kind).queue && !IsNoop(kind, h) && h !in lacks
  }

  lemma InvForKind(s: Sched, kind: Kind, live: seq<Header>)
    ensures Inv(s, live) <==> InvWith(s, kind, multiset{}, live)
  {
  }

  /** Why no more was reserved: the peer's capacity, nothing left but what the peer lacks, or no room
      in the cache beside what is done, in flight, reserved, or set aside because the peer lacks it. */
  ghost predicate Exhausted(lane: Lane, flying: nat, size: nat, lacks: set<Header>, n: nat, count: nat) {
    || n == count
    || (forall h :: h in lane.queue ==> h in lacks)
    || exists skip: seq<Header> :: SetAside(lane.queue, lacks, skip) && |lane.done| + flying + n + |skip| >= size
  }

  ghost predicate SetAside(queue: seq<Header>, lacks: set<Header>, skip: seq<Header>) {
    multiset(skip) <= multiset(queue) && forall h :: h in skip ==> h in lacks
  }

  /** A reservation: the request holds queued headers the peer may have, empty parts complete on the
      spot, and no more was possible. */
  ghost predicate Reserved(s: Sched, s': Sched, kind: Kind, peer: Peer, count: nat, lacks: set<Header>,
      request: Option<seq<Header>>)
  {
    var lane, lane' := LaneOf(s, kind), LaneOf(s', kind);
    && SameFrame(s, s', kind)
    && lane'.pend == (if request.None? then lane.pend else lane.pend[peer := request.value])
    && (request.Some? ==> peer !in lane.pend && 0 < |request.value| <= count)
    && (request.Some? ==> forall h :: h in request.value ==> Reservable(s, kind, lacks, h))
    && lane.done <= lane'.done && (forall h :: h in lane'.done && h !in lane.done ==> IsNoop(kind, h))
    && (peer !in lane.pend ==>
          Exhausted(lane', |InFlight(lane.pend)|, |s.cache|, lacks,
                    if request.None? then 0 else |request.value|, count))
  }

  lemma ExhaustedBy(queue: seq<Header>, lane: Lane, flying: nat, size: nat, lacks: set<Header>, n: nat, count: nat,
      skip: seq<Header>)
    requires multiset(lane.queue) == multiset(queue) + multiset(skip) && forall h :: h in skip ==> h in lacks
    requires n == count || queue == [] || |lane.done| + flying + n + |skip| >= size
    ensures Exhausted(lane, flying, size, lacks, n, count)
  {
    assert SetAside(lane.queue, lacks, skip);
    if queue == [] {
      forall h | h in lane.queue
        ensures h in lacks
      {
        assert h in multiset(lane.queue);
        assert h in multiset(skip);
      }
    }
  }

  /** Reserves a batch of tasks for a peer that has no request in flight. */
  method Reserve(s: Sched, kind: Kind, peer: Peer, count: nat, lacks: set<Header>, ghost live: seq<Header>)
      returns (s': Sched, request: Option<seq<Header>>, progress: bool)
    requires Inv(s, live)
    ensures Inv(s', live) && Reserved(s, s', kind, peer, count, lacks, request)
    ensures progress <==> LaneOf(s', kind).done != LaneOf(s, kind).done
    ensures |LaneOf(s, kind).done| + |InFlight(LaneOf(s, kind).pend)| <= |s.cache| ==>
      |LaneOf(s', kind).done| + |InFlight(LaneOf(s', kind).pend)| <= |s.cache|
  {
    hide InvWith, Inv, Exhausted;
    var lane := LaneOf(s, kind);
    if lane.queue == [] || peer in lane.pend {
      if lane.queue == [] {
        NothingQueued(lane, |InFlight(lane.pend)|, |s.cache|, lacks, 0, count);
      }
      return s, None, false;
    }
    var space := Space(s.cache, lane);
    var send, skip;
    s', send, skip, progress := ReserveBatch(s, kind, count, lacks, space, live);
    ghost var queue := LaneOf(s', kind).queue;
    s' := PushBack(s', kind, skip, multiset(send), live);
    ExhaustedBy(queue, LaneOf(s', kind), |InFlight(lane.pend)|, |s.cache|, lacks, |send|, count, skip);
    if |send| == 0 {
      assert multiset(send) == multiset{};
      InvForKind(s', kind, live);
      return s', None, progress;
    }
    InFlightAdd(lane.pend, peer, send);
    ghost var pushed := LaneOf(s', kind);
    s' := Assign(s', kind, peer, send, live);
    SameExhausted(pushed, LaneOf(s', kind), |InFlight(lane.pend)|, |s.cache|, lacks, |send|, count);
    InvForKind(s', kind, live);
    return s', Some(send), progress;
  }

  lemma NothingQueued(lane: Lane, flying: nat, size: nat, lacks: set<Header>, n: nat, count: nat)
    requires lane.queue == []
    ensures Exhausted(lane, flying, size, lacks, n, count)
  {
  }

  lemma SameExhausted(lane: Lane, lane': Lane, flying: nat, size: nat, lacks: set<Header>, n: nat, count: nat)
    requires Exhausted(lane, flying, size, lacks, n, count) && lane'.queue == lane.queue && lane'.done == lane.done
    ensures Exhausted(lane', flying, size, lacks, n, count)
  {
  }

  /** The results that a delivery completes: the longest prefix of the request for which the
      delivered parts match. */
  ghost predicate LongestMatch(kind: Kind, request: seq<Header>, parts: seq<Payload>, n: nat) {
    && n <= |request| && n <= |parts|
    && match kind
       case Bodies =>
         && (forall i :: 0 <= i < n ==>
               request[i].txHash == ListRoot(parts[i].txs) && request[i].uncleHash == UncleRoot(parts[i].uncles))
         && (n < |request| && n < |parts| ==>
               request[n].txHash != ListRoot(parts[n].txs) || request[n].uncleHash != UncleRoot(parts[n].uncles))
       case Receipts =>
         && (forall i :: 0 <= i < n ==> request[i].receiptHash == ListRoot(parts[i].receipts))
         && (n < |request| && n < |parts| ==> request[n].receiptHash != ListRoot(parts[n].receipts))
  }

  /** The first parts match their headers and the next one, if there is one, does not. */
  lemma LongestIs(kind: Kind, request: seq<Header>, parts: seq<Payload>, n: nat)
    requires n <= |request| && n <= |parts| && forall i :: 0 <= i < n ==> Matches(kind, request[i], parts[i])
    requires n < |request| && n < |parts| ==> !Matches(kind, request[n], parts[n])
    ensures LongestMatch(kind, request, parts, n)
  {
  }

  datatype DeliverError = NoError | NoFetchesPending | PartialFailure | StaleDelivery

  /** A delivery: the matching prefix of the request is done, the rest is queued again. */
  ghost predicate Answered(s: Sched, s': Sched, kind: Kind, peer: Peer, parts: seq<Payload>, accepted: nat,
      err: DeliverError)
  {
    var lane, lane' := LaneOf(s, kind), LaneOf(s', kind);
    if peer !in lane.pend then s' == s && accepted == 0 && err == NoFetchesPending
    else
      var request := lane.pend[peer];
      && SameFrame(s, s', kind) && LongestMatch(kind, request, parts, accepted)
      && lane'.pend == lane.pend - {peer}
      && lane'.done == lane.done + (set h | h in request[..accepted])
      && multiset(lane'.queue) == multiset(lane.queue) + multiset(request[accepted..])
      && err == (if accepted == |request| || accepted == |parts| then NoError
                 else if accepted > 0 then PartialFailure else StaleDelivery)
  }

  /** Injects a response: completes the matching prefix of the request and returns the rest to the
      queue. */
  method Deliver(s: Sched, kind: Kind, peer: Peer, parts: seq<Payload>, ghost live: seq<Header>)
      returns (s': Sched, accepted: nat, err: DeliverError)
    requires Inv(s, live)
    ensures Inv(s', live) && Answered(s, s', kind, peer, parts, accepted, err)
  {
    hide InvWith, Inv;
    if peer !in LaneOf(s, kind).pend {
      return s, 0, NoFetchesPending;
    }
    var request := LaneOf(s, kind).pend[peer];
    InvForKind(s, kind, live);
    s' := Take(s, kind, peer, live);
    s', accepted := CompleteParts(s', kind, request, parts, live);
    err := if accepted == |request| || accepted == |parts| then NoError
           else if accepted > 0 then PartialFailure else StaleDelivery;
    assert multiset{} + multiset(request[accepted..]) == multiset(request[accepted..]);
    s' := PushBack(s', kind, request[accepted..], multiset{}, live);
    InvForKind(s', kind, live);
  }

  /** The assembly loop of a delivery: it stops at the first part that does not match. */
  method CompleteParts(s: Sched, kind: Kind, request: seq<Header>, parts: seq<Payload>, ghost live: seq<Header>)
      returns (s': Sched, accepted: nat)
    requires InvWith(s, kind, multiset(request), live)
    requires forall h :: h in request ==> Slot(s.cache, s.offset, h)
    ensures LongestMatch(kind, request, parts, accepted)
    ensures InvWith(s', kind, multiset(request[accepted..]), live) && SameFrame(s, s', kind)
    ensures LaneOf(s', kind).pend == LaneOf(s, kind).pend && LaneOf(s', kind).queue == LaneOf(s, kind).queue
    ensures LaneOf(s', kind).done == LaneOf(s, kind).done + (set h | h in request[..accepted])
  {
    hide InvWith, Matches, IsNoop, LongestMatch;
    s', accepted := s, 0;
    assert request[0..] == request;
    while accepted < |request| && accepted < |parts|
      invariant accepted <= |request| && accepted <= |parts|
      invariant InvWith(s', kind, multiset(request[accepted..]), live) && SameFrame(s, s', kind)
      invariant LaneOf(s', kind).pend == LaneOf(s, kind).pend && LaneOf(s', kind).queue == LaneOf(s, kind).queue
      invariant LaneOf(s', kind).done == LaneOf(s, kind).done + (set h | h in request[..accepted])
      invariant forall i :: 0 <= i < accepted ==> Matches(kind, request[i], parts[i])
    {
      var h := request[accepted];
      if !Slot(s'.cache, s'.offset, h) {
        assert false;
      }
      if !Matches(kind, h, parts[accepted]) {
        LongestIs(kind, request, parts, accepted);
        return;
      }
      OneDone(request, accepted, accepted + 1);
      s' := CompleteOne(s', kind, h, parts[accepted], multiset(request[accepted + 1..]), live);
      accepted := accepted + 1;
    }
    LongestIs(kind, request, parts, accepted);
  }

  lemma OneDone(request: seq<Header>, k: nat, next: nat)
    requires k < |request| && next == k + 1
    ensures multiset(request[k..]) == multiset(request[next..]) + multiset{request[k]}
    ensures (set h | h in request[..next]) == (set h | h in request[..k]) + {request[k]}
  {
    assert request[k..] == [request[k]] + request[next..];
    assert request[..next] == request[..k] + [request[k]];
  }

  method CompleteOne(s: Sched, kind: Kind, h: Header, part: Payload, ghost hand: multiset<Header>,
      ghost live: seq<Header>) returns (s': Sched)
    requires InvWith(s, kind, hand + multiset{h}, live)
    requires Slot(s.cache, s.offset, h) && Matches(kind, h, part)
    ensures InvWith(s', kind, hand, live) && SameFrame(s, s', kind)
    ensures LaneOf(s', kind) == LaneOf(s, kind).(done := LaneOf(s, kind).done + {h}, pool := LaneOf(s, kind).pool - {h})
  {
    hide InvWith;
    CompleteKeeps(s, kind, hand, live, h, part);
    FillSlotGrows(s.cache, s.offset, kind, h, part);
    s' := Complete(s, kind, h, part);
  }

  /** Nothing changes but that the requests of the given peers are queued again. */
  ghost predicate GivenBack(s: Sched, s': Sched, kind: Kind, peers: set<Peer>) {
    var lane, lane' := LaneOf(s, kind), LaneOf(s', kind);
    s' == WithLane(s, kind, lane.(queue := lane'.queue, pend := lane.pend - peers))
  }

  /** Returns a whole request to the queue; the common part of Revoke and expire. */
  method GiveBack(s: Sched, kind: Kind, peer: Peer, ghost live: seq<Header>) returns (s': Sched)
    requires Inv(s, live) && peer in LaneOf(s, kind).pend
    ensures Inv(s', live) && GivenBack(s, s', kind, {peer})
    ensures multiset(LaneOf(s', kind).queue) == multiset(LaneOf(s, kind).queue) + multiset(LaneOf(s, kind).pend[peer])
  {
    hide InvWith, Inv;
    var request := LaneOf(s, kind).pend[peer];
    InvForKind(s, kind, live);
    s' := Take(s, kind, peer, live);
    assert multiset{} + multiset(request) == multiset(request);
    s' := PushBack(s', kind, request, multiset{}, live);
    InvForKind(s', kind, live);
  }

  method Requeue(q: seq<Header>, request: seq<Header>) returns (queue: seq<Header>)
    ensures queue == PushAll(q, request)
  {
    queue := q;
    for i := 0 to |request|
      invariant PushAll(queue, request[i..]) == PushAll(q, request)
    {
      queue := Push(queue, request[i]);
      assert request[i..][1..] == request[i + 1..];
    }
  }

  /** Cancelling keeps the invariant if and only if the request is the one in flight. */
  lemma CancelKeeps(s: Sched, kind: Kind, peer: Peer, request: seq<Header>, live: seq<Header>)
    requires Inv(s, live)
    ensures Inv(WithLane(s, kind, Cancelled(LaneOf(s, kind), peer, request)), live) <==>
      multiset(request) == Asked(LaneOf(s, kind), peer)
  {
    hide Numbered, CacheOk, InFlight, PushAll;
    var lane := LaneOf(s, kind);
    InvForKind(s, kind, live);
    InvForKind(WithLane(s, kind, Cancelled(lane, peer, request)), kind, live);
    CancelExactly(lane, LiveFor(s.cfg, s.offset, kind, live), peer, request);
    AskedInFlight(lane, peer);
    if multiset(request) == Asked(lane, peer) {
      LaneMoveKeeps(s, kind, multiset{}, Cancelled(lane, peer, request), multiset{}, live);
    }
  }

  // Releasing finished results.

  function Shift(cache: Cache, n: nat): Cache
    requires n <= |cache|
  {
    cache[n..] + seq(n, _ => None)
  }

  /** Drops the first `n` results, the headers of which are `gone`. */
  function Release(s: Sched, n: nat, gone: set<Header>): Sched
    requires n <= |s.cache|
  {
    Sched(s.cfg, s.body.(done := s.body.done - gone), s.receipt.(done := s.receipt.done - gone), Shift(s.cache, n),
      s.offset + n)
  }

  /** Every component of the result is done and matches its header. */
  ghost predicate Finished(r: FetchResult, cfg: Config) {
    && r.pending == 0
    && r.header.txHash == ListRoot(r.content.txs) && r.header.uncleHash == UncleRoot(r.content.uncles)
    && (cfg.mode == FastSync && r.header.number <= cfg.pivot ==> r.header.receiptHash == ListRoot(r.content.receipts))
  }

  /** A result with nothing pending is a live header with all its components done. */
  lemma NothingPending(cache: Cache, live: seq<Header>, cfg: Config, bodyDone: set<Header>, receiptDone: set<Header>,
      i: nat)
    requires CacheOk(cache, live, cfg, bodyDone, receiptDone)
    requires i < |cache| && cache[i].Some? && cache[i].value.pending <= 0
    ensures i < |live| && cache[i].value.header == live[i] && Finished(cache[i].value, cfg)
    ensures live[i] in bodyDone && (NeedsReceipts(cfg, live[i]) ==> live[i] in receiptDone)
  {
  }

  lemma ShiftKeepsCache(cache: Cache, live: seq<Header>, cfg: Config, bodyDone: set<Header>, receiptDone: set<Header>,
      offset: nat, n: nat, gone: set<Header>)
    requires CacheOk(cache, live, cfg, bodyDone, receiptDone) && Numbered(live, offset)
    requires n <= |cache| && n <= |live| && gone == set h | h in live[..n]
    ensures CacheOk(Shift(cache, n), live[n..], cfg, bodyDone - gone, receiptDone - gone)
  {
    var cache', live' := Shift(cache, n), live[n..];
    forall i | 0 <= i < |cache'| && cache'[i].Some?
      ensures i < |live'|
      ensures EntryOk(cache'[i].value, live'[i], NeedsReceipts(cfg, live'[i]), live'[i] in bodyDone - gone,
        live'[i] in receiptDone - gone)
    {
      assert cache'[i] == cache[i + n];
      assert live'[i] == live[i + n];
      assert live[i + n] !in gone;
    }
  }

  lemma ShiftKeepsBacked(cache: Cache, offset: nat, lane: Lane, live: seq<Header>, n: nat, k: nat)
    requires Conserved(lane, live) && Numbered(live, offset)
    requires Backed(cache, offset, lane.done, InFlight(lane.pend))
    requires k <= n <= |cache| && k <= |live| && (k < n ==> k == |live|)
    requires forall i :: 0 <= i < k ==> live[i] in lane.done
    ensures Backed(Shift(cache, n), offset + n, lane.done - (set h | h in live[..k]), InFlight(lane.pend))
  {
    var gone := set h | h in live[..k];
    forall h | h in lane.done - gone || h in InFlight(lane.pend)
      ensures Slot(Shift(cache, n), offset + n, h)
    {
      OnePlace(lane, multiset{}, live, offset, h);
      NumberedDistinct(live, offset, h);
      assert live[h.number - offset] == h;
      assert Slot(cache, offset, h);
      assert Shift(cache, n)[h.number - offset - n] == cache[h.number - offset];
    }
  }

  lemma LiveForShift(cfg: Config, offset: nat, live: seq<Header>, n: nat)
    requires Numbered(live, offset) && n <= |live|
    ensures var r := LiveFor(cfg, offset, Receipts, live);
      LiveFor(cfg, offset + n, Receipts, live[n..]) == r[if n <= |r| then n else |r|..]
  {
  }

  /** Only headers that need receipts are in the receipt done pool. */
  lemma GoneReceipts(lane: Lane, cfg: Config, offset: nat, live: seq<Header>, n: nat, k: nat)
    requires Numbered(live, offset) && n <= |live|
    requires Conserved(lane, LiveFor(cfg, offset, Receipts, live))
    requires k == if n <= |LiveFor(cfg, offset, Receipts, live)| then n else |LiveFor(cfg, offset, Receipts, live)|
    ensures lane.done - (set h | h in live[..n]) == lane.done - (set h | h in LiveFor(cfg, offset, Receipts, live)[..k])
  {
    var r := LiveFor(cfg, offset, Receipts, live);
    LiveForFacts(cfg, offset, Receipts, live);
    forall h | h in lane.done
      ensures h in live[..n] <==> h in r[..k]
    {
      OnePlace(lane, multiset{}, r, offset, h);
      NumberedDistinct(r, offset, h);
      NumberedDistinct(live, offset, h);
      if h in live[..n] {
        assert r[..k][h.number - offset] == h;
      }
      if h in r[..k] {
        assert live[..n][h.number - offset] == h;
      }
    }
  }

  /** Releasing finished results keeps the invariant for the remaining headers. */
  lemma ReleaseKeeps(s: Sched, live: seq<Header>, n: nat)
    requires Inv(s, live) && n <= |s.cache|
    requires forall i :: 0 <= i < n ==> s.cache[i].Some? && s.cache[i].value.pending <= 0
    ensures n <= |live|
    ensures forall i :: 0 <= i < n ==> s.cache[i].value.header == live[i] && Finished(s.cache[i].value, s.cfg)
    ensures Inv(Release(s, n, set h | h in live[..n]), live[n..])
  {
    hide Held, CacheOk, Backed, EntryOk, Finished, LiveFor, Shift, InFlight;
    AllReady(s, live, n);
    var gone := set h | h in live[..n];
    var r := LiveFor(s.cfg, s.offset, Receipts, live);
    var k := if n <= |r| then n else |r|;
    LiveForFacts(s.cfg, s.offset, Receipts, live);
    RetireKeeps(s.body, live, s.offset, n);
    RetireKeeps(s.receipt, r, s.offset, k);
    ShiftKeepsCache(s.cache, live, s.cfg, s.body.done, s.receipt.done, s.offset, n, gone);
    ShiftKeepsBacked(s.cache, s.offset, s.body, live, n, n);
    ShiftKeepsBacked(s.cache, s.offset, s.receipt, r, n, k);
    GoneReceipts(s.receipt, s.cfg, s.offset, live, n, k);
    LiveForShift(s.cfg, s.offset, live, n);
    BodiesAreLive(s.cfg, s.offset, live, n);
  }

  lemma BodiesAreLive(cfg: Config, offset: nat, live: seq<Header>, n: nat)
    requires n <= |live|
    ensures LiveFor(cfg, offset, Bodies, live) == live && LiveFor(cfg, offset + n, Bodies, live[n..]) == live[n..]
  {
  }

  /** The processable results are the next live headers, all of their components done. */
  lemma AllReady(s: Sched, live: seq<Header>, n: nat)
    requires Inv(s, live) && n <= |s.cache|
    requires forall i :: 0 <= i < n ==> s.cache[i].Some? && s.cache[i].value.pending <= 0
    ensures n <= |live|
    ensures forall i :: 0 <= i < n ==> s.cache[i].value.header == live[i] && Finished(s.cache[i].value, s.cfg)
    ensures forall i :: 0 <= i < n ==> live[i] in s.body.done
    ensures var r := LiveFor(s.cfg, s.offset, Receipts, live);
      forall i :: 0 <= i < n && i < |r| ==> r[i] in s.receipt.done
  {
    hide Held, CacheOk, Backed, EntryOk, Finished;
    forall i | 0 <= i < n
      ensures i < |live| && s.cache[i].value.header == live[i] && Finished(s.cache[i].value, s.cfg)
      ensures live[i] in s.body.done && (NeedsReceipts(s.cfg, live[i]) ==> live[i] in s.receipt.done)
    {
      NothingPending(s.cache, live, s.cfg, s.body.done, s.receipt.done, i);
    }
    if n > 0 {
      NothingPending(s.cache, live, s.cfg, s.body.done, s.receipt.done, n - 1);
    }
    LiveForFacts(s.cfg, s.offset, Receipts, live);
    var r := LiveFor(s.cfg, s.offset, Receipts, live);
    forall i | 0 <= i < n && i < |r|
      ensures r[i] in s.receipt.done
    {
      assert r[i] == live[i] && r[i] in r;
    }
  }

  const FORCE_VERIFY: nat := 24

  /** The pivot block waits until enough of the following results are in the cache. */
  predicate HeldAtPivot(s: Sched, i: nat)
    requires i < |s.cache| && s.cache[i].Some?
  {
    && s.cfg.mode == FastSync && s.cache[i].value.header.number == s.cfg.pivot
    && exists k :: i < k <= i + FORCE_VERIFY && !Cached(s.cache, k)
  }

  /** A complete result is processable, except that in fast sync the pivot block is held back until
      each of the 24 results after it is cached. */
  lemma ProcessableExactly(s: Sched, i: nat)
    requires i < |s.cache|
    ensures Processable(s, i) <==>
      && s.cache[i].Some? && s.cache[i].value.pending <= 0
      && (s.cfg.mode == FastSync && s.cache[i].value.header.number == s.cfg.pivot ==>
            i + 24 < |s.cache| && forall k :: i < k <= i + 24 ==> s.cache[k].Some?)
  {
    hide HeldAtPivot;
    if s.cache[i].Some? {
      HeldExactly(s, i);
    }
  }

  lemma HeldExactly(s: Sched, i: nat)
    requires i < |s.cache| && s.cache[i].Some?
    ensures HeldAtPivot(s, i) <==>
      && s.cfg.mode == FastSync && s.cache[i].value.header.number == s.cfg.pivot
      && !(i + 24 < |s.cache| && forall k :: i < k <= i + 24 ==> s.cache[k].Some?)
  {
    if i + 24 >= |s.cache| {
      assert !Cached(s.cache, i + 24);
    } else if k :| i < k <= i + 24 && s.cache[k].None? {
      assert !Cached(s.cache, k);
    } else {
      assert forall k :: i < k <= i + FORCE_VERIFY ==> Cached(s.cache, k);
    }
  }

  predicate Cached(cache: Cache, k: nat) {
    k < |cache| && cache[k].Some?
  }

  /** The result is there, complete, and not held back. */
  predicate Processable(s: Sched, i: nat)
    requires i < |s.cache|
  {
    s.cache[i].Some? && s.cache[i].value.pending <= 0 && !HeldAtPivot(s, i)
  }

  method CountProcessableItems(s: Sched) returns (n: nat)
    ensures n <= |s.cache| && forall i :: 0 <= i < n ==> Processable(s, i)
    ensures n < |s.cache| ==> !Processable(s, n)
  {
    n := 0;
    while n < |s.cache|
      invariant n <= |s.cache| && forall i :: 0 <= i < n ==> Processable(s, i)
    {
      if s.cache[n].None? || s.cache[n].value.pending > 0 {
        return;
      }
      if s.cfg.mode == FastSync && s.cache[n].value.header.number == s.cfg.pivot {
        for j := 0 to FORCE_VERIFY
          invariant forall k :: n < k <= n + j ==> Cached(s.cache, k)
        {
          if !Cached(s.cache, n + j + 1) {
            return;
          }
        }
      }
      n := n + 1;
    }
  }

  // Scheduling.

  lemma LiveForExtend(cfg: Config, offset: nat, live: seq<Header>, h: Header)
    requires Numbered(live, offset) && h.number == offset + |live|
    ensures LiveFor(cfg, offset, Receipts, live + [h]) ==
      if NeedsReceipts(cfg, h) then LiveFor(cfg, offset, Receipts, live) + [h] else LiveFor(cfg, offset, Receipts, live)
    ensures NeedsReceipts(cfg, h) ==> LiveFor(cfg, offset, Receipts, live) == live
  {
  }

  function AddTask(lane: Lane, h: Header): Lane {
    lane.(pool := lane.pool + {h}, queue := Push(lane.queue, h))
  }

  function ScheduleOne(s: Sched, h: Header): Sched {
    s.(body := AddTask(s.body, h), receipt := if NeedsReceipts(s.cfg, h) then AddTask(s.receipt, h) else s.receipt)
  }

  function ScheduleAll(s: Sched, headers: seq<Header>): Sched
    decreases |headers|
  {
    if headers == [] then s else ScheduleOne(ScheduleAll(s, headers[..|headers| - 1]), headers[|headers| - 1])
  }

  lemma ScheduleAllNext(s: Sched, headers: seq<Header>, h: Header)
    ensures ScheduleAll(s, headers + [h]) == ScheduleOne(ScheduleAll(s, headers), h)
  {
    assert (headers + [h])[..|headers|] == headers;
  }

  /** Every header needs a body, and in fast sync those up to the pivot need receipts. */
  lemma {:induction false} ScheduleAllPools(s: Sched, headers: seq<Header>, h: Header)
    ensures ScheduleAll(s, headers).cfg == s.cfg
    ensures h in ScheduleAll(s, headers).body.pool <==> h in s.body.pool || h in headers
    ensures h in ScheduleAll(s, headers).receipt.pool <==>
      h in s.receipt.pool || (h in headers && s.cfg.mode == FastSync && h.number <= s.cfg.pivot)
    decreases |headers|
  {
    hide Push;
    if headers != [] {
      var front, last := headers[..|headers| - 1], headers[|headers| - 1];
      ScheduleAllPools(s, front, h);
      assert h in headers <==> h in front || h == last by {
        assert headers == front + [last];
      }
    }
  }

  lemma ScheduleNone(s: Sched)
    ensures ScheduleAll(s, []) == s
  {
  }

  /** The next header in order is new to both lanes, and scheduling it keeps the invariant. */
  lemma ScheduleOneKeeps(s: Sched, live: seq<Header>, h: Header)
    requires Inv(s, live) && h.number == s.offset + |live|
    ensures h !in s.body.pool && h !in s.receipt.pool
    ensures Inv(ScheduleOne(s, h), live + [h])
  {
    hide Held, Backed, EntryOk;
    var r := LiveFor(s.cfg, s.offset, Receipts, live);
    ScheduleKeeps(s.body, live, s.offset, h);
    LiveForExtend(s.cfg, s.offset, live, h);
    LiveForFacts(s.cfg, s.offset, Receipts, live);
    OnePlace(s.receipt, multiset{}, r, s.offset, h);
    NumberedDistinct(live, s.offset, h);
    if NeedsReceipts(s.cfg, h) {
      ScheduleKeeps(s.receipt, r, s.offset, h);
    }
  }

  function Headers(rs: seq<FetchResult>): seq<Header> {
    seq(|rs|, i requires 0 <= i < |rs| => rs[i].header)
  }

  /** Removes the headers of finished results from a done pool. */
  function Forget(done: set<Header>, results: seq<FetchResult>): (r: set<Header>)
    ensures r == done - (set h | h in Headers(results))
  {
    if results == [] then done
    else
      assert Headers(results) == [results[0].header] + Headers(results[1..]);
      Forget(done - {results[0].header}, results[1..])
  }

  /** The longest processable prefix of the cache leaves it, and is forgotten. */
  ghost predicate Taken(s: Sched, s': Sched, results: seq<FetchResult>) {
    var n := |results|;
    && n <= |s.cache| && (forall i :: 0 <= i < n ==> Processable(s, i) && results[i] == s.cache[i].value)
    && (n < |s.cache| ==> !Processable(s, n))
    && s' == Release(s, n, set h | h in Headers(results))
  }

  /** Takes the finished results off the front of the cache. */
  method TakeReady(s: Sched, ghost live: seq<Header>) returns (s': Sched, results: seq<FetchResult>)
    requires Inv(s, live)
    ensures |results| <= |live| && Headers(results) == live[..|results|]
    ensures Inv(s', live[|results|..])
    ensures s'.cfg == s.cfg && s'.offset == s.offset + |results| && |s'.cache| == |s.cache|
    ensures forall i :: 0 <= i < |results| ==> Finished(results[i], s.cfg)
    ensures Taken(s, s', results)
  {
    hide Inv, Finished, HeldAtPivot;
    var n := CountProcessableItems(s);
    forall i | 0 <= i < n
      ensures s.cache[i].Some? && s.cache[i].value.pending <= 0
    {
      assert Processable(s, i);
    }
    results := seq(n, i requires 0 <= i < n && s.cache[i].Some? => s.cache[i].value);
    ReleaseKeeps(s, live, n);
    assert Headers(results) == live[..n];
    s' := Sched(s.cfg, s.body.(done := Forget(s.body.done, results)),
                s.receipt.(done := Forget(s.receipt.done, results)),
                Shift(s.cache, n), s.offset + n);
    assert s' == Release(s, n, set h | h in live[..n]);
  }

  /** An empty scheduler with a result cache of the given size. */
  function NewSched(limit: nat, first: nat, cfg: Config): Sched {
    Sched(cfg, EMPTY_LANE, EMPTY_LANE, seq(limit, _ => None), first)
  }

  lemma NewIsValid(limit: nat, first: nat, cfg: Config)
    ensures Inv(NewSched(limit, first, cfg), [])
  {
  }

  /** The state of the scheduler and its history. Since the start of the sync, `scheduled` lists
      the headers accepted by Schedule, `released` the results handed out by WaitResults, and
      `live` what is scheduled and not yet released. */
  class Scheduler {
    const cfg: Config
    var headerHead: Hash
    var body: Lane
    var receipt: Lane
    var cache: Cache
    var offset: nat

    ghost const first: nat
    ghost var scheduled: seq<Header>
    ghost var released: seq<FetchResult>
    ghost var live: seq<Header>

    function View(): Sched
      reads this
    {
      Sched(cfg, body, receipt, cache, offset)
    }

    /** Exactly-once, in-order output: what was released, followed by what is still live, is what
        was scheduled, and everything released is complete and matches its header. */
    ghost predicate History()
      reads this
    {
      && scheduled == Headers(released) + live
      && offset == first + |released|
      && (forall i :: 0 <= i < |released| ==> Finished(released[i], cfg))
      && (forall i :: 0 <= i < |scheduled| ==> scheduled[i].number == first + i)
      && headerHead == if scheduled == [] then Zero else HashOf(scheduled[|scheduled| - 1])
    }

    ghost predicate Valid()
      reads this
    {
      Inv(View(), live) && History()
    }

    /** The history is untouched: nothing was scheduled or released. */
    twostate predicate HistoryKept()
      reads this
    {
      && scheduled == old(scheduled) && released == old(released) && live == old(live)
      && headerHead == old(headerHead) && offset == old(offset) && |cache| == old(|cache|)
    }

    /** A fresh scheduler after Prepare. */
    constructor (limit: nat, first: nat, cfg: Config)
      ensures Valid() && scheduled == [] && released == [] && live == []
      ensures this.cfg == cfg && this.first == first && View() == NewSched(limit, first, cfg)
    {
      hide Inv, Finished;
      var start := NewSched(limit, first, cfg);
      this.cfg := cfg;
      headerHead := Zero;
      body, receipt, cache, offset := start.body, start.receipt, start.cache, first;
      this.first := first;
      scheduled, released, live := [], [], [];
      new;
      NewIsValid(limit, first, cfg);
    }

    method Store(s: Sched, ghost live0: seq<Header>)
      requires s.cfg == cfg && s.offset == offset && Inv(s, live0) && live == live0 && History()
      modifies this`body, this`receipt, this`cache
      ensures View() == s && Valid()
    {
      body, receipt, cache := s.body, s.receipt, s.cache;
    }

    /** Accepts headers in chain order: a prefix of what is offered, up to the first header that
        breaks the numbering or the ancestry. `from` is the number expected next. */
    method Schedule(headers: seq<Header>, from: nat) returns (inserts: seq<Header>)
      requires Valid() && from == offset + |live|
      requires from + |headers| <= 0x100_0000
      modifies this
      ensures Valid()
      ensures inserts <= headers && scheduled == old(scheduled) + inserts && View() == ScheduleAll(old(View()), inserts)
      ensures released == old(released) && live == old(live) + inserts && |cache| == old(|cache|)
      ensures forall h :: h in body.pool <==> h in old(body.pool) || h in inserts
      ensures forall h :: h in receipt.pool <==>
        h in old(receipt.pool) || (h in inserts && cfg.mode == FastSync && h.number <= cfg.pivot)
      ensures |inserts| < |headers| ==>
        var h := headers[|inserts|];
        h.number != from + |inserts| || (scheduled != [] && HashOf(scheduled[|scheduled| - 1]) != h.parentHash)
    {
      hide Inv, Finished, ScheduleOne, ScheduleAll;
      ScheduleNone(View());
      inserts := [];
      var i := 0;
      while i < |headers|
        invariant 0 <= i <= |headers| && inserts == headers[..i]
        invariant Valid() && scheduled == old(scheduled) + inserts && live == old(live) + inserts
        invariant View() == ScheduleAll(old(View()), inserts)
        invariant released == old(released) && |cache| == old(|cache|)
        invariant from + i == offset + |live|
      {
        var header := headers[i];
        if header.number != from + i {
          break;
        }
        if headerHead != Zero && headerHead != header.parentHash {
          break;
        }
        ScheduleNext(header);
        ScheduleAllNext(old(View()), inserts, header);
        inserts := inserts + [header];
        i := i + 1;
      }
      forall h
        ensures h in body.pool <==> h in old(body.pool) || h in inserts
        ensures h in receipt.pool <==>
          h in old(receipt.pool) || (h in inserts && cfg.mode == FastSync && h.number <= cfg.pivot)
      {
        ScheduleAllPools(old(View()), inserts, h);
      }
    }

    /** Queues one header for content retrieval. The order checks already made rule out that it is
        scheduled twice. */
    method ScheduleNext(header: Header)
      requires Valid() && header.number == offset + |live|
      requires scheduled != [] ==> header.parentHash == headerHead
      modifies this
      ensures Valid()
      ensures scheduled == old(scheduled) + [header] && live == old(live) + [header]
      ensures released == old(released) && View() == ScheduleOne(old(View()), header)
      ensures cache == old(cache) && offset == old(offset)
    {
      hide Inv, Finished, AddTask;
      assert |scheduled| == |released| + |live|;
      ScheduleOneKeeps(View(), live, header);
      if header in body.pool || header in receipt.pool {
        assert false;
      }
      var s := ScheduleOne(View(), header);
      body, receipt := s.body, s.receipt;
      headerHead := HashOf(header);
      scheduled := scheduled + [header];
      live := live + [header];
      assert View() == s;
    }

    /** Reserves a batch of bodies or receipts for a peer. */
    method ReserveTasks(kind: Kind, peer: Peer, count: nat, lacks: set<Header>)
        returns (request: Option<seq<Header>>, progress: bool)
      requires Valid()
      modifies this`body, this`receipt, this`cache
      ensures Valid() && HistoryKept() && Reserved(old(View()), View(), kind, peer, count, lacks, request)
      ensures progress <==> LaneOf(View(), kind).done != LaneOf(old(View()), kind).done
    {
      hide Inv, Finished, Exhausted;
      var s;
      s, request, progress := Reserve(View(), kind, peer, count, lacks, live);
      Store(s, live);
    }

    /** Delivers bodies or receipts. */
    method DeliverTasks(kind: Kind, peer: Peer, parts: seq<Payload>) returns (accepted: nat, err: DeliverError)
      requires Valid()
      modifies this`body, this`receipt, this`cache
      ensures Valid() && HistoryKept() && Answered(old(View()), View(), kind, peer, parts, accepted, err)
    {
      hide Inv, Finished, LongestMatch;
      var s;
      s, accepted, err := Deliver(View(), kind, peer, parts, live);
      Store(s, live);
    }

    /** Aborts a request: whatever it asked for goes to the queue, and the peer is free again. Nothing
        is lost or doubled if and only if it is the request in flight for the peer. */
    method Cancel(kind: Kind, peer: Peer, request: seq<Header>)
      requires Valid()
      modifies this`body, this`receipt
      ensures HistoryKept() && GivenBack(old(View()), View(), kind, {peer})
      ensures multiset(LaneOf(View(), kind).queue) == multiset(LaneOf(old(View()), kind).queue) + multiset(request)
      ensures Valid() <==> multiset(request) == Asked(LaneOf(old(View()), kind), peer)
    {
      hide Inv, Finished, PushAll, Asked;
      CancelKeeps(View(), kind, peer, request, live);
      var lane := LaneOf(View(), kind);
      var queue := Requeue(lane.queue, request);
      if kind == Bodies {
        body := lane.(queue := queue, pend := lane.pend - {peer});
      } else {
        receipt := lane.(queue := queue, pend := lane.pend - {peer});
      }
    }

    /** Drops a peer: its requests of both kinds go back to the queues. */
    method Revoke(peer: Peer)
      requires Valid()
      modifies this`body, this`receipt, this`cache
      ensures Valid() && HistoryKept() && Revoked(old(View()), View(), peer)
    {
      hide Inv, Finished;
      var s := View();
      if peer in s.body.pend {
        s := GiveBack(s, Bodies, peer, live);
      }
      if peer in s.receipt.pend {
        s := GiveBack(s, Receipts, peer, live);
      }
      assert peer !in old(body.pend) ==> old(body.pend) == old(body.pend) - {peer};
      assert peer !in old(receipt.pend) ==> old(receipt.pend) == old(receipt.pend) - {peer};
      Store(s, live);
    }

    /** Moves the expired requests back; which ones those are is up to the clock. */
    method Expire(kind: Kind, late: set<Peer>) returns (expiries: map<Peer, nat>)
      requires Valid()
      modifies this`body, this`receipt, this`cache
      ensures Valid() && HistoryKept() && GivenBack(old(View()), View(), kind, late)
      ensures expiries == map p | p in LaneOf(old(View()), kind).pend && p in late ::
        |LaneOf(old(View()), kind).pend[p]|
    {
      hide Inv, Finished;
      var s := View();
      ghost var s0 := s;
      var rest := late;
      ghost var seen: set<Peer> := {};
      expiries := map[];
      assert LaneOf(s, kind).pend - {} == LaneOf(s, kind).pend;
      while rest != {}
        invariant rest + seen == late && rest !! seen
        invariant Inv(s, live) && GivenBack(s0, s, kind, seen)
        invariant expiries == map p | p in LaneOf(s0, kind).pend && p in seen :: |LaneOf(s0, kind).pend[p]|
        decreases rest
      {
        var p :| p in rest;
        if p in LaneOf(s, kind).pend {
          expiries := expiries[p := |LaneOf(s, kind).pend[p]|];
          s := GiveBack(s, kind, p, live);
        }
        rest, seen := rest - {p}, seen + {p};
      }
      assert seen == late;
      Store(s, live);
    }

    /** Hands out the finished results at the front of the cache, and forgets them. */
    method WaitResults() returns (results: seq<FetchResult>)
      requires Valid()
      modifies this
      ensures Valid()
      ensures released == old(released) + results && scheduled == old(scheduled) && Taken(old(View()), View(), results)
      ensures Headers(results) + live == old(live) && |cache| == old(|cache|)
      ensures forall i :: 0 <= i < |results| ==> Finished(results[i], cfg)
    {
      hide Inv, Finished, Taken;
      var s;
      s, results := TakeReady(View(), live);
      body, receipt, cache, offset := s.body, s.receipt, s.cache, s.offset;
      released := released + results;
      live := live[|results|..];
      assert Headers(released) == Headers(old(released)) + Headers(results);
    }
  }

  /** Both requests of a peer are queued again. */
  ghost predicate Revoked(s: Sched, s': Sched, peer: Peer) {
    s' == s.(body := s.body.(queue := s'.body.queue, pend := s.body.pend - {peer}),
             receipt := s.receipt.(queue := s'.receipt.queue, pend := s.receipt.pend - {peer}))
  }

  /** Whether the scheduler has nothing queued, in flight or cached. */
  predicate Idle(s: Sched) {
    |s.body.queue| + |s.receipt.queue| + |s.body.pend| + |s.receipt.pend| + |s.body.done| + |s.receipt.done| == 0
  }

  /** The scheduler is idle if and only if it has released everything it ever scheduled, and no peer
      has a request. */
  lemma IdleMeansAllReleased(s: Sched, live: seq<Header>)
    requires Inv(s, live)
    ensures Idle(s) <==> live == [] && s.body.pend == map[] && s.receipt.pend == map[]
  {
    hide CacheOk, Backed, Sorted;
    if live != [] {
      if Idle(s) {
        NothingAnywhere(s.body, live);
        assert false;
      }
    } else {
      LiveForNone(s);
      NothingLive(s.body);
      NothingLive(s.receipt);
    }
  }

  lemma LiveForNone(s: Sched)
    ensures LiveFor(s.cfg, s.offset, Receipts, []) == []
  {
  }

  lemma NothingLive(lane: Lane)
    requires Conserved(lane, [])
    ensures lane.queue == [] && lane.done == {}
  {
    assert |multiset(lane.queue)| + |InFlight(lane.pend)| + |multiset(lane.done)| == 0;
  }

  lemma NothingAnywhere(lane: Lane, live: seq<Header>)
    requires Conserved(lane, live) && lane.queue == [] && lane.pend == map[] && lane.done == {}
    ensures live == []
  {
    assert |multiset(live)| == |multiset(lane.queue)| + |InFlight(lane.pend)| + |multiset(lane.done)|;
  }

  /** No stall: if nothing is queued or in flight any more, the first live header is complete, and
      only the pivot rule can hold it back. */
  lemma FetchedMeansReady(s: Sched, live: seq<Header>)
    requires Inv(s, live) && live != []
    requires s.body.queue == [] && InFlight(s.body.pend) == multiset{}
    requires s.receipt.queue == [] && InFlight(s.receipt.pend) == multiset{}
    ensures |s.cache| > 0 && s.cache[0].Some? && s.cache[0].value.header == live[0] && Finished(s.cache[0].value, s.cfg)
    ensures Processable(s, 0) <==> !HeldAtPivot(s, 0)
  {
    hide CacheOk, EntryOk, Finished, HeldAtPivot, Held;
    var r := LiveFor(s.cfg, s.offset, Receipts, live);
    LiveForFacts(s.cfg, s.offset, Receipts, live);
    OnePlace(s.body, multiset{}, live, s.offset, live[0]);
    OnePlace(s.receipt, multiset{}, r, s.offset, live[0]);
    assert Slot(s.cache, s.offset, live[0]);
    FrontEntry(s.cache, live, s.cfg, s.body.done, s.receipt.done);
    NothingPending(s.cache, live, s.cfg, s.body.done, s.receipt.done, 0);
  }

  lemma FrontEntry(cache: Cache, live: seq<Header>, cfg: Config, bodyDone: set<Header>, receiptDone: set<Header>)
    requires CacheOk(cache, live, cfg, bodyDone, receiptDone)
    requires live != [] && |cache| > 0 && cache[0].Some?
    requires live[0] in bodyDone && (NeedsReceipts(cfg, live[0]) ==> live[0] in receiptDone)
    ensures cache[0].value.pending == 0
  {
  }

  datatype Event =
    | Schedule(headers: seq<Header>)
    | ReserveTasks(kind: Kind, peer: Peer, count: nat, lacks: set<Header>)
    | DeliverTasks(kind: Kind, peer: Peer, parts: seq<Payload>)
    | Cancel(kind: Kind, peer: Peer, request: seq<Header>)
    | Revoke(peer: Peer)
    | Expire(kind: Kind, late: set<Peer>)
    | WaitResults

  /** A scheduler and its history: what it has accepted and what it has handed out. */
  datatype Situation = Situation(sched: Sched, accepted: seq<Header>, outputs: seq<FetchResult>)

  /** The next headers were accepted: the longest prefix in number and parent order. */
  ghost predicate Accepted(s: Situation, s': Situation, headers: seq<Header>, first: nat) {
    && s.accepted <= s'.accepted && s'.outputs == s.outputs
    && var inserts := s'.accepted[|s.accepted|..];
    && inserts <= headers && s'.sched == ScheduleAll(s.sched, inserts)
    && (|inserts| < |headers| ==>
          var h := headers[|inserts|];
          || h.number != first + |s'.accepted|
          || (s'.accepted != [] && HashOf(s'.accepted[|s'.accepted| - 1]) != h.parentHash))
  }

  /** The event can happen now. */
  predicate Enabled(s: Situation, e: Event, first: nat) {
    match e
    case Schedule(headers) => first + |s.accepted| + |headers| <= 0x100_0000
    case Cancel(kind, peer, request) => multiset(request) == Asked(LaneOf(s.sched, kind), peer)
    case _ => true
  }

  ghost predicate Stepped(s: Situation, e: Event, s': Situation, first: nat) {
    if !Enabled(s, e, first) then s' == s else
      match e
      case Schedule(headers) => Accepted(s, s', headers, first)
      case ReserveTasks(kind, peer, count, lacks) =>
        SameHistory(s, s') && exists request :: Reserved(s.sched, s'.sched, kind, peer, count, lacks, request)
      case DeliverTasks(kind, peer, parts) =>
        SameHistory(s, s') && exists n, err :: Answered(s.sched, s'.sched, kind, peer, parts, n, err)
      case Cancel(kind, peer, _) => SameHistory(s, s') && GivenBack(s.sched, s'.sched, kind, {peer})
      case Revoke(peer) => SameHistory(s, s') && Revoked(s.sched, s'.sched, peer)
      case Expire(kind, late) => SameHistory(s, s') && GivenBack(s.sched, s'.sched, kind, late)
      case WaitResults =>
        && s'.accepted == s.accepted && s.outputs <= s'.outputs
        && Taken(s.sched, s'.sched, s'.outputs[|s.outputs|..])
  }

  ghost predicate SameHistory(s: Situation, s': Situation) {
    s'.accepted == s.accepted && s'.outputs == s.outputs
  }

  /** The results handed out are, in order and each exactly once, a prefix of the accepted headers,
      whose numbers are consecutive; each result carries the transactions, uncles and (up to the
      pivot) receipts that its header commits to; and every accepted header not yet handed out is
      accounted for, with the exact number of parts it still misses. */
  ghost predicate Safe(s: Situation, first: nat) {
    && Headers(s.outputs) <= s.accepted
    && (forall i :: 0 <= i < |s.accepted| ==> s.accepted[i].number == first + i)
    && (forall i :: 0 <= i < |s.outputs| ==> Finished(s.outputs[i], s.sched.cfg))
    && s.sched.offset == first + |s.outputs|
    && Inv(s.sched, s.accepted[|s.outputs|..])
  }

  /** Any run of the scheduler, whatever the peers do, is safe at every point. Events that cannot
      happen in the current state are skipped. */
  method Run(limit: nat, first: nat, cfg: Config, events: seq<Event>) returns (trace: seq<Situation>)
    ensures |trace| == |events| + 1
    ensures trace[0] == Situation(NewSched(limit, first, cfg), [], [])
    ensures forall i :: 0 <= i < |events| ==> Stepped(trace[i], events[i], trace[i + 1], first)
    ensures forall i :: 0 <= i <= |events| ==> Safe(trace[i], first)
    ensures forall i, r :: 0 <= i <= |events| && r in trace[i].outputs ==>
      && r.header.txHash == ListRoot(r.content.txs) && r.header.uncleHash == UncleRoot(r.content.uncles)
      && (cfg.mode == FastSync && r.header.number <= cfg.pivot ==> r.header.receiptHash == ListRoot(r.content.receipts))
  {
    hide Safe, Stepped, Inv, Finished, NewSched;
    var s := new Scheduler(limit, first, cfg);
    var now := Situation(s.View(), [], []);
    ValidIsSafe(s, now);
    trace := [now];
    for i := 0 to |events|
      invariant fresh(s) && s.Valid() && s.cfg == cfg && s.first == first
      invariant now == Situation(s.View(), s.scheduled, s.released)
      invariant |trace| == i + 1 && trace[i] == now
      invariant trace[0] == Situation(NewSched(limit, first, cfg), [], [])
      invariant forall j :: 0 <= j < i ==> Stepped(trace[j], events[j], trace[j + 1], first)
      invariant forall j :: 0 <= j <= i ==> Safe(trace[j], first) && trace[j].sched.cfg == cfg
    {
      now := Next(s, now, events[i], first);
      ValidIsSafe(s, now);
      trace := trace + [now];
    }
    forall i, r | 0 <= i <= |events| && r in trace[i].outputs
      ensures r.header.txHash == ListRoot(r.content.txs) && r.header.uncleHash == UncleRoot(r.content.uncles)
      ensures cfg.mode == FastSync && r.header.number <= cfg.pivot ==>
        r.header.receiptHash == ListRoot(r.content.receipts)
    {
      OutputMatches(trace[i], first, r);
    }
  }

  lemma OutputMatches(s: Situation, first: nat, r: FetchResult)
    requires Safe(s, first) && r in s.outputs
    ensures r.header.txHash == ListRoot(r.content.txs) && r.header.uncleHash == UncleRoot(r.content.uncles)
    ensures s.sched.cfg.mode == FastSync && r.header.number <= s.sched.cfg.pivot ==>
      r.header.receiptHash == ListRoot(r.content.receipts)
  {
    hide Inv;
  }

  lemma ValidIsSafe(s: Scheduler, now: Situation)
    requires s.Valid() && now == Situation(s.View(), s.scheduled, s.released)
    ensures Safe(now, s.first)
  {
    hide Inv, Finished;
    assert s.live == s.scheduled[|s.released|..];
  }

  /** One event, if it can happen. */
  method Next(s: Scheduler, now: Situation, e: Event, first: nat) returns (next: Situation)
    requires s.Valid() && s.first == first && now == Situation(s.View(), s.scheduled, s.released)
    modifies s
    ensures s.Valid() && next == Situation(s.View(), s.scheduled, s.released) && Stepped(now, e, next, first)
  {
    hide Inv, Finished, Reserved, Answered, GivenBack, Revoked, Taken, ScheduleAll;
    var accepted, outputs := now.accepted, now.outputs;
    if Enabled(now, e, first) {
      match e
      case Schedule(headers) =>
        var more := s.Schedule(headers, first + |accepted|);
        accepted := accepted + more;
      case ReserveTasks(kind, peer, count, lacks) =>
        var request, progress := s.ReserveTasks(kind, peer, count, lacks);
      case DeliverTasks(kind, peer, parts) =>
        var n, err := s.DeliverTasks(kind, peer, parts);
      case Cancel(kind, peer, request) =>
        s.Cancel(kind, peer, request);
      case Revoke(peer) =>
        s.Revoke(peer);
      case Expire(kind, late) =>
        var expiries := s.Expire(kind, late);
      case WaitResults =>
        var results := s.WaitResults();
        outputs := outputs + results;
    }
    next := Situation(s.View(), accepted, outputs);
  }
}
