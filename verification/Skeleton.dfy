/** Filling a header skeleton (synctrl/scheduler.go): the gaps between skeleton headers are fetched
    in batches from any peer, checked against the skeleton, and passed on in order. */
module Skeleton {
  import opened Chain
  import opened Options

  type Peer = string

  /** Headers per retrieval request. */
  const BATCH: nat := 192

  /** A full batch: consecutive numbers, parent links, and the expected last header. */
  ghost predicate Filling(hs: seq<Header>, from: nat, last: Header) {
    && |hs| == BATCH && HashOf(hs[BATCH - 1]) == HashOf(last)
    && (forall j :: 0 <= j < BATCH ==> hs[j].number == from + j)
    && (forall j :: 0 < j < BATCH ==> hs[j].parentHash == HashOf(hs[j - 1]))
  }

  /** A gap has at most one filling, so it does not matter which peers deliver it. */
  lemma FillingUnique(a: seq<Header>, b: seq<Header>, from: nat, last: Header)
    requires Filling(a, from, last) && Filling(b, from, last)
    ensures a == b
  {
    var k: nat := BATCH - 1;
    while k > 0
      invariant k < BATCH && forall j :: k <= j < BATCH ==> a[j] == b[j]
    {
      assert a[k].parentHash == HashOf(a[k - 1]) && b[k].parentHash == HashOf(b[k - 1]);
      k := k - 1;
    }
  }

  /** The checks made on a delivered batch are exactly those of a filling. */
  method CheckBatch(headers: seq<Header>, from: nat, target: Header) returns (accepted: bool)
    ensures accepted <==> Filling(headers, from, target)
    ensures accepted ==> |headers| == 192
  {
    if |headers| != BATCH {
      return false;
    }
    if headers[0].number != from || HashOf(headers[BATCH - 1]) != HashOf(target) {
      return false;
    }
    for i := 1 to BATCH
      invariant forall j :: 0 <= j < i ==> headers[j].number == from + j
      invariant forall j :: 0 < j < i ==> headers[j].parentHash == HashOf(headers[j - 1])
    {
      if headers[i].number != from + i || HashOf(headers[i - 1]) != headers[i].parentHash {
        return false;
      }
    }
    return true;
  }

  // Reserving an index. Zero is the loop's "nothing found yet".

  ghost predicate Ascending(q: seq<nat>) {
    forall i, j :: 0 <= i < j < |q| ==> q[i] < q[j]
  }

  lemma AscendingCons(x: nat, q: seq<nat>)
    requires Ascending(q) && forall k :: k in q ==> x < k
    ensures Ascending([x] + q)
  {
    forall i, j | 0 <= i < j < |[x] + q|
      ensures ([x] + q)[i] < ([x] + q)[j]
    {
      assert ([x] + q)[j] in q;
    }
  }

  /** The outcome of the reservation loop on a queue: the index to send (0 for none), and the
      queue after the skipped indexes were merged back. */
  function Pick(q: seq<nat>, missed: set<nat>): (nat, seq<nat>) {
    if q == [] then (0, [])
    else if q[0] in missed then
      var (send, kept) := Pick(q[1..], missed);
      (send, [q[0]] + kept)
    else if q[0] == 0 then Pick(q[1..], missed)
    else (q[0], q[1..])
  }

  /** The tasks that leave the queue are the one sent and nothing else, if and only if index 0 is
      not queued for a peer that could serve it: a skeleton that starts at block 0 loses it. */
  lemma PickConserves(q: seq<nat>, missed: set<nat>)
    requires Ascending(q)
    ensures var (send, kept) := Pick(q, missed);
      multiset(kept) + (if send == 0 then multiset{} else multiset{send}) == multiset(q) <==> !(0 in q && 0 !in missed)
  {
    if 0 in q && 0 !in missed {
      PickLoses(q, missed);
    } else {
      PickKeeps(q, missed);
    }
  }

  lemma {:induction false} PickKeeps(q: seq<nat>, missed: set<nat>)
    requires 0 in q ==> 0 in missed
    ensures var (send, kept) := Pick(q, missed);
      multiset(kept) + (if send == 0 then multiset{} else multiset{send}) == multiset(q)
  {
    if q != [] {
      assert q == [q[0]] + q[1..];
      if q[0] in missed {
        PickKeeps(q[1..], missed);
      }
    }
  }

  /** The index picked is the lowest one the peer is not known to miss. */
  lemma {:induction false} PickLowest(q: seq<nat>, missed: set<nat>)
    requires Ascending(q) && (0 in q ==> 0 in missed)
    ensures var (send, kept) := Pick(q, missed);
      && (send == 0 ==> forall k :: k in q ==> k in missed)
      && (send != 0 ==> send in q && send !in missed && forall k :: k in q && k < send ==> k in missed)
  {
    if q != [] {
      assert q == [q[0]] + q[1..];
      if q[0] in missed {
        PickLowest(q[1..], missed);
      }
    }
  }

  lemma {:induction false} PickSorted(q: seq<nat>, missed: set<nat>)
    requires Ascending(q) && (0 in q ==> 0 in missed)
    ensures var (send, kept) := Pick(q, missed);
      Ascending(kept) && (send != 0 ==> send !in kept) && forall k :: k in kept ==> k in q
  {
    if q != [] {
      assert forall k :: k in q[1..] ==> k > q[0];
      if q[0] in missed {
        var (send, kept) := Pick(q[1..], missed);
        PickSorted(q[1..], missed);
        PickLowest(q[1..], missed);
        AscendingCons(q[0], kept);
      }
    }
  }

  lemma KeptWasQueued(q: seq<nat>, send: nat, kept: seq<nat>)
    requires multiset(kept) + (if send == 0 then multiset{} else multiset{send}) == multiset(q)
    ensures forall k :: k in kept ==> k in q
  {
    forall k | k in kept
      ensures k in q
    {
      assert multiset(kept)[k] <= multiset(q)[k];
    }
  }

  lemma PickLoses(q: seq<nat>, missed: set<nat>)
    requires Ascending(q) && 0 in q && 0 !in missed
    ensures 0 !in Pick(q, missed).1 && 0 in multiset(q)
  {
    assert q[0] == 0;
    assert 0 !in q[1..];
    PickKeeps(q[1..], missed);
    KeptWasQueued(q[1..], Pick(q[1..], missed).0, Pick(q[1..], missed).1);
  }

  /** A skeleton that starts at block 0: the first reservation drops its first gap. */
  lemma ZeroIsLost()
    ensures Pick([0, BATCH], {}) == (BATCH, [])
    ensures multiset(Pick([0, BATCH], {}).1) + multiset{BATCH} != multiset([0, BATCH])
  {
    assert [0, BATCH][1..] == [BATCH];
    PickConserves([0, BATCH], {});
  }

  // The state.

  /** The first number of the i-th gap. */
  function Index(from: nat, i: nat): nat {
    from + i * BATCH
  }

  /** Tasks are keyed by the first number of their gap and name its skeleton header. */
  ghost predicate PoolOk(pool: map<nat, Header>, from: nat, skeleton: seq<Header>) {
    forall k :: k in pool ==>
      exists i: nat :: i < |skeleton| && k == Index(from, i) && pool[k] == skeleton[i]
  }

  /** Task conservation: every open task is queued or in flight, in exactly one place. */
  ghost predicate TasksOk(pool: map<nat, Header>, queue: seq<nat>, pend: map<Peer, nat>) {
    && Ascending(queue)
    && (forall k :: k in queue ==> k in pool)
    && (forall p :: p in pend ==> pend[p] in pool && pend[p] !in queue)
    && (forall p, r :: p in pend && r in pend && p != r ==> pend[p] != pend[r])
    && (forall k :: k in pool ==> k in queue || exists p :: p in pend && pend[p] == k)
  }

  /** No request is for index 0, which stands for "none". */
  ghost predicate NoZero(pend: map<Peer, nat>) {
    forall p :: p in pend ==> pend[p] != 0
  }

  function Chunk(results: seq<Option<Header>>, i: nat): seq<Option<Header>>
    requires (i + 1) * BATCH <= |results|
  {
    results[i * BATCH..(i + 1) * BATCH]
  }

  ghost predicate IsFilled(chunk: seq<Option<Header>>, from: nat, last: Header) {
    |chunk| == BATCH && (forall j :: 0 <= j < BATCH ==> chunk[j].Some?) &&
    Filling(seq(BATCH, j requires 0 <= j < BATCH && chunk[j].Some? => chunk[j].value), from, last)
  }

  /** A gap is empty while its task is open and holds its filling afterwards. */
  ghost predicate ResultsOk(results: seq<Option<Header>>, pool: map<nat, Header>, from: nat, skeleton: seq<Header>) {
    |results| == |skeleton| * BATCH &&
    forall i: nat {:trigger skeleton[i]} :: i < |skeleton| ==>
      if Index(from, i) in pool then forall j :: i * BATCH <= j < (i + 1) * BATCH ==> results[j].None?
      else IsFilled(Chunk(results, i), Index(from, i), skeleton[i])
  }

  /** Once no task is open, the assembled chain is the only one that fits the skeleton. */
  lemma AssemblyUnique(a: seq<Option<Header>>, b: seq<Option<Header>>, from: nat, skeleton: seq<Header>)
    requires ResultsOk(a, map[], from, skeleton) && ResultsOk(b, map[], from, skeleton)
    ensures a == b
  {
    forall j | 0 <= j < |a|
      ensures a[j] == b[j]
    {
      var i := j / BATCH;
      assert IsFilled(Chunk(a, i), Index(from, i), skeleton[i]);
      assert IsFilled(Chunk(b, i), Index(from, i), skeleton[i]);
      ChunkUnique(Chunk(a, i), Chunk(b, i), Index(from, i), skeleton[i]);
      assert a[j] == Chunk(a, i)[j - i * BATCH];
      assert b[j] == Chunk(b, i)[j - i * BATCH];
    }
  }

  lemma ChunkUnique(a: seq<Option<Header>>, b: seq<Option<Header>>, from: nat, last: Header)
    requires IsFilled(a, from, last) && IsFilled(b, from, last)
    ensures a == b
  {
    var x := seq(BATCH, j requires 0 <= j < BATCH && a[j].Some? => a[j].value);
    var y := seq(BATCH, j requires 0 <= j < BATCH && b[j].Some? => b[j].value);
    FillingUnique(x, y, from, last);
    forall j | 0 <= j < BATCH
      ensures a[j] == b[j]
    {
      assert x[j] == y[j];
    }
  }

  /** Storing an accepted batch fills its gap and touches no other. */
  function Place(results: seq<Option<Header>>, d: nat, headers: seq<Header>): (r: seq<Option<Header>>)
    requires d + |headers| <= |results|
    ensures |r| == |results|
    ensures forall j :: 0 <= j < |r| ==> r[j] == if d <= j < d + |headers| then Some(headers[j - d]) else results[j]
  {
    results[..d] + seq(|headers|, j requires 0 <= j < |headers| => Some(headers[j])) + results[d + |headers|..]
  }

  lemma PlaceKeeps(results: seq<Option<Header>>, pool: map<nat, Header>, from: nat, skeleton: seq<Header>, i: nat,
      headers: seq<Header>)
    requires ResultsOk(results, pool, from, skeleton) && i < |skeleton| && Index(from, i) in pool
    requires Filling(headers, Index(from, i), skeleton[i])
    requires (i + 1) * BATCH <= |results|
    ensures ResultsOk(Place(results, i * BATCH, headers), pool - {Index(from, i)}, from, skeleton)
  {
    var r := Place(results, i * BATCH, headers);
    forall m: nat | m < |skeleton|
      ensures if Index(from, m) in pool - {Index(from, i)}
              then forall j :: m * BATCH <= j < (m + 1) * BATCH ==> r[j].None?
              else IsFilled(Chunk(r, m), Index(from, m), skeleton[m])
    {
      if m == i {
        assert seq(BATCH, j requires 0 <= j < BATCH && Chunk(r, i)[j].Some? => Chunk(r, i)[j].value) == headers;
      } else if Index(from, m) in pool {
        assert m < i ==> (m + 1) * BATCH <= i * BATCH;
        assert m > i ==> (i + 1) * BATCH <= m * BATCH;
        assert forall j :: m * BATCH <= j < (m + 1) * BATCH ==> r[j] == results[j];
        assert skeleton[m] == skeleton[m];
      } else {
        assert Chunk(r, m) == Chunk(results, m);
      }
    }
  }

  function Insert(q: seq<nat>, k: nat): (r: seq<nat>)
    ensures forall x :: x in r <==> x == k || x in q
    ensures Ascending(q) && k !in q ==> Ascending(r)
  {
    if q == [] || k < q[0] then [k] + q
    else
      assert q == [q[0]] + q[1..];
      var rest := Insert(q[1..], k);
      assert Ascending(q) && k !in q ==> Ascending([q[0]] + rest) by {
        if Ascending(q) && k !in q {
          AscendingCons(q[0], rest);
        }
      }
      [q[0]] + rest
  }

  // Moving one task between the queue and a request keeps conservation.

  lemma QueueAscends(pool: map<nat, Header>, queue: seq<nat>, pend: map<Peer, nat>)
    requires TasksOk(pool, queue, pend)
    ensures Ascending(queue)
  {
  }

  lemma PickLeaves(queue: seq<nat>, missed: set<nat>, k: nat)
    requires (0 in queue ==> 0 in missed) && k in queue
    ensures var (send, kept) := Pick(queue, missed);
      (send == 0 ==> multiset(kept) == multiset(queue)) && (send == 0 || k != send ==> k in kept)
  {
    hide Pick;
    PickKeeps(queue, missed);
    var (send, kept) := Pick(queue, missed);
    assert k in multiset(queue);
    assert send == 0 || k != send ==> multiset(kept)[k] == multiset(queue)[k];
  }

  lemma SameTasks(pool: map<nat, Header>, queue: seq<nat>, kept: seq<nat>, pend: map<Peer, nat>)
    requires TasksOk(pool, queue, pend) && Ascending(kept) && forall k :: k in kept <==> k in queue
    ensures TasksOk(pool, kept, pend)
  {
    hide Ascending;
  }

  lemma MovedTask(pool: map<nat, Header>, queue: seq<nat>, kept: seq<nat>, pend: map<Peer, nat>, peer: Peer, send: nat)
    requires TasksOk(pool, queue, pend) && peer !in pend && Ascending(kept)
    requires send in queue && send !in kept && forall k :: k in queue && k != send <==> k in kept
    ensures TasksOk(pool, kept, pend[peer := send])
  {
    hide Ascending;
    var pend' := pend[peer := send];
    forall k | k in pool && k !in kept
      ensures exists p :: p in pend' && pend'[p] == k
    {
      if k == send {
        assert pend'[peer] == k;
      } else {
        var p :| p in pend && pend[p] == k;
        assert pend'[p] == k;
      }
    }
  }

  lemma ReserveKeepsTasks(pool: map<nat, Header>, queue: seq<nat>, pend: map<Peer, nat>, peer: Peer, missed: set<nat>)
    requires TasksOk(pool, queue, pend) && peer !in pend && (0 in queue ==> 0 in missed)
    ensures var (send, kept) := Pick(queue, missed);
      if send == 0 then multiset(kept) == multiset(queue) && TasksOk(pool, kept, pend)
      else TasksOk(pool, kept, pend[peer := send])
  {
    hide Pick, TasksOk, Ascending;
    QueueAscends(pool, queue, pend);
    PickKeeps(queue, missed);
    PickLowest(queue, missed);
    PickSorted(queue, missed);
    var (send, kept) := Pick(queue, missed);
    forall k | k in queue
      ensures send == 0 || k != send ==> k in kept
    {
      PickLeaves(queue, missed, k);
    }
    if send == 0 {
      SameTasks(pool, queue, kept, pend);
    } else {
      MovedTask(pool, queue, kept, pend, peer, send);
    }
  }

  /** A task for index 0 that the peer could serve is neither queued nor in flight afterwards. */
  lemma ReserveLosesZero(pool: map<nat, Header>, queue: seq<nat>, pend: map<Peer, nat>, peer: Peer, missed: set<nat>)
    requires TasksOk(pool, queue, pend) && NoZero(pend) && 0 in queue && 0 !in missed
    ensures var (send, kept) := Pick(queue, missed);
      0 in pool && 0 !in kept && !TasksOk(pool, kept, pend) && (send != 0 ==> !TasksOk(pool, kept, pend[peer := send]))
  {
    PickLoses(queue, missed);
    var (send, kept) := Pick(queue, missed);
    var pend' := pend[peer := send];
    if send != 0 {
      assert forall p :: p in pend' ==> pend'[p] != 0;
    }
  }

  lemma RequeueKeepsTasks(pool: map<nat, Header>, queue: seq<nat>, pend: map<Peer, nat>, peer: Peer)
    requires TasksOk(pool, queue, pend) && peer in pend
    ensures TasksOk(pool, Insert(queue, pend[peer]), pend - {peer})
  {
    var queue', pend' := Insert(queue, pend[peer]), pend - {peer};
    forall k | k in pool && k !in queue'
      ensures exists p :: p in pend' && pend'[p] == k
    {
      var p :| p in pend && pend[p] == k;
      assert pend'[p] == k;
    }
  }

  lemma FinishKeepsTasks(pool: map<nat, Header>, queue: seq<nat>, pend: map<Peer, nat>, peer: Peer)
    requires TasksOk(pool, queue, pend) && peer in pend
    ensures TasksOk(pool - {pend[peer]}, queue, pend - {peer})
  {
    var pool', pend' := pool - {pend[peer]}, pend - {peer};
    forall k | k in pool' && k !in queue
      ensures exists p :: p in pend' && pend'[p] == k
    {
      var p :| p in pend && pend[p] == k;
      assert pend'[p] == k;
    }
  }

  /** A gap with its first header present is filled. */
  lemma FirstMeansFilled(results: seq<Option<Header>>, pool: map<nat, Header>, from: nat, skeleton: seq<Header>, i: nat)
    requires ResultsOk(results, pool, from, skeleton) && i < |skeleton| && results[i * BATCH].Some?
    ensures Index(from, i) !in pool
    ensures forall j :: i * BATCH <= j < (i + 1) * BATCH ==> results[j].Some?
  {
    var last := skeleton[i];
    if Index(from, i) !in pool {
      forall j | i * BATCH <= j < (i + 1) * BATCH
        ensures results[j].Some?
      {
        assert Chunk(results, i)[j - i * BATCH] == results[j];
      }
    }
  }

  lemma OpenGapEmpty(results: seq<Option<Header>>, pool: map<nat, Header>, from: nat, skeleton: seq<Header>, i: nat)
    requires ResultsOk(results, pool, from, skeleton) && i < |skeleton| && Index(from, i) in pool
    ensures (i + 1) * BATCH <= |results|
    ensures forall j :: i * BATCH <= j < (i + 1) * BATCH ==> results[j].None?
  {
    var last := skeleton[i];
  }

  lemma FillingSize(hs: seq<Header>, from: nat, last: Header)
    requires Filling(hs, from, last)
    ensures |hs| == BATCH
  {
  }

  lemma PoolShrinks(pool: map<nat, Header>, from: nat, skeleton: seq<Header>, k: nat)
    requires PoolOk(pool, from, skeleton)
    ensures PoolOk(pool - {k}, from, skeleton)
  {
  }

  /** Counts the headers that are ready to be passed on: whole gaps, up to the first open one. */
  method CountReady(results: seq<Option<Header>>, proced: nat, ghost pool: map<nat, Header>, ghost from: nat,
      ghost skeleton: seq<Header>)
      returns (ready: nat)
    requires ResultsOk(results, pool, from, skeleton) && proced % BATCH == 0 && proced <= |results|
    ensures ready % BATCH == 0 && proced + ready <= |results|
    ensures forall j :: proced <= j < proced + ready ==> results[j].Some?
    ensures proced + ready < |results| ==> results[proced + ready].None?
  {
    ready := 0;
    while proced + ready < |results| && results[proced + ready].Some?
      invariant ready % BATCH == 0 && proced + ready <= |results|
      invariant forall j :: proced <= j < proced + ready ==> results[j].Some?
    {
      ghost var i := (proced + ready) / BATCH;
      FirstMeansFilled(results, pool, from, skeleton, i);
      ready := ready + BATCH;
    }
  }

  /** The reservation loop itself: pop until something is found, then merge the skipped ones back. */
  method PickLoop(queue: seq<nat>, missed: set<nat>) returns (send: nat, kept: seq<nat>)
    ensures (send, kept) == Pick(queue, missed)
  {
    var skip: seq<nat>, rest := [], queue;
    send := 0;
    assert [] + Pick(rest, missed).1 == Pick(rest, missed).1;
    while send == 0 && rest != []
      invariant Pick(queue, missed)
        == if send == 0 then (Pick(rest, missed).0, skip + Pick(rest, missed).1) else (send, skip + rest)
      decreases |rest|
    {
      var k := rest[0];
      rest := rest[1..];
      if k in missed {
        assert skip + [k] + Pick(rest, missed).1 == skip + ([k] + Pick(rest, missed).1);
        skip := skip + [k];
      } else {
        send := k;
      }
    }
    kept := skip + rest;
  }

  datatype HeaderError = NoError | NoFetchesPending | NotAccepted

  /** A header in the assembly has the number of its place. */
  lemma FilledNumber(results: seq<Option<Header>>, pool: map<nat, Header>, from: nat, skeleton: seq<Header>, j: nat)
    requires ResultsOk(results, pool, from, skeleton) && j < |results| && results[j].Some?
    ensures results[j].value.number == from + j
  {
    var i := j / BATCH;
    var last := skeleton[i];
    assert i * BATCH <= j < (i + 1) * BATCH;
    assert Index(from, i) !in pool;
    assert Chunk(results, i)[j - i * BATCH] == results[j];
    ChunkNumber(Chunk(results, i), Index(from, i), last, j - i * BATCH);
  }

  lemma ChunkNumber(chunk: seq<Option<Header>>, from: nat, last: Header, j: nat)
    requires IsFilled(chunk, from, last) && j < BATCH
    ensures chunk[j].Some? && chunk[j].value.number == from + j
  {
    var hs := seq(BATCH, j requires 0 <= j < BATCH && chunk[j].Some? => chunk[j].value);
    assert hs[j].number == from + j;
  }

  class SkeletonFill {
    const from: nat
    const skeleton: seq<Header>
    var pool: map<nat, Header>
    var queue: seq<nat>
    var miss: map<Peer, set<nat>>
    var pend: map<Peer, nat>
    var results: seq<Option<Header>>
    var proced: nat
    ghost var passedOn: seq<Header>

    ghost predicate Valid()
      reads this
    {
      && PoolOk(pool, from, skeleton) && TasksOk(pool, queue, pend) && NoZero(pend)
      && ResultsOk(results, pool, from, skeleton)
      && proced % BATCH == 0 && proced <= |results| && |passedOn| == proced
      && (forall j :: 0 <= j < proced ==> results[j] == Some(passedOn[j]))
    }

    /** Schedules a retrieval task for every gap of the skeleton. */
    constructor (from: nat, skeleton: seq<Header>)
      ensures Valid() && this.from == from && this.skeleton == skeleton
      ensures pend == map[] && proced == 0 && forall i: nat :: i < |skeleton| ==> Index(from, i) in queue
    {
      this.from := from;
      this.skeleton := skeleton;
      miss, pend := map[], map[];
      results := seq(|skeleton| * BATCH, _ => None);
      proced := 0;
      passedOn := [];
      var tasks: map<nat, Header>, order: seq<nat> := map[], [];
      for i := 0 to |skeleton|
        invariant |order| == i && forall j :: 0 <= j < i ==> order[j] == Index(from, j)
        invariant forall k :: k in tasks <==> k in order
        invariant forall j: nat :: j < i ==> Index(from, j) in tasks && tasks[Index(from, j)] == skeleton[j]
      {
        tasks := tasks[Index(from, i) := skeleton[i]];
        order := order + [Index(from, i)];
      }
      pool, queue := tasks, order;
      new;
      assert forall i: nat :: i < |skeleton| ==> order[i] == Index(from, i);
    }

    /** The indexes the peer is known to miss. */
    function Missed(peer: Peer): set<nat>
      reads this
    {
      if peer in miss then miss[peer] else {}
    }

    /** Reserves the lowest queued gap that the peer is not known to miss. Everything stays valid if
        and only if that gap does not start at block 0: such a task would be lost. */
    method ReserveHeaders(peer: Peer) returns (request: Option<nat>)
      requires Valid()
      modifies this`queue, this`pend
      ensures Valid() <==> peer in old(pend) || 0 !in old(queue) || 0 in Missed(peer)
      ensures !Valid() ==> 0 in pool && 0 !in queue && NoZero(pend)
      ensures Valid() && request.None? ==> pend == old(pend) && multiset(queue) == multiset(old(queue))
      ensures request.Some? ==> peer !in old(pend) && pend == old(pend)[peer := request.value]
      ensures Valid() && request.Some? ==> request.value in old(queue) && request.value !in Missed(peer)
      ensures Valid() && request.None? && peer !in old(pend) ==> forall k :: k in old(queue) ==> k in Missed(peer)
    {
      hide TasksOk, ResultsOk, PoolOk, Pick, Ascending;
      if peer in pend {
        return None;
      }
      var missed := Missed(peer);
      QueueAscends(pool, queue, pend);
      if 0 in queue && 0 !in missed {
        ReserveLosesZero(pool, queue, pend, peer, missed);
      } else {
        ReserveKeepsTasks(pool, queue, pend, peer, missed);
        PickLowest(queue, missed);
      }
      var send, kept := PickLoop(queue, missed);
      queue := kept;
      if send == 0 {
        return None;
      }
      pend := pend[peer := send];
      return Some(send);
    }

    /** Puts the request of a peer back into the queue (cancel and expire). */
    method GiveBack(peer: Peer)
      requires Valid() && peer in pend
      modifies this`queue, this`pend
      ensures Valid() && pend == old(pend) - {peer}
      ensures forall k :: k in queue <==> k in old(queue) || k == old(pend)[peer]
    {
      RequeueKeepsTasks(pool, queue, pend, peer);
      queue := Insert(queue, pend[peer]);
      pend := pend - {peer};
    }

    /** Injects a header response: it is accepted whole if it is a filling of the requested gap,
        and otherwise the gap goes back to the queue and is marked as missing at this peer.
        Accepted headers are passed on in order, when the receiver has room. */
    method DeliverHeaders(peer: Peer, headers: seq<Header>, room: bool)
        returns (count: nat, err: HeaderError, process: seq<Header>)
      requires Valid()
      modifies this
      ensures Valid()
      ensures passedOn == old(passedOn) + process
      ensures forall j :: 0 <= j < |passedOn| ==> passedOn[j].number == from + j
      ensures err == NoFetchesPending <==> peer !in old(pend)
      ensures peer in old(pend) ==> pend == old(pend) - {peer}
      ensures peer in old(pend) ==>
        var k := old(pend)[peer];
        if Filling(headers, k, old(pool)[k])
        then err == NoError && count == BATCH && pool == old(pool) - {k} && queue == old(queue)
        else err == NotAccepted && count == 0 && pool == old(pool) && peer in miss && k in miss[peer] && k in queue
      ensures err != NoError ==> results == old(results) && process == []
      ensures err == NoError && room && proced < |results| ==> results[proced].None?
    {
      hide TasksOk, ResultsOk, Filling;
      process := [];
      InOrder();
      if peer !in pend {
        return 0, NoFetchesPending, [];
      }
      var k := pend[peer];
      ghost var i: nat := TaskGap(peer);
      var accepted := CheckBatch(headers, k, pool[k]);
      if !accepted {
        miss := miss[peer := (if peer in miss then miss[peer] else {}) + {k}];
        GiveBack(peer);
        InOrder();
        return 0, NotAccepted, [];
      }
      FinishKeepsTasks(pool, queue, pend, peer);
      pend := pend - {peer};
      StoreBatch(k, i, headers);
      process := PassOn(room);
      InOrder();
      return BATCH, NoError, process;
    }

    /** What has been passed on is the chain from the first number on, without gaps. */
    lemma InOrder()
      requires Valid()
      ensures forall j :: 0 <= j < |passedOn| ==> passedOn[j].number == from + j
    {
      hide TasksOk, PoolOk;
      forall j | 0 <= j < |passedOn|
        ensures passedOn[j].number == from + j
      {
        FilledNumber(results, pool, from, skeleton, j);
      }
    }

    ghost method TaskGap(peer: Peer) returns (i: nat)
      requires Valid() && peer in pend
      ensures pend[peer] in pool
      ensures i < |skeleton| && pend[peer] == Index(from, i) && pool[pend[peer]] == skeleton[i]
    {
      assert pend[peer] in pool;
      i :| i < |skeleton| && pend[peer] == Index(from, i) && pool[pend[peer]] == skeleton[i];
    }

    method StoreBatch(k: nat, ghost i: nat, headers: seq<Header>)
      requires PoolOk(pool, from, skeleton) && ResultsOk(results, pool, from, skeleton)
      requires proced % BATCH == 0 && proced <= |results| && |passedOn| == proced
      requires forall j :: 0 <= j < proced ==> results[j] == Some(passedOn[j])
      requires i < |skeleton| && k == Index(from, i) && k in pool && Filling(headers, k, skeleton[i])
      modifies this`results, this`pool
      ensures pool == old(pool) - {k} && |results| == old(|results|)
      ensures PoolOk(pool, from, skeleton) && ResultsOk(results, pool, from, skeleton)
      ensures forall j :: 0 <= j < proced ==> results[j] == Some(passedOn[j])
    {
      hide ResultsOk, Filling, PoolOk;
      OpenGapEmpty(results, pool, from, skeleton, i);
      FillingSize(headers, k, skeleton[i]);
      PoolShrinks(pool, from, skeleton, k);
      PlaceKeeps(results, pool, from, skeleton, i, headers);
      results := Place(results, k - from, headers);
      pool := pool - {k};
    }

    method PassOn(room: bool) returns (process: seq<Header>)
      requires Valid()
      modifies this`proced, this`passedOn
      ensures Valid() && passedOn == old(passedOn) + process
      ensures room && proced < |results| ==> results[proced].None?
    {
      hide TasksOk, PoolOk;
      process := [];
      var ready := CountReady(results, proced, pool, from, skeleton);
      if ready > 0 && room {
        var cache, start := results, proced;
        process := seq(ready,
          j requires 0 <= j < ready && start + ready <= |cache| && cache[start + j].Some? => cache[start + j].value);
        passedOn := passedOn + process;
        proced := proced + ready;
      }
    }
  }
}
