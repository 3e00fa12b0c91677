/** One lane (bodies or receipts) of the block download scheduler: the task pool, the priority
    queue, the requests in flight and the done pool of synctrl/scheduler.go, and the equation that
    every operation keeps between them.

    Pools keyed by header hash are sets of headers here, because the hash is injective. The
    priority queue is the sequence of its elements in the order in which they will be popped:
    lowest block number first. */
module TaskLane {
  import opened Chain

  type Peer = string

  datatype Lane = Lane(
    pool: set<Header>,
    queue: seq<Header>,
    pend: map<Peer, seq<Header>>,
    done: set<Header>)

  const EMPTY_LANE := Lane({}, [], map[], {})

  ghost predicate Sorted(q: seq<Header>) {
    forall i, j :: 0 <= i < j < |q| ==> q[i].number <= q[j].number
  }

  function Push(q: seq<Header>, h: Header): (r: seq<Header>)
    ensures multiset(r) == multiset(q) + multiset{h}
  {
    if q == [] || h.number < q[0].number then [h] + q
    else
      assert q == [q[0]] + q[1..];
      [q[0]] + Push(q[1..], h)
  }

  lemma {:induction false} PushSorted(q: seq<Header>, h: Header)
    requires Sorted(q)
    ensures Sorted(Push(q, h))
  {
    if q != [] && h.number >= q[0].number {
      var rest := Push(q[1..], h);
      PushSorted(q[1..], h);
      forall j | 0 <= j < |rest|
        ensures q[0].number <= rest[j].number
      {
        assert rest[j] in multiset(rest);
        assert rest[j] == h || rest[j] in q[1..];
      }
    }
  }

  /** All headers inside requests in flight, with multiplicity. */
  ghost function InFlight(pend: map<Peer, seq<Header>>): multiset<Header>
    decreases |pend|
  {
    if pend == map[] then multiset{}
    else
      var p :| p in pend;
      multiset(pend[p]) + InFlight(pend - {p})
  }

  lemma {:induction false} InFlightRemove(pend: map<Peer, seq<Header>>, p: Peer)
    requires p in pend
    ensures InFlight(pend) == multiset(pend[p]) + InFlight(pend - {p})
    decreases |pend|
  {
    var q :| q in pend && InFlight(pend) == multiset(pend[q]) + InFlight(pend - {q});
    if q != p {
      InFlightRemove(pend - {q}, p);
      InFlightRemove(pend - {p}, q);
      assert pend - {q} - {p} == pend - {p} - {q};
    }
  }

  lemma InFlightAdd(pend: map<Peer, seq<Header>>, p: Peer, hs: seq<Header>)
    requires p !in pend
    ensures InFlight(pend[p := hs]) == InFlight(pend) + multiset(hs)
  {
    InFlightRemove(pend[p := hs], p);
    assert pend[p := hs] - {p} == pend;
  }

  /** The unreleased headers carry consecutive numbers from the cache offset on. */
  ghost predicate Numbered(live: seq<Header>, offset: nat) {
    forall i :: 0 <= i < |live| ==> live[i].number == offset + i
  }

  /** Task conservation. Every live header is in exactly one place: queued, in one request in
      flight, in the hands of the running operation, or done; the task pool holds exactly the
      ones that are not done. */
  ghost predicate Held(lane: Lane, hand: multiset<Header>, live: seq<Header>) {
    && Sorted(lane.queue)
    && multiset(lane.queue) + InFlight(lane.pend) + hand + multiset(lane.done) == multiset(live)
    && multiset(lane.pool) == multiset(lane.queue) + InFlight(lane.pend) + hand
  }

  /** Between operations nothing is in anybody's hands. */
  ghost predicate Conserved(lane: Lane, live: seq<Header>) {
    Held(lane, multiset{}, live)
  }

  lemma {:induction false} NumberedDistinct(live: seq<Header>, offset: nat, h: Header)
    requires Numbered(live, offset)
    ensures multiset(live)[h] == if h in live then 1 else 0
    ensures h in live ==> offset <= h.number < offset + |live| && live[h.number - offset] == h
  {
    if live != [] {
      var front := live[..|live| - 1];
      var last := live[|live| - 1];
      assert live == front + [last];
      NumberedDistinct(front, offset, h);
    }
  }

  /** Where a live header is, read off the conservation equation. */
  lemma OnePlace(lane: Lane, hand: multiset<Header>, live: seq<Header>, offset: nat, h: Header)
    requires Held(lane, hand, live) && Numbered(live, offset)
    ensures multiset(lane.queue)[h] + InFlight(lane.pend)[h] + hand[h] + multiset(lane.done)[h]
      == (if h in live then 1 else 0)
    ensures h in lane.pool <==> multiset(lane.queue)[h] + InFlight(lane.pend)[h] + hand[h] == 1
    ensures h in lane.pool <==> h in live && h !in lane.done
  {
    NumberedDistinct(live, offset, h);
    assert (multiset(lane.queue) + InFlight(lane.pend) + hand + multiset(lane.done))[h] == multiset(live)[h];
    assert multiset(lane.pool)[h] == multiset(lane.queue)[h] + InFlight(lane.pend)[h] + hand[h];
  }

  lemma SubBagSize(a: multiset<Header>, b: multiset<Header>)
    requires forall x :: a[x] <= b[x]
    ensures |a| <= |b|
  {
    assert b == a + (b - a);
  }

  /** The throttle arithmetic. If fewer than `limit` headers are done, in flight or in hand, the
      lowest queued header lies less than `limit` above the cache offset: everything between the
      offset and it must be done, in flight or in hand. */
  lemma LowestInRange(lane: Lane, hand: multiset<Header>, live: seq<Header>, offset: nat, limit: nat)
    requires Held(lane, hand, live) && Numbered(live, offset)
    requires lane.queue != []
    requires |lane.done| + |InFlight(lane.pend)| + |hand| < limit
    ensures var h := lane.queue[0];
      h in live && offset <= h.number < offset + limit && live[h.number - offset] == h
  {
    var h := lane.queue[0];
    assert h in multiset(lane.queue);
    OnePlace(lane, hand, live, offset, h);
    NumberedDistinct(live, offset, h);
    var k := h.number - offset;
    var busy := InFlight(lane.pend) + hand + multiset(lane.done);
    forall x
      ensures multiset(live[..k])[x] <= busy[x]
    {
      NumberedDistinct(live[..k], offset, x);
      if x in live[..k] {
        assert x in live && x.number < h.number;
        assert x !in lane.queue;
        OnePlace(lane, hand, live, offset, x);
      }
    }
    SubBagSize(multiset(live[..k]), busy);
  }

  // The elementary moves. Each keeps the conservation equation.

  lemma PopKeeps(lane: Lane, hand: multiset<Header>, live: seq<Header>)
    requires Held(lane, hand, live) && lane.queue != []
    ensures Held(lane.(queue := lane.queue[1..]), hand + multiset{lane.queue[0]}, live)
  {
    assert lane.queue == [lane.queue[0]] + lane.queue[1..];
  }

  lemma PushKeeps(lane: Lane, hand: multiset<Header>, live: seq<Header>, h: Header)
    requires Held(lane, hand + multiset{h}, live)
    ensures Held(lane.(queue := Push(lane.queue, h)), hand, live)
  {
    PushSorted(lane.queue, h);
  }

  lemma FinishKeeps(lane: Lane, hand: multiset<Header>, live: seq<Header>, offset: nat, h: Header)
    requires Held(lane, hand + multiset{h}, live) && Numbered(live, offset)
    ensures Held(lane.(done := lane.done + {h}, pool := lane.pool - {h}), hand, live)
    ensures h !in lane.done && h in live
  {
    OnePlace(lane, hand + multiset{h}, live, offset, h);
    assert multiset(lane.done + {h}) == multiset(lane.done) + multiset{h};
    assert multiset(lane.pool - {h}) == multiset(lane.pool) - multiset{h};
  }

  lemma AssignKeeps(lane: Lane, hand: multiset<Header>, live: seq<Header>, p: Peer, hs: seq<Header>)
    requires Held(lane, hand + multiset(hs), live) && p !in lane.pend
    ensures Held(lane.(pend := lane.pend[p := hs]), hand, live)
  {
    InFlightAdd(lane.pend, p, hs);
  }

  lemma TakeKeeps(lane: Lane, hand: multiset<Header>, live: seq<Header>, p: Peer)
    requires Held(lane, hand, live) && p in lane.pend
    ensures Held(lane.(pend := lane.pend - {p}), hand + multiset(lane.pend[p]), live)
  {
    InFlightRemove(lane.pend, p);
  }

  /** A newly scheduled header starts in the queue. */
  lemma ScheduleKeeps(lane: Lane, live: seq<Header>, offset: nat, h: Header)
    requires Conserved(lane, live) && Numbered(live, offset) && h.number == offset + |live|
    ensures h !in lane.pool
    ensures Conserved(lane.(pool := lane.pool + {h}, queue := Push(lane.queue, h)), live + [h])
    ensures Numbered(live + [h], offset)
  {
    hide Sorted, InFlight, Push;
    assert h !in lane.pool by {
      OnePlace(lane, multiset{}, live, offset, h);
      NumberedDistinct(live, offset, h);
    }
    PushSorted(lane.queue, h);
    assert multiset(lane.pool + {h}) == multiset(lane.pool) + multiset{h};
    OneMore(multiset(lane.queue), InFlight(lane.pend), multiset(lane.done), h);
  }

  lemma OneMore(q: multiset<Header>, f: multiset<Header>, d: multiset<Header>, h: Header)
    ensures q + multiset{h} + f + multiset{} == q + f + multiset{} + multiset{h}
    ensures q + multiset{h} + f + multiset{} + d == q + f + multiset{} + d + multiset{h}
  {
  }

  /** Releasing a finished prefix takes it out of the done pool. */
  lemma RetireKeeps(lane: Lane, live: seq<Header>, offset: nat, k: nat)
    requires Conserved(lane, live) && Numbered(live, offset) && k <= |live|
    requires forall i :: 0 <= i < k ==> live[i] in lane.done
    ensures Conserved(lane.(done := lane.done - (set h | h in live[..k])), live[k..])
    ensures Numbered(live[k..], offset + k)
  {
    hide Sorted;
    var gone := set h | h in live[..k];
    PrefixOnce(live, offset, k);
    assert live == live[..k] + live[k..];
    assert multiset(live) == multiset(live[..k]) + multiset(live[k..]);
    forall h | h in gone
      ensures h in lane.done
    {
      assert h in live[..k];
    }
    assert multiset(lane.done) == multiset(lane.done - gone) + multiset(gone);
    var queued := multiset(lane.queue) + InFlight(lane.pend) + multiset{};
    assert queued + multiset(lane.done - gone) + multiset(gone) == queued + multiset(lane.done);
    Cancel(queued + multiset(lane.done - gone), multiset(live[k..]), multiset(gone));
  }

  /** Headers with distinct numbers are counted once. */
  lemma PrefixOnce(live: seq<Header>, offset: nat, k: nat)
    requires Numbered(live, offset) && k <= |live|
    ensures multiset(set h | h in live[..k]) == multiset(live[..k])
  {
    var gone := set h | h in live[..k];
    forall h
      ensures multiset(gone)[h] == multiset(live[..k])[h]
    {
      NumberedDistinct(live[..k], offset, h);
    }
  }

  lemma Cancel(a: multiset<Header>, b: multiset<Header>, c: multiset<Header>)
    requires a + c == b + c
    ensures a == b
  {
    forall h
      ensures a[h] == b[h]
    {
      assert (a + c)[h] == (b + c)[h];
    }
  }

  // Cancelling.

  function PushAll(q: seq<Header>, hs: seq<Header>): (r: seq<Header>)
    ensures multiset(r) == multiset(q) + multiset(hs)
    decreases |hs|
  {
    if hs == [] then q
    else
      assert hs == [hs[0]] + hs[1..];
      PushAll(Push(q, hs[0]), hs[1..])
  }

  lemma {:induction false} PushAllSorted(q: seq<Header>, hs: seq<Header>)
    requires Sorted(q)
    ensures Sorted(PushAll(q, hs))
    decreases |hs|
  {
    if hs != [] {
      PushSorted(q, hs[0]);
      PushAllSorted(Push(q, hs[0]), hs[1..]);
    }
  }

  /** What cancelling does with whatever request it is given. */
  function Cancelled(lane: Lane, p: Peer, request: seq<Header>): Lane {
    lane.(queue := PushAll(lane.queue, request), pend := lane.pend - {p})
  }

  /** What the peer was asked for and has not answered. */
  function Asked(lane: Lane, p: Peer): multiset<Header> {
    if p in lane.pend then multiset(lane.pend[p]) else multiset{}
  }

  lemma AskedInFlight(lane: Lane, p: Peer)
    ensures InFlight(lane.pend) == Asked(lane, p) + InFlight(lane.pend - {p})
  {
    if p in lane.pend {
      InFlightRemove(lane.pend, p);
    } else {
      assert lane.pend - {p} == lane.pend;
    }
  }

  /** Cancelling conserves the tasks if and only if the request is the one in flight for the peer: a
      request that was already given back would be queued a second time. */
  lemma CancelExactly(lane: Lane, live: seq<Header>, p: Peer, request: seq<Header>)
    requires Conserved(lane, live)
    ensures Conserved(Cancelled(lane, p, request), live) <==> multiset(request) == Asked(lane, p)
  {
    hide InFlight, PushAll, Sorted;
    PushAllSorted(lane.queue, request);
    var mine := Asked(lane, p);
    AskedInFlight(lane, p);
    var rest := multiset(lane.queue) + InFlight(lane.pend - {p}) + multiset{};
    assert multiset(PushAll(lane.queue, request)) + InFlight(lane.pend - {p}) + multiset{} == rest + multiset(request);
    assert multiset(lane.queue) + InFlight(lane.pend) + multiset{} == rest + mine;
    SameRest(rest, multiset(request), mine, multiset(lane.done));
  }

  /** So cancelling the same request twice queues its headers twice. */
  lemma CancelTwice(lane: Lane, live: seq<Header>, p: Peer)
    requires Conserved(lane, live) && p in lane.pend && lane.pend[p] != []
    ensures var request := lane.pend[p];
      !Conserved(Cancelled(Cancelled(lane, p, request), p, request), live)
  {
    hide Conserved, PushAll;
    var request := lane.pend[p];
    CancelExactly(lane, live, p, request);
    CancelExactly(Cancelled(lane, p, request), live, p, request);
    assert request[0] in multiset(request);
  }

  lemma SameRest(rest: multiset<Header>, a: multiset<Header>, b: multiset<Header>, done: multiset<Header>)
    ensures rest + a == rest + b <==> a == b
    ensures rest + a + done == rest + b + done <==> a == b
  {
    assert a + rest == rest + a && b + rest == rest + b;
    if rest + a == rest + b {
      Cancel(a, b, rest);
    }
    if rest + a + done == rest + b + done {
      Cancel(rest + a, rest + b, done);
      Cancel(a, b, rest);
    }
  }
}
