/** State synchronisation (synctrl/syncer.go, synctrl/synstate.go): one loop hands trie nodes out to
    peers and processes what comes back, a second one tracks the requests in flight. The two meet
    only when a request is tracked or delivered; packets, departures and timeouts, stale ones
    included, arrive in between in any order. */
module StateSync {
  import opened Options

  type Hash = nat
  type Peer = nat

  /** The attempts made for each hash: the peers it has been asked from. */
  type Tasks = map<Hash, set<Peer>>

  /** A request. The response is given by the hashes of the delivered blobs. */
  datatype Req = Req(peer: Peer, tasks: Tasks, response: Option<seq<Hash>>, dropped: bool)

  /** What the assigning loop is doing: waiting for the tracker to take a request, or processing
      one that was delivered. */
  datatype Hand = Idle | Assigning(id: nat) | Processing(id: nat)

  /** What the trie scheduler says to a blob. */
  datatype Verdict = Stored | NotRequested | AlreadyProcessed | Invalid

  // Where a request is.

  predicate ActiveAt(reqs: map<nat, Req>, active: map<Peer, nat>, id: nat) {
    id in reqs && reqs[id].peer in active && active[reqs[id].peer] == id
  }

  ghost predicate Distinct(ids: seq<nat>) {
    forall i, j :: 0 <= i < j < |ids| ==> ids[i] != ids[j]
  }

  /** The request is in exactly one place: being assigned, active, finished or delivered. */
  ghost predicate OnePlace(reqs: map<nat, Req>, active: map<Peer, nat>, finished: seq<nat>, delivered: set<nat>,
      hand: Hand, id: nat)
  {
    if hand == Assigning(id) then !ActiveAt(reqs, active, id) && id !in finished && id !in delivered
    else if ActiveAt(reqs, active, id) then id !in finished && id !in delivered
    else id in finished <==> id !in delivered
  }

  ghost predicate Places(reqs: map<nat, Req>, active: map<Peer, nat>, finished: seq<nat>, delivered: set<nat>,
      hand: Hand)
  {
    && (forall id :: id in reqs ==> OnePlace(reqs, active, finished, delivered, hand, id))
    && (forall p :: p in active ==> active[p] in reqs && reqs[active[p]].peer == p)
    && Distinct(finished) && (forall id :: id in finished ==> id in reqs) && delivered <= reqs.Keys
    && (hand.Assigning? ==> hand.id in reqs) && (hand.Processing? ==> hand.id in delivered)
  }

  // Where a hash is.

  /** The request has been made and has not been processed yet. */
  predicate Outstanding(reqs: map<nat, Req>, delivered: set<nat>, hand: Hand, id: nat) {
    id in reqs && (id in delivered ==> hand == Processing(id))
  }

  /** `owner` names, for each hash in an outstanding request, that request; there is only one. */
  ghost predicate Owners(reqs: map<nat, Req>, delivered: set<nat>, hand: Hand, owner: map<Hash, nat>) {
    && (forall h :: h in owner ==> Outstanding(reqs, delivered, hand, owner[h]) && h in reqs[owner[h]].tasks)
    && (forall id, h :: Outstanding(reqs, delivered, hand, id) && h in reqs[id].tasks ==> h in owner && owner[h] == id)
  }

  ghost predicate Split(retry: set<Hash>, owned: set<Hash>, resolved: set<Hash>, handed: set<Hash>) {
    handed == retry + owned + resolved && retry !! owned && retry !! resolved && owned !! resolved
  }

  /** Every hash handed out is in the retry set, in exactly one outstanding request, or resolved by
      a blob that arrived. */
  ghost predicate Conserved(tasks: Tasks, reqs: map<nat, Req>, delivered: set<nat>, hand: Hand,
      owner: map<Hash, nat>, handed: set<Hash>, resolved: set<Hash>)
  {
    Split(tasks.Keys, owner.Keys, resolved, handed) && Owners(reqs, delivered, hand, owner)
  }

  /** With no request in flight, every hash that is not resolved is up for retry. */
  lemma NothingLost(tasks: Tasks, reqs: map<nat, Req>, active: map<Peer, nat>, delivered: set<nat>,
      owner: map<Hash, nat>, handed: set<Hash>, resolved: set<Hash>)
    requires Places(reqs, active, [], delivered, Idle) && active == map[]
    requires Conserved(tasks, reqs, delivered, Idle, owner, handed, resolved)
    ensures handed == tasks.Keys + resolved
  {
    forall id | id in reqs
      ensures id in delivered
    {
      assert OnePlace(reqs, active, [], delivered, Idle, id);
    }
    assert owner.Keys == {};
  }

  // The loops.

  /** The tasks are split into those left and those taken for the peer, who was not asked for them
      before; whatever is left outside `rest` was. */
  ghost predicate Picked(tasks: Tasks, left: Tasks, taken: Tasks, rest: set<Hash>, peer: Peer) {
    && (forall h :: h in rest ==> h in left)
    && (forall h :: h in tasks <==> h in left || h in taken)
    && (forall h :: h in left ==> h !in taken && left[h] == tasks[h])
    && (forall h :: h in taken ==> peer !in tasks[h] && taken[h] == tasks[h] + {peer})
    && (forall h :: h in left && h !in rest ==> peer in left[h])
  }

  lemma PickedNone(tasks: Tasks, peer: Peer)
    ensures Picked(tasks, tasks, map[], tasks.Keys, peer)
  {
  }

  lemma PickedSkip(tasks: Tasks, left: Tasks, taken: Tasks, rest: set<Hash>, peer: Peer, h: Hash)
    requires Picked(tasks, left, taken, rest, peer) && h in rest
    ensures h in left
    ensures peer in left[h] ==> Picked(tasks, left, taken, rest - {h}, peer)
  {
  }

  lemma PickedTake(tasks: Tasks, left: Tasks, taken: Tasks, rest: set<Hash>, peer: Peer, h: Hash)
    requires Picked(tasks, left, taken, rest, peer) && h in rest && h in left && peer !in left[h]
    ensures Picked(tasks, left - {h}, taken[h := left[h] + {peer}], rest - {h}, peer)
    ensures |taken[h := left[h] + {peer}]| == |taken| + 1
  {
    OneMore(taken, h, left[h] + {peer});
  }

  lemma OneMore(tasks: Tasks, h: Hash, attempts: set<Peer>)
    ensures tasks[h := attempts].Keys == tasks.Keys + {h}
    ensures h !in tasks ==> |tasks[h := attempts]| == |tasks| + 1
  {
    assert tasks[h := attempts].Keys == tasks.Keys + {h};
  }

  /** Picks up to `n` tasks that the peer has not been asked for. */
  method Fill(tasks: Tasks, peer: Peer, n: nat) returns (left: Tasks, taken: Tasks)
    ensures left.Keys + taken.Keys == tasks.Keys && left.Keys !! taken.Keys
    ensures forall h :: h in left ==> left[h] == tasks[h]
    ensures forall h :: h in taken ==> peer !in tasks[h] && taken[h] == tasks[h] + {peer}
    ensures |taken| <= n && (|taken| == n || forall h :: h in left ==> peer in left[h])
  {
    left, taken := tasks, map[];
    var rest := tasks.Keys;
    PickedNone(tasks, peer);
    while rest != {} && |taken| != n
      invariant Picked(tasks, left, taken, rest, peer) && |taken| <= n
      decreases rest
    {
      hide Picked;
      var h :| h in rest;
      PickedSkip(tasks, left, taken, rest, peer, h);
      if peer !in left[h] {
        PickedTake(tasks, left, taken, rest, peer, h);
        taken := taken[h := left[h] + {peer}];
        left := left - {h};
      }
      rest := rest - {h};
    }
  }

  /** Goes through the delivered blobs. A blob the scheduler calls invalid ends the sync. */
  method Absorb(tasks: Tasks, response: seq<Hash>, verdicts: seq<Verdict>) returns (left: Tasks, stale: bool, ok: bool)
    requires |verdicts| == |response|
    ensures ok <==> Invalid !in verdicts
    ensures ok ==> left == tasks - (set h | h in response)
    ensures ok ==> (stale <==> response != [] && forall h :: h in response ==> h !in tasks)
  {
    left, stale, ok := tasks, |response| > 0, true;
    for i := 0 to |response|
      invariant Invalid !in verdicts[..i]
      invariant left == tasks - (set h | h in response[..i])
      invariant stale <==> response != [] && forall h :: h in response[..i] ==> h !in tasks
    {
      assert response[..i + 1] == response[..i] + [response[i]];
      assert verdicts[..i + 1] == verdicts[..i] + [verdicts[i]];
      if verdicts[i] == Invalid {
        ok := false;
        return;
      }
      if response[i] in left {
        left := left - {response[i]};
        stale := false;
      }
    }
    assert response[..|response|] == response && verdicts[..|verdicts|] == verdicts;
  }

  /** The attempts of a task after a request for it has failed. */
  function Forgiven(attempts: set<Peer>, peer: Peer, retry: bool): set<Peer> {
    if retry then attempts - {peer} else attempts
  }

  /** Puts unfulfilled tasks back into the retry set, unless one of them has failed with all peers. */
  method PutBack(tasks: Tasks, missing: Tasks, peer: Peer, retry: bool, peers: nat) returns (tasks': Tasks, ok: bool)
    requires tasks.Keys !! missing.Keys
    ensures ok <==> forall h :: h in missing ==> |Forgiven(missing[h], peer, retry)| < peers
    ensures ok ==> tasks'.Keys == tasks.Keys + missing.Keys
    ensures ok ==> forall h :: h in tasks' ==>
      tasks'[h] == if h in missing then Forgiven(missing[h], peer, retry) else tasks[h]
  {
    tasks', ok := tasks, true;
    var rest := missing.Keys;
    while rest != {}
      invariant rest <= missing.Keys && tasks'.Keys == tasks.Keys + (missing.Keys - rest)
      invariant forall h :: h in missing && h !in rest ==> |Forgiven(missing[h], peer, retry)| < peers
      invariant forall h :: h in tasks' ==>
        tasks'[h] == if h in missing then Forgiven(missing[h], peer, retry) else tasks[h]
      decreases rest
    {
      var h :| h in rest;
      var attempts := Forgiven(missing[h], peer, retry);
      if |attempts| >= peers {
        ok := false;
        return;
      }
      tasks' := tasks'[h := attempts];
      rest := rest - {h};
    }
  }

  function Untried(hashes: set<Hash>): Tasks {
    map h | h in hashes :: {}
  }

  function OwnedBy(hashes: set<Hash>, id: nat): map<Hash, nat> {
    map h | h in hashes :: id
  }

  // How the steps keep the two invariants.

  /** A request leaves the active ones for the finished ones; what it asks for stays the same. */
  lemma FinishPlaces(reqs: map<nat, Req>, active: map<Peer, nat>, finished: seq<nat>, delivered: set<nat>, hand: Hand,
      id: nat, req: Req)
    requires Places(reqs, active, finished, delivered, hand) && ActiveAt(reqs, active, id) && req.peer == reqs[id].peer
    ensures Places(reqs[id := req], active - {req.peer}, finished + [id], delivered, hand)
  {
    assert OnePlace(reqs, active, finished, delivered, hand, id);
    var reqs', active', finished' := reqs[id := req], active - {req.peer}, finished + [id];
    forall k | k in reqs'
      ensures OnePlace(reqs', active', finished', delivered, hand, k)
    {
      assert OnePlace(reqs, active, finished, delivered, hand, k);
    }
  }

  lemma SameTasks(tasks: Tasks, reqs: map<nat, Req>, delivered: set<nat>, hand: Hand,
      owner: map<Hash, nat>, handed: set<Hash>, resolved: set<Hash>, id: nat, req: Req)
    requires Conserved(tasks, reqs, delivered, hand, owner, handed, resolved) && id in reqs
    requires req.tasks == reqs[id].tasks
    ensures Conserved(tasks, reqs[id := req], delivered, hand, owner, handed, resolved)
  {
    var reqs' := reqs[id := req];
    forall k, h | Outstanding(reqs', delivered, hand, k) && h in reqs'[k].tasks
      ensures h in owner && owner[h] == k
    {
      assert Outstanding(reqs, delivered, hand, k) && h in reqs[k].tasks;
    }
  }

  /** Only the contents of the requests and who holds them matter, not where they wait. */
  lemma HandMoves(tasks: Tasks, reqs: map<nat, Req>, delivered: set<nat>, hand: Hand,
      owner: map<Hash, nat>, handed: set<Hash>, resolved: set<Hash>, delivered': set<nat>, hand': Hand)
    requires Conserved(tasks, reqs, delivered, hand, owner, handed, resolved)
    requires forall id :: id in reqs ==>
      (Outstanding(reqs, delivered, hand, id) <==> Outstanding(reqs, delivered', hand', id))
    ensures Conserved(tasks, reqs, delivered', hand', owner, handed, resolved)
  {
    forall k, h | Outstanding(reqs, delivered', hand', k) && h in reqs[k].tasks
      ensures h in owner && owner[h] == k
    {
      assert Outstanding(reqs, delivered, hand, k);
    }
  }

  lemma TrackPlaces(reqs: map<nat, Req>, active: map<Peer, nat>, finished: seq<nat>, delivered: set<nat>, id: nat)
    requires Places(reqs, active, finished, delivered, Assigning(id)) && reqs[id].peer !in active
    ensures Places(reqs, active[reqs[id].peer := id], finished, delivered, Idle)
  {
    assert OnePlace(reqs, active, finished, delivered, Assigning(id), id);
    var active' := active[reqs[id].peer := id];
    forall k | k in reqs
      ensures OnePlace(reqs, active', finished, delivered, Idle, k)
    {
      assert OnePlace(reqs, active, finished, delivered, Assigning(id), k);
    }
  }

  lemma DeliverPlaces(reqs: map<nat, Req>, active: map<Peer, nat>, finished: seq<nat>, delivered: set<nat>)
    requires Places(reqs, active, finished, delivered, Idle) && finished != []
    ensures Places(reqs, active, finished[1..], delivered + {finished[0]}, Processing(finished[0]))
    ensures finished[0] !in delivered
  {
    var id, finished', delivered' := finished[0], finished[1..], delivered + {finished[0]};
    assert finished == [id] + finished';
    forall k | k in reqs
      ensures OnePlace(reqs, active, finished', delivered', Processing(id), k)
    {
      assert OnePlace(reqs, active, finished, delivered, Idle, k);
    }
    assert OnePlace(reqs, active, finished, delivered, Idle, id);
  }

  lemma NewPlaces(reqs: map<nat, Req>, active: map<Peer, nat>, finished: seq<nat>, delivered: set<nat>, id: nat,
      req: Req)
    requires Places(reqs, active, finished, delivered, Idle) && id !in reqs
    ensures Places(reqs[id := req], active, finished, delivered, Assigning(id))
  {
    var reqs' := reqs[id := req];
    forall k | k in reqs'
      ensures OnePlace(reqs', active, finished, delivered, Assigning(id), k)
    {
      if k in reqs {
        assert OnePlace(reqs, active, finished, delivered, Idle, k);
      }
    }
  }

  lemma OwnersGrow(reqs: map<nat, Req>, delivered: set<nat>, owner: map<Hash, nat>, id: nat, req: Req)
    requires Owners(reqs, delivered, Idle, owner) && id !in reqs && id !in delivered && owner.Keys !! req.tasks.Keys
    ensures Owners(reqs[id := req], delivered, Assigning(id), owner + OwnedBy(req.tasks.Keys, id))
  {
    var reqs', owner' := reqs[id := req], owner + OwnedBy(req.tasks.Keys, id);
    forall k, h | Outstanding(reqs', delivered, Assigning(id), k) && h in reqs'[k].tasks
      ensures h in owner' && owner'[h] == k
    {
      if k != id {
        assert Outstanding(reqs, delivered, Idle, k);
      }
    }
  }

  lemma HandOut(tasks: Tasks, reqs: map<nat, Req>, delivered: set<nat>, owner: map<Hash, nat>,
      handed: set<Hash>, resolved: set<Hash>, left: Tasks, id: nat, req: Req)
    requires Conserved(tasks, reqs, delivered, Idle, owner, handed, resolved) && id !in reqs && id !in delivered
    requires left.Keys + req.tasks.Keys == tasks.Keys && left.Keys !! req.tasks.Keys
    ensures Conserved(left, reqs[id := req], delivered, Assigning(id), owner + OwnedBy(req.tasks.Keys, id), handed,
      resolved)
  {
    hide Owners;
    OwnersGrow(reqs, delivered, owner, id, req);
    assert (owner + OwnedBy(req.tasks.Keys, id)).Keys == owner.Keys + req.tasks.Keys;
  }

  lemma Refill(tasks: Tasks, reqs: map<nat, Req>, delivered: set<nat>, owner: map<Hash, nat>,
      handed: set<Hash>, resolved: set<Hash>, more: set<Hash>)
    requires Conserved(tasks, reqs, delivered, Idle, owner, handed, resolved) && more !! handed
    ensures Conserved(tasks + Untried(more), reqs, delivered, Idle, owner, handed + more, resolved)
  {
  }

  lemma TakeBack(tasks: Tasks, reqs: map<nat, Req>, delivered: set<nat>, id: nat, owner: map<Hash, nat>,
      handed: set<Hash>, resolved: set<Hash>, tasks': Tasks, arrived: set<Hash>)
    requires Conserved(tasks, reqs, delivered, Processing(id), owner, handed, resolved) && id in reqs && id in delivered
    requires tasks'.Keys == tasks.Keys + (reqs[id].tasks.Keys - arrived)
    ensures Conserved(tasks', reqs, delivered, Idle, owner - reqs[id].tasks.Keys, handed,
      resolved + (reqs[id].tasks.Keys * arrived))
  {
    assert Outstanding(reqs, delivered, Processing(id), id);
    var mine := reqs[id].tasks.Keys;
    assert forall h :: h in mine ==> h in owner && owner[h] == id;
    forall h | h in owner - mine
      ensures Outstanding(reqs, delivered, Idle, owner[h]) && h in reqs[owner[h]].tasks
    {
      assert Outstanding(reqs, delivered, Processing(id), owner[h]) && h in reqs[owner[h]].tasks;
    }
    forall k, h | Outstanding(reqs, delivered, Idle, k) && h in reqs[k].tasks
      ensures h in owner - mine && (owner - mine)[h] == k
    {
      assert Outstanding(reqs, delivered, Processing(id), k) && h in reqs[k].tasks;
    }
  }

  // The machine.

  /** Both loops between two steps, with the books of the run: which hashes were named, which are
      resolved, which requests were delivered. */
  datatype State = State(tasks: Tasks, reqs: map<nat, Req>, active: map<Peer, nat>, finished: seq<nat>,
                         hand: Hand, failed: bool,
                         named: set<Hash>, resolved: set<Hash>, delivered: set<nat>)

  const START := State(map[], map[], map[], [], Idle, false, {}, {}, {})

  /** What can happen, in any order. */
  datatype Event =
    | Assigned(peer: Peer, n: nat, missing: set<Hash>)
    | Tracked
    | Response(peer: Peer, blobs: seq<Hash>)
    | Left(peer: Peer)
    | TimedOut(id: nat)
    | Delivered
    | Processed(verdicts: seq<Verdict>, peers: nat)

  /** The event can happen now. The trie scheduler never names a hash twice. */
  predicate Enabled(s: State, e: Event) {
    match e
    case Assigned(_, _, missing) => s.hand == Idle && !s.failed && missing !! s.named
    case Tracked => s.hand.Assigning? && s.hand.id in s.reqs
    case Response(_, _) => true
    case Left(_) => true
    case TimedOut(id) => id in s.reqs
    case Delivered => s.hand == Idle && s.finished != []
    case Processed(verdicts, _) =>
      s.hand.Processing? && !s.failed && s.hand.id in s.reqs && |verdicts| == |Blobs(s.reqs[s.hand.id])|
  }

  /** The retry set is topped up with newly named hashes if it is too small. */
  function TopUpStep(s: State, n: nat, missing: set<Hash>): State {
    if |s.tasks| < n then s.(tasks := s.tasks + Untried(missing), named := s.named + missing) else s
  }

  /** A new request takes over tasks that its peer was not asked for; without any, all waiting tasks
      were already tried with the peer. */
  ghost predicate OfferStep(s: State, peer: Peer, n: nat, s': State) {
    if s'.hand == Idle then s' == s && (n > 0 ==> forall h :: h in s.tasks ==> peer in s.tasks[h])
    else
      && s'.hand.Assigning? && s'.hand.id !in s.reqs && s'.hand.id in s'.reqs
      && var taken := s'.reqs[s'.hand.id].tasks;
      && s' == s.(tasks := s'.tasks, reqs := s.reqs[s'.hand.id := Req(peer, taken, None, false)], hand := s'.hand)
      && s'.tasks.Keys + taken.Keys == s.tasks.Keys && s'.tasks.Keys !! taken.Keys && 0 < |taken| <= n
      && (forall h :: h in s'.tasks ==> s'.tasks[h] == s.tasks[h])
      && (forall h :: h in taken ==> peer !in s.tasks[h] && taken[h] == s.tasks[h] + {peer})
  }

  lemma OfferIs(s: State, s': State, peer: Peer, n: nat, left: Tasks, taken: Tasks)
    requires left.Keys + taken.Keys == s.tasks.Keys && left.Keys !! taken.Keys && 0 < |taken| <= n
    requires forall h :: h in left ==> left[h] == s.tasks[h]
    requires forall h :: h in taken ==> peer !in s.tasks[h] && taken[h] == s.tasks[h] + {peer}
    requires s'.hand.Assigning? && s'.hand.id !in s.reqs
    requires s' == s.(tasks := left, reqs := s.reqs[s'.hand.id := Req(peer, taken, None, false)], hand := s'.hand)
    ensures OfferStep(s, peer, n, s')
  {
  }

  lemma NoOffer(s: State, peer: Peer, n: nat, left: Tasks, taken: Tasks)
    requires left.Keys + taken.Keys == s.tasks.Keys && |taken| == 0 && s.hand == Idle
    requires forall h :: h in left ==> left[h] == s.tasks[h]
    requires n == 0 || forall h :: h in left ==> peer in left[h]
    ensures OfferStep(s, peer, n, s)
  {
    assert taken.Keys == {};
  }

  /** The peer's active request, changed as given, is finished. */
  function FinishStep(s: State, id: nat, req: Req): State {
    s.(reqs := s.reqs[id := req], active := s.active - {req.peer}, finished := s.finished + [id])
  }

  function RespondStep(s: State, peer: Peer, blobs: seq<Hash>): State {
    if peer in s.active && s.active[peer] in s.reqs
    then FinishStep(s, s.active[peer], s.reqs[s.active[peer]].(response := Some(blobs))) else s
  }

  function DropStep(s: State, peer: Peer): State {
    if peer in s.active && s.active[peer] in s.reqs
    then FinishStep(s, s.active[peer], s.reqs[s.active[peer]].(dropped := true)) else s
  }

  function TimeoutStep(s: State, id: nat): State
    requires id in s.reqs
  {
    if ActiveAt(s.reqs, s.active, id) then FinishStep(s, id, s.reqs[id]) else s
  }

  /** A request still active for the same peer is finished as dropped first. */
  function TrackStep(s: State): State
    requires s.hand.Assigning? && s.hand.id in s.reqs
  {
    var peer := s.reqs[s.hand.id].peer;
    var s1 := DropStep(s, peer);
    s1.(active := s1.active[peer := s.hand.id], hand := Idle)
  }

  function DeliverStep(s: State): State
    requires s.finished != []
  {
    s.(finished := s.finished[1..], hand := Processing(s.finished[0]), delivered := s.delivered + {s.finished[0]})
  }

  function Arrived(req: Req): set<Hash> {
    set h | h in Blobs(req)
  }

  /** The sync is given up: a blob was invalid, or a task has failed with all peers. */
  ghost predicate GivenUp(req: Req, verdicts: seq<Verdict>, peers: nat) {
    || Invalid in verdicts
    || exists h :: h in req.tasks && h !in Blobs(req) && |Forgiven(req.tasks[h], req.peer, Retry(req))| >= peers
  }

  ghost function ProcessStep(s: State, verdicts: seq<Verdict>, peers: nat): State
    requires s.hand.Processing? && s.hand.id in s.reqs
  {
    var req := s.reqs[s.hand.id];
    if GivenUp(req, verdicts, peers) then s.(failed := true, hand := Idle)
    else s.(tasks := s.tasks + Returned(req), hand := Idle, resolved := s.resolved + (req.tasks.Keys * Arrived(req)))
  }

  /** What goes back into the retry set. */
  function Returned(req: Req): Tasks {
    map h | h in req.tasks && h !in Blobs(req) :: Forgiven(req.tasks[h], req.peer, Retry(req))
  }

  /** A hash of the request that was not delivered. */
  predicate Missed(req: Req, h: Hash) {
    h in req.tasks && (req.response == None || h !in req.response.value)
  }

  /** The peers that a missed hash counts as tried with. The peer of the request is struck off, so that
      it may be asked again, unless it answered with nothing at all. */
  function TriedWith(req: Req, h: Hash): set<Peer>
    requires h in req.tasks
  {
    if req.response == Some([]) then req.tasks[h] else req.tasks[h] - {req.peer}
  }

  /** The sync is lost: a blob was invalid, or a missed hash has been tried with all peers. */
  ghost predicate Lost(req: Req, verdicts: seq<Verdict>, peers: nat) {
    Invalid in verdicts || exists h :: Missed(req, h) && |TriedWith(req, h)| >= peers
  }

  /** The missed hashes are up for retry again, and the others are as they were. */
  ghost predicate PaidBack(tasks: Tasks, tasks': Tasks, req: Req) {
    && (forall h :: h in tasks' <==> h in tasks || Missed(req, h))
    && (forall h :: h in tasks' ==> tasks'[h] == if Missed(req, h) then TriedWith(req, h) else tasks[h])
  }

  lemma LostExactly(req: Req, verdicts: seq<Verdict>, peers: nat)
    ensures GivenUp(req, verdicts, peers) <==> Lost(req, verdicts, peers)
  {
    forall h
      ensures Missed(req, h) <==> h in req.tasks && h !in Blobs(req)
      ensures h in req.tasks ==> TriedWith(req, h) == Forgiven(req.tasks[h], req.peer, Retry(req))
    {
    }
  }

  lemma ReturnedPaysBack(tasks: Tasks, req: Req)
    ensures PaidBack(tasks, tasks + Returned(req), req)
  {
  }

  ghost predicate Stepped(s: State, e: Event, s': State) {
    if !Enabled(s, e) then s' == s else
      match e
      case Assigned(peer, n, missing) => OfferStep(TopUpStep(s, n, missing), peer, n, s')
      case Tracked => s' == TrackStep(s)
      case Response(peer, blobs) => s' == RespondStep(s, peer, blobs)
      case Left(peer) => s' == DropStep(s, peer)
      case TimedOut(id) => s' == TimeoutStep(s, id)
      case Delivered => s' == DeliverStep(s)
      case Processed(verdicts, peers) => s' == ProcessStep(s, verdicts, peers)
  }

  ghost predicate InPlace(s: State) {
    Places(s.reqs, s.active, s.finished, s.delivered, s.hand)
  }

  ghost predicate Kept(s: State, owner: map<Hash, nat>) {
    Conserved(s.tasks, s.reqs, s.delivered, s.hand, owner, s.named, s.resolved)
  }

  /** Every request is in exactly one place; unless the sync was given up, every hash named is in the
      retry set, in exactly one outstanding request, or resolved; and with no request in flight
      nothing is lost. */
  ghost predicate Safe(s: State) {
    && InPlace(s)
    && (!s.failed ==> exists owner :: Kept(s, owner))
    && (!s.failed && s.active == map[] && s.finished == [] && s.hand == Idle ==> s.named == s.tasks.Keys + s.resolved)
  }

  class StateSync {
    var tasks: Tasks
    var reqs: map<nat, Req>
    var active: map<Peer, nat>
    var finished: seq<nat>
    var hand: Hand
    var failed: bool
    ghost var named: set<Hash>
    ghost var resolved: set<Hash>
    ghost var delivered: set<nat>
    ghost var owner: map<Hash, nat>

    ghost function View(): State
      reads this
    {
      State(tasks, reqs, active, finished, hand, failed, named, resolved, delivered)
    }

    ghost predicate Valid()
      reads this
    {
      InPlace(View()) && (!failed ==> Kept(View(), owner))
    }

    constructor ()
      ensures Valid() && View() == START
    {
      tasks, reqs, active, finished, hand, failed := map[], map[], map[], [], Idle, false;
      named, resolved, delivered, owner := {}, {}, {}, map[];
    }

    /** Refills the retry set with what the trie scheduler names next. */
    method TopUp(n: nat, missing: set<Hash>)
      requires Valid() && hand == Idle && !failed && missing !! named
      modifies `tasks, `named
      ensures Valid() && View() == TopUpStep(old(View()), n, missing)
      ensures forall h :: h in tasks <==> h in old(tasks) || (|old(tasks)| < n && h in missing)
      ensures forall h :: h in tasks && h in missing && |old(tasks)| < n ==> tasks[h] == {}
    {
      hide Places, Conserved;
      if |tasks| < n {
        Refill(tasks, reqs, delivered, owner, named, resolved, missing);
        tasks := tasks + Untried(missing);
        named := named + missing;
      }
    }

    /** Fills a request for an idle peer from the retry set. */
    method Assign(peer: Peer, n: nat, missing: set<Hash>)
      requires Valid() && hand == Idle && !failed && missing !! named
      modifies `tasks, `reqs, `hand, `owner, `named
      ensures Valid() && OfferStep(TopUpStep(old(View()), n, missing), peer, n, View())
    {
      hide Places, Conserved, TopUpStep, OfferStep, Kept, InPlace;
      TopUp(n, missing);
      ghost var s := View();
      var left, taken := Fill(tasks, peer, n);
      if |taken| > 0 {
        Offer(left, Req(peer, taken, None, false));
        OfferIs(s, View(), peer, n, left, taken);
      } else {
        NoOffer(s, peer, n, left, taken);
      }
    }

    /** Moves tasks from the retry set into a new request. */
    method Offer(left: Tasks, req: Req)
      requires Valid() && hand == Idle && !failed && left.Keys + req.tasks.Keys == tasks.Keys
      requires left.Keys !! req.tasks.Keys
      modifies `tasks, `reqs, `hand, `owner
      ensures Valid() && hand.Assigning? && hand.id !in old(reqs)
      ensures View() == old(View()).(tasks := left, reqs := old(reqs)[hand.id := req], hand := hand)
    {
      hide Places, Conserved, OwnedBy;
      var id := FreshId(reqs);
      DeliveredKnown(reqs, active, finished, delivered, hand);
      NewPlaces(reqs, active, finished, delivered, id, req);
      HandOut(tasks, reqs, delivered, owner, named, resolved, left, id, req);
      owner := owner + OwnedBy(req.tasks.Keys, id);
      tasks, reqs, hand := left, reqs[id := req], Assigning(id);
    }

    /** A request leaves the active ones. */
    method FinishReq(id: nat, req: Req)
      requires Valid() && ActiveAt(reqs, active, id)
      requires req.peer == reqs[id].peer && req.tasks == reqs[id].tasks
      modifies `reqs, `active, `finished
      ensures Valid() && View() == FinishStep(old(View()), id, req)
    {
      hide Places, Conserved;
      FinishPlaces(reqs, active, finished, delivered, hand, id, req);
      if !failed {
        SameTasks(tasks, reqs, delivered, hand, owner, named, resolved, id, req);
      }
      reqs, active, finished := reqs[id := req], active - {req.peer}, finished + [id];
    }

    /** The tracker takes over a request. A request still active for the same peer is not lost: it
        is finished as dropped. */
    method Track()
      requires Valid() && hand.Assigning?
      modifies `reqs, `active, `finished, `hand
      ensures hand == Idle && old(hand.id) in old(reqs)
      ensures Valid() && View() == TrackStep(old(View()))
      ensures
        var id, peer := old(hand.id), old(reqs)[old(hand.id)].peer;
        && active == old(active)[peer := id]
        && (peer !in old(active) ==> reqs == old(reqs) && finished == old(finished))
        && (peer in old(active) ==> finished == old(finished) + [old(active)[peer]])
    {
      hide Conserved;
      var id := hand.id;
      var peer := reqs[id].peer;
      assert OnePlace(reqs, active, finished, delivered, hand, id);
      DropPeer(peer);
      TrackPlaces(reqs, active, finished, delivered, id);
      if !failed {
        HandMoves(tasks, reqs, delivered, hand, owner, named, resolved, delivered, Idle);
      }
      active, hand := active[peer := id], Idle;
    }

    /** A packet arrives; data that was not asked for, or no longer, is ignored. */
    method Respond(peer: Peer, blobs: seq<Hash>)
      requires Valid()
      modifies `reqs, `active, `finished
      ensures Valid() && View() == RespondStep(old(View()), peer, blobs)
      ensures peer !in old(active) ==> View() == old(View())
      ensures peer in old(active) ==>
        var id := old(active)[peer];
        && id in old(reqs) && reqs == old(reqs)[id := old(reqs)[id].(response := Some(blobs))]
        && finished == old(finished) + [id] && active == old(active) - {peer}
    {
      if peer in active {
        var id := active[peer];
        FinishReq(id, reqs[id].(response := Some(blobs)));
      }
    }

    /** A peer leaves. */
    method DropPeer(peer: Peer)
      requires Valid()
      modifies `reqs, `active, `finished
      ensures Valid() && View() == DropStep(old(View()), peer) && peer !in active
      ensures peer !in old(active) ==> View() == old(View())
      ensures peer in old(active) ==>
        var id := old(active)[peer];
        && id in old(reqs) && reqs == old(reqs)[id := old(reqs)[id].(dropped := true)]
        && finished == old(finished) + [id] && active == old(active) - {peer}
    {
      if peer in active {
        var id := active[peer];
        FinishReq(id, reqs[id].(dropped := true));
      }
    }

    /** The timer of a request fires, perhaps after the request has already been answered. */
    method Timeout(id: nat)
      requires Valid() && id in reqs
      modifies `reqs, `active, `finished
      ensures Valid() && View() == TimeoutStep(old(View()), id) && reqs == old(reqs)
      ensures
        var peer := reqs[id].peer;
        if peer in old(active) && old(active)[peer] == id
        then active == old(active) - {peer} && finished == old(finished) + [id]
        else active == old(active) && finished == old(finished)
    {
      if ActiveAt(reqs, active, id) {
        FinishReq(id, reqs[id]);
      }
    }

    /** The oldest finished request goes to the processing loop, for the first time. */
    method Deliver()
      requires Valid() && hand == Idle && finished != []
      modifies `finished, `hand, `delivered
      ensures Valid() && View() == DeliverStep(old(View())) && old(finished)[0] !in old(delivered)
      ensures hand == Processing(old(finished)[0]) && finished == old(finished)[1..]
    {
      hide Conserved;
      DeliverPlaces(reqs, active, finished, delivered);
      if !failed {
        HandMoves(tasks, reqs, delivered, hand, owner, named, resolved, delivered + {finished[0]},
          Processing(finished[0]));
      }
      delivered := delivered + {finished[0]};
      hand, finished := Processing(finished[0]), finished[1..];
    }

    /** Processes a delivered request: the hashes whose blobs have arrived are resolved, the others
        go back into the retry set. */
    method Process(verdicts: seq<Verdict>, peers: nat) returns (stale: bool)
      requires Valid() && hand.Processing? && !failed && hand.id in reqs
      requires |verdicts| == |Blobs(reqs[hand.id])|
      modifies `tasks, `hand, `failed, `owner, `resolved
      ensures Valid() && View() == ProcessStep(old(View()), verdicts, peers) && hand == Idle
      ensures failed <==> Lost(old(reqs)[old(hand.id)], verdicts, peers)
      ensures !failed ==> PaidBack(old(tasks), tasks, old(reqs)[old(hand.id)])
      ensures !failed ==>
        (stale <==> Blobs(old(reqs[hand.id])) != [] && Arrived(old(reqs[hand.id])) !! old(reqs[hand.id]).tasks.Keys)
    {
      hide Conserved, Places, Lost, PaidBack;
      var id := hand.id;
      var req := reqs[id];
      var left, ok;
      LostExactly(req, verdicts, peers);
      ReturnedPaysBack(tasks, req);
      ReleasePlaces(reqs, active, finished, delivered, id);
      OwnTasks(tasks, reqs, delivered, id, owner, named, resolved);
      left, stale, ok := Absorb(req.tasks, Blobs(req), verdicts);
      if !ok {
        failed, hand := true, Idle;
        return;
      }
      assert left == req.tasks - Arrived(req);
      var tasks';
      tasks', ok := PutBack(tasks, left, req.peer, Retry(req), peers);
      if !ok {
        failed, hand := true, Idle;
        return;
      }
      BackIs(tasks, req, left, tasks');
      TakeBack(tasks, reqs, delivered, id, owner, named, resolved, tasks', Arrived(req));
      owner, resolved := owner - req.tasks.Keys, resolved + (req.tasks.Keys * Arrived(req));
      tasks, hand := tasks', Idle;
    }
  }

  lemma BackIs(tasks: Tasks, req: Req, left: Tasks, tasks': Tasks)
    requires left == req.tasks - Arrived(req) && tasks'.Keys == tasks.Keys + left.Keys
    requires forall h :: h in tasks' ==>
      tasks'[h] == if h in left then Forgiven(left[h], req.peer, Retry(req)) else tasks[h]
    ensures tasks' == tasks + Returned(req)
  {
  }

  function Blobs(req: Req): seq<Hash> {
    if req.response.Some? then req.response.value else []
  }

  /** The peer delivered something, or did not answer at all: it may be asked again. */
  predicate Retry(req: Req) {
    req.response == None || req.response.value != []
  }

  lemma ReleasePlaces(reqs: map<nat, Req>, active: map<Peer, nat>, finished: seq<nat>, delivered: set<nat>, id: nat)
    requires Places(reqs, active, finished, delivered, Processing(id))
    ensures Places(reqs, active, finished, delivered, Idle) && id in delivered
  {
    forall k | k in reqs
      ensures OnePlace(reqs, active, finished, delivered, Idle, k)
    {
      assert OnePlace(reqs, active, finished, delivered, Processing(id), k);
    }
  }

  lemma OwnTasks(tasks: Tasks, reqs: map<nat, Req>, delivered: set<nat>, id: nat, owner: map<Hash, nat>,
      handed: set<Hash>, resolved: set<Hash>)
    requires Conserved(tasks, reqs, delivered, Processing(id), owner, handed, resolved) && id in reqs
    ensures tasks.Keys !! reqs[id].tasks.Keys
  {
    assert Outstanding(reqs, delivered, Processing(id), id);
    assert forall h :: h in reqs[id].tasks ==> h in owner;
  }

  lemma DeliveredKnown(reqs: map<nat, Req>, active: map<Peer, nat>, finished: seq<nat>, delivered: set<nat>, hand: Hand)
    requires Places(reqs, active, finished, delivered, hand)
    ensures delivered <= reqs.Keys
  {
  }

  /** Requests are objects; a new one is different from all others. */
  method FreshId(reqs: map<nat, Req>) returns (id: nat)
    ensures id !in reqs
  {
    id := 0;
    var rest := reqs.Keys;
    while rest != {}
      invariant rest <= reqs.Keys && forall k :: k in reqs && k !in rest ==> k < id
      decreases rest
    {
      var k :| k in rest;
      if k >= id {
        id := k + 1;
      }
      rest := rest - {k};
    }
  }

  /** Whatever happens, every state along the way is safe. Events that cannot happen in the current
      state are skipped. */
  method Run(events: seq<Event>) returns (trace: seq<State>)
    ensures |trace| == |events| + 1 && trace[0] == START
    ensures forall i :: 0 <= i < |events| ==> Stepped(trace[i], events[i], trace[i + 1])
    ensures forall i :: 0 <= i <= |events| ==> Safe(trace[i])
  {
    hide Stepped, Safe, Conserved, Places;
    var sync := new StateSync();
    var now := START;
    StartIsSafe();
    trace := [now];
    for i := 0 to |events|
      invariant sync.Valid() && fresh(sync) && sync.View() == now
      invariant |trace| == i + 1 && trace[0] == START && trace[i] == now
      invariant forall j :: 0 <= j < i ==> Stepped(trace[j], events[j], trace[j + 1])
      invariant forall j :: 0 <= j <= i ==> Safe(trace[j])
    {
      now := Next(sync, now, events[i]);
      trace := trace + [now];
    }
  }

  lemma StartIsSafe()
    ensures Safe(START)
  {
    assert Kept(START, map[]);
  }

  lemma ValidIsSafe(s: State, owner: map<Hash, nat>)
    requires InPlace(s) && (!s.failed ==> Kept(s, owner))
    ensures Safe(s)
  {
    hide Conserved, Places;
    if !s.failed && s.active == map[] && s.finished == [] && s.hand == Idle {
      NothingLost(s.tasks, s.reqs, s.active, s.delivered, owner, s.named, s.resolved);
    }
  }

  /** One event, if it can happen. */
  method Next(sync: StateSync, now: State, e: Event) returns (next: State)
    requires sync.Valid() && sync.View() == now
    modifies sync
    ensures sync.Valid() && sync.View() == next && Stepped(now, e, next) && Safe(next)
  {
    hide Conserved, Places, OfferStep, TopUpStep, TrackStep, RespondStep, DropStep, TimeoutStep, ProcessStep, Safe;
    var named, resolved, delivered := now.named, now.resolved, now.delivered;
    if Enabled(now, e) {
      match e
      case Assigned(peer, n, missing) =>
        sync.Assign(peer, n, missing);
        if |now.tasks| < n {
          named := named + missing;
        }
        OfferKeepsBooks(now, peer, n, missing, sync.View());
      case Tracked =>
        sync.Track();
        TrackKeepsBooks(now);
      case Response(peer, blobs) =>
        sync.Respond(peer, blobs);
      case Left(peer) =>
        sync.DropPeer(peer);
      case TimedOut(id) =>
        sync.Timeout(id);
      case Delivered =>
        sync.Deliver();
        delivered := delivered + {now.finished[0]};
      case Processed(verdicts, peers) =>
        var stale := sync.Process(verdicts, peers);
        if !sync.failed {
          var req := now.reqs[now.hand.id];
          resolved := resolved + (req.tasks.Keys * Arrived(req));
        }
        ProcessKeepsBooks(now, verdicts, peers);
    }
    next := State(sync.tasks, sync.reqs, sync.active, sync.finished, sync.hand, sync.failed, named, resolved,
      delivered);
    FinishKeepsBooks(now, e);
    ValidIsSafe(next, sync.owner);
  }

  lemma OfferKeepsBooks(s: State, peer: Peer, n: nat, missing: set<Hash>, s': State)
    requires OfferStep(TopUpStep(s, n, missing), peer, n, s')
    ensures s'.named == (if |s.tasks| < n then s.named + missing else s.named)
    ensures s'.resolved == s.resolved && s'.delivered == s.delivered
  {
  }

  lemma TrackKeepsBooks(s: State)
    requires s.hand.Assigning? && s.hand.id in s.reqs
    ensures TrackStep(s).named == s.named && TrackStep(s).resolved == s.resolved
    ensures TrackStep(s).delivered == s.delivered
  {
  }

  lemma ProcessKeepsBooks(s: State, verdicts: seq<Verdict>, peers: nat)
    requires s.hand.Processing? && s.hand.id in s.reqs && !s.failed
    ensures var s' := ProcessStep(s, verdicts, peers);
      && s'.named == s.named && s'.delivered == s.delivered
      && s'.resolved == if s'.failed then s.resolved
           else s.resolved + (s.reqs[s.hand.id].tasks.Keys * Arrived(s.reqs[s.hand.id]))
  {
  }

  lemma FinishKeepsBooks(s: State, e: Event)
    ensures e.Response? ==> SameBooks(s, RespondStep(s, e.peer, e.blobs))
    ensures e.Left? ==> SameBooks(s, DropStep(s, e.peer))
    ensures e.TimedOut? && e.id in s.reqs ==> SameBooks(s, TimeoutStep(s, e.id))
  {
  }

  ghost predicate SameBooks(s: State, s': State) {
    s'.named == s.named && s'.resolved == s.resolved && s'.delivered == s.delivered
  }
}
