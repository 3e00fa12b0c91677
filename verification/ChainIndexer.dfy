/** The chain indexer (blockchain/chain_indexer.go): a background loop that processes the canonical
    chain section by section, without holding the lock, while new heads and reorganisations keep
    arriving. Each locked stretch is one step here, and so is each header that is read in between;
    the steps interleave in any order. */
module ChainIndexer {
  import opened Chain
  import opened Options

  const UINT64: nat := 0x1_0000_0000_0000_0000

  /** The first block number of a section. */
  function Start(section: nat, size: nat): nat {
    section * size
  }

  lemma StartIs(section: nat, size: nat)
    ensures Start(section, size) == section * size
  {
  }

  lemma StartNext(section: nat, size: nat)
    ensures Start(section + 1, size) == Start(section, size) + size
  {
  }

  lemma {:induction false} StartMonotone(a: nat, b: nat, size: nat)
    requires a <= b
    ensures Start(a, size) <= Start(b, size)
  {
    if a < b {
      StartMonotone(a, b - 1, size);
      StartNext(b - 1, size);
    }
  }

  lemma StartOfQuotient(n: nat, size: nat)
    requires size >= 1
    ensures Start(n / size, size) <= n && n / size <= n
  {
    var q := n / size;
    assert n == size * q + n % size;
    assert size * q == q + (size - 1) * q;
    ProductIsNat(size - 1, q);
  }

  lemma ProductIsNat(a: nat, b: nat)
    ensures a * b >= 0
  {
  }

  /** The hash of the last header. */
  function EndOf(run: seq<Header>, before: Hash): Hash {
    if run == [] then before else HashOf(run[|run| - 1])
  }

  /** Consecutive headers by number and parent hash, following the header with hash `before`. */
  ghost predicate IsRun(run: seq<Header>, from: nat, before: Hash)
    decreases |run|
  {
    run == [] ||
    (var front, last := run[..|run| - 1], run[|run| - 1];
     IsRun(front, from, before) && last.number == from + |front| && last.parentHash == EndOf(front, before))
  }

  lemma RunGrows(run: seq<Header>, from: nat, before: Hash, h: Header)
    requires IsRun(run, from, before) && h.number == from + |run| && h.parentHash == EndOf(run, before)
    ensures IsRun(run + [h], from, before) && EndOf(run + [h], before) == HashOf(h)
  {
    assert (run + [h])[..|run|] == run;
  }

  lemma {:induction false} RunsJoin(a: seq<Header>, b: seq<Header>, from: nat, before: Hash)
    requires IsRun(a, from, before) && IsRun(b, from + |a|, EndOf(a, before))
    ensures IsRun(a + b, from, before) && EndOf(a + b, before) == EndOf(b, EndOf(a, before))
    decreases |b|
  {
    if b == [] {
      assert a + b == a;
    } else {
      var n := |b| - 1;
      RunsJoin(a, b[..n], from, before);
      RunGrows(a + b[..n], from, before, b[n]);
      assert a + b == (a + b[..n]) + [b[n]];
    }
  }

  /** A run is determined by its end and its length. */
  lemma {:induction false} RunUnique(a: seq<Header>, b: seq<Header>, from: nat, x: Hash, y: Hash)
    requires IsRun(a, from, x) && IsRun(b, from, y) && |a| == |b| > 0 && EndOf(a, x) == EndOf(b, y)
    ensures a == b && x == y
    decreases |a|
  {
    var n := |a| - 1;
    if n > 0 {
      RunUnique(a[..n], b[..n], from, x, y);
    }
    assert a == a[..n] + [a[n]] && b == b[..n] + [b[n]];
  }

  // The section heads.

  /** The head of the section before, as the database would give it. */
  function HeadBefore(heads: map<nat, Hash>, section: nat): Hash {
    if section > 0 && section - 1 in heads then heads[section - 1] else Zero
  }

  ghost predicate Joins(run: seq<Header>, heads: map<nat, Hash>, section: nat, size: nat) {
    && section in heads && |run| == size && IsRun(run, Start(section, size), HeadBefore(heads, section))
    && heads[section] == EndOf(run, HeadBefore(heads, section))
  }

  ghost predicate Joined(heads: map<nat, Hash>, section: nat, size: nat) {
    exists run :: Joins(run, heads, section, size)
  }

  /** Section heads exist exactly for the stored sections, and consecutive heads are joined by a
      full run of headers. */
  ghost predicate Indexed(heads: map<nat, Hash>, stored: nat, size: nat) {
    && (forall i: nat :: i in heads <==> i < stored)
    && (forall i: nat :: i < stored ==> Joined(heads, i, size))
  }

  function Truncated(heads: map<nat, Hash>, sections: nat, stored: nat): map<nat, Hash> {
    map i | i in heads && !(sections <= i < stored) :: heads[i]
  }

  lemma TruncateKeeps(heads: map<nat, Hash>, stored: nat, sections: nat, size: nat)
    requires Indexed(heads, stored, size) && sections <= stored
    ensures Indexed(Truncated(heads, sections, stored), sections, size)
  {
    var heads' := Truncated(heads, sections, stored);
    forall i: nat | i < sections
      ensures Joined(heads', i, size)
    {
      assert Joined(heads, i, size);
      var run :| Joins(run, heads, i, size);
      assert Joins(run, heads', i, size);
    }
  }

  lemma ExtendKeeps(heads: map<nat, Hash>, stored: nat, size: nat, run: seq<Header>)
    requires Indexed(heads, stored, size) && |run| == size && IsRun(run, Start(stored, size), HeadBefore(heads, stored))
    ensures Indexed(heads[stored := EndOf(run, HeadBefore(heads, stored))], stored + 1, size)
  {
    var heads' := heads[stored := EndOf(run, HeadBefore(heads, stored))];
    forall i: nat | i < stored + 1
      ensures Joined(heads', i, size)
    {
      if i < stored {
        assert Joined(heads, i, size);
        var r :| Joins(r, heads, i, size);
        assert Joins(r, heads', i, size);
      } else {
        assert Joins(run, heads', i, size);
      }
    }
  }

  lemma HeadIsReal(heads: map<nat, Hash>, stored: nat, size: nat, section: nat)
    requires Indexed(heads, stored, size) && section < stored && size >= 1
    ensures heads[section] != Zero
  {
    assert Joined(heads, section, size);
    var run :| Joins(run, heads, section, size);
  }

  /** The stored heads are the ends of the sections of this chain. */
  ghost predicate HeadsOf(heads: map<nat, Hash>, stored: nat, size: nat, chain: seq<Header>) {
    forall i: nat :: i < stored ==> HeadOf(heads, i, size, chain)
  }

  ghost predicate HeadOf(heads: map<nat, Hash>, i: nat, size: nat, chain: seq<Header>) {
    i in heads && Start(i + 1, size) <= |chain| && EndOf(chain[..Start(i + 1, size)], Zero) == heads[i]
  }

  /** The stored sections together are one unbroken chain of headers from the first block on. */
  lemma {:induction false} OneChain(heads: map<nat, Hash>, stored: nat, size: nat) returns (chain: seq<Header>)
    requires Indexed(heads, stored, size) && size >= 1
    ensures |chain| == Start(stored, size) && IsRun(chain, 0, Zero)
    ensures EndOf(chain, Zero) == HeadBefore(heads, stored)
    ensures HeadsOf(heads, stored, size, chain)
  {
    hide IsRun, Start, Truncated;
    if stored == 0 {
      chain := [];
      EmptyRun();
    } else {
      var n := stored - 1;
      TruncateKeeps(heads, stored, n, size);
      TruncatedBelow(heads, stored, n, size);
      var front := OneChain(Truncated(heads, n, stored), n, size);
      assert Joined(heads, n, size);
      var run :| Joins(run, heads, n, size);
      RunsJoin(front, run, 0, Zero);
      StartNext(n, size);
      chain := front + run;
      NextHead(heads, Truncated(heads, n, stored), n, size, front, run);
    }
  }

  lemma TruncatedBelow(heads: map<nat, Hash>, stored: nat, n: nat, size: nat)
    requires Indexed(heads, stored, size) && n <= stored
    ensures HeadBefore(Truncated(heads, n, stored), n) == HeadBefore(heads, n)
    ensures forall i: nat :: i < n ==>
      i in heads && i in Truncated(heads, n, stored) && Truncated(heads, n, stored)[i] == heads[i]
  {
  }

  lemma NextHead(heads: map<nat, Hash>, below: map<nat, Hash>, n: nat, size: nat, front: seq<Header>, run: seq<Header>)
    requires HeadsOf(below, n, size, front) && |front| == Start(n, size) && n in heads
    requires Start(n + 1, size) == |front| + |run|
    requires forall i: nat :: i < n ==> i in heads && i in below && below[i] == heads[i]
    requires EndOf(front + run, Zero) == heads[n]
    ensures HeadsOf(heads, n + 1, size, front + run)
  {
    hide Start;
    var chain := front + run;
    forall i: nat | i < n + 1
      ensures HeadOf(heads, i, size, chain)
    {
      if i < n {
        assert HeadOf(below, i, size, front) && below[i] == heads[i];
        assert chain[..Start(i + 1, size)] == front[..Start(i + 1, size)];
      } else {
        assert chain[..Start(i + 1, size)] == chain;
      }
    }
  }

  lemma EmptyRun()
    ensures Start(0, 1) == 0 && (forall size: nat :: Start(0, size) == 0) && IsRun([], 0, Zero)
  {
  }

  // The machine.

  /** Where the background loop is: waiting for work, reading the headers of a section, or done
      with them and about to take the lock again. */
  datatype Phase =
    | Waiting
    | Reading(section: nat, oldHead: Hash, headers: seq<Header>, lastHead: Hash)
    | Read(section: nat, oldHead: Hash, headers: seq<Header>, result: Option<Hash>)

  /** The section that is being processed was the next one when it was started, and since then the
      stored sections can only have become fewer. */
  ghost predicate Begun(section: nat, oldHead: Hash, heads: map<nat, Hash>, stored: nat, size: nat) {
    && stored <= section && Start(section + 1, size) < UINT64 && section + 1 < UINT64
    && (if section == 0 then oldHead == Zero else oldHead != Zero)
    && (stored == section ==> oldHead == HeadBefore(heads, section))
  }

  ghost predicate PhaseOk(phase: Phase, heads: map<nat, Hash>, stored: nat, size: nat) {
    match phase
    case Waiting => true
    case Reading(section, oldHead, headers, lastHead) =>
      && Begun(section, oldHead, heads, stored, size)
      && |headers| <= size && IsRun(headers, Start(section, size), oldHead) && lastHead == EndOf(headers, oldHead)
    case Read(section, oldHead, headers, result) =>
      && Begun(section, oldHead, heads, stored, size)
      && (result.Some? ==>
            && |headers| == size && IsRun(headers, Start(section, size), oldHead)
            && result.value == EndOf(headers, oldHead))
  }

  lemma TruncateBegun(section: nat, oldHead: Hash, heads: map<nat, Hash>, stored: nat, sections: nat, size: nat)
    requires Begun(section, oldHead, heads, stored, size) && sections < stored
    ensures Begun(section, oldHead, Truncated(heads, sections, stored), sections, size)
  {
  }

  /** The check before a commit passes exactly if no reorganisation has cut below the section. For
      the first section the database is asked for the head of section 2^64 - 1, which is never
      stored. */
  lemma CheckIsExact(section: nat, oldHead: Hash, heads: map<nat, Hash>, stored: nat, size: nat)
    requires Begun(section, oldHead, heads, stored, size) && Indexed(heads, stored, size)
    ensures oldHead == Lookup(heads, Prev(section)) <==> stored == section
  {
  }

  /** One less, in 64 bits. */
  function Prev(section: nat): nat {
    if section == 0 then UINT64 - 1 else section - 1
  }

  function Lookup(heads: map<nat, Hash>, section: nat): Hash {
    if section in heads then heads[section] else Zero
  }

  /** The number of complete and confirmed sections at a head, in 64-bit arithmetic. */
  function Confirmed(head: nat, confirms: nat, size: nat): nat
    requires size >= 1
  {
    ((head + 1 - confirms) % UINT64) / size
  }

  /** What can happen, in any order: a head event arrives, the loop is woken, a header is read, the
      backend commits or fails, the loop takes the lock again. */
  datatype Event =
    | Head(head: nat, reorg: bool)
    | Wake
    | Next(hash: Hash, header: Option<Header>)
    | Backend(ok: bool)
    | Relock

  /** The event can happen now. A header is always found under its own hash and number. */
  predicate Enabled(e: Event, phase: Phase, size: nat) {
    match e
    case Head(head, _) => head < UINT64
    case Wake => phase == Waiting
    case Next(hash, header) =>
      && phase.Reading? && |phase.headers| < size
      && (header.Some? ==>
        HashOf(header.value) == hash && header.value.number == Start(phase.section, size) + |phase.headers|)
    case Backend(_) => phase.Reading? && |phase.headers| == size
    case Relock => phase.Read?
  }

  /** The state of the indexer between two steps. */
  datatype Snapshot = Snapshot(stored: nat, known: nat, cascaded: nat, heads: map<nat, Hash>, phase: Phase)

  const START := Snapshot(0, 0, 0, map[], Waiting)

  function Least(a: nat, b: nat): nat {
    if a < b then a else b
  }

  /** A reorganisation keeps the sections that end before it; a new head may make more known. */
  function HeadStep(s: Snapshot, head: nat, reorg: bool, size: nat, confirms: nat): Snapshot
    requires size >= 1
  {
    if reorg then
      var keep := Least(head / size, s.stored);
      Snapshot(keep, Least(head / size, s.known), Least(Start(head / size, size), s.cascaded),
               Truncated(s.heads, keep, s.stored), s.phase)
    else if head >= confirms && Confirmed(head, confirms, size) > s.known
      then s.(known := Confirmed(head, confirms, size))
    else s
  }

  lemma QuotientExactly(i: nat, n: nat, size: nat)
    requires size >= 1
    ensures i < n / size <==> (i + 1) * size <= n
  {
    var q, r := n / size, n % size;
    assert n == size * q + r;
    if i < q {
      StartMonotone(i + 1, q, size);
    } else {
      StartMonotone(q + 1, i + 1, size);
      assert (q + 1) * size == size * q + size;
    }
  }

  /** What a reorganisation back to block `head` does: a section stays, with its head, if and only if
      all of it lies below `head`; and the known and cascaded counts are cut at the same place. */
  ghost predicate Reverted(s: Snapshot, s': Snapshot, head: nat, size: nat)
    requires size >= 1
  {
    && (forall i: nat :: i in s'.heads <==> i in s.heads && (i + 1) * size <= head)
    && (forall i: nat :: i in s'.heads ==> s'.heads[i] == s.heads[i])
    && CutAt(s.stored, s'.stored, head, size) && CutAt(s.known, s'.known, head, size)
    && s'.cascaded == Least(head - head % size, s.cascaded) && s'.phase == s.phase
  }

  /** `n'` is the number of those of the first `n` sections that lie below `head`. */
  ghost predicate CutAt(n: nat, n': nat, head: nat, size: nat) {
    n' <= n && n' * size <= head && (n' == n || head < (n' + 1) * size)
  }

  lemma ReorgReverts(s: Snapshot, head: nat, size: nat, confirms: nat)
    requires size >= 1 && Indexed(s.heads, s.stored, size)
    ensures Reverted(s, HeadStep(s, head, true, size, confirms), head, size)
  {
    hide Joined, Truncated, CutAt;
    TruncatedExactly(s.heads, s.stored, head, size);
    LeastCuts(s.stored, head, size);
    LeastCuts(s.known, head, size);
    assert head == size * (head / size) + head % size;
  }

  lemma TruncatedExactly(heads: map<nat, Hash>, stored: nat, head: nat, size: nat)
    requires size >= 1 && Indexed(heads, stored, size)
    ensures var rest := Truncated(heads, Least(head / size, stored), stored);
      && (forall i: nat :: i in rest <==> i in heads && (i + 1) * size <= head)
      && (forall i: nat :: i in rest ==> rest[i] == heads[i])
  {
    hide Joined;
    var rest := Truncated(heads, Least(head / size, stored), stored);
    forall i: nat
      ensures i in rest <==> i in heads && (i + 1) * size <= head
    {
      QuotientExactly(i, head, size);
    }
  }

  lemma LeastCuts(n: nat, head: nat, size: nat)
    requires size >= 1
    ensures CutAt(n, Least(head / size, n), head, size)
  {
    QuotientExactly(head / size, head, size);
    if n > 0 {
      QuotientExactly(n - 1, head, size);
    }
    if head / size > 0 {
      QuotientExactly(head / size - 1, head, size);
    }
  }

  /** What a new head does: the known sections become those that end at least `confirms` blocks
      before the next one, unless more are known already. Nothing else changes. */
  ghost predicate Advanced(s: Snapshot, s': Snapshot, head: nat, size: nat, confirms: nat) {
    && s' == s.(known := s'.known) && s.known <= s'.known
    && (s'.known == s.known || s'.known * size + confirms <= head + 1)
    && head + 1 < (s'.known + 1) * size + confirms
  }

  /** This holds of every head but one: at the highest number there is, and with no confirmations
      asked for, the count wraps to zero. */
  lemma HeadAdvances(s: Snapshot, head: nat, size: nat, confirms: nat)
    requires size >= 1 && head < UINT64
    ensures head + 1 < UINT64 + confirms ==> Advanced(s, HeadStep(s, head, false, size, confirms), head, size, confirms)
    ensures head + 1 == UINT64 + confirms ==> HeadStep(s, head, false, size, confirms) == s
  {
    if head >= confirms && head + 1 < UINT64 + confirms {
      var n := head + 1 - confirms;
      assert n % UINT64 == n;
      QuotientExactly(n / size, n, size);
      if n / size > 0 {
        QuotientExactly(n / size - 1, n, size);
      }
      if s.known > n / size {
        QuotientExactly(s.known, n, size);
      }
    } else if head < confirms {
      StartMonotone(1, s.known + 1, size);
      assert Start(s.known + 1, size) == (s.known + 1) * size;
    }
  }

  /** Processing starts with the next section, if it is known to be complete. */
  function WakeStep(s: Snapshot): Snapshot {
    if s.known > s.stored
      then s.(phase := Reading(s.stored, HeadBefore(s.heads, s.stored), [], HeadBefore(s.heads, s.stored)))
    else s
  }

  function NextStep(s: Snapshot, header: Option<Header>): Snapshot
    requires s.phase.Reading?
  {
    if header.Some? && header.value.parentHash == s.phase.lastHead then
      s.(phase := s.phase.(headers := s.phase.headers + [header.value], lastHead := HashOf(header.value)))
    else s.(phase := Read(s.phase.section, s.phase.oldHead, s.phase.headers, None))
  }

  function BackendStep(s: Snapshot, ok: bool): Snapshot
    requires s.phase.Reading?
  {
    s.(phase := Read(s.phase.section, s.phase.oldHead, s.phase.headers, if ok then Some(s.phase.lastHead) else None))
  }

  /** A processed section is stored if nothing was cut below it meanwhile; otherwise nothing more is
      attempted until the next notification. */
  function RelockStep(s: Snapshot, size: nat): Snapshot
    requires s.phase.Read?
  {
    if s.phase.result.Some? && s.stored == s.phase.section then
      var end := Start(s.stored + 1, size);
      Snapshot(s.stored + 1, s.known, if end > 0 then end - 1 else 0,
               s.heads[s.stored := s.phase.result.value], Waiting)
    else s.(known := s.stored, phase := Waiting)
  }

  function Step(s: Snapshot, e: Event, size: nat, confirms: nat): Snapshot
    requires size >= 1
  {
    if !Enabled(e, s.phase, size) then s else
      match e
      case Head(head, reorg) => HeadStep(s, head, reorg, size, confirms)
      case Wake => WakeStep(s)
      case Next(_, header) => NextStep(s, header)
      case Backend(ok) => BackendStep(s, ok)
      case Relock => RelockStep(s, size)
  }

  /** The state after a sequence of events. */
  function Steps(events: seq<Event>, size: nat, confirms: nat): Snapshot
    requires size >= 1
    decreases |events|
  {
    if events == [] then START
    else Step(Steps(events[..|events| - 1], size, confirms), events[|events| - 1], size, confirms)
  }

  class ChainIndexer {
    const size: nat
    const confirms: nat
    var stored: nat
    var known: nat
    var cascaded: nat
    var heads: map<nat, Hash>
    var phase: Phase

    function View(): Snapshot
      reads this
    {
      Snapshot(stored, known, cascaded, heads, phase)
    }

    ghost predicate Valid()
      reads this
    {
      && size >= 1 && Indexed(heads, stored, size) && PhaseOk(phase, heads, stored, size)
      && stored < UINT64 && Start(stored, size) < UINT64
      && known < UINT64 && Start(known, size) < UINT64
    }

    /** Loads what an earlier run has stored. */
    constructor (size: nat, confirms: nat, stored: nat, heads: map<nat, Hash>)
      requires size >= 1 && Indexed(heads, stored, size) && stored < UINT64 && Start(stored, size) < UINT64
      ensures Valid() && this.size == size && this.confirms == confirms
      ensures View() == Snapshot(stored, 0, 0, heads, Waiting)
    {
      this.size, this.confirms, this.stored, this.heads := size, confirms, stored, heads;
      known, cascaded, phase := 0, 0, Waiting;
    }

    /** Sets the number of valid sections, removing the heads of the others. */
    method SetValidSections(sections: nat)
      modifies `stored, `heads
      ensures stored == sections && heads == Truncated(old(heads), sections, old(stored))
      ensures forall i :: i in heads <==> i in old(heads) && !(sections <= i < old(stored))
    {
      while stored > sections
        invariant stored <= old(stored) && (sections <= stored || stored == old(stored))
        invariant heads == Truncated(old(heads), stored, old(stored))
      {
        stored := stored - 1;
        heads := heads - {stored};
      }
      stored := sections;
    }

    /** A new head, or the common ancestor of a reorganisation. A reorganisation keeps exactly the
        sections that end before it. */
    method NewHead(head: nat, reorg: bool)
      requires Valid() && head < UINT64
      modifies `stored, `known, `cascaded, `heads
      ensures Valid() && View() == HeadStep(old(View()), head, reorg, size, confirms)
      ensures reorg ==> Reverted(old(View()), View(), head, size)
      ensures !reorg && head + 1 < UINT64 + confirms ==> Advanced(old(View()), View(), head, size, confirms)
    {
      hide Indexed, IsRun, Begun, Start, Reverted, Advanced;
      ReorgReverts(View(), head, size, confirms);
      HeadAdvances(View(), head, size, confirms);
      if reorg {
        var changed := head / size;
        StartOfQuotient(head, size);
        if changed < known {
          known := changed;
        }
        assert Truncated(heads, stored, stored) == heads;
        if changed < stored {
          TruncateKeeps(heads, stored, changed, size);
          if phase != Waiting {
            TruncateBegun(phase.section, phase.oldHead, heads, stored, changed, size);
          }
          SetValidSections(changed);
        }
        if Start(changed, size) < cascaded {
          cascaded := Start(changed, size);
        }
        return;
      }
      if head >= confirms {
        StartOfQuotient((head + 1 - confirms) % UINT64, size);
        var sections := Confirmed(head, confirms, size);
        if sections > known {
          known := sections;
        }
      }
    }

    /** The loop is woken and starts on the next section, if there is one. */
    method Begin()
      requires Valid() && phase == Waiting
      modifies `phase
      ensures Valid() && View() == WakeStep(old(View()))
      ensures known <= stored ==> phase == Waiting
      ensures known > stored ==>
        phase.Reading? && phase.section == stored && phase.headers == [] && phase.lastHead == phase.oldHead &&
        phase.oldHead == if stored == 0 then Zero else heads[stored - 1]
    {
      hide IsRun, Start;
      if known > stored {
        var section := stored;
        var oldHead := if section > 0 then Lookup(heads, section - 1) else Zero;
        if section > 0 {
          HeadIsReal(heads, stored, size, section - 1);
        }
        StartMonotone(section + 1, known, size);
        NothingRead(Start(section, size), oldHead);
        phase := Reading(section, oldHead, [], oldHead);
      }
    }

    /** Reads the canonical hash at the next number and the header with that hash; the chain may
        have changed since the last read. A missing entry or a header that does not follow the
        last one ends the processing. */
    method ReadHeader(hash: Hash, header: Option<Header>)
      requires Valid() && phase.Reading? && |phase.headers| < size
      requires header.Some? ==>
        HashOf(header.value) == hash && header.value.number == Start(phase.section, size) + |phase.headers|
      modifies `phase
      ensures Valid() && View() == NextStep(old(View()), header)
      ensures phase.section == old(phase.section) && phase.oldHead == old(phase.oldHead)
      ensures phase.Reading? <==> header.Some? && header.value.parentHash == old(phase.lastHead)
      ensures phase.Reading? ==>
        phase.headers == old(phase.headers) + [header.value] && phase.lastHead == HashOf(header.value)
      ensures !phase.Reading? ==> phase.Read? && phase.result == None
    {
      hide Indexed, IsRun, Begun, Start;
      if hash == Zero || header == None || header.value.parentHash != phase.lastHead {
        phase := Read(phase.section, phase.oldHead, phase.headers, None);
        return;
      }
      RunGrows(phase.headers, Start(phase.section, size), phase.oldHead, header.value);
      phase := phase.(headers := phase.headers + [header.value], lastHead := HashOf(header.value));
    }

    /** All headers of the section have been read; the backend commits, or fails to. */
    method CommitBackend(ok: bool)
      requires Valid() && phase.Reading? && |phase.headers| == size
      modifies `phase
      ensures Valid() && View() == BackendStep(old(View()), ok)
    {
      phase := Read(phase.section, phase.oldHead, phase.headers, if ok then Some(phase.lastHead) else None);
    }

    /** Takes the lock again. The section is stored exactly if it was processed completely and no
        reorganisation has cut below it, and then it is the next section to store. */
    method Finish() returns (committed: bool)
      requires Valid() && phase.Read?
      modifies `stored, `known, `cascaded, `heads, `phase
      ensures Valid() && View() == RelockStep(old(View()), size)
      ensures committed <==> old(phase.result).Some? && old(stored) == old(phase.section)
      ensures phase == Waiting
      ensures committed ==>
        && stored == old(stored) + 1 && heads == old(heads)[old(stored) := old(phase.result).value]
        && known == old(known) && cascaded == stored * size - 1
      ensures !committed ==>
        stored == old(stored) && heads == old(heads) && cascaded == old(cascaded) && known == stored
    {
      hide Indexed, IsRun, Start;
      var section, oldHead, result := phase.section, phase.oldHead, phase.result;
      CheckIsExact(section, oldHead, heads, stored, size);
      committed := result.Some? && oldHead == Lookup(heads, Prev(section));
      if committed {
        ExtendKeeps(heads, stored, size, phase.headers);
        NoneAbove(heads, stored, size);
        heads := heads[section := result.value];
        assert Truncated(heads, section + 1, stored) == heads;
        SetValidSections(section + 1);
        StartNext(section, size);
        StartIs(stored, size);
        cascaded := Start(stored, size) - 1;
      } else {
        known := stored;
      }
      phase := Waiting;
    }
  }

  lemma NothingRead(from: nat, before: Hash)
    ensures IsRun([], from, before)
  {
  }

  lemma NoneAbove(heads: map<nat, Hash>, stored: nat, size: nat)
    requires Indexed(heads, stored, size)
    ensures forall i: nat :: i in heads ==> i < stored
  {
  }

  /** After every interleaving the stored section heads are exactly those of the stored sections,
      and the stored sections are one unbroken chain of headers. */
  method Run(size: nat, confirms: nat, events: seq<Event>)
      returns (s: Snapshot, trace: seq<Snapshot>, ghost chain: seq<Header>)
    requires size >= 1
    ensures |trace| == |events| + 1 && trace[|events|] == s == Steps(events, size, confirms)
    ensures forall i :: 0 <= i <= |events| ==>
      trace[i] == Steps(events[..i], size, confirms) && Indexed(trace[i].heads, trace[i].stored, size)
    ensures forall i :: 0 <= i < |events| && events[i].Head? && events[i].head < UINT64 ==>
      if events[i].reorg then Reverted(trace[i], trace[i + 1], events[i].head, size)
      else events[i].head + 1 < UINT64 + confirms ==>
             Advanced(trace[i], trace[i + 1], events[i].head, size, confirms)
    ensures Indexed(s.heads, s.stored, size)
    ensures |chain| == Start(s.stored, size) && IsRun(chain, 0, Zero) && HeadsOf(s.heads, s.stored, size, chain)
  {
    hide IsRun, HeadsOf, PhaseOk, Indexed, HeadStep, WakeStep, NextStep, BackendStep, RelockStep, Reverted, Advanced;
    NothingStored(size);
    var indexer := new ChainIndexer(size, confirms, 0, map[]);
    trace := [indexer.View()];
    for i := 0 to |events|
      invariant indexer.Valid() && fresh(indexer) && indexer.size == size && indexer.confirms == confirms
      invariant indexer.View() == Steps(events[..i], size, confirms)
      invariant |trace| == i + 1 && trace[i] == indexer.View()
      invariant forall j :: 0 <= j <= i ==>
        trace[j] == Steps(events[..j], size, confirms) && Indexed(trace[j].heads, trace[j].stored, size)
      invariant forall j :: 0 <= j < i && events[j].Head? && events[j].head < UINT64 ==>
        if events[j].reorg then Reverted(trace[j], trace[j + 1], events[j].head, size)
        else events[j].head + 1 < UINT64 + confirms ==>
               Advanced(trace[j], trace[j + 1], events[j].head, size, confirms)
    {
      assert events[..i + 1][..i] == events[..i];
      if Enabled(events[i], indexer.phase, size) {
        match events[i]
        case Head(head, reorg) =>
          indexer.NewHead(head, reorg);
        case Wake =>
          indexer.Begin();
        case Next(hash, header) =>
          indexer.ReadHeader(hash, header);
        case Backend(ok) =>
          indexer.CommitBackend(ok);
        case Relock =>
          var committed := indexer.Finish();
      }
      trace := trace + [indexer.View()];
    }
    assert events[..|events|] == events;
    s := indexer.View();
    chain := OneChain(s.heads, s.stored, size);
  }

  lemma NothingStored(size: nat)
    ensures Indexed(map[], 0, size) && Start(0, size) == 0
  {
  }
}
