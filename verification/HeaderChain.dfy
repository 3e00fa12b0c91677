/** The header chain: fork choice by total difficulty and the number-to-hash index
    (blockchain/headerchain.go). */
module HeaderChain {
  import opened Chain

  datatype Status = NonStat | CanonStat | SideStat

  /** Contents of the header database together with the in-memory head. */
  datatype HeaderDb = HeaderDb(
    genesis: Header,
    headers: map<Hash, Header>,
    tds: map<Hash, nat>,
    canon: map<nat, Hash>,
    head: Header)

  /** The index that a chain with the given head should have: its ancestor path, nothing else. */
  ghost function PathIndex(head: Header): map<nat, Hash> {
    map n: nat | 0 <= n <= head.number :: HashOf(At(head, n))
  }

  /** Stored headers sit under their own hash, reach genesis, and have their parent stored. */
  ghost predicate Closed(headers: map<Hash, Header>, genesis: Header) {
    HashOf(genesis) in headers && genesis.number == 0 &&
    forall k {:trigger headers[k]} :: k in headers ==>
      k == HashOf(headers[k]) && Rooted(headers[k], genesis) &&
      (headers[k] != genesis ==> headers[k].parentHash in headers)
  }

  /** The stored total difficulty of every stored header is the one of its path. */
  ghost predicate TdsExact(s: HeaderDb) {
    s.tds.Keys == s.headers.Keys &&
    forall k :: k in s.headers ==> s.tds[k] == PathTd(s.headers[k], s.genesis)
  }

  ghost predicate HeadHeaviest(s: HeaderDb) {
    HashOf(s.head) in s.tds && forall k :: k in s.tds ==> s.tds[k] <= s.tds[HashOf(s.head)]
  }

  ghost predicate Inv(s: HeaderDb) {
    Closed(s.headers, s.genesis) && TdsExact(s) && HashOf(s.head) in s.headers &&
    HeadHeaviest(s) && s.canon == PathIndex(s.head)
  }

  /** A database that holds only the genesis header. */
  ghost function Fresh(g: Header): HeaderDb {
    HeaderDb(g, map[HashOf(g) := g], map[HashOf(g) := g.difficulty], map[0 := HashOf(g)], g)
  }

  /** What writing one header does; `coin` is the coin flip used at equal total difficulty. */
  ghost function Write(s: HeaderDb, h: Header, coin: bool): (HeaderDb, Status)
    requires HashOf(s.head) in s.tds
  {
    if h.parentHash !in s.tds then (s, NonStat)
    else if Wins(s, h, coin) then (Store(s, h).(canon := PathIndex(h), head := h), CanonStat)
    else (Store(s, h), SideStat)
  }

  /** Fork choice: strictly heavier, or equally heavy and the coin says so. */
  ghost predicate Wins(s: HeaderDb, h: Header, coin: bool)
    requires HashOf(s.head) in s.tds && h.parentHash in s.tds
  {
    var externTd, localTd := h.difficulty + s.tds[h.parentHash], s.tds[HashOf(s.head)];
    externTd > localTd || (externTd == localTd && coin)
  }

  ghost function Store(s: HeaderDb, h: Header): HeaderDb
    requires h.parentHash in s.tds
  {
    s.(headers := s.headers[HashOf(h) := h], tds := s.tds[HashOf(h) := h.difficulty + s.tds[h.parentHash]])
  }

  lemma FreshInv(g: Header)
    requires g.number == 0
    ensures Inv(Fresh(g))
  {
  }

  lemma {:induction false} WriteExtendsStore(s: HeaderDb, h: Header)
    requires Closed(s.headers, s.genesis) && TdsExact(s)
    requires WellNumbered(h) && h.parentHash in s.tds
    ensures h.number > 0 && h != s.genesis && Rooted(h, s.genesis)
    ensures HashOf(s.headers[h.parentHash]) == h.parentHash
    ensures Closed(s.headers[HashOf(h) := h], s.genesis)
    ensures h.difficulty + s.tds[h.parentHash] == PathTd(h, s.genesis)
  {
    assert h.parentHash == HashOf(s.headers[h.parentHash]);
    RootedNumber(h.parentHash.header, s.genesis);
  }

  lemma WriteKeepsTds(s: HeaderDb, h: Header, coin: bool)
    requires Closed(s.headers, s.genesis) && TdsExact(s) && HashOf(s.head) in s.tds
    requires WellNumbered(h) && h.parentHash in s.tds
    ensures TdsExact(Write(s, h, coin).0)
  {
    WriteExtendsStore(s, h);
  }

  /** The new head is at least as heavy as everything stored, and as the old head. */
  lemma WriteKeepsHeaviest(s: HeaderDb, h: Header, coin: bool)
    requires HeadHeaviest(s) && h.parentHash in s.tds
    requires HashOf(h) in s.tds ==> s.tds[HashOf(h)] == h.difficulty + s.tds[h.parentHash]
    ensures var s' := Write(s, h, coin).0;
      HeadHeaviest(s') && s.tds[HashOf(s.head)] <= s'.tds[HashOf(s'.head)]
  {
  }

  lemma WriteKeepsInv(s: HeaderDb, h: Header, coin: bool)
    requires Inv(s) && WellNumbered(h)
    ensures Inv(Write(s, h, coin).0)
    ensures Write(s, h, coin).0.genesis == s.genesis
  {
    if h.parentHash in s.tds {
      WriteExtendsStore(s, h);
      WriteKeepsTds(s, h, coin);
      WriteKeepsHeaviest(s, h, coin);
    }
  }

  lemma HeadFacts(s: HeaderDb)
    requires Inv(s)
    ensures Closed(s.headers, s.genesis) && TdsExact(s) && s.tds.Keys == s.headers.Keys
    ensures HashOf(s.head) in s.tds && Rooted(s.head, s.genesis) && s.canon == PathIndex(s.head)
  {
    assert s.headers[HashOf(s.head)] == s.head;
  }

  /** How one write moves the head: never to a lighter one; to the written header when the status
      is canonical; not at all, index included, otherwise. */
  lemma WriteMovesHead(s: HeaderDb, h: Header, coin: bool)
    requires Inv(s) && WellNumbered(h)
    ensures var (s', st) := Write(s, h, coin);
      && PathTd(s'.head, s.genesis) >= PathTd(s.head, s.genesis)
      && (st == CanonStat ==> s'.head == h)
      && (st != CanonStat ==> s'.head == s.head && s'.canon == s.canon)
      && (st == NonStat <==> h.parentHash !in s.headers)
  {
    if h.parentHash in s.tds {
      WriteExtendsStore(s, h);
    }
  }

  /** A header whose parent is known is stored with its total difficulty, whether or not it becomes
      canonical; nothing else is added and nothing is lost. An unknown parent changes nothing. */
  lemma WriteStores(s: HeaderDb, h: Header, coin: bool)
    requires Inv(s)
    ensures var (s', st) := Write(s, h, coin);
      if h.parentHash !in s.headers then s' == s && st == NonStat
      else
        && s'.headers == s.headers[HashOf(h) := h]
        && s'.tds == s.tds[HashOf(h) := h.difficulty + s.tds[h.parentHash]]
        && (st == CanonStat <==>
              || h.difficulty + s.tds[h.parentHash] > s.tds[HashOf(s.head)]
              || (h.difficulty + s.tds[h.parentHash] == s.tds[HashOf(s.head)] && coin))
        && (st == SideStat <==> st != CanonStat)
  {
    hide Closed, PathIndex;
  }

  datatype WriteEvent = WriteEvent(header: Header, coin: bool)

  ghost function Run(s: HeaderDb, evs: seq<WriteEvent>): HeaderDb
    requires Inv(s)
    requires forall i :: 0 <= i < |evs| ==> WellNumbered(evs[i].header)
    ensures Inv(Run(s, evs)) && Run(s, evs).genesis == s.genesis
    decreases |evs|
  {
    if evs == [] then s
    else
      var s0 := Run(s, evs[..|evs| - 1]);
      WriteKeepsInv(s0, evs[|evs| - 1].header, evs[|evs| - 1].coin);
      Write(s0, evs[|evs| - 1].header, evs[|evs| - 1].coin).0
  }

  /** The i-th written header has this hash, and its parent was stored when its turn came. */
  ghost predicate StoredAt(s: HeaderDb, evs: seq<WriteEvent>, k: Hash, i: nat)
    requires Inv(s)
    requires forall i :: 0 <= i < |evs| ==> WellNumbered(evs[i].header)
  {
    i < |evs| && k == HashOf(evs[i].header) && evs[i].header.parentHash in Run(s, evs[..i]).headers
  }

  lemma StoredBefore(s: HeaderDb, evs: seq<WriteEvent>, k: Hash, i: nat)
    requires Inv(s) && i < |evs| - 1
    requires forall i :: 0 <= i < |evs| ==> WellNumbered(evs[i].header)
    ensures StoredAt(s, evs, k, i) <==> StoredAt(s, evs[..|evs| - 1], k, i)
  {
    hide Inv, Run;
    assert evs[..|evs| - 1][..i] == evs[..i];
  }

  /** What a run has stored: what was there before, and of the written headers exactly those whose
      parent was stored when their turn came. */
  lemma {:induction false} RunStores(s: HeaderDb, evs: seq<WriteEvent>, k: Hash)
    requires Inv(s)
    requires forall i :: 0 <= i < |evs| ==> WellNumbered(evs[i].header)
    ensures k in Run(s, evs).headers <==> k in s.headers || exists i :: StoredAt(s, evs, k, i)
    decreases |evs|
  {
    hide Inv, Write, StoredAt;
    if evs == [] {
      NothingWritten(s, k);
    } else {
      var n := |evs| - 1;
      var front, last := evs[..n], evs[n];
      RunStores(s, front, k);
      HeadFacts(Run(s, front));
      WriteStores(Run(s, front), last.header, last.coin);
      LastStored(s, evs, k);
      forall i: nat
        ensures i < n ==> (StoredAt(s, evs, k, i) <==> StoredAt(s, front, k, i))
        ensures i >= n ==> !StoredAt(s, front, k, i)
        ensures i > n ==> !StoredAt(s, evs, k, i)
      {
        if i < n {
          StoredBefore(s, evs, k, i);
        } else {
          Beyond(s, front, k, i);
          if i > n {
            Beyond(s, evs, k, i);
          }
        }
      }
    }
  }

  lemma NothingWritten(s: HeaderDb, k: Hash)
    requires Inv(s)
    ensures Run(s, []) == s && forall i :: !StoredAt(s, [], k, i)
  {
  }

  lemma LastStored(s: HeaderDb, evs: seq<WriteEvent>, k: Hash)
    requires Inv(s) && evs != []
    requires forall i :: 0 <= i < |evs| ==> WellNumbered(evs[i].header)
    ensures var n := |evs| - 1;
      StoredAt(s, evs, k, n) <==>
        k == HashOf(evs[n].header) && evs[n].header.parentHash in Run(s, evs[..n]).headers
  {
  }

  lemma Beyond(s: HeaderDb, evs: seq<WriteEvent>, k: Hash, i: nat)
    requires Inv(s) && i >= |evs|
    requires forall i :: 0 <= i < |evs| ==> WellNumbered(evs[i].header)
    ensures !StoredAt(s, evs, k, i)
  {
  }

  /** The head at the end of a run is at least as heavy as every header whose parent was known when it
      was written. */
  lemma HeadBeatsAll(g: Header, evs: seq<WriteEvent>, i: nat)
    requires Inv(Fresh(g)) && i < |evs|
    requires forall j :: 0 <= j < |evs| ==> WellNumbered(evs[j].header)
    requires evs[i].header.parentHash in Run(Fresh(g), evs[..i]).headers
    ensures
      var h, head := evs[i].header, Run(Fresh(g), evs).head;
      SumUpTo(h, h.number) <= SumUpTo(head, head.number)
  {
    var h, s := evs[i].header, Run(Fresh(g), evs);
    RunStores(Fresh(g), evs, HashOf(h));
    assert StoredAt(Fresh(g), evs, HashOf(h), i);
    RunFromGenesis(g, evs);
    assert HashOf(h) in s.headers && s.headers[HashOf(h)] == h by {
      assert Closed(s.headers, g);
    }
  }

  /** Over every run of header writes from genesis: each stored total difficulty is the sum of
      the difficulties on its path, no stored header beats the head, and the index is exactly the
      head's ancestor path with nothing above it. */
  lemma RunFromGenesis(g: Header, evs: seq<WriteEvent>)
    requires g.number == 0
    requires forall i :: 0 <= i < |evs| ==> WellNumbered(evs[i].header)
    ensures Inv(Fresh(g))
    ensures var s := Run(Fresh(g), evs);
      && (forall k :: k in s.headers ==>
           k in s.tds && s.tds[k] == SumUpTo(s.headers[k], s.headers[k].number)
           && s.tds[k] <= SumUpTo(s.head, s.head.number))
      && (forall n: nat :: n in s.canon <==> n <= s.head.number)
      && (forall n: nat :: n in s.canon ==>
           s.canon[n] in s.headers && s.headers[s.canon[n]] == At(s.head, n) && At(s.head, n).number == n)
      && s.canon[0] == HashOf(g)
  {
    FreshInv(g);
    var s := Run(Fresh(g), evs);
    forall k | k in s.headers
      ensures s.tds[k] == SumUpTo(s.headers[k], s.headers[k].number)
    {
      PathTdIsSum(s.headers[k], g);
    }
    PathStored(s.headers, s.head, g);
    AtOnPath(s.head, g, 0);
  }

  /** In a closed store the whole path of a stored header is stored. */
  lemma {:induction false} PathStored(headers: map<Hash, Header>, h: Header, g: Header)
    requires Closed(headers, g) && HashOf(h) in headers
    ensures forall n: nat :: n <= h.number ==>
      HashOf(At(h, n)) in headers && headers[HashOf(At(h, n))] == At(h, n) && At(h, n).number == n
    decreases h
  {
    assert headers[HashOf(h)] == h;
    RootedNumber(h, g);
    if h != g {
      PathStored(headers, h.parentHash.header, g);
    }
  }

  /** The head's total difficulty never decreases, whatever is written in between. */
  lemma {:induction false} HeadTdMonotone(s: HeaderDb, evs: seq<WriteEvent>, k: nat)
    requires Inv(s) && k <= |evs|
    requires forall i :: 0 <= i < |evs| ==> WellNumbered(evs[i].header)
    ensures PathTd(Run(s, evs[..k]).head, s.genesis) <= PathTd(Run(s, evs).head, s.genesis)
    decreases |evs|
  {
    if k == |evs| {
      assert evs[..k] == evs;
    } else {
      var front := evs[..|evs| - 1];
      HeadTdMonotone(s, front, k);
      assert front[..k] == evs[..k];
      WriteMovesHead(Run(s, front), evs[|evs| - 1].header, evs[|evs| - 1].coin);
    }
  }

  class HeaderChain {
    const genesisHeader: Header
    var headers: map<Hash, Header>
    var tds: map<Hash, nat>
    var canon: map<nat, Hash>
    var currentHeader: Header

    ghost function Db(): HeaderDb
      reads this
    {
      HeaderDb(genesisHeader, headers, tds, canon, currentHeader)
    }

    /** What holds of the canonical side alone, also after a rewind. */
    ghost predicate CanonValid()
      reads this
    {
      Rooted(currentHeader, genesisHeader) && Stored(headers, currentHeader) && canon == PathIndex(currentHeader)
    }

    constructor (genesis: Header)
      requires genesis.number == 0
      ensures Db() == Fresh(genesis) && Inv(Db()) && CanonValid()
    {
      genesisHeader := genesis;
      headers := map[HashOf(genesis) := genesis];
      tds := map[HashOf(genesis) := genesis.difficulty];
      canon := map[0 := HashOf(genesis)];
      currentHeader := genesis;
    }

    method GetCanonicalHash(n: nat) returns (hash: Hash)
      ensures hash == if n in canon then canon[n] else Zero
    {
      hash := if n in canon then canon[n] else Zero;
    }

    method WriteHeader(header: Header, coin: bool) returns (status: Status)
      requires Inv(Db()) && WellNumbered(header)
      modifies this
      ensures Db() == Write(old(Db()), header, coin).0
      ensures status == Write(old(Db()), header, coin).1
      ensures Inv(Db())
      ensures status == NonStat <==> header.parentHash !in old(headers)
      ensures status == NonStat ==> Db() == old(Db())
      ensures status != NonStat ==>
        && headers == old(headers)[HashOf(header) := header]
        && tds == old(tds)[HashOf(header) := header.difficulty + old(tds)[header.parentHash]]
        && (status == CanonStat <==>
              || header.difficulty + old(tds)[header.parentHash] > old(tds)[HashOf(old(currentHeader))]
              || (header.difficulty + old(tds)[header.parentHash] == old(tds)[HashOf(old(currentHeader))] && coin))
      ensures currentHeader == if status == CanonStat then header else old(currentHeader)
    {
      hide Inv, PathIndex, Write, WellNumbered, PathTd;
      ghost var before := Db();
      WriteStores(before, header, coin);
      HeadFacts(before);
      status := ForkChoice(header, coin);
      WriteMovesHead(before, header, coin);
    }

    /** Stores a header and decides whether it becomes the head. */
    method ForkChoice(header: Header, coin: bool) returns (status: Status)
      requires Inv(Db()) && WellNumbered(header)
      modifies this
      ensures Db() == Write(old(Db()), header, coin).0
      ensures status == Write(old(Db()), header, coin).1
      ensures Inv(Db())
    {
      hide Inv, Closed, TdsExact, HeadHeaviest, PathIndex, Rooted;
      ghost var before := Db();
      HeadFacts(before);
      var hash := HashOf(header);
      if header.parentHash !in tds {
        return NonStat;
      }
      var localTd := tds[HashOf(currentHeader)];
      var externTd := header.difficulty + tds[header.parentHash];
      tds := tds[hash := externTd];
      headers := headers[hash := header];
      assert Db() == Store(before, header);
      if externTd > localTd || (externTd == localTd && coin) {
        Reroute(header) by {
          WriteExtendsStore(before, header);
        }
        currentHeader := header;
        status := CanonStat;
      } else {
        status := SideStat;
      }
      WriteKeepsInv(before, header, coin);
    }

    /** Moves the index from the path of the current head onto the path of a new one. */
    method Reroute(header: Header)
      requires Closed(headers, genesisHeader)
      requires Rooted(currentHeader, genesisHeader) && Rooted(header, genesisHeader)
      requires header.number > 0 && header.parentHash in headers
      requires canon == PathIndex(currentHeader)
      modifies this`canon
      ensures canon == PathIndex(header)
    {
      hide Closed, Rooted, At;
      AtSelf(header);
      DeleteAbove(header.number);
      OverwriteStale(header, PathIndex(currentHeader), PathIndex(header)) by {
        PathLinks(headers, header, genesisHeader);
        PathsFork(currentHeader, header, genesisHeader);
        assert AgreeDown(PathIndex(currentHeader), PathIndex(header));
      }
      canon := canon[header.number := HashOf(header)];
    }

    /** Deletes index entries upwards until the first gap. On an index without gaps that removes
        everything above `number`. */
    method DeleteAbove(number: nat)
      requires forall n: nat :: n in canon <==> n <= currentHeader.number
      requires forall n: nat :: n in canon ==> canon[n] != Zero
      modifies this`canon
      ensures canon == map n: nat | n in old(canon) && n <= number :: old(canon)[n]
    {
      var i := number + 1;
      var hash := GetCanonicalHash(i);
      while hash != Zero
        invariant number < i
        invariant hash == if i in canon then canon[i] else Zero
        invariant forall n: nat :: n in canon <==> n in old(canon) && !(number < n < i)
        invariant forall n: nat :: n in canon ==> canon[n] == old(canon)[n]
        decreases currentHeader.number + 1 - i
      {
        canon := canon - {i};
        i := i + 1;
        hash := GetCanonicalHash(i);
      }
    }

    /** Walks down from the parent of the new head and rewrites the index until it meets an
        entry that is already right, which is the fork point. `have` and `want` are the paths of
        the old and of the new head. */
    method OverwriteStale(header: Header, ghost have: map<nat, Hash>, ghost want: map<nat, Hash>)
      requires header.number > 0 && header.number - 1 in want && header.parentHash == want[header.number - 1]
      requires forall n: nat :: n < header.number ==> n in want && want[n] in headers && want[n] != Zero
      requires forall n: nat :: 0 < n < header.number ==> headers[want[n]].parentHash == want[n - 1]
      requires 0 in have && want[0] == have[0] && AgreeDown(have, want)
      requires forall n: nat :: n in canon <==> n in have && n <= header.number
      requires forall n: nat :: n in canon ==> canon[n] == have[n]
      modifies this`canon
      ensures forall n: nat :: n < header.number ==> n in canon && canon[n] == want[n]
      ensures forall n: nat :: n in canon ==> n <= header.number
    {
      hide AgreeDown;
      var headNumber: nat := header.number - 1;
      var headHash := header.parentHash;
      var headHeader := headers[headHash];
      var known := GetCanonicalHash(headNumber);
      while known != headHash
        invariant headNumber < header.number
        invariant headHash == want[headNumber] && headHeader == headers[headHash]
        invariant known == if headNumber in canon then canon[headNumber] else Zero
        invariant forall n: nat :: headNumber < n < header.number ==> n in canon && canon[n] == want[n]
        invariant forall n: nat :: n <= headNumber && n in have ==> n in canon && canon[n] == have[n]
        invariant forall n: nat :: n <= headNumber && n in canon ==> n in have
        invariant forall n: nat :: n in canon ==> n <= header.number
        decreases headNumber
      {
        assert want[headNumber - 1] in headers;
        canon := canon[headNumber := headHash];
        headHash := headHeader.parentHash;
        headNumber := headNumber - 1;
        headHeader := headers[headHash];
        known := GetCanonicalHash(headNumber);
      }
      AgreeBelowFork(have, want, headNumber);
    }

    /** Rewinds to `head`: the index becomes its prefix of length head+1, exactly the headers of
        the abandoned part of the path are deleted (and reported to the callback, highest first),
        everything else in the store is untouched. */
    method SetHead(head: nat) returns (deleted: seq<Header>)
      requires CanonValid()
      modifies this
      ensures CanonValid()
      ensures head >= old(currentHeader).number ==> Db() == old(Db()) && deleted == []
      ensures head < old(currentHeader).number ==>
        && currentHeader == At(old(currentHeader), head)
        && canon == (map n: nat | n in old(canon) && n <= head :: old(canon)[n])
        && |deleted| == old(currentHeader).number - head
        && (forall i :: 0 <= i < |deleted| ==> deleted[i] == At(old(currentHeader), old(currentHeader).number - i))
        && headers == old(headers) - (set h | h in deleted :: HashOf(h))
        && tds == old(tds) - (set h | h in deleted :: HashOf(h))
    {
      hide Rooted, At, Stored, PathIndex;
      var height := currentHeader.number;
      ghost var top, index := currentHeader, canon;
      ghost var path := PathOf(top, genesisHeader, headers);
      deleted := DropHeaders(head, path);
      TruncateIndex(height, head);
      Rewound(top, genesisHeader, currentHeader.number, headers, path, canon);
      if head >= height {
        assert deleted == [];
        assert (set h | h in deleted :: HashOf(h)) == {};
        assert canon == index;
      }
    }

    /** Deletes the headers of `path` from the top down to, and excluding, number `head`. */
    method DropHeaders(head: nat, ghost path: seq<Header>) returns (deleted: seq<Header>)
      requires |path| == currentHeader.number + 1 && path[currentHeader.number] == currentHeader
      requires forall n :: 0 <= n < |path| ==>
        path[n].number == n && HashOf(path[n]) in headers && headers[HashOf(path[n])] == path[n]
      requires forall n :: 0 < n < |path| ==> path[n].parentHash == HashOf(path[n - 1])
      modifies this`headers, this`tds, this`currentHeader
      ensures currentHeader == path[if head < |path| then head else |path| - 1]
      ensures |deleted| == |path| - 1 - currentHeader.number
      ensures forall i :: 0 <= i < |deleted| ==> deleted[i] == path[|path| - 1 - i]
      ensures forall n :: 0 <= n <= currentHeader.number ==>
        HashOf(path[n]) in headers && headers[HashOf(path[n])] == path[n]
      ensures headers == old(headers) - (set h | h in deleted :: HashOf(h))
      ensures tds == old(tds) - (set h | h in deleted :: HashOf(h))
    {
      deleted := [];
      while currentHeader.number > head
        invariant 0 <= currentHeader.number < |path| && currentHeader == path[currentHeader.number]
        invariant if head < |path| then head <= currentHeader.number else currentHeader.number == |path| - 1
        invariant |deleted| == |path| - 1 - currentHeader.number
        invariant forall i :: 0 <= i < |deleted| ==> deleted[i] == path[|path| - 1 - i]
        invariant headers == old(headers) - (set h | h in deleted :: HashOf(h))
        invariant tds == old(tds) - (set h | h in deleted :: HashOf(h))
        decreases currentHeader.number
      {
        var hash := HashOf(currentHeader);
        headers := headers - {hash};
        tds := tds - {hash};
        deleted := deleted + [currentHeader];
        assert HashOf(path[currentHeader.number - 1]) in headers;
        currentHeader := headers[currentHeader.parentHash];
      }
    }

    method TruncateIndex(height: nat, head: nat)
      requires forall n: nat :: n in canon ==> n <= height
      modifies this`canon
      ensures canon == map n: nat | n in old(canon) && n <= head :: old(canon)[n]
    {
      var i := height;
      while i > head
        invariant if head <= height then head <= i <= height else i == height
        invariant forall n: nat :: n in canon <==> n in old(canon) && n <= i
        invariant forall n: nat :: n in canon ==> canon[n] == old(canon)[n]
      {
        canon := canon - {i};
        i := i - 1;
      }
    }
  }

  /** Two indexes that agree at one number agree at every number below. */
  ghost predicate AgreeDown(have: map<nat, Hash>, want: map<nat, Hash>) {
    forall m: nat, n: nat :: n <= m && m in have && m in want && have[m] == want[m] ==>
      n in have && n in want && have[n] == want[n]
  }

  lemma AgreeBelowFork(have: map<nat, Hash>, want: map<nat, Hash>, m: nat)
    requires AgreeDown(have, want) && m in have && m in want && have[m] == want[m]
    ensures forall n: nat :: n <= m ==> n in have && n in want && have[n] == want[n]
  {
  }

  lemma PathLinks(headers: map<Hash, Header>, h: Header, g: Header)
    requires Closed(headers, g) && Rooted(h, g)
    requires h.number > 0 && h.parentHash in headers
    ensures h.parentHash == HashOf(At(h, h.number - 1))
    ensures At(h, 0) == g
    ensures forall n: nat :: n < h.number ==>
      HashOf(At(h, n)) in headers && headers[HashOf(At(h, n))] == At(h, n)
    ensures forall n: nat :: 0 < n < h.number ==> At(h, n).parentHash == HashOf(At(h, n - 1))
  {
    RootedNumber(h, g);
    assert headers[h.parentHash] == h.parentHash.header;
    PathStored(headers, h.parentHash.header, g);
    forall n: nat | n < h.number
      ensures At(h, n + 1).parentHash == HashOf(At(h, n))
    {
      AtOnPath(h, g, n);
    }
    AtOnPath(h, g, 0);
  }

  lemma PathsFork(a: Header, b: Header, g: Header)
    requires Rooted(a, g) && Rooted(b, g)
    ensures At(a, 0) == At(b, 0)
    ensures forall m: nat, n: nat :: n <= m && m <= a.number && m <= b.number && At(a, m) == At(b, m) ==>
      At(a, n) == At(b, n)
  {
    AtOnPath(a, g, 0);
    AtOnPath(b, g, 0);
    forall m: nat, n: nat | n <= m && m <= a.number && m <= b.number && At(a, m) == At(b, m)
      ensures At(a, n) == At(b, n)
    {
      AgreeBelow(a, b, g, m, n);
    }
  }

  /** The whole path of the header is stored. */
  ghost predicate Stored(headers: map<Hash, Header>, h: Header) {
    forall n: nat :: n <= h.number ==> HashOf(At(h, n)) in headers && headers[HashOf(At(h, n))] == At(h, n)
  }

  lemma AtSelf(h: Header)
    ensures At(h, h.number) == h
  {
  }

  /** The path of a header as a sequence. */
  lemma PathOf(top: Header, g: Header, headers: map<Hash, Header>) returns (path: seq<Header>)
    requires Rooted(top, g) && Stored(headers, top)
    ensures |path| == top.number + 1 && path[top.number] == top
    ensures forall n :: 0 <= n < |path| ==> path[n] == At(top, n) && path[n].number == n
    ensures forall n :: 0 <= n < |path| ==> HashOf(path[n]) in headers && headers[HashOf(path[n])] == path[n]
    ensures forall n :: 0 < n < |path| ==> path[n].parentHash == HashOf(path[n - 1])
    ensures forall n: nat :: n in PathIndex(top) <==> n <= top.number
  {
    hide Rooted;
    path := seq(top.number + 1, n requires 0 <= n <= top.number => At(top, n));
    forall n | 0 <= n < |path|
      ensures path[n].number == n && (n > 0 ==> path[n].parentHash == HashOf(path[n - 1]))
    {
      AtOnPath(top, g, n);
      if n > 0 {
        AtOnPath(top, g, n - 1);
      }
    }
  }

  /** After a rewind to number `m` the canonical side is that of the ancestor at `m`. */
  lemma Rewound(top: Header, g: Header, m: nat, headers: map<Hash, Header>, path: seq<Header>, canon: map<nat, Hash>)
    requires Rooted(top, g) && m <= top.number && |path| == top.number + 1
    requires forall n :: 0 <= n < |path| ==> path[n] == At(top, n)
    requires forall n :: 0 <= n <= m ==> HashOf(path[n]) in headers && headers[HashOf(path[n])] == path[n]
    requires canon == map n: nat | n in PathIndex(top) && n <= m :: PathIndex(top)[n]
    ensures Rooted(At(top, m), g) && Stored(headers, At(top, m)) && canon == PathIndex(At(top, m))
  {
    hide Rooted, At;
    AtOnPath(top, g, m);
    forall n: nat | n <= m
      ensures At(At(top, m), n) == path[n]
    {
      AtOfAt(top, g, m, n);
    }
  }
}
