/** The contract ABI codec (account/abi): arguments are packed into a head of one 32-byte slot each
    and a tail for the dynamic ones, as in "Formal Specification of the Encoding" of the Solidity
    Contract ABI Specification, and read back by position. */
module Abi {
  import opened AbiBytes

  // Types and values.

  datatype WordType =
    | IntWord(signed: bool, bits: nat)
    | BoolWord
    | AddressWord

  datatype WordVal =
    | Num(n: int)
    | Flag(b: bool)
    | Addr(bytes: seq<byte>)

  datatype Type =
    | Word(word: WordType)
    | StringType
    | BytesType
    | SliceOf(elem: WordType)

  datatype Val =
    | One(value: WordVal)
    | Data(bytes: seq<byte>)
    | Many(values: seq<WordVal>)

  /** What decoding gives: a value, an error, or a run-time panic on an index out of range. */
  datatype Outcome<+T> = Value(value: T) | Failure | Panic

  datatype Result<+T> = Ok(value: T) | Err

  /** The sizes that have a native integer type; all others are big integers. */
  predicate Sized(bits: nat) {
    bits == 8 || bits == 16 || bits == 32 || bits == 64
  }

  function Modulus(bits: nat): (m: nat)
    requires Sized(bits)
    ensures m == Pow256(bits / 8)
  {
    Powers();
    if bits == 8 then 0x100 else if bits == 16 then 0x1_0000 else if bits == 32 then 0x1_0000_0000 else TWO_64
  }

  /** The value has the native type that goes with the ABI type. */
  predicate WordOk(t: WordType, v: WordVal) {
    match (t, v)
    case (IntWord(signed, bits), Num(n)) =>
      Sized(bits) ==> if signed then 0 <= 2 * n + Modulus(bits) < 2 * Modulus(bits) else 0 <= n < Modulus(bits)
    case (BoolWord, Flag(_)) => true
    case (AddressWord, Addr(bytes)) => |bytes| == 20
    case _ => false
  }

  /** The ranges of the native integer types. */
  lemma WordOkExactly(n: int)
    ensures WordOk(IntWord(false, 8), Num(n)) <==> 0 <= n < 0x100
    ensures WordOk(IntWord(true, 8), Num(n)) <==> -0x80 <= n < 0x80
    ensures WordOk(IntWord(false, 16), Num(n)) <==> 0 <= n < 0x1_0000
    ensures WordOk(IntWord(true, 16), Num(n)) <==> -0x8000 <= n < 0x8000
    ensures WordOk(IntWord(false, 32), Num(n)) <==> 0 <= n < 0x1_0000_0000
    ensures WordOk(IntWord(true, 32), Num(n)) <==> -0x8000_0000 <= n < 0x8000_0000
    ensures WordOk(IntWord(false, 64), Num(n)) <==> 0 <= n < TWO_64
    ensures WordOk(IntWord(true, 64), Num(n)) <==> 0 <= n + TWO_63 < TWO_64
    ensures forall signed, bits :: bits !in {8, 16, 32, 64} ==> WordOk(IntWord(signed, bits), Num(n))
  {
    hide Pow256;
  }

  predicate HasType(t: Type, v: Val) {
    match (t, v)
    case (Word(w), One(x)) => WordOk(w, x)
    case (StringType, Data(_)) => true
    case (BytesType, Data(_)) => true
    case (SliceOf(w), Many(xs)) => forall i :: 0 <= i < |xs| ==> WordOk(w, xs[i])
    case _ => false
  }

  // One word.

  function PackWord(t: WordType, v: WordVal): (b: seq<byte>)
    requires WordOk(t, v)
    ensures |b| == 32
  {
    match v
    case Num(n) => U256(n)
    case Flag(f) => ToBytes(if f then 1 else 0, 32)
    case Addr(bytes) => LeftPad(bytes, 32)
  }

  function ReadInteger(signed: bool, bits: nat, b: seq<byte>): int
    requires |b| == 32
  {
    if Sized(bits) then
      var u := FromBytes(b[32 - bits / 8..]);
      if signed then Signed(u, Modulus(bits)) else u
    else FromBytes(b)
  }

  function ReadBool(b: seq<byte>): Outcome<bool>
    requires |b| == 32
  {
    if exists i :: 0 <= i < 31 && b[i] != 0 then Failure
    else if b[31] == 0 then Value(false)
    else if b[31] == 1 then Value(true)
    else Failure
  }

  function ReadWord(t: WordType, b: seq<byte>): Outcome<WordVal>
    requires |b| == 32
  {
    match t
    case IntWord(signed, bits) => Value(Num(ReadInteger(signed, bits, b)))
    case BoolWord =>
      (match ReadBool(b)
       case Value(f) => Value(Flag(f))
       case Failure => Failure
       case Panic => Panic)
    case AddressWord => Value(Addr(b[12..]))
  }

  /** A boolean is read from the words 0 and 1 only. */
  lemma ReadBoolExactly(b: seq<byte>)
    requires |b| == 32
    ensures ReadBool(b) == Value(false) <==> FromBytes(b) == 0
    ensures ReadBool(b) == Value(true) <==> FromBytes(b) == 1
    ensures ReadBool(b) == Failure <==> FromBytes(b) > 1
  {
    var front := b[..31];
    assert FromBytes(b) == FromBytes(front) * 256 + b[31] as nat;
    LeadingZeros(front);
    assert (exists i :: 0 <= i < 31 && b[i] != 0) <==> FromBytes(front) != 0 by {
      assert forall i :: 0 <= i < 31 ==> front[i] == b[i];
    }
  }

  /** Only the lowest bits of a sized integer are looked at; a big one is the whole word, unsigned. */
  lemma ReadIntegerExactly(signed: bool, bits: nat, b: seq<byte>)
    requires |b| == 32
    ensures var n := ReadInteger(signed, bits, b);
      if Sized(bits) then
        && (n - FromBytes(b)) % Modulus(bits) == 0
        && if signed then 0 <= 2 * n + Modulus(bits) < 2 * Modulus(bits) else 0 <= n < Modulus(bits)
      else n == FromBytes(b)
  {
    hide FromBytes, Pow256;
    if Sized(bits) {
      var k, m := bits / 8, Modulus(bits);
      SuffixValue(b, k);
      var u := FromBytes(b) % m;
      assert FromBytes(b[32 - k..]) == u;
      Congruent(u, FromBytes(b), m);
      Congruent(u - m, FromBytes(b), m);
    }
  }

  lemma Congruent(a: int, b: nat, m: nat)
    requires m > 0 && (a == b % m || a == b % m - m)
    ensures (a - b) % m == 0
  {
    var q := b / m;
    assert b == m * q + b % m;
    if a == b % m {
      assert a - b == m * (-q) + 0;
      RemainderIs(a - b, m, -q, 0);
    } else {
      assert a - b == m * (-q - 1) + 0;
      RemainderIs(a - b, m, -q - 1, 0);
    }
  }

  /** What comes back: big integers are read as unsigned 256-bit numbers, the rest as it was. */
  function NormWord(t: WordType, v: WordVal): WordVal {
    if t.IntWord? && !Sized(t.bits) && v.Num? then Num(v.n % TWO_256) else v
  }

  lemma SizedWord(n: int, bits: nat)
    requires Sized(bits)
    ensures FromBytes(U256(n)[32 - bits / 8..]) == n % Modulus(bits)
  {
    hide FromBytes, ToBytes, Pow256, Modulus;
    var m, k := n % TWO_256, bits / 8;
    Suffix(m, 32, k);
    FromTo(m, k);
    assert TWO_256 == Pow256(k) * Pow256(32 - k) by {
      Powers();
      PowerAdd(k, 32 - k);
    }
    RemainderOfRemainder(n, Pow256(k), Pow256(32 - k));
  }

  lemma SignedBack(n: int, bits: nat)
    requires Sized(bits)
    ensures 0 <= 2 * n + Modulus(bits) < 2 * Modulus(bits) ==> Signed(n % Modulus(bits), Modulus(bits)) == n
    ensures 0 <= n < Modulus(bits) ==> n % Modulus(bits) == n
  {
    hide Pow256;
  }

  lemma BigWord(n: int)
    ensures FromBytes(U256(n)) == n % TWO_256
  {
    hide FromBytes, ToBytes, Pow256;
    FromTo(n % TWO_256, 32);
    Powers();
  }

  lemma {:induction false} ZeroBytes(len: nat)
    ensures ToBytes(0, len) == Zeros(len)
  {
    if len > 0 {
      ZeroBytes(len - 1);
    }
  }

  lemma BoolBack(f: bool)
    ensures ReadBool(ToBytes(if f then 1 else 0, 32)) == Value(f)
  {
    ZeroBytes(31);
    var n := if f then 1 else 0;
    assert n / 256 == 0 && n % 256 == n;
    assert ToBytes(n, 32) == Zeros(31) + [n as byte];
  }

  /** Reading a packed word gives its value back. */
  lemma WordRoundTrip(t: WordType, v: WordVal)
    requires WordOk(t, v)
    ensures ReadWord(t, PackWord(t, v)) == Value(NormWord(t, v))
  {
    hide FromBytes, ToBytes, U256, ReadBool, Pow256, Modulus;
    match t
    case IntWord(signed, bits) =>
      if Sized(bits) {
        SizedWord(v.n, bits);
        SignedBack(v.n, bits);
      } else {
        BigWord(v.n);
      }
    case BoolWord =>
      BoolBack(v.b);
    case AddressWord =>
  }

  /** These 32 bytes are the word: an integer of any size in two's complement over the whole word, a
      boolean as 0 or 1, an address behind twelve zero bytes. */
  ghost predicate IsWord(v: WordVal, b: seq<byte>) {
    && |b| == 32
    && match v
       case Num(n) => FromBytes(b) == n % TWO_256
       case Flag(f) => FromBytes(b) == if f then 1 else 0
       case Addr(bytes) => b == Zeros(12) + bytes
  }

  lemma PackedIsWord(t: WordType, v: WordVal)
    requires WordOk(t, v)
    ensures IsWord(v, PackWord(t, v))
  {
    hide FromBytes, ToBytes, Pow256, Modulus;
    match v
    case Num(n) =>
      BigWord(n);
    case Flag(f) =>
      FromTo(if f then 1 else 0, 32);
      Powers();
    case Addr(bytes) =>
  }

  // One argument.

  /** Length and contents, padded as if the length were in bytes. */
  function PackBytesSlice(bytes: seq<byte>, l: nat): seq<byte> {
    U256(l) + RightPad(bytes, (l + 31) / 32 * 32)
  }

  function PackWords(t: WordType, vs: seq<WordVal>): (b: seq<byte>)
    requires forall i :: 0 <= i < |vs| ==> WordOk(t, vs[i])
    ensures |b| == 32 * |vs|
    decreases |vs|
  {
    if vs == [] then [] else PackWords(t, vs[..|vs| - 1]) + PackWord(t, vs[|vs| - 1])
  }

  function PackArg(t: Type, v: Val): (b: seq<byte>)
    requires HasType(t, v)
    ensures !Dynamic(t) ==> |b| == 32
  {
    match t
    case Word(w) => PackWord(w, v.value)
    case StringType => PackBytesSlice(v.bytes, |v.bytes|)
    case BytesType => PackBytesSlice(v.bytes, |v.bytes|)
    case SliceOf(w) => PackBytesSlice(PackWords(w, v.values), |v.values|)
  }

  /** The argument goes into the tail, and its slot in the head holds an offset. */
  predicate Dynamic(t: Type) {
    !t.Word?
  }

  lemma {:induction false} WordsAt(t: WordType, vs: seq<WordVal>, i: nat)
    requires (forall i :: 0 <= i < |vs| ==> WordOk(t, vs[i])) && i < |vs|
    ensures PackWords(t, vs)[32 * i..32 * i + 32] == PackWord(t, vs[i])
    decreases |vs|
  {
    hide PackWord, WordOk;
    var n := |vs| - 1;
    var front := PackWords(t, vs[..n]);
    if i < n {
      WordsAt(t, vs[..n], i);
      assert PackWords(t, vs)[32 * i..32 * i + 32] == front[32 * i..32 * i + 32];
    }
  }

  // The argument list.

  ghost predicate AllTyped(types: seq<Type>, args: seq<Val>) {
    |args| == |types| && forall i :: 0 <= i < |types| ==> HasType(types[i], args[i])
  }

  /** The tails of the first `k` arguments. */
  ghost function Tails(types: seq<Type>, args: seq<Val>, k: nat): seq<byte>
    requires AllTyped(types, args) && k <= |types|
  {
    if k == 0 then [] else
      Tails(types, args, k - 1) + (if Dynamic(types[k - 1]) then PackArg(types[k - 1], args[k - 1]) else [])
  }

  /** Where the tail of argument `i` starts. */
  ghost function Offset(types: seq<Type>, args: seq<Val>, i: nat): nat
    requires AllTyped(types, args) && i <= |types|
  {
    32 * |types| + |Tails(types, args, i)|
  }

  ghost function Slot(types: seq<Type>, args: seq<Val>, i: nat): (b: seq<byte>)
    requires AllTyped(types, args) && i < |types|
    ensures |b| == 32
  {
    if Dynamic(types[i]) then U256(Offset(types, args, i)) else PackArg(types[i], args[i])
  }

  /** The slots of the first `k` arguments. */
  ghost function Heads(types: seq<Type>, args: seq<Val>, k: nat): (b: seq<byte>)
    requires AllTyped(types, args) && k <= |types|
    ensures |b| == 32 * k
  {
    if k == 0 then [] else Heads(types, args, k - 1) + Slot(types, args, k - 1)
  }

  ghost function Encoding(types: seq<Type>, args: seq<Val>): seq<byte>
    requires AllTyped(types, args)
  {
    Heads(types, args, |types|) + Tails(types, args, |types|)
  }

  lemma {:induction false} HeadsAt(types: seq<Type>, args: seq<Val>, k: nat, i: nat)
    requires AllTyped(types, args) && i < k <= |types|
    ensures Heads(types, args, k)[32 * i..32 * i + 32] == Slot(types, args, i)
    decreases k
  {
    hide Slot, AllTyped;
    if i < k - 1 {
      HeadsAt(types, args, k - 1, i);
      assert Heads(types, args, k)[32 * i..32 * i + 32] == Heads(types, args, k - 1)[32 * i..32 * i + 32];
    }
  }

  lemma {:induction false} TailsAt(types: seq<Type>, args: seq<Val>, k: nat, i: nat)
    requires AllTyped(types, args) && i < k <= |types| && Dynamic(types[i])
    ensures var from, tail := |Tails(types, args, i)|, PackArg(types[i], args[i]);
      from + |tail| <= |Tails(types, args, k)| && Tails(types, args, k)[from..from + |tail|] == tail
    decreases k
  {
    hide PackArg, HasType;
    var from, tail := |Tails(types, args, i)|, PackArg(types[i], args[i]);
    if i < k - 1 {
      TailsAt(types, args, k - 1, i);
      assert Tails(types, args, k)[from..from + |tail|] == Tails(types, args, k - 1)[from..from + |tail|];
    }
  }

  /** Slot `i` of the encoding is at position 32 * i; and each offset written in a slot is where
      that argument's tail starts. */
  lemma Layout(types: seq<Type>, args: seq<Val>, i: nat)
    requires AllTyped(types, args) && i < |types|
    ensures 32 * i + 32 <= |Encoding(types, args)| && Encoding(types, args)[32 * i..32 * i + 32] == Slot(types, args, i)
    ensures Dynamic(types[i]) ==>
      var from, tail := Offset(types, args, i), PackArg(types[i], args[i]);
      from + |tail| <= |Encoding(types, args)| && Encoding(types, args)[from..from + |tail|] == tail
  {
    hide PackArg, HasType, Slot;
    var n := |types|;
    var heads, tails := Heads(types, args, n), Tails(types, args, n);
    HeadsAt(types, args, n, i);
    assert (heads + tails)[32 * i..32 * i + 32] == heads[32 * i..32 * i + 32];
    if Dynamic(types[i]) {
      TailsAt(types, args, n, i);
      var from, tail := |Tails(types, args, i)|, PackArg(types[i], args[i]);
      assert (heads + tails)[32 * n + from..32 * n + from + |tail|] == tails[from..from + |tail|];
    }
  }

  // The bytes of an encoding.

  lemma Within(output: seq<byte>, from: nat, tail: seq<byte>, a: nat, b: nat)
    requires from + |tail| <= |output| && output[from..from + |tail|] == tail && a <= b <= |tail|
    ensures output[from + a..from + b] == tail[a..b]
  {
    forall k | 0 <= k < b - a
      ensures output[from + a..from + b][k] == tail[a..b][k]
    {
      assert output[from..from + |tail|][a + k] == tail[a + k];
    }
  }

  /** How much of the tail an argument takes up: nothing if it is a word, and otherwise a length word
      and the contents, padded to whole words. */
  function TailSize(t: Type, v: Val): nat
    requires HasType(t, v)
  {
    match t
    case Word(_) => 0
    case StringType => 32 + (|v.bytes| + 31) / 32 * 32
    case BytesType => 32 + (|v.bytes| + 31) / 32 * 32
    case SliceOf(_) => 32 + 32 * |v.values|
  }

  /** At `from` there are the length of the data, the data, and zero bytes up to a whole word. */
  ghost predicate DataAt(bytes: seq<byte>, output: seq<byte>, from: nat) {
    var l, end := |bytes|, (|bytes| + 31) / 32 * 32;
    && from + 32 + end <= |output|
    && FromBytes(output[from..from + 32]) == l % TWO_256
    && output[from + 32..from + 32 + l] == bytes
    && forall k :: from + 32 + l <= k < from + 32 + end ==> output[k] == 0
  }

  /** At `from` there are the number of elements and, one word each, the elements. */
  ghost predicate WordsFollow(vs: seq<WordVal>, output: seq<byte>, from: nat) {
    && from + 32 + 32 * |vs| <= |output|
    && FromBytes(output[from..from + 32]) == |vs| % TWO_256
    && forall j :: 0 <= j < |vs| ==> IsWord(vs[j], output[from + 32 + 32 * j..from + 64 + 32 * j])
  }

  /** Argument `i` is in its slot, or its slot holds the position of its tail. */
  ghost predicate ArgAt(t: Type, v: Val, output: seq<byte>, i: nat, from: nat)
    requires HasType(t, v)
  {
    && 32 * i + 32 <= |output|
    && match t
       case Word(_) => IsWord(v.value, output[32 * i..32 * i + 32])
       case StringType => FromBytes(output[32 * i..32 * i + 32]) == from % TWO_256 && DataAt(v.bytes, output, from)
       case BytesType => FromBytes(output[32 * i..32 * i + 32]) == from % TWO_256 && DataAt(v.bytes, output, from)
       case SliceOf(_) =>
         FromBytes(output[32 * i..32 * i + 32]) == from % TWO_256 && WordsFollow(v.values, output, from)
  }

  /** Where each tail starts, and where the last one ends: after one slot for each argument they
      follow each other without a gap. */
  ghost predicate Tiling(types: seq<Type>, args: seq<Val>, offsets: seq<nat>, size: nat)
    requires AllTyped(types, args)
  {
    && |offsets| == |types| + 1 && offsets[0] == 32 * |types| && offsets[|types|] == size
    && forall i :: 0 <= i < |types| ==> offsets[i + 1] == offsets[i] + TailSize(types[i], args[i])
  }

  lemma PackedSize(t: Type, v: Val)
    requires HasType(t, v) && Dynamic(t)
    ensures |PackArg(t, v)| == TailSize(t, v)
  {
    hide WordOk, PackWord, U256;
  }

  lemma DataTail(bytes: seq<byte>, output: seq<byte>, from: nat)
    requires var tail := PackBytesSlice(bytes, |bytes|);
      from + |tail| <= |output| && output[from..from + |tail|] == tail
    ensures DataAt(bytes, output, from)
  {
    hide FromBytes, ToBytes, Pow256, U256, RightPad;
    var l := |bytes|;
    var end := (l + 31) / 32 * 32;
    var tail := PackBytesSlice(bytes, l);
    assert l <= end && |tail| == 32 + end;
    BigWord(l);
    Within(output, from, tail, 0, 32);
    assert tail[0..32] == U256(l);
    Within(output, from, tail, 32, 32 + l);
    assert tail[32..32 + l] == bytes;
    forall k | from + 32 + l <= k < from + 32 + end
      ensures output[k] == 0
    {
      var j := k - from - 32;
      assert output[from..from + |tail|][32 + j] == output[k];
      assert tail[32 + j] == RightPad(bytes, end)[j];
      PaddedWithZeros(bytes, end, j);
    }
  }

  lemma WordsTail(t: WordType, vs: seq<WordVal>, output: seq<byte>, from: nat)
    requires forall i :: 0 <= i < |vs| ==> WordOk(t, vs[i])
    requires var tail := PackBytesSlice(PackWords(t, vs), |vs|);
      from + |tail| <= |output| && output[from..from + |tail|] == tail
    ensures WordsFollow(vs, output, from)
  {
    hide FromBytes, ToBytes, Pow256, U256, WordOk, PackWord, PackWords, IsWord;
    var l, words := |vs|, PackWords(t, vs);
    var tail := PackBytesSlice(words, l);
    BigWord(l);
    Within(output, from, tail, 0, 32);
    assert tail[0..32] == U256(l);
    forall j | 0 <= j < l
      ensures IsWord(vs[j], output[from + 32 + 32 * j..from + 64 + 32 * j])
    {
      Within(output, from, tail, 32 + 32 * j, 64 + 32 * j);
      assert tail[32 + 32 * j..64 + 32 * j] == words[32 * j..32 * j + 32];
      WordsAt(t, vs, j);
      PackedIsWord(t, vs[j]);
    }
  }

  /** The bytes of one packed argument. */
  ghost predicate IsPacked(t: Type, v: Val, b: seq<byte>)
    requires HasType(t, v)
  {
    match t
    case Word(_) => IsWord(v.value, b)
    case StringType => |b| == TailSize(t, v) && DataAt(v.bytes, b, 0)
    case BytesType => |b| == TailSize(t, v) && DataAt(v.bytes, b, 0)
    case SliceOf(_) => |b| == TailSize(t, v) && WordsFollow(v.values, b, 0)
  }

  lemma PackedBytes(t: Type, v: Val)
    requires HasType(t, v)
    ensures IsPacked(t, v, PackArg(t, v))
  {
    hide PackWord, PackBytesSlice, WordOk, IsWord, DataAt, WordsFollow, TailSize;
    var b := PackArg(t, v);
    assert b[0..|b|] == b;
    if Dynamic(t) {
      PackedSize(t, v);
    }
    match t
    case Word(w) =>
      PackedIsWord(w, v.value);
    case StringType =>
      DataTail(v.bytes, b, 0);
    case BytesType =>
      DataTail(v.bytes, b, 0);
    case SliceOf(w) =>
      WordsTail(w, v.values, b, 0);
  }

  /** Every argument is where it should be, byte for byte. */
  lemma BytesAre(types: seq<Type>, args: seq<Val>, i: nat)
    requires AllTyped(types, args) && i < |types|
    ensures ArgAt(types[i], args[i], Encoding(types, args), i, Offset(types, args, i))
  {
    hide Encoding, PackWord, PackBytesSlice, WordOk, IsWord, DataAt, WordsFollow, U256, FromBytes;
    var output, from := Encoding(types, args), Offset(types, args, i);
    Layout(types, args, i);
    BigWord(from);
    match types[i]
    case Word(w) =>
      PackedIsWord(w, args[i].value);
    case StringType =>
      DataTail(args[i].bytes, output, from);
    case BytesType =>
      DataTail(args[i].bytes, output, from);
    case SliceOf(w) =>
      WordsTail(w, args[i].values, output, from);
  }

  ghost function Offsets(types: seq<Type>, args: seq<Val>): seq<nat>
    requires AllTyped(types, args)
  {
    seq(|types| + 1, i requires 0 <= i <= |types| => Offset(types, args, i))
  }

  lemma OffsetsTile(types: seq<Type>, args: seq<Val>)
    requires AllTyped(types, args)
    ensures Tiling(types, args, Offsets(types, args), |Encoding(types, args)|)
  {
    hide HasType, PackArg, TailSize;
    forall i | 0 <= i < |types|
      ensures Offset(types, args, i + 1) == Offset(types, args, i) + TailSize(types[i], args[i])
    {
      if Dynamic(types[i]) {
        PackedSize(types[i], args[i]);
      } else {
        NoTail(types[i], args[i]);
      }
    }
  }

  lemma NoTail(t: Type, v: Val)
    requires HasType(t, v) && !Dynamic(t)
    ensures TailSize(t, v) == 0
  {
  }

  // Decoding.

  /** Arithmetic on the 64-bit int type. */
  function Wrap(x: int): int {
    (x + TWO_63) % TWO_64 - TWO_63
  }

  /** The number in the range of the type that differs by a multiple of 2^64. */
  lemma WrapExactly(x: int)
    ensures 0 <= Wrap(x) + TWO_63 < TWO_64 && (x - Wrap(x)) % TWO_64 == 0
  {
  }

  lemma WrapSmall(x: nat)
    requires x < TWO_63
    ensures Wrap(x) == x
  {
  }

  /** The last 8 bytes of a word, as an int. */
  function ReadInt(word: seq<byte>): int
    requires |word| == 32
  {
    Wrap(FromBytes(word[24..]))
  }

  /** The low 64 bits of the word, signed. */
  lemma ReadIntExactly(word: seq<byte>)
    requires |word| == 32
    ensures 0 <= ReadInt(word) + TWO_63 < TWO_64 && (ReadInt(word) - FromBytes(word)) % TWO_64 == 0
  {
    hide FromBytes, Pow256;
    var u := FromBytes(word[24..]);
    assert u == FromBytes(word) % TWO_64 by {
      Powers();
      SuffixValue(word, 8);
    }
    assert Wrap(u) == u || Wrap(u) == u - TWO_64;
    Congruent(Wrap(u), FromBytes(word), TWO_64);
  }

  /** The first `k` elements of a slice. */
  function Elems(t: WordType, rest: seq<byte>, k: nat): Outcome<seq<WordVal>> {
    if k == 0 then Value([]) else
      match Elems(t, rest, k - 1)
      case Failure => Failure
      case Panic => Panic
      case Value(vs) =>
        if 32 * k > |rest| then Panic else
          match ReadWord(t, rest[32 * (k - 1)..32 * k])
          case Failure => Failure
          case Panic => Panic
          case Value(v) => Value(vs + [v])
  }

  function DecodeData(output: seq<byte>, offset: int): Outcome<Val> {
    var start := Wrap(offset + 32);
    if start > |output| then Failure
    else if start < 0 || Wrap(offset + 24) < 0 || Wrap(offset + 24) > start then Panic
    else
      var size := Wrap(FromBytes(output[Wrap(offset + 24)..start]));
      var end := Wrap(start + size);
      if end > |output| then Failure
      else if end < start then Panic
      else Value(Data(output[start..end]))
  }

  function DecodeSlice(t: WordType, output: seq<byte>, offset: int): Outcome<Val> {
    if Wrap(offset + 32) > |output| then Failure
    else if offset < 0 || offset + 32 > |output| then Panic
    else
      var size := ReadInt(output[offset..offset + 32]);
      var rest := output[offset + 32..];
      if Wrap(size * 32) > |rest| then Failure
      else if Wrap(size * 32) < 0 then Panic
      else if size <= 0 then Value(Many([]))
      else
        match Elems(t, rest, size)
        case Failure => Failure
        case Panic => Panic
        case Value(vs) => Value(Many(vs))
  }

  function Decode(i: nat, t: Type, output: seq<byte>): Outcome<Val> {
    if i * 32 + 32 > |output| then Failure
    else
      var slot := output[i * 32..i * 32 + 32];
      match t
      case Word(w) =>
        (match ReadWord(w, slot)
         case Failure => Failure
         case Panic => Panic
         case Value(v) => Value(One(v)))
      case StringType => DecodeData(output, ReadInt(slot))
      case BytesType => DecodeData(output, ReadInt(slot))
      case SliceOf(w) => DecodeSlice(w, output, ReadInt(slot))
  }

  // When decoding fails.

  /** A word is decoded unless the output is too short or a boolean is neither 0 nor 1. */
  lemma WordFails(i: nat, w: WordType, output: seq<byte>)
    ensures Decode(i, Word(w), output) != Panic
    ensures Decode(i, Word(w), output) == Failure <==>
      |output| < 32 * i + 32 || (w == BoolWord && FromBytes(output[32 * i..32 * i + 32]) > 1)
  {
    hide ReadInteger, ReadBool, FromBytes;
    if |output| >= 32 * i + 32 {
      ReadBoolExactly(output[i * 32..i * 32 + 32]);
    }
  }

  /** The length in front of data at `offset`, as a signed 64-bit number. */
  function SizeAt(output: seq<byte>, offset: int): int
    requires -24 <= offset && offset + 32 <= |output|
  {
    Wrap(FromBytes(output[offset + 24..offset + 32]))
  }

  /** Data is decoded if and only if its length word ends inside the output, begins no more than 24
      bytes before it, and the data that it announces fits. Too much data is an error; a position or
      a length that makes a slice expression invalid is a panic. */
  lemma DataFails(output: seq<byte>, offset: int)
    requires |output| < TWO_63 && 0 <= offset + TWO_63 < TWO_64
    ensures
      var r := DecodeData(output, offset);
      if offset + 32 >= TWO_63 then r == Panic
      else if offset + 32 > |output| then r == Failure
      else if offset < -24 then r == Panic
      else
        var size := SizeAt(output, offset);
        if size < 0 || offset + 32 + size >= TWO_63 then r == Panic
        else if offset + 32 + size > |output| then r == Failure
        else r == Value(Data(output[offset + 32..offset + 32 + size]))
  {
    hide FromBytes;
    if -24 <= offset && offset + 32 <= |output| {
      WrapExactly(FromBytes(output[offset + 24..offset + 32]));
    }
  }

  /** A slice is decoded if and only if its length word is inside the output, its length fits, and
      every element can be read. A length that is negative counts as none, if 32 times it wraps to
      something that fits. */
  lemma SliceFails(t: WordType, output: seq<byte>, offset: int)
    requires |output| < TWO_63 && 0 <= offset + TWO_63 < TWO_64
    ensures
      var r := DecodeSlice(t, output, offset);
      if offset + 32 >= TWO_63 then r == Panic
      else if offset + 32 > |output| then r == Failure
      else if offset < 0 then r == Panic
      else
        var size, rest := ReadInt(output[offset..offset + 32]), output[offset + 32..];
        if Wrap(size * 32) > |rest| then r == Failure
        else if Wrap(size * 32) < 0 then r == Panic
        else if size <= 0 then r == Value(Many([]))
        else r.Value? <==> 32 * size <= |rest| && forall j :: 0 <= j < size ==> Readable(t, rest, j)
  {
    hide FromBytes, ReadWord, ReadInt, Readable;
    if 0 <= offset && offset + 32 <= |output| {
      var size, rest := ReadInt(output[offset..offset + 32]), output[offset + 32..];
      if 0 <= Wrap(size * 32) <= |rest| && size > 0 {
        ElemsFail(t, rest, size);
      }
    }
  }

  ghost predicate Readable(t: WordType, rest: seq<byte>, j: nat) {
    32 * j + 32 <= |rest| && (t == BoolWord ==> FromBytes(rest[32 * j..32 * j + 32]) <= 1)
  }

  lemma {:induction false} ElemsFail(t: WordType, rest: seq<byte>, k: nat)
    ensures Elems(t, rest, k).Value? <==> 32 * k <= |rest| && forall j :: 0 <= j < k ==> Readable(t, rest, j)
  {
    hide ReadInteger, ReadBool, FromBytes;
    if k > 0 {
      ElemsFail(t, rest, k - 1);
      if 32 * k <= |rest| {
        assert rest[32 * (k - 1)..32 * k] == rest[32 * (k - 1)..32 * (k - 1) + 32];
        ReadBoolExactly(rest[32 * (k - 1)..32 * k]);
        assert Readable(t, rest, k - 1) <==> ReadWord(t, rest[32 * (k - 1)..32 * k]).Value?;
      }
    }
  }

  // The round trip.

  function NormWords(t: WordType, xs: seq<WordVal>): (ys: seq<WordVal>)
    ensures |ys| == |xs| && forall i :: 0 <= i < |xs| ==> ys[i] == NormWord(t, xs[i])
  {
    seq(|xs|, i requires 0 <= i < |xs| => NormWord(t, xs[i]))
  }

  function Norm(t: Type, v: Val): Val {
    match (t, v)
    case (Word(w), One(x)) => One(NormWord(w, x))
    case (SliceOf(w), Many(xs)) => Many(NormWords(w, xs))
    case _ => v
  }

  lemma IntBack(n: nat)
    requires n < TWO_63
    ensures ReadInt(U256(n)) == n
  {
    hide FromBytes, ToBytes, Pow256;
    Suffix(n % TWO_256, 32, 8);
    FromTo(n, 8);
    Powers();
  }

  lemma DataBack(output: seq<byte>, from: nat, bytes: seq<byte>)
    requires |output| < TWO_63
    requires var tail := PackBytesSlice(bytes, |bytes|);
      from + |tail| <= |output| && output[from..from + |tail|] == tail
    ensures DecodeData(output, from) == Value(Data(bytes))
  {
    hide FromBytes, ToBytes, Pow256, U256, Wrap;
    var l := |bytes|;
    var tail := PackBytesSlice(bytes, l);
    WrapSmall(from + 24);
    WrapSmall(from + 32);
    WrapSmall(from + 32 + l);
    IntBack(l);
    assert tail[..32] == U256(l);
    Within(output, from, tail, 24, 32);
    assert tail[24..32] == U256(l)[24..];
    Within(output, from, tail, 32, 32 + l);
    assert tail[32..32 + l] == bytes;
  }

  lemma {:induction false} ElemsBack(t: WordType, rest: seq<byte>, vs: seq<WordVal>, k: nat)
    requires (forall i :: 0 <= i < |vs| ==> WordOk(t, vs[i])) && k <= |vs| && PackWords(t, vs) <= rest
    ensures Elems(t, rest, k) == Value(NormWords(t, vs[..k]))
    decreases k
  {
    hide PackWord, WordOk, ReadWord, NormWord;
    if k > 0 {
      ElemsBack(t, rest, vs, k - 1);
      WordsAt(t, vs, k - 1);
      WordRoundTrip(t, vs[k - 1]);
      assert rest[32 * (k - 1)..32 * k] == PackWords(t, vs)[32 * (k - 1)..32 * k];
      assert NormWords(t, vs[..k]) == NormWords(t, vs[..k - 1]) + [NormWord(t, vs[k - 1])];
    }
  }

  lemma SliceBack(t: WordType, output: seq<byte>, from: nat, vs: seq<WordVal>)
    requires |output| < TWO_63 && forall i :: 0 <= i < |vs| ==> WordOk(t, vs[i])
    requires var tail := PackBytesSlice(PackWords(t, vs), |vs|);
      from + |tail| <= |output| && output[from..from + |tail|] == tail
    ensures DecodeSlice(t, output, from) == Value(Norm(SliceOf(t), Many(vs)))
  {
    hide FromBytes, ToBytes, Pow256, U256, WordOk, NormWord, Elems, PackWords, RightPad, ReadInt;
    var l := |vs|;
    var tail := PackBytesSlice(PackWords(t, vs), l);
    IntBack(l);
    assert output[from..from + 32] == tail[..32] == U256(l);
    var rest := output[from + 32..];
    assert PackWords(t, vs) <= rest by {
      assert rest[..|tail| - 32] == tail[32..];
    }
    ElemsBack(t, rest, vs, l);
    assert vs[..l] == vs;
  }

  /** Decoding position `i` of packed arguments gives argument `i`. */
  lemma RoundTrip(types: seq<Type>, args: seq<Val>, i: nat)
    requires AllTyped(types, args) && i < |types| && |Encoding(types, args)| < TWO_63
    ensures Decode(i, types[i], Encoding(types, args)) == Value(Norm(types[i], args[i]))
  {
    hide Encoding, PackWord, PackBytesSlice, ReadInt, DecodeData, DecodeSlice, ReadWord, WordOk;
    var output := Encoding(types, args);
    Layout(types, args, i);
    match types[i]
    case Word(w) =>
      WordRoundTrip(w, args[i].value);
    case StringType =>
      IntBack(Offset(types, args, i));
      DataBack(output, Offset(types, args, i), args[i].bytes);
    case BytesType =>
      IntBack(Offset(types, args, i));
      DataBack(output, Offset(types, args, i), args[i].bytes);
    case SliceOf(w) =>
      IntBack(Offset(types, args, i));
      SliceBack(w, output, Offset(types, args, i), args[i].values);
  }

  predicate BigFits(t: WordType, v: WordVal) {
    t.IntWord? && !Sized(t.bits) && v.Num? ==> 0 <= v.n < TWO_256
  }

  /** The value comes back unchanged exactly if every big integer in it fits an unsigned 256-bit
      word; in particular, a negative one never does. */
  lemma ExactlyWhen(t: Type, v: Val)
    requires HasType(t, v)
    ensures Norm(t, v) == v <==> Fits(t, v)
  {
    if t.SliceOf? {
      var xs := v.values;
      var ys := Norm(t, v).values;
      forall i | 0 <= i < |xs|
        ensures ys[i] == xs[i] <==> BigFits(t.elem, xs[i])
      {
      }
      if forall i :: 0 <= i < |xs| ==> BigFits(t.elem, xs[i]) {
        assert ys == xs;
      }
    }
  }

  ghost predicate Fits(t: Type, v: Val)
    requires HasType(t, v)
  {
    match t
    case Word(w) => BigFits(w, v.value)
    case SliceOf(w) => forall i :: 0 <= i < |v.values| ==> BigFits(w, v.values[i])
    case _ => true
  }

  /** Decoding gives the very argument that was packed if and only if every big integer in it fits an
      unsigned 256-bit word. */
  lemma DecodesExactlyWhen(types: seq<Type>, args: seq<Val>, i: nat)
    requires AllTyped(types, args) && i < |types| && |Encoding(types, args)| < TWO_63
    ensures Decode(i, types[i], Encoding(types, args)) == Value(args[i]) <==> Fits(types[i], args[i])
  {
    hide Encoding, Decode, Norm, HasType;
    RoundTrip(types, args, i);
    ExactlyWhen(types[i], args[i]);
  }

  /** An int256 argument of -1 comes back as the largest unsigned word. */
  lemma NegativeComesBackPositive()
    ensures var types, args := [Word(IntWord(true, 256))], [One(Num(-1))];
      && AllTyped(types, args)
      && Decode(0, types[0], Encoding(types, args)) == Value(One(Num(TWO_256 - 1)))
  {
    hide Decode, PackWord;
    var types, args := [Word(IntWord(true, 256))], [One(Num(-1))];
    assert Heads(types, args, 1) == Heads(types, args, 0) + Slot(types, args, 0);
    assert Tails(types, args, 1) == Tails(types, args, 0) + [];
    RoundTrip(types, args, 0);
    assert (-1) % TWO_256 == TWO_256 - 1;
  }

  // Equal encodings.

  lemma SameWordPacks(t: WordType, x: WordVal, y: WordVal)
    requires WordOk(t, x) && WordOk(t, y) && NormWord(t, x) == NormWord(t, y)
    ensures PackWord(t, x) == PackWord(t, y)
  {
    hide ToBytes, Modulus;
  }

  lemma {:induction false} SameWordsPack(t: WordType, xs: seq<WordVal>, ys: seq<WordVal>)
    requires (forall i :: 0 <= i < |xs| ==> WordOk(t, xs[i])) && (forall i :: 0 <= i < |ys| ==> WordOk(t, ys[i]))
    requires NormWords(t, xs) == NormWords(t, ys)
    ensures PackWords(t, xs) == PackWords(t, ys)
    decreases |xs|
  {
    hide PackWord, WordOk, NormWord;
    assert |xs| == |ys|;
    if xs != [] {
      var n := |xs| - 1;
      assert NormWords(t, xs)[n] == NormWords(t, ys)[n];
      SameWordPacks(t, xs[n], ys[n]);
      forall i | 0 <= i < n
        ensures NormWords(t, xs[..n])[i] == NormWords(t, ys[..n])[i]
      {
        assert NormWords(t, xs)[i] == NormWords(t, ys)[i];
      }
      SameWordsPack(t, xs[..n], ys[..n]);
    }
  }

  lemma SameArgPacks(t: Type, v: Val, w: Val)
    requires HasType(t, v) && HasType(t, w) && Norm(t, v) == Norm(t, w)
    ensures PackArg(t, v) == PackArg(t, w)
  {
    hide PackWord, PackWords, WordOk, NormWord;
    match t
    case Word(x) =>
      SameWordPacks(x, v.value, w.value);
    case SliceOf(x) =>
      assert NormWords(x, v.values) == NormWords(x, w.values);
      assert |v.values| == |NormWords(x, v.values)|;
      SameWordsPack(x, v.values, w.values);
    case StringType =>
    case BytesType =>
  }

  lemma {:induction false} SameTails(types: seq<Type>, a: seq<Val>, b: seq<Val>, k: nat)
    requires AllTyped(types, a) && AllTyped(types, b) && k <= |types|
    requires forall i :: 0 <= i < |types| ==> Norm(types[i], a[i]) == Norm(types[i], b[i])
    ensures Tails(types, a, k) == Tails(types, b, k)
  {
    hide HasType, Norm, PackArg;
    if k > 0 {
      SameTails(types, a, b, k - 1);
      SameArgPacks(types[k - 1], a[k - 1], b[k - 1]);
    }
  }

  lemma {:induction false} SameHeads(types: seq<Type>, a: seq<Val>, b: seq<Val>, k: nat)
    requires AllTyped(types, a) && AllTyped(types, b) && k <= |types|
    requires forall i :: 0 <= i < |types| ==> Norm(types[i], a[i]) == Norm(types[i], b[i])
    ensures Heads(types, a, k) == Heads(types, b, k)
  {
    hide HasType, Norm, PackArg, U256;
    if k > 0 {
      SameHeads(types, a, b, k - 1);
      SameTails(types, a, b, k - 1);
      SameArgPacks(types[k - 1], a[k - 1], b[k - 1]);
    }
  }

  /** Two argument lists have the same encoding if and only if they agree up to multiples of 2^256 in
      their big integers. */
  lemma EncodingInjective(types: seq<Type>, a: seq<Val>, b: seq<Val>)
    requires AllTyped(types, a) && AllTyped(types, b) && |Encoding(types, a)| < TWO_63
    ensures Encoding(types, a) == Encoding(types, b) <==>
      forall i :: 0 <= i < |types| ==> Norm(types[i], a[i]) == Norm(types[i], b[i])
  {
    hide Decode, Norm, HasType, Heads, Tails;
    if Encoding(types, a) == Encoding(types, b) {
      forall i | 0 <= i < |types|
        ensures Norm(types[i], a[i]) == Norm(types[i], b[i])
      {
        RoundTrip(types, a, i);
        RoundTrip(types, b, i);
      }
    }
    if forall i :: 0 <= i < |types| ==> Norm(types[i], a[i]) == Norm(types[i], b[i]) {
      SameHeads(types, a, b, |types|);
      SameTails(types, a, b, |types|);
    }
  }

  // The loops.

  /** Packs one argument, element by element if it is a slice; an argument of another type is an
      error. */
  method PackType(t: Type, v: Val) returns (r: Result<seq<byte>>)
    ensures r == if HasType(t, v) then Ok(PackArg(t, v)) else Err
    ensures r.Ok? ==> IsPacked(t, v, r.value)
  {
    hide PackWord, PackBytesSlice, WordOk, IsPacked;
    if HasType(t, v) {
      PackedBytes(t, v);
    }
    if t.SliceOf? && v.Many? {
      var packed: seq<byte> := [];
      var vs := v.values;
      for i := 0 to |vs|
        invariant forall j :: 0 <= j < i ==> WordOk(t.elem, vs[j])
        invariant packed == PackWords(t.elem, vs[..i])
      {
        if !WordOk(t.elem, vs[i]) {
          return Err;
        }
        assert vs[..i + 1][..i] == vs[..i];
        packed := packed + PackWord(t.elem, vs[i]);
      }
      assert vs[..|vs|] == vs;
      return Ok(PackBytesSlice(packed, |vs|));
    }
    if !HasType(t, v) {
      return Err;
    }
    return Ok(PackArg(t, v));
  }

  /** Packs an argument list, growing the head and the tail side by side. */
  method Pack(types: seq<Type>, args: seq<Val>) returns (r: Result<seq<byte>>, ghost offsets: seq<nat>)
    ensures r == if AllTyped(types, args) then Ok(Encoding(types, args)) else Err
    ensures r.Ok? ==> Tiling(types, args, offsets, |r.value|)
    ensures r.Ok? ==> forall i :: 0 <= i < |types| ==> ArgAt(types[i], args[i], r.value, i, offsets[i])
    ensures r.Ok? && |r.value| < TWO_63 ==>
      forall i :: 0 <= i < |types| ==> Decode(i, types[i], r.value) == Value(Norm(types[i], args[i]))
  {
    hide HasType, PackArg, Norm, Decode, U256, ArgAt, Tiling;
    offsets := [];
    if |args| != |types| {
      return Err, [];
    }
    var ret: seq<byte>, variableInput: seq<byte> := [], [];
    for i := 0 to |args|
      invariant AllTyped(types[..i], args[..i])
      invariant AllTyped(types, args) ==> ret == Heads(types, args, i) && variableInput == Tails(types, args, i)
    {
      var packed := PackType(types[i], args[i]);
      if packed == Err {
        return Err, [];
      }
      if Dynamic(types[i]) {
        var offset := |types| * 32 + |variableInput|;
        ret := ret + U256(offset);
        variableInput := variableInput + packed.value;
      } else {
        ret := ret + packed.value;
      }
      AllTypedNext(types, args, i);
    }
    assert types[..|types|] == types && args[..|args|] == args;
    r, offsets := Ok(ret + variableInput), Offsets(types, args);
    OffsetsTile(types, args);
    forall i | 0 <= i < |types|
      ensures ArgAt(types[i], args[i], r.value, i, offsets[i])
    {
      BytesAre(types, args, i);
    }
    if |r.value| < TWO_63 {
      forall i | 0 <= i < |types|
        ensures Decode(i, types[i], r.value) == Value(Norm(types[i], args[i]))
      {
        RoundTrip(types, args, i);
      }
    }
  }

  lemma AllTypedNext(types: seq<Type>, args: seq<Val>, i: nat)
    requires |types| == |args| && i < |types| && AllTyped(types[..i], args[..i]) && HasType(types[i], args[i])
    ensures AllTyped(types[..i + 1], args[..i + 1])
  {
    hide HasType;
    forall k | 0 <= k < i
      ensures HasType(types[k], args[k])
    {
      assert types[..i][k] == types[k] && args[..i][k] == args[k];
    }
  }

  /** Reads the elements of a slice one after the other. */
  method ToGoSlice(i: nat, t: WordType, output: seq<byte>) returns (r: Outcome<Val>)
    ensures r == Decode(i, SliceOf(t), output)
  {
    hide ReadInt, ReadWord;
    var index := i * 32;
    if index + 32 > |output| {
      return Failure;
    }
    var offset := ReadInt(output[index..index + 32]);
    if Wrap(offset + 32) > |output| {
      return Failure;
    }
    if offset < 0 || offset + 32 > |output| {
      return Panic;
    }
    var size := ReadInt(output[offset..offset + 32]);
    var slice := output[offset + 32..];
    if Wrap(size * 32) > |slice| {
      return Failure;
    }
    if Wrap(size * 32) < 0 {
      return Panic;
    }
    var values: seq<WordVal> := [];
    var k := 0;
    while k < size
      invariant 0 <= k && (k <= size || k == 0) && Elems(t, slice, k) == Value(values)
    {
      if 32 * k + 32 > |slice| {
        StopsThere(t, slice, k + 1, size);
        return Panic;
      }
      var word := ReadWord(t, slice[32 * k..32 * k + 32]);
      if !word.Value? {
        StopsThere(t, slice, k + 1, size);
        return if word.Failure? then Failure else Panic;
      }
      values := values + [word.value];
      k := k + 1;
    }
    return Value(Many(values));
  }

  /** Once reading has failed, it stays so. */
  lemma {:induction false} StopsThere(t: WordType, rest: seq<byte>, j: nat, k: nat)
    requires j <= k && !Elems(t, rest, j).Value?
    ensures Elems(t, rest, k) == Elems(t, rest, j)
    decreases k
  {
    hide ReadWord;
    if j < k {
      StopsThere(t, rest, j, k - 1);
    }
  }
}
