/** Big-endian words, as the contract ABI uses them (account/abi/numbers.go, common/bytes.go). */
module AbiBytes {
  newtype byte = x: int | 0 <= x < 256

  const TWO_256: nat := 0x1_0000_0000_0000_0000_0000_0000_0000_0000_0000_0000_0000_0000_0000_0000_0000_0000
  const TWO_64: nat := 0x1_0000_0000_0000_0000
  const TWO_63: nat := 0x8000_0000_0000_0000

  function Pow256(k: nat): (p: nat)
    ensures p > 0
  {
    if k == 0 then 1 else 256 * Pow256(k - 1)
  }

  /** The `len` lowest bytes of `n`, most significant first. */
  function ToBytes(n: nat, len: nat): (b: seq<byte>)
    ensures |b| == len
    decreases len
  {
    if len == 0 then [] else ToBytes(n / 256, len - 1) + [(n % 256) as byte]
  }

  function FromBytes(b: seq<byte>): nat
    decreases |b|
  {
    if b == [] then 0 else FromBytes(b[..|b| - 1]) * 256 + b[|b| - 1] as nat
  }

  lemma RemainderIs(n: int, m: nat, q: int, r: nat)
    requires m > 0 && n == m * q + r && r < m
    ensures n % m == r
  {
    var q', r' := n / m, n % m;
    assert n == m * q' + r';
    SmallerQuotient(m, q, r, q', r');
    SmallerQuotient(m, q', r', q, r);
  }

  lemma SmallerQuotient(m: nat, q: int, r: nat, q': int, r': nat)
    requires r < m
    ensures q < q' ==> m * q + r < m * q' + r'
  {
    if q < q' {
      Multiple(m, q' - q);
      assert m * (q' - q) == m * q' - m * q;
    }
  }

  lemma Multiple(m: nat, d: nat)
    requires d >= 1
    ensures m * d >= m
  {
    assert m * d == m + m * (d - 1);
  }

  /** Cutting a number to a larger word first makes no difference. */
  lemma RemainderOfRemainder(n: int, m: nat, c: nat)
    requires m > 0 && m * c > 0
    ensures (n % (m * c)) % m == n % m
  {
    var q, r := n / (m * c), n % (m * c);
    var a, b := r / m, r % m;
    assert n == (m * c) * q + r && r == m * a + b;
    assert m * (c * q + a) == (m * c) * q + m * a;
    RemainderIs(n, m, c * q + a, b);
  }

  lemma LowByteSplit(n: nat, p: nat)
    requires p > 0
    ensures n % (256 * p) == ((n / 256) % p) * 256 + n % 256
  {
    var q, r := n / 256, n % 256;
    var a, c := q / p, q % p;
    assert q == p * a + c;
    assert (256 * p) * a == 256 * (p * a);
    RemainderIs(n, 256 * p, a, c * 256 + r);
  }

  /** Writing and reading back gives the number modulo the size of the word. */
  lemma {:induction false} FromTo(n: nat, len: nat)
    ensures FromBytes(ToBytes(n, len)) == n % Pow256(len)
    decreases len
  {
    if len > 0 {
      FromTo(n / 256, len - 1);
      LowByteSplit(n, Pow256(len - 1));
      FromAppend(ToBytes(n / 256, len - 1), (n % 256) as byte);
    }
  }

  lemma FromAppend(b: seq<byte>, x: byte)
    ensures FromBytes(b + [x]) == FromBytes(b) * 256 + x as nat
  {
    assert (b + [x])[..|b|] == b;
  }

  /** The last bytes of a word are the word of that size. */
  lemma {:induction false} Suffix(n: nat, len: nat, k: nat)
    requires k <= len
    ensures ToBytes(n, len)[len - k..] == ToBytes(n, k)
    decreases k
  {
    if k > 0 {
      Suffix(n / 256, len - 1, k - 1);
      assert ToBytes(n, len)[len - k..] == ToBytes(n / 256, len - 1)[len - k..] + [(n % 256) as byte];
    }
  }

  /** Byte `i` of a word, most significant first. */
  lemma {:induction false} BigEndian(n: nat, len: nat, i: nat)
    requires i < len
    ensures ToBytes(n, len)[i] as nat == n / Pow256(len - 1 - i) % 256
    decreases len
  {
    if i == len - 1 {
      assert Pow256(0) == 1;
    } else {
      BigEndian(n / 256, len - 1, i);
      DivideTwice(n, Pow256(len - 2 - i));
    }
  }

  lemma DivideTwice(n: nat, p: nat)
    requires p > 0
    ensures n / 256 / p == n / (256 * p)
  {
    var q, r := n / 256, n % 256;
    var a, c := q / p, q % p;
    assert n == (256 * p) * a + (256 * c + r) by {
      assert q == p * a + c;
      assert 256 * (p * a) == (256 * p) * a;
    }
    QuotientIs(n, 256 * p, a, 256 * c + r);
  }

  lemma QuotientIs(n: nat, m: nat, q: int, r: nat)
    requires m > 0 && n == m * q + r && r < m
    ensures n / m == q
  {
    RemainderIs(n, m, q, r);
    var q' := n / m;
    assert m * q' == m * q;
    SmallerQuotient(m, q, r, q', r);
    SmallerQuotient(m, q', r, q, r);
  }

  /** The last bytes hold the number modulo the size of the smaller word. */
  lemma {:induction false} SuffixValue(b: seq<byte>, k: nat)
    requires k <= |b|
    ensures FromBytes(b[|b| - k..]) == FromBytes(b) % Pow256(k)
    decreases |b|
  {
    if k > 0 {
      var front, last, suffix := b[..|b| - 1], b[|b| - 1], b[|b| - k..];
      SuffixValue(front, k - 1);
      assert suffix[..k - 1] == front[|front| - (k - 1)..] && suffix[k - 1] == last;
      var n := FromBytes(front) * 256 + last as nat;
      assert FromBytes(b) == n && n / 256 == FromBytes(front) && n % 256 == last as nat;
      LowByteSplit(n, Pow256(k - 1));
    } else {
      assert b[|b|..] == [];
    }
  }

  /** Leading zeros do not count. */
  lemma {:induction false} LeadingZeros(b: seq<byte>)
    ensures FromBytes(b) == 0 <==> forall i :: 0 <= i < |b| ==> b[i] == 0
    decreases |b|
  {
    if b != [] {
      LeadingZeros(b[..|b| - 1]);
    }
  }

  lemma Powers()
    ensures Pow256(1) == 0x100 && Pow256(2) == 0x1_0000 && Pow256(4) == 0x1_0000_0000
    ensures Pow256(8) == TWO_64 && Pow256(32) == TWO_256
  {
    PowerAdd(1, 1);
    PowerAdd(2, 2);
    PowerAdd(4, 4);
    PowerAdd(8, 8);
    PowerAdd(16, 16);
    assert Pow256(1) == 256 * Pow256(0);
  }

  lemma {:induction false} PowerAdd(j: nat, k: nat)
    ensures Pow256(j + k) == Pow256(j) * Pow256(k)
    decreases j
  {
    if j > 0 {
      PowerAdd(j - 1, k);
      Associate(Pow256(j - 1), Pow256(k));
    }
  }

  lemma Associate(a: nat, b: nat)
    ensures 256 * (a * b) == (256 * a) * b
  {
  }

  function Zeros(n: nat): seq<byte> {
    seq(n, _ => 0)
  }

  /** Pads with zero bytes on the right up to length `l`; longer input is left alone. */
  function RightPad(b: seq<byte>, l: nat): (r: seq<byte>)
    ensures b <= r && (|b| <= l ==> |r| == l)
  {
    if l <= |b| then b else b + Zeros(l - |b|)
  }

  lemma PaddedWithZeros(b: seq<byte>, l: nat, k: nat)
    requires |b| <= k < |RightPad(b, l)|
    ensures RightPad(b, l)[k] == 0
  {
  }

  function LeftPad(b: seq<byte>, l: nat): (r: seq<byte>)
    ensures |b| <= l ==> |r| == l
    ensures |b| <= |r| && r[|r| - |b|..] == b
  {
    if l <= |b| then b else Zeros(l - |b|) + b
  }

  /** A number as a 256-bit word, two's complement if it is negative. */
  function U256(n: int): (b: seq<byte>)
    ensures |b| == 32
  {
    ToBytes(n % TWO_256, 32)
  }

  /** An unsigned value of the given size, read as two's complement. */
  function Signed(u: nat, modulus: nat): int {
    if 2 * u < modulus then u else u - modulus
  }
}
