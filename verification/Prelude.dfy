/** Shared vocabulary: options, bytes, big-endian integers and counting by a bijection. */
module Prelude {

  datatype Option<+T> = None | Some(value: T)

  type byte = b: int | 0 <= b < 256

  const TWO_32: nat := 0x1_0000_0000
  const TWO_64: nat := 0x1_0000_0000_0000_0000

  type uint64 = n: int | 0 <= n < TWO_64

  function PutU16(n: nat): (s: seq<byte>)
    requires n < 65536
    ensures |s| == 2
  {
    [n / 256, n % 256]
  }

  function U16(s: seq<byte>): nat
    requires |s| == 2
  {
    (s[0] as int) * 256 + s[1]
  }

  function PutU32(n: nat): (s: seq<byte>)
    requires n < TWO_32
    ensures |s| == 4
  {
    PutU16(n / 65536) + PutU16(n % 65536)
  }

  function U32(s: seq<byte>): nat
    requires |s| == 4
  {
    U16(s[..2]) * 65536 + U16(s[2..])
  }

  /** Reading back a big-endian number gives the number that was written. */
  lemma U32RoundTrip(n: nat)
    requires n < TWO_32
    ensures U32(PutU32(n)) == n
  {
    assert PutU32(n)[..2] == PutU16(n / 65536) && PutU32(n)[2..] == PutU16(n % 65536);
  }

  function PutU64(n: uint64): (s: seq<byte>)
    ensures |s| == 8
  {
    PutU32(n / TWO_32) + PutU32(n % TWO_32)
  }

  function U64(s: seq<byte>): (n: uint64)
    requires |s| == 8
  {
    (U32(s[..4]) as int) * TWO_32 + U32(s[4..])
  }

  lemma U64RoundTrip(n: uint64)
    ensures U64(PutU64(n)) == n
  {
    assert PutU64(n)[..4] == PutU32(n / TWO_32) && PutU64(n)[4..] == PutU32(n % TWO_32);
    U32RoundTrip(n / TWO_32);
    U32RoundTrip(n % TWO_32);
  }

  /** Two finite sets in one-to-one correspondence have the same size. */
  lemma {:induction false} BijectionKeepsSize<X(!new), Y(!new)>(xs: set<X>, ys: set<Y>, f: X -> Y)
    requires forall x :: x in xs ==> f(x) in ys
    requires forall y :: y in ys ==> exists x :: x in xs && f(x) == y
    requires forall x, x' :: x in xs && x' in xs && f(x) == f(x') ==> x == x'
    ensures |xs| == |ys|
  {
    if xs == {} {
      assert ys == {};
    } else {
      var x :| x in xs;
      BijectionKeepsSize(xs - {x}, ys - {f(x)}, f);
    }
  }

  lemma {:induction false} SubsetSize<T>(xs: set<T>, ys: set<T>)
    requires xs <= ys
    ensures |xs| <= |ys|
  {
    if xs != {} {
      var x :| x in xs;
      SubsetSize(xs - {x}, ys - {x});
    }
  }

  /** A prefix that fixes its own length leaves no other way to split the rest. */
  lemma LengthPrefixInjective(a: seq<byte>, b: seq<byte>, c: seq<byte>, d: seq<byte>)
    requires |a| < TWO_32 && |c| < TWO_32
    requires PutU32(|a|) + a + b == PutU32(|c|) + c + d
    ensures a == c && b == d
  {
    var left, right := PutU32(|a|) + a + b, PutU32(|c|) + c + d;
    U32RoundTrip(|a|);
    U32RoundTrip(|c|);
    assert left[..4] == PutU32(|a|) && right[..4] == PutU32(|c|);
    assert left[4..4 + |a|] == a && right[4..4 + |c|] == c;
    assert left[4 + |a|..] == b && right[4 + |c|..] == d;
  }

  // ---- small arithmetic

  /** Go's integer division. */
  function Quotient(n: int, d: int): int
    requires d > 0
  {
    if n >= 0 then n / d else -((-n) / d)
  }

  lemma NextMultiple(i: int, d: int)
    ensures (i + 1) * d == i * d + d
  {
  }

  lemma TimesMonotone(a: int, b: int, d: int)
    requires a <= b && d >= 0
    ensures a * d <= b * d
  {
  }

  lemma AtLeastOne(k: int, d: int)
    requires k >= 1 && d > 0
    ensures k * d >= d && (-k) * d == -(k * d)
  {
  }

  lemma SameRemainder(n: int, d: int, q: int, r: int)
    requires d > 0 && n == q * d + r && 0 <= r < d
    ensures n % d == r
  {
    var qq, rr := n / d, n % d;
    assert n == qq * d + rr && 0 <= rr < d;
    var off := qq - q;
    assert off * d == r - rr by {
      assert off * d == qq * d - q * d;
    }
    if off >= 1 {
      AtLeastOne(off, d);
    } else if off <= -1 {
      AtLeastOne(-off, d);
    }
  }

  lemma MultipleDivides(q: int, d: int)
    requires d > 0
    ensures q * d % d == 0
  {
    SameRemainder(q * d, d, q, 0);
  }

  // ---- big-endian numbers are their only spellings

  lemma WordDecodes(s: seq<byte>)
    requires |s| == 8
    ensures PutU64(U64(s)) == s
  {
    HalfDecodes(s[..4]);
    HalfDecodes(s[4..]);
    var high, low := U32(s[..4]), U32(s[4..]);
    SameRemainder(U64(s), TWO_32, high, low);
    assert U64(s) == high * TWO_32 + low && U64(s) / TWO_32 == high;
    assert s == s[..4] + s[4..];
  }

  lemma HalfDecodes(s: seq<byte>)
    requires |s| == 4
    ensures PutU32(U32(s)) == s && U32(s) < TWO_32
  {
    var high, low := U16(s[..2]), U16(s[2..]);
    PairDecodes(s[..2]);
    PairDecodes(s[2..]);
    assert U32(s) / 65536 == high && U32(s) % 65536 == low;
    assert s == s[..2] + s[2..];
  }

  lemma PairDecodes(s: seq<byte>)
    requires |s| == 2
    ensures PutU16(U16(s)) == s && U16(s) < 65536
  {
  }
}
