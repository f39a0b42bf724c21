/** Octets, the little- and big-endian codecs of bintools.h, and the C integer
    conversions the rest of the model needs. */
module Bytes {

  type byte = x: int | 0 <= x < 256

  const TWO_8 := 0x100
  const TWO_16 := 0x1_0000
  const TWO_24 := 0x100_0000
  const TWO_31 := 0x8000_0000
  const TWO_32 := 0x1_0000_0000
  const TWO_56 := 0x100_0000_0000_0000
  const TWO_63 := 0x8000_0000_0000_0000
  const TWO_64 := 0x1_0000_0000_0000_0000

  /** "DHAV" and "dhav", the opening and closing marks of a frame. */
  const DHAV_MARK: seq<byte> := [0x44, 0x48, 0x41, 0x56]
  const TRAILER_MARK: seq<byte> := [0x64, 0x68, 0x61, 0x76]

  /** BT_LM2NV_U16 / BT_LM2NV_U32 read as unsigned values. */
  function LE16(b: seq<byte>): (n: nat)
    requires |b| == 2
    ensures n < TWO_16
  {
    b[0] + TWO_8 * b[1]
  }

  function LE32(b: seq<byte>): (n: nat)
    requires |b| == 4
    ensures n < TWO_32
  {
    b[0] + TWO_8 * b[1] + TWO_16 * b[2] + TWO_24 * b[3]
  }

  /** BT_LM2NV_U32 has C type int, so storing it in a size_t sign-extends it:
      a length with its top bit set becomes a number close to 2^64. */
  function Len32(b: seq<byte>): (n: nat)
    requires |b| == 4
    ensures n < TWO_31 || TWO_63 <= n < TWO_64
    ensures n < TWO_31 ==> n == LE32(b)
  {
    var n := LE32(b);
    if n < TWO_31 then n else n + (TWO_64 - TWO_32)
  }

  /** BT_NV2LM_U16. */
  function ToLE16(n: nat): (b: seq<byte>)
    requires n < TWO_16
    ensures |b| == 2 && b[0] == n % 256 && b[1] == n / 256
  {
    [n % TWO_8, n / TWO_8]
  }

  lemma LowOctets(t: nat)
    ensures ToLE16(t % TWO_16) == [t % 256, t / 256 % 256]
  {
    var a, b := t / 256, t / TWO_16;
    assert a / 256 == b && t == a * 256 + t % 256 && a == b * 256 + a % 256;
    assert t == b * TWO_16 + t % TWO_16;
  }

  /** Exactly these two octets are read as `n`. */
  lemma LE16RoundTrip(n: nat, b: seq<byte>)
    requires n < TWO_16 && |b| == 2
    ensures LE16(b) == n <==> b == ToLE16(n)
  {
    var t := ToLE16(n);
    assert b == t <==> b[0] == t[0] && b[1] == t[1];
    assert n == n / TWO_8 * TWO_8 + n % TWO_8;
  }

  /** BT_NV2LM_U32. */
  function ToLE32(n: nat): (b: seq<byte>)
    requires n < TWO_32
    ensures |b| == 4 && b[0] == n % 256 && b[3] == n / 0x100_0000
    ensures b[1] == n / 256 % 256 && b[2] == n / 0x1_0000 % 256
  {
    [n % TWO_8, n / TWO_8 % TWO_8, n / TWO_16 % TWO_8, n / TWO_24 % TWO_8]
  }

  lemma LE32RoundTrip(n: nat)
    requires n < TWO_32
    ensures LE32(ToLE32(n)) == n
  {
    var a, b, c := n / TWO_8, n / TWO_16, n / TWO_24;
    assert n == a * TWO_8 + n % TWO_8;
    assert a == b * TWO_8 + a % TWO_8;
    assert b == c * TWO_8 + b % TWO_8;
  }

  /** Conversion to uint64_t, as the C standard puts it: by repeatedly adding or
      subtracting one more than the maximum value. */
  function Wrap(x: int): (r: int)
    ensures 0 <= r < TWO_64
    decreases if x < 0 then TWO_64 - x else x
  {
    if x < 0 then Wrap(x + TWO_64) else if x >= TWO_64 then Wrap(x - TWO_64) else x
  }

  /** Conversion to uint16_t. */
  function Wrap16(x: int): (r: nat)
    ensures r < TWO_16
    decreases if x < 0 then TWO_16 - x else x
  {
    if x < 0 then Wrap16(x + TWO_16) else if x >= TWO_16 then Wrap16(x - TWO_16) else x
  }

  lemma ModuloPeriodic(x: int, m: int)
    requires m > 0
    ensures (x + m) % m == x % m
  {
    var a, b := x / m, (x + m) / m;
    assert a * m + x % m + m == b * m + (x + m) % m;
    SameRemainder(a + 1 - b, x % m, (x + m) % m, m);
  }

  lemma SameRemainder(k: int, r: int, s: int, m: int)
    requires 0 <= r < m && 0 <= s < m && k * m + r == s
    ensures r == s
  {
    if k >= 1 {
      AtLeastOne(k, m);
    } else if k <= -1 {
      AtLeastOne(-k, m);
    }
  }

  lemma AtLeastOne(q: int, b: int)
    requires b > 0 && q >= 1
    ensures q * b >= b
  {
  }

  lemma {:induction false} Wrap16IsModulo(x: int)
    ensures Wrap16(x) == x % TWO_16
    decreases if x < 0 then TWO_16 - x else x
  {
    if x < 0 {
      ModuloPeriodic(x, TWO_16);
      Wrap16IsModulo(x + TWO_16);
    } else if x >= TWO_16 {
      ModuloPeriodic(x - TWO_16, TWO_16);
      Wrap16IsModulo(x - TWO_16);
    }
  }

  lemma {:induction false} WrapIsModulo(x: int)
    ensures Wrap(x) == x % TWO_64
    decreases if x < 0 then TWO_64 - x else x
  {
    if x < 0 {
      ModuloPeriodic(x, TWO_64);
      WrapIsModulo(x + TWO_64);
    } else if x >= TWO_64 {
      ModuloPeriodic(x - TWO_64, TWO_64);
      WrapIsModulo(x - TWO_64);
    }
  }

  /** A true clock in milliseconds, never stepping by the whole range of a 16-bit
      stamp. */
  predicate TrueClock(t: seq<nat>)
  {
    forall i :: 0 <= i < |t| - 1 ==> t[i] <= t[i + 1] < t[i] + TWO_16
  }

  function Pow256(k: nat): (p: nat)
    ensures p > 0
  {
    if k == 0 then 1 else TWO_8 * Pow256(k - 1)
  }

  /** The low k octets of n, most significant first. */
  function BE(n: nat, k: nat): (b: seq<byte>)
    ensures |b| == k
  {
    if k == 0 then [] else BE(n / TWO_8, k - 1) + [n % TWO_8]
  }

  function FromBE(b: seq<byte>): nat
  {
    if b == [] then 0 else FromBE(b[..|b| - 1]) * TWO_8 + b[|b| - 1]
  }

  /** Reading back what BE wrote loses nothing but the octets that did not fit. */
  lemma {:induction false} BERoundTrip(n: nat, k: nat)
    requires n < Pow256(k)
    ensures FromBE(BE(n, k)) == n
  {
    if k > 0 {
      BERoundTrip(n / TWO_8, k - 1);
      assert BE(n, k)[..k - 1] == BE(n / TWO_8, k - 1);
    }
  }

  lemma {:induction false} FromBEConcat(a: seq<byte>, b: seq<byte>)
    ensures FromBE(a + b) == FromBE(a) * Pow256(|b|) + FromBE(b)
    decreases |b|
  {
    if b == [] {
      assert a + b == a;
    } else {
      var b', x := b[..|b| - 1], b[|b| - 1];
      assert (a + b)[..|a + b| - 1] == a + b';
      FromBEConcat(a, b');
      calc {
        FromBE(a + b);
        FromBE(a + b') * TWO_8 + x;
        (FromBE(a) * Pow256(|b'|) + FromBE(b')) * TWO_8 + x;
        FromBE(a) * Pow256(|b'|) * TWO_8 + FromBE(b') * TWO_8 + x;
        { assert Pow256(|b|) == TWO_8 * Pow256(|b'|); }
        FromBE(a) * Pow256(|b|) + FromBE(b);
      }
    }
  }

  lemma Pow256Values()
    ensures Pow256(1) == TWO_8 && Pow256(2) == TWO_16 && Pow256(4) == TWO_32
    ensures Pow256(7) == TWO_56 && Pow256(8) == TWO_64
  {
    assert Pow256(3) == TWO_24;
    assert Pow256(5) == TWO_8 * TWO_32;
    assert Pow256(6) == TWO_16 * TWO_32;
  }

  lemma Assoc(a: seq<byte>, b: seq<byte>, c: seq<byte>)
    ensures a + b + c == a + (b + c)
    ensures a + [] == a && [] + c == c
  {
  }

  lemma SubSlice(s: seq<byte>, i: nat, j: nat, a: nat, b: nat)
    requires i <= j <= |s| && a <= b <= j - i
    ensures s[i..j][a..b] == s[i + a..i + b]
  {
    forall k | 0 <= k < b - a ensures s[i..j][a..b][k] == s[i + a..i + b][k] {
      assert s[i..j][a..b][k] == s[i..j][a + k] == s[i + (a + k)];
    }
  }

  /** Everything in ss, one after another. */
  function Concat(ss: seq<seq<byte>>): seq<byte>
  {
    if ss == [] then [] else ss[0] + Concat(ss[1..])
  }

  lemma ConcatCons(s: seq<byte>, ss: seq<seq<byte>>)
    ensures Concat([s] + ss) == s + Concat(ss)
  {
    assert ([s] + ss)[1..] == ss;
  }

  lemma {:induction false} ConcatAppend(a: seq<seq<byte>>, b: seq<seq<byte>>)
    ensures Concat(a + b) == Concat(a) + Concat(b)
  {
    if a == [] {
      assert a + b == b;
    } else {
      assert (a + b)[1..] == a[1..] + b;
      ConcatAppend(a[1..], b);
    }
  }

  /** Cutting at element i loses nothing. */
  lemma ConcatCut(ss: seq<seq<byte>>, i: nat)
    requires i <= |ss|
    ensures Concat(ss[..i]) + Concat(ss[i..]) == Concat(ss)
  {
    assert ss == ss[..i] + ss[i..];
    ConcatAppend(ss[..i], ss[i..]);
  }

  lemma ConcatSnoc(ss: seq<seq<byte>>, s: seq<byte>)
    ensures Concat(ss + [s]) == Concat(ss) + s
  {
    ConcatAppend(ss, [s]);
    ConcatOne(s);
  }

  lemma ConcatOne(s: seq<byte>)
    ensures Concat([s]) == s
  {
    assert s + [] == s;
  }

  /** The octets up to, in and behind element i. */
  lemma ConcatSplit(ss: seq<seq<byte>>, i: nat)
    requires i < |ss|
    ensures Concat(ss[..i + 1]) == Concat(ss[..i]) + ss[i]
    ensures Concat(ss[i..]) == ss[i] + Concat(ss[i + 1..])
    ensures Concat(ss) == Concat(ss[..i]) + (ss[i] + Concat(ss[i + 1..]))
  {
    ConcatUpTo(ss, i);
    ConcatFrom(ss, i);
    ConcatCut(ss, i);
  }

  lemma ConcatUpTo(ss: seq<seq<byte>>, i: nat)
    requires i < |ss|
    ensures Concat(ss[..i + 1]) == Concat(ss[..i]) + ss[i]
  {
    assert ss[..i + 1] == ss[..i] + [ss[i]];
    ConcatSnoc(ss[..i], ss[i]);
  }

  lemma ConcatFirst(ss: seq<seq<byte>>, i: nat)
    requires i < |ss|
    ensures Concat(ss[..i + 1]) == ss[0] + Concat(ss[1..][..i])
  {
    assert ss[..i + 1] == [ss[0]] + ss[1..i + 1];
    assert ss[1..][..i] == ss[1..i + 1];
    ConcatCons(ss[0], ss[1..i + 1]);
  }

  lemma ConcatFrom(ss: seq<seq<byte>>, i: nat)
    requires i < |ss|
    ensures Concat(ss[i..]) == ss[i] + Concat(ss[i + 1..])
  {
    assert ss[i..] == [ss[i]] + ss[i + 1..];
    ConcatCons(ss[i], ss[i + 1..]);
  }
}
