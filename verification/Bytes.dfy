/** Bytes, the plain binary (little-endian) integer encoding, and files as byte
    sequences with whole-or-nothing positioned writes. */
module Bytes {

  type byte = x: int | 0 <= x < 256

  datatype Option<+T> = None | Some(value: T)

  const UINT32_LIMIT: nat := 0x1_0000_0000
  const UINT64_LIMIT: nat := 0x1_0000_0000_0000_0000

  /** Largest file size an `off_t` can express; writes beyond it fail. */
  const MAX_FILE_SIZE: nat := 0x7FFF_FFFF_FFFF_FFFF

  function Min(a: int, b: int): int {
    if a < b then a else b
  }

  function Max(a: int, b: int): int {
    if a < b then b else a
  }

  // ---- Little-endian integers ----

  /** 256 to the power `width`: the number of values that `width` bytes can hold. */
  function Range(width: nat): (r: nat)
    ensures r >= 1
  {
    if width == 0 then 1 else 256 * Range(width - 1)
  }

  lemma RangeOf4And8()
    ensures Range(4) == UINT32_LIMIT
    ensures Range(8) == UINT64_LIMIT
  {
  }

  /** The low `width` bytes of `n`, least significant byte first. */
  function EncodeUInt(n: nat, width: nat): (s: seq<byte>)
    ensures |s| == width
  {
    if width == 0 then [] else [n % 256] + EncodeUInt(n / 256, width - 1)
  }

  function DecodeUInt(s: seq<byte>): nat {
    if s == [] then 0 else s[0] + 256 * DecodeUInt(s[1..])
  }

  lemma {:induction false} UIntRoundTrip(n: nat, width: nat)
    requires n < Range(width)
    ensures DecodeUInt(EncodeUInt(n, width)) == n
  {
    if width == 0 {
    } else {
      UIntRoundTrip(n / 256, width - 1);
      assert EncodeUInt(n, width)[1..] == EncodeUInt(n / 256, width - 1);
    }
  }

  lemma UInt32RoundTrip(n: nat)
    requires n < UINT32_LIMIT
    ensures DecodeUInt(EncodeUInt(n, 4)) == n
  {
    RangeOf4And8();
    UIntRoundTrip(n, 4);
  }

  lemma UInt64RoundTrip(n: nat)
    requires n < UINT64_LIMIT
    ensures DecodeUInt(EncodeUInt(n, 8)) == n
  {
    RangeOf4And8();
    UIntRoundTrip(n, 8);
  }

  lemma {:induction false} DecodeUIntBound(s: seq<byte>)
    ensures DecodeUInt(s) < Range(|s|)
  {
    if s == [] {
    } else {
      DecodeUIntBound(s[1..]);
    }
  }

  // ---- Files ----

  function Zeros(n: nat): (s: seq<byte>)
    ensures |s| == n
    ensures forall i :: 0 <= i < n ==> s[i] == 0
  {
    seq(n, _ => 0)
  }

  /** `f` grown with zero bytes to at least `size` bytes; the hole left by a write past the end. */
  function Grown(f: seq<byte>, size: nat): (g: seq<byte>)
    ensures |g| == Max(|f|, size)
    ensures forall i :: 0 <= i < |f| ==> g[i] == f[i]
    ensures forall i :: |f| <= i < |g| ==> g[i] == 0
  {
    if size <= |f| then f else f + Zeros(size - |f|)
  }

  /** The file after `data` was written at `off`. */
  function WriteAt(f: seq<byte>, off: nat, data: seq<byte>): (g: seq<byte>)
    ensures |g| == Max(|f|, off + |data|)
    ensures g[off..off + |data|] == data
    ensures forall i :: 0 <= i < |f| && !(off <= i < off + |data|) ==> g[i] == f[i]
    ensures forall i :: |f| <= i < off ==> g[i] == 0
  {
    var h := Grown(f, off + |data|);
    h[..off] + data + h[off + |data|..]
  }

  lemma SliceOfPrefix(s: seq<byte>, n: nat, lo: nat, hi: nat)
    requires lo <= hi <= n <= |s|
    ensures s[..n][lo..hi] == s[lo..hi]
  {
  }

  lemma SliceOfSlice(s: seq<byte>, a: nat, b: nat, lo: nat, hi: nat)
    requires a <= b <= |s| && lo <= hi <= b - a
    ensures s[a..b][lo..hi] == s[a + lo..a + hi]
  {
    var x, y := s[a..b][lo..hi], s[a + lo..a + hi];
    assert |x| == |y| && forall i :: 0 <= i < |x| ==> x[i] == y[i];
  }

  /** Concatenation is associative. */
  lemma Regrouped<T>(a: seq<T>, b: seq<T>, c: seq<T>, d: seq<T>)
    ensures a + (b + (c + d)) == ((a + b) + c) + d == a + ((b + c) + d) == (a + (b + c)) + d
  {
  }

  /** A region that a write does not touch reads as before. */
  lemma WriteElsewhere(f: seq<byte>, off: nat, data: seq<byte>, lo: nat, hi: nat)
    requires lo <= hi <= |f|
    requires hi <= off || off + |data| <= lo
    ensures WriteAt(f, off, data)[lo..hi] == f[lo..hi]
  {
  }

  // ---- Concatenation of a list of byte strings ----

  function Concat(ss: seq<seq<byte>>): seq<byte> {
    if ss == [] then [] else ss[0] + Concat(ss[1..])
  }

  lemma {:induction false} ConcatSnoc(ss: seq<seq<byte>>, s: seq<byte>)
    ensures Concat(ss + [s]) == Concat(ss) + s
  {
    if ss == [] {
      assert ss + [s] == [s];
    } else {
      assert (ss + [s])[1..] == ss[1..] + [s];
      ConcatSnoc(ss[1..], s);
    }
  }

  // ---- Results that begin with a known part ----

  /** The result of reading `a` and then what `r` yields. */
  function Prepend<T>(a: seq<T>, r: Option<seq<T>>): Option<seq<T>> {
    match r
    case None => None
    case Some(b) => Some(a + b)
  }

  lemma PrependTwice<T>(a: seq<T>, b: seq<T>, r: Option<seq<T>>)
    ensures Prepend(a + b, r) == Prepend(a, Prepend(b, r))
  {
    if r.Some? {
      assert a + b + r.value == a + (b + r.value);
    }
  }

  lemma PrependNothing<T>(r: Option<seq<T>>)
    ensures Prepend([], r) == r
  {
    if r.Some? {
      assert [] + r.value == r.value;
    }
  }

  /** The same for a result that comes with the rest of the input. */
  function PrependFirst<T>(a: seq<T>, r: Option<(seq<T>, seq<T>)>): Option<(seq<T>, seq<T>)> {
    match r
    case None => None
    case Some((b, rest)) => Some((a + b, rest))
  }

  lemma PrependFirstTwice<T>(a: seq<T>, b: seq<T>, r: Option<(seq<T>, seq<T>)>)
    ensures PrependFirst(a + b, r) == PrependFirst(a, PrependFirst(b, r))
  {
    if r.Some? {
      assert a + b + r.value.0 == a + (b + r.value.0);
    }
  }

  lemma PrependFirstNothing<T>(r: Option<(seq<T>, seq<T>)>)
    ensures PrependFirst([], r) == r
  {
    if r.Some? {
      assert [] + r.value.0 == r.value.0;
    }
  }

  // ---- Arithmetic and maps ----

  lemma Product(x: nat, y: nat, b: nat)
    requires x <= y
    ensures x * b <= y * b
  {
    assert y * b == x * b + (y - x) * b;
  }

  lemma QuotientIs(n: nat, b: nat, i: nat, rem: nat)
    requires rem < b && n == i * b + rem
    ensures n / b == i && n % b == rem
  {
    var q := n / b;
    assert n == q * b + n % b;
    assert (q + 1) * b == q * b + b && (i + 1) * b == i * b + b;
    if q > i {
      Product(i + 1, q, b);
      assert false;
    } else if q < i {
      Product(q + 1, i, b);
      assert false;
    }
  }

  lemma OneFewer<T>(m: map<nat, T>, k: nat)
    requires k in m
    ensures |m| == |m - {k}| + 1
  {
    assert m == (m - {k})[k := m[k]];
  }
}
