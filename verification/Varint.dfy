/** Base-128 variable-length unsigned integers: seven bits per byte, least significant group first,
    the high bit set on all bytes but the last. */
module Varint {
  import opened Bytes

  function EncodeVarint(n: nat): (s: seq<byte>)
    ensures |s| >= 1
  {
    if n < 128 then [n] else [128 + n % 128] + EncodeVarint(n / 128)
  }

  /** The value at the front of `s` and the number of bytes it takes, if `s` holds all of it. */
  function DecodeVarint(s: seq<byte>): (r: Option<(nat, nat)>)
    ensures r.Some? ==> 1 <= r.value.1 <= |s|
  {
    if s == [] then None
    else if s[0] < 128 then Some((s[0], 1))
    else
      match DecodeVarint(s[1..])
      case None => None
      case Some((v, n)) => Some((s[0] - 128 + 128 * v, n + 1))
  }

  lemma {:induction false} VarintRoundTrip(n: nat, rest: seq<byte>)
    ensures DecodeVarint(EncodeVarint(n) + rest) == Some((n, |EncodeVarint(n)|))
  {
    if n < 128 {
    } else {
      var s := EncodeVarint(n) + rest;
      VarintRoundTrip(n / 128, rest);
      assert s[0] == 128 + n % 128 && s[1..] == EncodeVarint(n / 128) + rest;
    }
  }

  /** 128 to the power `k`. */
  function Groups(k: nat): (r: nat)
    ensures r >= 1
  {
    if k == 0 then 1 else 128 * Groups(k - 1)
  }

  /** A number takes at most `k` bytes exactly when it has at most `k` groups of seven bits. */
  lemma {:induction false} VarintLength(n: nat, k: nat)
    requires k > 0
    ensures |EncodeVarint(n)| <= k <==> n < Groups(k)
  {
    if n < 128 {
      assert Groups(k) == 128 * Groups(k - 1);
    } else if k > 1 {
      VarintLength(n / 128, k - 1);
    }
  }
}
