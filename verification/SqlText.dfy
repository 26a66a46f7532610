/** Literals in SQL text: how the dump writes values and how the parser reads them back. */
module SqlText {
  import opened Bytes

  // ---- Decimal numbers ----

  function DigitOf(d: nat): char
    requires d < 10
  {
    '0' + d as char
  }

  predicate IsDigit(c: char) {
    '0' <= c <= '9'
  }

  function Digits(n: nat): (s: string)
    ensures |s| > 0 && forall i :: 0 <= i < |s| ==> IsDigit(s[i])
  {
    if n < 10 then [DigitOf(n)] else Digits(n / 10) + [DigitOf(n % 10)]
  }

  /** The value of a row of digits behind `acc`. */
  function ValueOf(s: string, acc: nat): nat
    requires forall i :: 0 <= i < |s| ==> IsDigit(s[i])
  {
    if s == "" then acc
    else
      var c := s[|s| - 1];
      assert IsDigit(c);
      10 * ValueOf(s[..|s| - 1], acc) + (c - '0') as nat
  }

  /** Reads as many digits as there are. */
  function ReadDigits(s: string, acc: nat): (r: (nat, string))
    ensures |r.1| <= |s|
  {
    if s != "" && IsDigit(s[0]) then ReadDigits(s[1..], 10 * acc + (s[0] - '0') as nat) else (acc, s)
  }

  function ReadNumber(s: string): (r: Option<(nat, string)>)
    ensures r.Some? ==> |r.value.1| < |s|
  {
    if s == "" || !IsDigit(s[0]) then None else Some(ReadDigits(s, 0))
  }

  lemma {:induction false} DigitsValue(n: nat)
    ensures ValueOf(Digits(n), 0) == n
  {
    if n < 10 {
      assert Digits(n)[..0] == "";
    } else {
      DigitsValue(n / 10);
      assert Digits(n)[..|Digits(n)| - 1] == Digits(n / 10);
    }
  }

  lemma {:induction false} ReadDigitsValue(s: string, rest: string, acc: nat)
    requires forall i :: 0 <= i < |s| ==> IsDigit(s[i])
    ensures ReadDigits(s + rest, acc) == ReadDigits(rest, ValueOf(s, acc))
  {
    if s == "" {
      assert s + rest == rest;
    } else {
      var n := |s| - 1;
      assert s + rest == s[..n] + ([s[n]] + rest);
      ReadDigitsValue(s[..n], [s[n]] + rest, acc);
      assert ([s[n]] + rest)[1..] == rest;
    }
  }

  /** A number reads back when no further digit follows. */
  lemma NumberBack(n: nat, rest: string)
    requires rest == "" || !IsDigit(rest[0])
    ensures ReadNumber(Digits(n) + rest) == Some((n, rest))
  {
    DigitsValue(n);
    ReadDigitsValue(Digits(n), rest, 0);
    assert (Digits(n) + rest)[0] == Digits(n)[0];
  }

  // ---- Quoted text ----

  /** Every quote written twice. */
  function Doubled(s: string): string {
    if s == "" then "" else (if s[0] == '\'' then "''" else [s[0]]) + Doubled(s[1..])
  }

  /** Every pair of quotes, from the left, replaced by one. */
  function Undoubled(s: string): string {
    if s == "" then ""
    else if |s| > 1 && s[0] == '\'' && s[1] == '\'' then "'" + Undoubled(s[2..])
    else [s[0]] + Undoubled(s[1..])
  }

  lemma {:induction false} UndoubledDoubled(s: string)
    ensures Undoubled(Doubled(s)) == s
  {
    if s == "" {
    } else {
      UndoubledDoubled(s[1..]);
      var d := Doubled(s);
      if s[0] == '\'' {
        assert d[2..] == Doubled(s[1..]);
      } else {
        assert d[0] == s[0] && d[1..] == Doubled(s[1..]);
      }
      assert s == [s[0]] + s[1..];
    }
  }

  /** The inside of a string token that begins before `s`, and what follows the token. */
  function StringToken(s: string): (r: Option<(string, string)>)
    ensures r.Some? ==> |r.value.1| < |s|
  {
    if s == "" then None
    else if s[0] != '\'' then PrependFirst([s[0]], StringToken(s[1..]))
    else if |s| > 1 && s[1] == '\'' then PrependFirst("''", StringToken(s[2..]))
    else Some(("", s[1..]))
  }

  lemma Dropped(a: string, b: string)
    ensures (a + b)[|a|..] == b
  {
  }

  lemma {:induction false} StringTokenBack(s: string, rest: string)
    requires rest == "" || rest[0] != '\''
    ensures StringToken(Doubled(s) + "'" + rest) == Some((Doubled(s), rest))
  {
    var text := Doubled(s) + "'" + rest;
    if s == "" {
      assert text == "'" + rest;
      Dropped("'", rest);
    } else {
      StringTokenBack(s[1..], rest);
      var head := if s[0] == '\'' then "''" else [s[0]];
      var tail := Doubled(s[1..]) + "'" + rest;
      assert text == head + tail by { Regrouped(head, Doubled(s[1..]), "'", rest); }
      Dropped(head, tail);
    }
  }

  /** The index of the first pair of quotes from `from` on. */
  method FindPair(s: string, from: nat) returns (r: Option<nat>)
    requires from <= |s|
    ensures r.Some? ==> from <= r.value < |s| - 1 && s[r.value] == '\'' && s[r.value + 1] == '\''
    ensures var end := if r.Some? then r.value else |s| - 1;
            forall i :: from <= i < end ==> !(s[i] == '\'' && s[i + 1] == '\'')
  {
    var i := from;
    while i < |s| - 1
      invariant from <= i <= |s|
      invariant forall j :: from <= j < i && j < |s| - 1 ==> !(s[j] == '\'' && s[j + 1] == '\'')
    {
      if s[i] == '\'' && s[i + 1] == '\'' {
        return Some(i);
      }
      i := i + 1;
    }
    r := None;
  }

  /** Takes one quote out of every pair, in place. */
  method FixSingleQuotes(text: string) returns (s: string)
    ensures s == Undoubled(text)
  {
    hide Undoubled;
    s := text;
    var position: nat := 0;
    assert s[0..] == s;
    while position != |s|
      invariant position <= |s| && Undoubled(text) == s[..position] + Undoubled(s[position..])
      decreases |s| - position
    {
      var pair := FindPair(s, position);
      if pair.None? {
        NoPairLeft(s, position);
        return;
      }
      PairFixed(s, position, pair.value);
      s := s[..pair.value] + s[pair.value + 1..];
      position := pair.value + 1;
    }
    NoPairLeft(s, position);
  }

  lemma NoPairLeft(s: string, position: nat)
    requires position <= |s| && forall i :: position <= i < |s| - 1 ==> !(s[i] == '\'' && s[i + 1] == '\'')
    ensures s[..position] + Undoubled(s[position..]) == s
  {
    var tail := s[position..];
    forall i | 0 <= i < |tail| && i + 1 < |tail| ensures !(tail[i] == '\'' && tail[i + 1] == '\'') {
      assert tail[i] == s[position + i] && tail[i + 1] == s[position + i + 1];
    }
    NoPair(tail, |tail|);
    assert tail[|tail|..] == "";
    assert s[..position] + tail == s;
  }

  lemma PairFixed(s: string, position: nat, at: nat)
    requires position <= at < |s| - 1 && s[at] == '\'' && s[at + 1] == '\''
    requires forall i :: position <= i < at ==> !(s[i] == '\'' && s[i + 1] == '\'')
    ensures var s' := s[..at] + s[at + 1..];
            s[..position] + Undoubled(s[position..]) == s'[..at + 1] + Undoubled(s'[at + 1..])
  {
    var tail, k := s[position..], at - position;
    var s' := s[..at] + s[at + 1..];
    forall i | 0 <= i < k && i + 1 < |tail| ensures !(tail[i] == '\'' && tail[i + 1] == '\'') {
      assert tail[i] == s[position + i] && tail[i + 1] == s[position + i + 1];
    }
    NoPair(tail, k);
    assert tail[k..] == s[at..];
    assert s[at..][2..] == s[at + 2..];
    assert s[at + 2..] == s'[at + 1..];
    assert s'[..at + 1] == s[..at] + "'";
    assert s[..position] + tail[..k] == s[..at];
    Regrouped(s[..position], tail[..k], "'", Undoubled(s[at + 2..]));
  }

  /** What comes before the first pair of quotes is left alone. */
  lemma {:induction false} NoPair(s: string, k: nat)
    requires k <= |s| && forall i :: 0 <= i < k && i + 1 < |s| ==> !(s[i] == '\'' && s[i + 1] == '\'')
    ensures Undoubled(s) == s[..k] + Undoubled(s[k..])
  {
    if k == 0 {
      assert s[0..] == s;
    } else {
      assert s[1..][k - 1..] == s[k..];
      NoPair(s[1..], k - 1);
      assert s[..k] == [s[0]] + s[1..][..k - 1];
    }
  }

  // ---- Binary data ----

  function HexDigit(d: nat): char
    requires d < 16
  {
    if d < 10 then '0' + d as char else 'a' + (d - 10) as char
  }

  function HexValue(c: char): Option<nat> {
    if '0' <= c <= '9' then Some((c - '0') as nat)
    else if 'a' <= c <= 'f' then Some((c - 'a') as nat + 10)
    else if 'A' <= c <= 'F' then Some((c - 'A') as nat + 10)
    else None
  }

  function Hex(b: seq<byte>): (s: string)
    ensures forall i :: 0 <= i < |s| ==> s[i] != '\''
  {
    if b == [] then "" else [HexDigit(b[0] / 16), HexDigit(b[0] % 16)] + Hex(b[1..])
  }

  function Unhex(s: string): Option<seq<byte>> {
    if s == "" then Some([])
    else if |s| == 1 then None
    else
      var high, low, rest := HexValue(s[0]), HexValue(s[1]), Unhex(s[2..]);
      if high.None? || low.None? || rest.None? || high.value >= 16 || low.value >= 16 then None
      else Some([16 * high.value + low.value] + rest.value)
  }

  lemma {:induction false} UnhexHex(b: seq<byte>)
    ensures Unhex(Hex(b)) == Some(b)
  {
    if b == [] {
    } else {
      UnhexHex(b[1..]);
      assert Hex(b)[2..] == Hex(b[1..]);
      assert b == [b[0]] + b[1..];
    }
  }

  lemma {:induction false} DoubledPlain(s: string)
    requires forall i :: 0 <= i < |s| ==> s[i] != '\''
    ensures Doubled(s) == s
  {
    if s == "" {
    } else {
      DoubledPlain(s[1..]);
      assert s == [s[0]] + s[1..];
    }
  }
}
