/** Values in the dumped script: how each is written, what the parser makes of it, and what arrives in
    a column of the right type. */
module SqlValues {
  import opened Bytes
  import opened SqlText

  datatype ColumnType = BoolType | IntType(signed: bool, bits: nat) | TextType | BinaryType

  datatype Value = Null | BoolValue(b: bool) | IntValue(n: int) | TextValue(s: string) | BinaryValue(data: seq<byte>)

  /** What the parser produces; integers carry the type that it chose for them. */
  datatype Variant =
    | NullVariant | BoolVariant(b: bool) | IntVariant(signed: bool, bits: nat, n: int)
    | TextVariant(s: string) | BinaryVariant(data: seq<byte>)

  function Modulus(bits: nat): (m: nat)
    ensures m > 0
  {
    if bits == 8 then 0x100 else if bits == 16 then 0x1_0000 else if bits == 32 then UINT32_LIMIT else UINT64_LIMIT
  }

  predicate IsColumnType(t: ColumnType) {
    t.IntType? ==> t.bits == 8 || t.bits == 16 || t.bits == 32 || t.bits == 64
  }

  predicate HasType(v: Value, t: ColumnType) {
    match v
    case Null => true
    case BoolValue(_) => t == BoolType
    case IntValue(n) =>
      t.IntType? && if t.signed then -(Modulus(t.bits) / 2) <= n < Modulus(t.bits) / 2 else 0 <= n < Modulus(t.bits)
    case TextValue(_) => t == TextType
    case BinaryValue(_) => t == BinaryType
  }

  // ---- Writing ----

  function Render(v: Value): string {
    match v
    case Null => "NULL"
    case BoolValue(b) => if b then "true" else "false"
    case IntValue(n) => if n < 0 then "-" + Digits(-n) else Digits(n)
    case TextValue(s) => "'" + Doubled(s) + "'"
    case BinaryValue(b) => "X'" + Hex(b) + "'"
  }

  // ---- Reading ----

  /** The smallest unsigned type that holds the number. */
  function Classified(n: nat): Variant
    requires n < UINT64_LIMIT
  {
    IntVariant(false, if n < 0x100 then 8 else if n < 0x1_0000 then 16 else if n < UINT32_LIMIT then 32 else 64, n)
  }

  /** Unary minus: 8 and 16 bits are promoted to a signed 32-bit integer, 32 and 64 bits stay unsigned
      and wrap around. */
  function Negated(v: Variant): Variant
    requires v.IntVariant? && !v.signed && 0 <= v.n
  {
    if v.bits <= 16 then IntVariant(true, 32, -v.n) else IntVariant(false, v.bits, (-v.n) % Modulus(v.bits))
  }

  function ReadVariant(s: string): (r: Option<(Variant, string)>)
    ensures r.Some? ==> |r.value.1| < |s|
  {
    if s == "" then None
    else if "NULL" <= s then Some((NullVariant, s[4..]))
    else if "true" <= s then Some((BoolVariant(true), s[4..]))
    else if "false" <= s then Some((BoolVariant(false), s[5..]))
    else if s[0] == '-' then
      var r := ReadNumber(s[1..]);
      if r.None? || r.value.0 >= UINT64_LIMIT then None else Some((Negated(Classified(r.value.0)), r.value.1))
    else if IsDigit(s[0]) then
      var r := ReadNumber(s);
      if r.None? || r.value.0 >= UINT64_LIMIT then None else Some((Classified(r.value.0), r.value.1))
    else if s[0] == '\'' then
      var r := StringToken(s[1..]);
      if r.None? then None else Some((TextVariant(Undoubled(r.value.0)), r.value.1))
    else if "X'" <= s then
      var r := StringToken(s[2..]);
      if r.None? then None
      else
        var b := Unhex(r.value.0);
        if b.None? then None else Some((BinaryVariant(b.value), r.value.1))
    else None
  }

  /** A cast between integer types. */
  function Cast(n: int, signed: bool, bits: nat): int {
    var m := Modulus(bits);
    var u := n % m;
    if signed && u >= m / 2 then u - m else u
  }

  /** What a column of type `t` stores for a parsed value. */
  function Converted(v: Variant, t: ColumnType): Option<Value> {
    match v
    case NullVariant => Some(Null)
    case BoolVariant(b) => if t == BoolType then Some(BoolValue(b)) else None
    case IntVariant(signed, bits, n) =>
      if !t.IntType? then None
      else if t.signed == signed && t.bits == bits then Some(IntValue(n))
      else Some(IntValue(Cast(n, t.signed, t.bits)))
    case TextVariant(s) => if t == TextType then Some(TextValue(s)) else None
    case BinaryVariant(b) => if t == BinaryType then Some(BinaryValue(b)) else None
  }

  // ---- Round trip ----

  /** A number whose digits fit 64 bits. */
  predicate InWords(n: int) {
    n < UINT64_LIMIT && -n < UINT64_LIMIT
  }

  /** What the parser makes of a written value. */
  function Parsed(v: Value): Variant
    requires v.IntValue? ==> InWords(v.n)
  {
    match v
    case Null => NullVariant
    case BoolValue(b) => BoolVariant(b)
    case IntValue(n) => if n < 0 then Negated(Classified(-n)) else Classified(n)
    case TextValue(s) => TextVariant(s)
    case BinaryValue(b) => BinaryVariant(b)
  }

  /** What may follow a value in a row. */
  predicate Ends(rest: string) {
    rest != "" && (rest[0] == ',' || rest[0] == ')')
  }

  lemma ReadInt(n: int, rest: string)
    requires Ends(rest) && InWords(n)
    ensures ReadVariant(Render(IntValue(n)) + rest) == Some((Parsed(IntValue(n)), rest))
  {
    hide Digits, ReadNumber;
    var s := Render(IntValue(n)) + rest;
    if n < 0 {
      assert s[1..] == Digits(-n) + rest && s[0] == '-';
      NumberBack(-n, rest);
    } else {
      assert s[0] == Digits(n)[0] && IsDigit(s[0]);
      NumberBack(n, rest);
    }
  }

  lemma ReadText(t: string, rest: string)
    requires Ends(rest)
    ensures ReadVariant(Render(TextValue(t)) + rest) == Some((TextVariant(t), rest))
  {
    hide Doubled, Undoubled, StringToken;
    var s := Render(TextValue(t)) + rest;
    assert s[0] == '\'' && s[1..] == Doubled(t) + "'" + rest;
    StringTokenBack(t, rest);
    UndoubledDoubled(t);
  }

  lemma ReadBinary(b: seq<byte>, rest: string)
    requires Ends(rest)
    ensures ReadVariant(Render(BinaryValue(b)) + rest) == Some((BinaryVariant(b), rest))
  {
    hide Hex, Unhex, StringToken, Doubled;
    var s := Render(BinaryValue(b)) + rest;
    DoubledPlain(Hex(b));
    assert s[0] == 'X' && s[..2] == "X'" && s[2..] == Doubled(Hex(b)) + "'" + rest;
    StringTokenBack(Hex(b), rest);
    UnhexHex(b);
  }

  lemma ReadWord(v: Value, rest: string)
    requires v.Null? || v.BoolValue?
    ensures ReadVariant(Render(v) + rest) == Some((Parsed(v), rest))
  {
    var s := Render(v) + rest;
    assert s[0] == Render(v)[0];
    assert s[|Render(v)|..] == rest && s[..|Render(v)|] == Render(v);
  }

  /** Every value is read back for what it was written as. */
  lemma ReadBack(v: Value, rest: string)
    requires Ends(rest) && (v.IntValue? ==> InWords(v.n))
    ensures ReadVariant(Render(v) + rest) == Some((Parsed(v), rest))
  {
    hide ReadVariant, Render;
    match v
    case IntValue(n) => ReadInt(n, rest);
    case TextValue(t) => ReadText(t, rest);
    case BinaryValue(b) => ReadBinary(b, rest);
    case _ => ReadWord(v, rest);
  }

  /** Negative 64-bit integers of 17 to 32 bits, whose literal is negated as an unsigned 32-bit number. */
  predicate Misread(v: Value, t: ColumnType) {
    t == IntType(true, 64) && v.IntValue? && 0x1_0000 <= -v.n < UINT32_LIMIT
  }

  lemma CastSame(n: nat, signed: bool, bits: nat)
    requires n < if signed then Modulus(bits) / 2 else Modulus(bits)
    ensures Cast(n, signed, bits) == n
  {
    hide Modulus;
    var m := Modulus(bits);
    assert n % m == n;
  }

  /** Casting a number to a signed type that holds its difference from the modulus. */
  lemma CastNegative(n: int, bits: nat)
    requires -(Modulus(bits) / 2) <= n < 0 && Modulus(bits) % 2 == 0
    ensures Cast(n, true, bits) == n && Cast(n + Modulus(bits), true, bits) == n
            && n % Modulus(bits) == n + Modulus(bits)
  {
    hide Modulus;
    var m := Modulus(bits);
    Wrapped(n, m);
  }

  lemma Wrapped(n: int, m: nat)
    requires m > 0 && 0 <= n + m < m
    ensures n % m == n + m && (n + m) % m == n + m
  {
  }

  lemma NonNegativeBack(n: nat, t: ColumnType)
    requires t.IntType? && HasType(IntValue(n), t) && IsColumnType(t)
    ensures InWords(n) && Converted(Classified(n), t) == Some(IntValue(n))
  {
    hide Cast;
    CastSame(n, t.signed, t.bits);
  }

  lemma NegativeBack(n: int, t: ColumnType)
    requires n < 0 && t.IntType? && HasType(IntValue(n), t) && IsColumnType(t)
    ensures InWords(n)
    ensures Converted(Negated(Classified(-n)), t)
            == Some(IntValue(if Misread(IntValue(n), t) then n + UINT32_LIMIT else n))
  {
    hide Cast;
    CastNegative(n, t.bits);
    if 0x1_0000 <= -n < UINT32_LIMIT {
      Wrapped(n, UINT32_LIMIT);
      if t.bits == 64 {
        CastSame(n + UINT32_LIMIT, true, 64);
      }
    }
  }

  /** A value comes back unchanged in a column of its type exactly when it is not misread; a misread
      one comes back 2^32 larger. */
  lemma ConvertedBack(v: Value, t: ColumnType)
    requires HasType(v, t) && IsColumnType(t)
    ensures v.IntValue? ==> InWords(v.n)
    ensures Converted(Parsed(v), t) == Some(if Misread(v, t) then IntValue(v.n + UINT32_LIMIT) else v)
  {
    hide Cast;
    if v.IntValue? {
      if v.n < 0 {
        NegativeBack(v.n, t);
      } else {
        NonNegativeBack(v.n, t);
      }
    }
  }
}
