/** The lexical layer of canonical JSON: escaped strings and decimal integers as sequences of
    UTF-16 units (RFC 8259, sections 6 and 7), and their UTF-8 bytes. */
module JsonText {
  import opened ByteStrings

  type Unit = u: int | 0 <= u < 0x1_0000
  type Text = seq<Unit>

  const QUOTE: Unit := 34
  const MINUS: Unit := 45
  const COMMA: Unit := 44
  const COLON: Unit := 58
  const BACKSLASH: Unit := 92

  predicate IsHigh(c: Unit) { 0xD800 <= c < 0xDC00 }
  predicate IsLow(c: Unit) { 0xDC00 <= c < 0xE000 }

  function Str(s: string): (t: Text)
    ensures |t| == |s|
  {
    seq(|s|, i requires 0 <= i < |s| => s[i] as int % 0x1_0000)
  }

  // ---------- strings ----------

  function Hex(d: nat): (c: Unit)
    requires d < 16
    ensures 48 <= c < 58 || 97 <= c < 103
  {
    if d < 10 then 48 + d else 87 + d
  }

  /** A backslash, `u` and four lower-case hex digits. */
  function UnicodeEscape(c: Unit): (t: Text)
    ensures |t| == 6
  {
    var high := c / 16 / 16;
    [BACKSLASH, 117, Hex(high / 16), Hex(high % 16), Hex(c / 16 % 16), Hex(c % 16)]
  }

  function ShortEscape(c: Unit): Option<Unit> {
    if c == 8 then Some(98) else if c == 9 then Some(116) else if c == 10 then Some(110) else if c == 12 then Some(102)
    else if c == 13 then Some(114) else if c == QUOTE then Some(QUOTE) else if c == BACKSLASH then Some(BACKSLASH)
      else None
  }

  function EscapeUnit(c: Unit): Text {
    var short := ShortEscape(c);
    if short.Some? then [BACKSLASH, short.value]
    else if c < 32 || IsHigh(c) || IsLow(c) then UnicodeEscape(c)
    else [c]
  }

  /** The body of a JSON string.  A surrogate pair is copied; a lone surrogate is escaped.  `paired`
      says that the first unit is the second half of a pair. */
  function Escape(paired: bool, s: Text): Text
    requires paired ==> s != [] && IsLow(s[0])
    decreases |s|
  {
    if s == [] then []
    else if paired then [s[0]] + Escape(false, s[1..])
    else if IsHigh(s[0]) && |s| > 1 && IsLow(s[1]) then [s[0]] + Escape(true, s[1..])
    else EscapeUnit(s[0]) + Escape(false, s[1..])
  }

  function Quote(s: Text): Text {
    [QUOTE] + (Escape(false, s) + [QUOTE])
  }

  /** What one step of `Escape` writes, and whether the next unit is the second half of a pair. */
  function Head(paired: bool, s: Text): (Text, bool)
    requires s != []
  {
    if paired then ([s[0]], false)
    else if IsHigh(s[0]) && |s| > 1 && IsLow(s[1]) then ([s[0]], true)
    else (EscapeUnit(s[0]), false)
  }

  lemma EscapeStep(paired: bool, s: Text)
    requires s != [] && (paired ==> IsLow(s[0]))
    ensures Head(paired, s).0 != [] && Head(paired, s).0[0] != QUOTE
    ensures Head(paired, s).1 ==> |s| > 1 && IsLow(s[1])
    ensures Escape(paired, s) == Head(paired, s).0 + Escape(Head(paired, s).1, s[1..])
  {
  }

  lemma Regroup(a: Text, b: Text, c: Text)
    ensures a + b + c == a + (b + c)
  {
  }

  // ---------- integers ----------

  predicate IsDigit(c: Unit) { 48 <= c < 58 }

  function Decimal(n: nat): (t: Text)
    ensures t != [] && forall i :: 0 <= i < |t| ==> IsDigit(t[i])
  {
    if n < 10 then [48 + n] else Decimal(n / 10) + [48 + n % 10]
  }

  function Sign(n: int): Text {
    if n < 0 then [MINUS] else []
  }

  function Magnitude(n: int): nat {
    if n < 0 then -n else n
  }

  function Integer(n: int): (t: Text)
    ensures t != [] && if n < 0 then t[0] == MINUS else IsDigit(t[0])
  {
    Sign(n) + Decimal(Magnitude(n))
  }

  // ---------- canonical decimal strings ----------

  function DecimalValue(t: Text): nat
    requires forall i :: 0 <= i < |t| ==> IsDigit(t[i])
  {
    if t == [] then 0 else
      assert IsDigit(t[|t| - 1]);
      10 * DecimalValue(t[..|t| - 1]) + t[|t| - 1] - 48
  }

  /** `0`, or digits without a leading zero. */
  predicate IsCanonicalDecimal(t: Text) {
    t != [] && (forall i :: 0 <= i < |t| ==> IsDigit(t[i])) && (|t| > 1 ==> t[0] != 48)
  }

  lemma {:induction false} ValueOfDecimal(n: nat)
    ensures DecimalValue(Decimal(n)) == n
  {
    if n >= 10 {
      ValueOfDecimal(n / 10);
      assert Decimal(n)[..|Decimal(n)| - 1] == Decimal(n / 10);
    }
  }

  lemma {:induction false} DecimalOfValue(t: Text)
    requires IsCanonicalDecimal(t)
    ensures Decimal(DecimalValue(t)) == t && (t[0] != 48 ==> DecimalValue(t) > 0)
  {
    var prefix, d := t[..|t| - 1], t[|t| - 1];
    assert t == prefix + [d];
    if |t| > 1 {
      DecimalOfValue(prefix);
    } else {
      assert DecimalValue(prefix) == 0;
    }
  }

  predicate NoDigitFirst(t: Text) {
    t == [] || !IsDigit(t[0])
  }

  // ---------- UTF-8 ----------

  predicate Paired(t: Text) {
    |t| > 1 && IsHigh(t[0]) && IsLow(t[1])
  }

  /** Every surrogate is half of a pair. */
  predicate WellFormed(t: Text) {
    t == [] || (if Paired(t) then WellFormed(t[2..]) else !IsHigh(t[0]) && !IsLow(t[0]) && WellFormed(t[1..]))
  }

  function CodePoint(high: Unit, low: Unit): nat
    requires IsHigh(high) && IsLow(low)
  {
    0x1_0000 + (high - 0xD800) * 0x400 + (low - 0xDC00)
  }

  function EncodePoint(p: nat): (b: Bytes)
    requires p < 0x11_0000
  {
    if p < 0x80 then [p]
    else if p < 0x800 then [0xC0 + p / 0x40, 0x80 + p % 0x40]
    else if p < 0x1_0000 then [0xE0 + p / 0x40 / 0x40, 0x80 + p / 0x40 % 0x40, 0x80 + p % 0x40]
    else [0xF0 + p / 0x40 / 0x40 / 0x40, 0x80 + p / 0x40 / 0x40 % 0x40, 0x80 + p / 0x40 % 0x40, 0x80 + p % 0x40]
  }

  /** UTF-8 bytes; a lone surrogate becomes U+FFFD. */
  function Utf8(t: Text): Bytes {
    if t == [] then []
    else if Paired(t) then EncodePoint(CodePoint(t[0], t[1])) + Utf8(t[2..])
    else EncodePoint(if IsHigh(t[0]) || IsLow(t[0]) then 0xFFFD else t[0]) + Utf8(t[1..])
  }

  lemma {:induction false} WellFormedConcat(a: Text, b: Text)
    requires WellFormed(a) && WellFormed(b)
    ensures WellFormed(a + b)
  {
    if a == [] {
      assert a + b == b;
    } else {
      var n := if Paired(a) then 2 else 1;
      WellFormedConcat(a[n..], b);
      assert (a + b)[n..] == a[n..] + b;
    }
  }

  /** Text without surrogates. */
  lemma {:induction false} PlainIsWellFormed(t: Text)
    requires forall i :: 0 <= i < |t| ==> !IsHigh(t[i]) && !IsLow(t[i])
    ensures WellFormed(t)
  {
    if t != [] { PlainIsWellFormed(t[1..]); }
  }

  lemma {:induction false} EscapeWellFormed(s: Text)
    ensures WellFormed(Escape(false, s))
    decreases |s|
  {
    if s == [] {
    } else if IsHigh(s[0]) && |s| > 1 && IsLow(s[1]) {
      EscapeWellFormed(s[2..]);
      assert s[1..][1..] == s[2..];
      var t := Escape(false, s);
      EscapeStep(false, s);
      EscapeStep(true, s[1..]);
      assert Head(true, s[1..]) == ([s[1]], false);
      assert t == [s[0]] + ([s[1]] + Escape(false, s[2..]));
      assert t[2..] == Escape(false, s[2..]) && Paired(t);
    } else {
      EscapeWellFormed(s[1..]);
      PlainIsWellFormed(EscapeUnit(s[0]));
      WellFormedConcat(EscapeUnit(s[0]), Escape(false, s[1..]));
    }
  }

  lemma QuoteWellFormed(s: Text)
    ensures WellFormed(Quote(s))
  {
    EscapeWellFormed(s);
    PlainIsWellFormed([QUOTE]);
    WellFormedConcat(Escape(false, s), [QUOTE]);
    WellFormedConcat([QUOTE], Escape(false, s) + [QUOTE]);
  }

  lemma IntegerWellFormed(n: int)
    ensures WellFormed(Integer(n))
  {
    PlainIsWellFormed(Integer(n));
  }
}
