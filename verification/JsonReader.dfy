/** A reader of JSON text (RFC 8259, without insignificant whitespace and with integers only) and of UTF-8
    (RFC 3629), written from those standards.  What canonical JSON prints is read back as the value. */
module JsonReader {
  import opened ByteStrings
  import opened JsonText
  import opened CanonicalJson

  // ---------- strings ----------

  function HexValue(c: Unit): (r: Option<nat>)
    ensures r.Some? ==> r.value < 16
  {
    if 48 <= c <= 57 then Some(c - 48)
    else if 97 <= c <= 102 then Some(c - 97 + 10)
    else if 65 <= c <= 70 then Some(c - 65 + 10)
    else None
  }

  function ReadHex(t: Text): Option<Unit>
    requires |t| == 4
  {
    var a, b, c, d := HexValue(t[0]), HexValue(t[1]), HexValue(t[2]), HexValue(t[3]);
    if a.None? || b.None? || c.None? || d.None? then None
    else Some(a.value * 4096 + b.value * 256 + c.value * 16 + d.value)
  }

  /** The unit that a backslash and `c` stand for (RFC 8259, section 7). */
  function ReadEscape(c: Unit): Option<Unit> {
    match c
    case 34 => Some(34)    // quotation mark
    case 92 => Some(92)    // reverse solidus
    case 47 => Some(47)    // solidus
    case 98 => Some(8)     // backspace
    case 102 => Some(12)   // form feed
    case 110 => Some(10)   // line feed
    case 114 => Some(13)   // carriage return
    case 116 => Some(9)    // tab
    case _ => None
  }

  /** One unit of a string body, and the text after it. */
  function ReadUnit(t: Text): (r: Option<(Unit, Text)>)
    ensures r.Some? ==> |r.value.1| < |t|
  {
    if t == [] || t[0] < 32 || t[0] == 34 then None
    else if t[0] != 92 then Some((t[0], t[1..]))
    else if |t| < 2 then None
    else if t[1] == 117 then
      if |t| < 6 then None
      else match ReadHex(t[2..6])
        case Some(c) => Some((c, t[6..]))
        case None => None
    else match ReadEscape(t[1])
      case Some(c) => Some((c, t[2..]))
      case None => None
  }

  /** A string body up to its closing quotation mark. */
  function ReadString(t: Text): (r: Option<(Text, Text)>)
    ensures r.Some? ==> |r.value.1| < |t|
    decreases |t|
  {
    if t == [] then None
    else if t[0] == 34 then Some(([], t[1..]))
    else match ReadUnit(t)
      case None => None
      case Some((c, rest)) =>
        match ReadString(rest)
        case None => None
        case Some((s, after)) => Some(([c] + s, after))
  }

  // ---------- integers ----------

  function DigitCount(t: Text): (k: nat)
    ensures k <= |t| && forall i :: 0 <= i < k ==> IsDigit(t[i])
  {
    if t == [] || !IsDigit(t[0]) then 0 else 1 + DigitCount(t[1..])
  }

  /** Digits without a leading zero, after an optional minus sign. */
  function ReadInteger(t: Text): (r: Option<(int, Text)>)
    ensures r.Some? ==> |r.value.1| < |t|
  {
    var negative := t != [] && t[0] == 45;
    var u := if negative then t[1..] else t;
    var k := DigitCount(u);
    if k == 0 || (k > 1 && u[0] == 48) then None
    else
      var n: int := DecimalValue(u[..k]);
      Some((if negative then -n else n, u[k..]))
  }

  // ---------- values ----------

  predicate Starts(t: Text, word: Text) {
    |word| <= |t| && t[..|word|] == word
  }

  function ReadValue(t: Text): (r: Option<(Json, Text)>)
    ensures r.Some? ==> |r.value.1| < |t|
    decreases |t|, 0
  {
    if t == [] then None
    else if Starts(t, Str("null")) then Some((JNull, t[4..]))
    else if Starts(t, Str("true")) then Some((JBool(true), t[4..]))
    else if Starts(t, Str("false")) then Some((JBool(false), t[5..]))
    else if t[0] == '"' as int then
      match ReadString(t[1..])
      case Some((s, rest)) => Some((JString(s), rest))
      case None => None
    else if t[0] == '[' as int then
      if |t| > 1 && t[1] == ']' as int then Some((JArray([]), t[2..]))
      else match ReadItems(t[1..])
        case Some((items, rest)) => Some((JArray(items), rest))
        case None => None
    else if t[0] == '{' as int then
      if |t| > 1 && t[1] == '}' as int then Some((JObject([]), t[2..]))
      else match ReadMembers(t[1..])
        case Some((fields, rest)) => Some((JObject(fields), rest))
        case None => None
    else match ReadInteger(t)
      case Some((n, rest)) => Some((JNumber(n), rest))
      case None => None
  }

  /** Items separated by commas, up to the closing bracket. */
  function ReadItems(t: Text): (r: Option<(seq<Json>, Text)>)
    ensures r.Some? ==> |r.value.1| < |t|
    decreases |t|, 1
  {
    match ReadValue(t)
    case None => None
    case Some((v, rest)) =>
      if rest == [] then None
      else if rest[0] == ']' as int then Some(([v], rest[1..]))
      else if rest[0] != ',' as int then None
      else match ReadItems(rest[1..])
        case Some((items, after)) => Some(([v] + items, after))
        case None => None
  }

  /** Members separated by commas, up to the closing brace. */
  function ReadMembers(t: Text): (r: Option<(seq<Field>, Text)>)
    ensures r.Some? ==> |r.value.1| < |t|
    decreases |t|, 1
  {
    if t == [] || t[0] != '"' as int then None
    else match ReadString(t[1..])
      case None => None
      case Some((key, colon)) =>
        if colon == [] || colon[0] != ':' as int then None
        else match ReadValue(colon[1..])
          case None => None
          case Some((v, rest)) =>
            if rest == [] then None
            else if rest[0] == '}' as int then Some(([Field(key, v)], rest[1..]))
            else if rest[0] != ',' as int then None
            else match ReadMembers(rest[1..])
              case Some((fields, after)) => Some(([Field(key, v)] + fields, after))
              case None => None
  }

  /** A whole text holding one value. */
  function Parse(t: Text): Option<Json> {
    match ReadValue(t)
    case Some((v, rest)) => if rest == [] then Some(v) else None
    case None => None
  }

  // ---------- what is printed is read ----------

  lemma HexDigitReads(d: nat)
    requires d < 16
    ensures HexValue(Hex(d)) == Some(d)
  {
  }

  lemma UnicodeEscapeReads(c: Unit)
    ensures ReadHex(UnicodeEscape(c)[2..6]) == Some(c)
  {
    HexDigitReads(c / 16 / 16 / 16);
    HexDigitReads(c / 16 / 16 % 16);
    HexDigitReads(c / 16 % 16);
    HexDigitReads(c % 16);
  }

  lemma EscapedUnitReads(c: Unit, q: Text)
    ensures ReadUnit(EscapeUnit(c) + q) == Some((c, q))
  {
    hide ReadHex, UnicodeEscape;
    var x := EscapeUnit(c);
    var t := x + q;
    assert t[..|x|] == x && t[|x|..] == q;
    if ShortEscape(c).Some? {
      assert t[0] == 92 && t[1] == ShortEscape(c).value;
    } else if |x| == 6 {
      UnicodeEscapeReads(c);
      UnicodeEscapeStart(c);
      assert t[0] == x[0] && t[1] == x[1] && t[2..6] == x[2..6];
    }
  }

  lemma UnicodeEscapeStart(c: Unit)
    ensures UnicodeEscape(c)[0] == 92 && UnicodeEscape(c)[1] == 117
  {
  }

  lemma {:induction false} BodyReads(paired: bool, s: Text, r: Text)
    requires paired ==> s != [] && IsLow(s[0])
    ensures ReadString(Escape(paired, s) + ([QUOTE] + r)) == Some((s, r))
    decreases |s|
  {
    var t := Escape(paired, s) + ([QUOTE] + r);
    if s == [] {
      assert t == [QUOTE] + r;
    } else {
      EscapeStep(paired, s);
      var head, next := Head(paired, s).0, Head(paired, s).1;
      var rest := Escape(next, s[1..]) + ([QUOTE] + r);
      hide Escape;
      Regroup(head, Escape(next, s[1..]), [QUOTE] + r);
      HeadReads(paired, s, rest);
      assert t[0] == head[0];
      BodyReads(next, s[1..], r);
      assert s == [s[0]] + s[1..];
    }
  }

  lemma HeadReads(paired: bool, s: Text, q: Text)
    requires s != [] && (paired ==> IsLow(s[0]))
    ensures ReadUnit(Head(paired, s).0 + q) == Some((s[0], q))
  {
    hide EscapeUnit;
    if Head(paired, s).0 == [s[0]] && (paired || IsHigh(s[0])) {
      assert ([s[0]] + q)[1..] == q;
    } else {
      EscapedUnitReads(s[0], q);
    }
  }

  lemma QuoteReads(s: Text, r: Text)
    ensures (Quote(s) + r)[0] == 34 && ReadString((Quote(s) + r)[1..]) == Some((s, r))
  {
    hide Escape, ReadString;
    BodyReads(false, s, r);
    assert (Quote(s) + r)[1..] == Escape(false, s) + ([QUOTE] + r);
  }

  lemma {:induction false} DigitsEnd(d: Text, r: Text)
    requires (forall i :: 0 <= i < |d| ==> IsDigit(d[i])) && NoDigitFirst(r)
    ensures DigitCount(d + r) == |d|
  {
    if d == [] {
      assert d + r == r;
    } else {
      DigitsEnd(d[1..], r);
      assert (d + r)[1..] == d[1..] + r;
    }
  }

  lemma {:induction false} NoLeadingZero(n: nat)
    ensures |Decimal(n)| > 1 ==> Decimal(n)[0] != 48
    ensures n > 0 ==> Decimal(n)[0] != 48
  {
    if n >= 10 { NoLeadingZero(n / 10); }
  }

  lemma IntegerReads(n: int, r: Text)
    requires NoDigitFirst(r)
    ensures ReadInteger(Integer(n) + r) == Some((n, r))
  {
    var d := Decimal(Magnitude(n));
    ValueOfDecimal(Magnitude(n));
    NoLeadingZero(Magnitude(n));
    hide Decimal, DecimalValue, DigitCount;
    DigitsEnd(d, r);
    var t := Integer(n) + r;
    if n < 0 {
      assert t[1..] == d + r;
    } else {
      assert t == d + r;
    }
    assert (d + r)[..|d|] == d && (d + r)[|d|..] == r;
  }

  // ---------- the value as it is printed: keys in order ----------

  /** The value with every object's fields in the order of the comparator. */
  function Arranged(le: Comparator, v: Json): Json {
    match v
    case JArray(items) => JArray(ArrangedItems(le, items))
    case JObject(fields) => JObject(Sort(le, ArrangedFields(le, fields)))
    case _ => v
  }

  function ArrangedItems(le: Comparator, items: seq<Json>): (arranged: seq<Json>)
    ensures |arranged| == |items|
  {
    if items == [] then [] else [Arranged(le, items[0])] + ArrangedItems(le, items[1..])
  }

  function ArrangedFields(le: Comparator, fields: seq<Field>): (arranged: seq<Field>)
    ensures |arranged| == |fields|
  {
    if fields == [] then []
    else [Field(fields[0].key, Arranged(le, fields[0].value))] + ArrangedFields(le, fields[1..])
  }

  lemma {:induction false} InsertArranged(le: Comparator, f: Field, fs: seq<Field>)
    ensures ArrangedFields(le, Insert(le, f, fs))
         == Insert(le, Field(f.key, Arranged(le, f.value)), ArrangedFields(le, fs))
  {
    hide Arranged;
    if fs != [] && !le(f.key, fs[0].key) {
      InsertArranged(le, f, fs[1..]);
      assert ([fs[0]] + Insert(le, f, fs[1..]))[1..] == Insert(le, f, fs[1..]);
    } else {
      assert ([f] + fs)[1..] == fs;
    }
  }

  lemma {:induction false} SortArranged(le: Comparator, fs: seq<Field>)
    ensures ArrangedFields(le, Sort(le, fs)) == Sort(le, ArrangedFields(le, fs))
  {
    hide Arranged;
    if fs != [] {
      SortArranged(le, fs[1..]);
      InsertArranged(le, fs[0], Sort(le, fs[1..]));
    }
  }

  lemma {:induction false} InsertEntries(le: Comparator, f: Field, fs: seq<Field>)
    ensures Entries(le, Insert(le, f, fs)) == Insert(le, Field(f.key, Print(le, f.value)), Entries(le, fs))
  {
    hide Print;
    if fs != [] && !le(f.key, fs[0].key) {
      InsertEntries(le, f, fs[1..]);
      assert ([fs[0]] + Insert(le, f, fs[1..]))[1..] == Insert(le, f, fs[1..]);
    } else {
      assert ([f] + fs)[1..] == fs;
    }
  }

  lemma {:induction false} SortEntries(le: Comparator, fs: seq<Field>)
    ensures Entries(le, Sort(le, fs)) == Sort(le, Entries(le, fs))
  {
    hide Print;
    if fs != [] {
      SortEntries(le, fs[1..]);
      InsertEntries(le, fs[0], Sort(le, fs[1..]));
    }
  }

  // ---------- reading a printed value ----------

  lemma Words()
    ensures Str("null") == [110, 117, 108, 108] && Str("true") == [116, 114, 117, 101]
    ensures Str("false") == [102, 97, 108, 115, 101]
  {
  }

  lemma NoWordStarts(t: Text)
    requires t != [] && t[0] != 110 && t[0] != 116 && t[0] != 102
    ensures !Starts(t, Str("null")) && !Starts(t, Str("true")) && !Starts(t, Str("false"))
  {
    Words();
    hide Str;
  }

  lemma WordReads(v: Json, r: Text)
    requires v.JNull? || v.JBool?
    ensures ReadValue((if v.JNull? then [110, 117, 108, 108]
                       else if v.b then [116, 114, 117, 101] else [102, 97, 108, 115, 101]) + r) == Some((v, r))
  {
    Words();
    hide Str;
    var word: Text := if v.JNull? then [110, 117, 108, 108]
                      else if v.b then [116, 114, 117, 101] else [102, 97, 108, 115, 101];
    var t := word + r;
    assert t[..|word|] == word && t[|word|..] == r && t[0] == word[0];
  }

  lemma StringReads(s: Text, r: Text)
    ensures ReadValue(Quote(s) + r) == Some((JString(s), r))
  {
    QuoteReads(s, r);
    NoWordStarts(Quote(s) + r);
    hide Quote, ReadString, Starts;
  }

  lemma NumberReads(n: int, r: Text)
    requires NoDigitFirst(r)
    ensures ReadValue(Integer(n) + r) == Some((JNumber(n), r))
  {
    IntegerReads(n, r);
    var t := Integer(n) + r;
    assert t[0] == Integer(n)[0];
    NoWordStarts(t);
    hide Integer, ReadInteger, Starts;
  }

  /** What stands after an array's item: a comma and the other items, or the closing bracket. */
  lemma {:induction false} ItemsRead(le: Comparator, v: Json, items: seq<Json>, r: Text)
    requires v.JArray? && items != [] && (forall x :: x in items ==> x in v.items) && Accepted(v)
    ensures ReadItems(Print(le, items[0]) + ArrayTail(le, items[1..]) + r)
         == Some((ArrangedItems(le, items), r))
    decreases v, 0, |items|
  {
    hide Print, Arranged, ReadValue;
    var tail := items[1..];
    var after := ArrayTail(le, tail) + r;
    Regroup(Print(le, items[0]), ArrayTail(le, tail), r);
    assert items[0] in items;
    TailStart(le, tail, r);
    PrintReads(le, items[0], after);
    if tail != [] {
      var text := Print(le, tail[0]) + ArrayTail(le, tail[1..]);
      assert after == [COMMA] + (text + r) && after[1..] == text + r;
      ItemsRead(le, v, tail, r);
    } else {
      assert after == [CLOSE_ARRAY] + r && after[1..] == r && after[0] == 93;
      assert ArrangedItems(le, tail) == [] && ArrangedItems(le, items) == [Arranged(le, items[0])];
    }
  }

  lemma TailStart(le: Comparator, items: seq<Json>, r: Text)
    ensures ArrayTail(le, items) != [] && Delimited(ArrayTail(le, items) + r)
  {
    hide Print;
    assert (ArrayTail(le, items) + r)[0] == ArrayTail(le, items)[0];
  }

  lemma {:induction false} MembersRead(le: Comparator, v: Json, fs: seq<Field>, r: Text)
    requires v.JObject? && fs != [] && (forall x :: x in fs ==> x in v.fields) && Accepted(v)
    ensures ReadMembers(ObjectBody(Entries(le, fs)) + r) == Some((ArrangedFields(le, fs), r))
    decreases v, 0, |fs|
  {
    hide Print, Arranged, ReadValue, ReadString, Quote, ObjectTail;
    var key, value, tail := fs[0].key, fs[0].value, fs[1..];
    var es := Entries(le, tail);
    var after := ObjectTail(es) + r;
    var colon := [COLON] + (Print(le, value) + after);
    assert fs[0] in fs;
    var m :| 0 <= m < |v.fields| && v.fields[m] == fs[0];
    ObjectTailIs(es);
    assert after[0] == ObjectTail(es)[0];
    MemberText(le, fs, r);
    QuoteReads(key, colon);
    assert colon[1..] == Print(le, value) + after;
    PrintReads(le, value, after);
    if tail != [] {
      assert after[1..] == ObjectBody(es) + r;
      MembersRead(le, v, tail, r);
    } else {
      assert es == [] && after == [CLOSE_OBJECT] + r && after[1..] == r && after[0] == 125;
      assert ArrangedFields(le, tail) == [] && ArrangedFields(le, fs) == [Field(key, Arranged(le, value))];
    }
  }

  lemma MemberText(le: Comparator, fs: seq<Field>, r: Text)
    requires fs != []
    ensures ObjectBody(Entries(le, fs)) + r
         == Quote(fs[0].key) + ([COLON] + (Print(le, fs[0].value) + (ObjectTail(Entries(le, fs[1..])) + r)))
  {
    hide Print, Quote, ObjectTail;
    var tail := Entries(le, fs[1..]);
    assert Entries(le, fs) == [Field(fs[0].key, Print(le, fs[0].value))] + tail;
    BodyHead(Field(fs[0].key, Print(le, fs[0].value)), tail, r);
  }

  /** The text of a value, before anything that can follow it, reads as the value with its keys in order. */
  lemma {:induction false} PrintReads(le: Comparator, v: Json, r: Text)
    requires Accepted(v) && Delimited(r)
    ensures ReadValue(Print(le, v) + r) == Some((Arranged(le, v), r))
    decreases v, 1
  {
    match v
    case JNull => WordReads(v, r);
    case JBool(_) => WordReads(v, r);
    case JString(s) => StringReads(s, r);
    case JNumber(n) => NumberReads(n, r);
    case JArray(items) => ArrayReads(le, v, r);
    case JObject(fields) => ObjectReads(le, v, r);
  }

  lemma {:induction false} ArrayReads(le: Comparator, v: Json, r: Text)
    requires v.JArray? && Accepted(v)
    ensures ReadValue(Print(le, v) + r) == Some((Arranged(le, v), r))
    decreases v, 0, |v.items| + 1
  {
    var t := Print(le, v) + r;
    ArrayText(le, v);
    hide Print, ReadItems;
    assert t[0] == 91 && t[1..] == Print(le, v)[1..] + r;
    NoWordStarts(t);
    hide Starts;
    if v.items == [] {
      assert t[1] == 93 && t[2..] == r;
    } else {
      assert t[1] == Print(le, v)[1..][0];
      ItemsRead(le, v, v.items, r);
    }
  }

  lemma ObjectText(le: Comparator, fields: seq<Field>)
    ensures Print(le, JObject(fields)) == [OPEN_OBJECT] + ObjectBody(Entries(le, Sort(le, fields)))
    ensures Arranged(le, JObject(fields)) == JObject(ArrangedFields(le, Sort(le, fields)))
  {
    hide Sort, Entries, ArrangedFields, ObjectBody;
    SortEntries(le, fields);
    SortArranged(le, fields);
  }

  lemma {:induction false} ObjectReads(le: Comparator, v: Json, r: Text)
    requires v.JObject? && Accepted(v)
    ensures ReadValue(Print(le, v) + r) == Some((Arranged(le, v), r))
    decreases v, 0, |v.fields| + 1
  {
    hide Print, Arranged, ReadMembers, Entries, Sort, ObjectBody, Starts;
    var fs := Sort(le, v.fields);
    SortMembers(le, v.fields);
    ObjectText(le, v.fields);
    var body := ObjectBody(Entries(le, fs));
    var t := Print(le, v) + r;
    assert t[0] == 123 && t[1..] == body + r;
    NoWordStarts(t);
    if fs == [] {
      EmptyBody(le);
      assert t[1] == 125 && t[2..] == r;
    } else {
      BodyStart(le, fs);
      assert t[1] == body[0];
      MembersRead(le, v, fs, r);
    }
  }

  lemma EmptyBody(le: Comparator)
    ensures Entries(le, []) == [] && ObjectBody([]) == [CLOSE_OBJECT] && ArrangedFields(le, []) == []
  {
  }

  lemma BodyStart(le: Comparator, fs: seq<Field>)
    requires fs != []
    ensures ObjectBody(Entries(le, fs)) != [] && ObjectBody(Entries(le, fs))[0] == 34
  {
    MemberText(le, fs, []);
    QuoteReads(fs[0].key, [COLON] + (Print(le, fs[0].value) + (ObjectTail(Entries(le, fs[1..])) + [])));
    hide ObjectBody, Entries, Quote, Print, ObjectTail, ReadString;
    assert ObjectBody(Entries(le, fs)) + [] == ObjectBody(Entries(le, fs));
  }

  // ---------- the value that is read is the value that was printed ----------

  lemma {:induction false} InsertMap(le: Comparator, f: Field, fs: seq<Field>)
    requires forall x :: x in fs ==> x.key != f.key
    ensures FieldMap(Insert(le, f, fs)) == FieldMap(fs)[f.key := MeaningOf(f.value)]
  {
    hide MeaningOf;
    if fs != [] && !le(f.key, fs[0].key) {
      InsertMap(le, f, fs[1..]);
      assert fs[0] in fs;
      assert ([fs[0]] + Insert(le, f, fs[1..]))[1..] == Insert(le, f, fs[1..]);
    } else {
      assert ([f] + fs)[1..] == fs;
    }
  }

  lemma {:induction false} SortMap(le: Comparator, fs: seq<Field>)
    requires Distinct(fs)
    ensures FieldMap(Sort(le, fs)) == FieldMap(fs) && Distinct(Sort(le, fs))
  {
    hide MeaningOf;
    if fs != [] {
      var tail := fs[1..];
      SortMap(le, tail);
      SortMembers(le, tail);
      forall x | x in Sort(le, tail) ensures x.key != fs[0].key {
        var i :| 0 <= i < |tail| && tail[i] == x;
        assert fs[i + 1] == x;
      }
      InsertMap(le, fs[0], Sort(le, tail));
      InsertKeepsDistinct(le, fs[0], Sort(le, tail));
    }
  }

  lemma {:induction false} InsertKeepsDistinct<T(!new)>(le: Comparator, f: Keyed<T>, fs: seq<Keyed<T>>)
    requires Distinct(fs) && forall x :: x in fs ==> x.key != f.key
    ensures Distinct(Insert(le, f, fs)) && forall x :: x in Insert(le, f, fs) <==> x == f || x in fs
  {
    if fs != [] && !le(f.key, fs[0].key) {
      InsertKeepsDistinct(le, f, fs[1..]);
      var rest := Insert(le, f, fs[1..]);
      forall j | 0 <= j < |rest| ensures fs[0].key != rest[j].key {
        assert rest[j] in rest && fs[0] in fs;
        if rest[j] != f {
          var m :| 0 <= m < |fs[1..]| && fs[1..][m] == rest[j];
          assert fs[m + 1] == rest[j];
        }
      }
      assert fs == [fs[0]] + fs[1..];
    }
  }

  lemma {:induction false} ArrangedFieldAt(le: Comparator, fields: seq<Field>, i: nat)
    requires i < |fields|
    ensures ArrangedFields(le, fields)[i] == Field(fields[i].key, Arranged(le, fields[i].value))
  {
    if i > 0 { ArrangedFieldAt(le, fields[1..], i - 1); }
  }

  lemma {:induction false} ArrangedItemAt(le: Comparator, items: seq<Json>, i: nat)
    requires i < |items|
    ensures ArrangedItems(le, items)[i] == Arranged(le, items[i])
  {
    if i > 0 { ArrangedItemAt(le, items[1..], i - 1); }
  }

  lemma {:induction false} ArrangedMap(le: Comparator, fields: seq<Field>)
    requires forall i :: 0 <= i < |fields| ==> MeaningOf(Arranged(le, fields[i].value)) == MeaningOf(fields[i].value)
    ensures FieldMap(ArrangedFields(le, fields)) == FieldMap(fields)
  {
    hide MeaningOf, Arranged;
    if fields != [] { ArrangedMap(le, fields[1..]); }
  }

  /** Putting keys in order changes no meaning. */
  lemma {:induction false} ArrangedMeaning(le: Comparator, v: Json)
    requires DistinctKeys(v)
    ensures MeaningOf(Arranged(le, v)) == MeaningOf(v)
    decreases v
  {
    match v
    case JArray(items) =>
      var arranged := ArrangedItems(le, items);
      forall i | 0 <= i < |items| ensures MeaningOf(arranged[i]) == MeaningOf(items[i]) {
        ArrangedItemAt(le, items, i);
        ArrangedMeaning(le, items[i]);
      }
    case JObject(fields) =>
      forall i | 0 <= i < |fields| ensures MeaningOf(Arranged(le, fields[i].value)) == MeaningOf(fields[i].value) {
        ArrangedMeaning(le, fields[i].value);
      }
      ObjectArranged(le, fields);
    case _ =>
  }

  lemma ObjectArranged(le: Comparator, fields: seq<Field>)
    requires Distinct(fields)
    requires forall i :: 0 <= i < |fields| ==> MeaningOf(Arranged(le, fields[i].value)) == MeaningOf(fields[i].value)
    ensures MeaningOf(Arranged(le, JObject(fields))) == MeaningOf(JObject(fields))
  {
    hide MeaningOf, FieldMap, Sort;
    var arranged := ArrangedFields(le, fields);
    ArrangedMap(le, fields);
    forall i | 0 <= i < |fields| ensures arranged[i].key == fields[i].key { ArrangedFieldAt(le, fields, i); }
    SortMap(le, arranged);
    ObjectMeaningOf(Sort(le, arranged));
    ObjectMeaningOf(fields);
  }

  /** Canonical text is JSON text of the value: a reader that has never seen the printer gets the value back. */
  lemma CanonicalTextReads(le: Comparator, v: Json)
    requires Accepted(v) && DistinctKeys(v)
    ensures Parse(Print(le, v)) == Some(Arranged(le, v)) && MeaningOf(Arranged(le, v)) == MeaningOf(v)
  {
    hide Print, ReadValue, Arranged, MeaningOf;
    assert Print(le, v) + [] == Print(le, v);
    PrintReads(le, v, []);
    ArrangedMeaning(le, v);
  }

  // ---------- so text determines value ----------

  /** No printed value is the start of another: equal texts split the same way, into values that differ at
      most in the order of keys. */
  lemma PrintUnique(le: Comparator, v: Json, w: Json, r: Text, q: Text)
    requires Accepted(v) && Accepted(w) && Delimited(r) && Delimited(q)
    requires Print(le, v) + r == Print(le, w) + q
    ensures Print(le, v) == Print(le, w) && r == q && Arranged(le, v) == Arranged(le, w)
  {
    hide Print, ReadValue, Arranged;
    PrintReads(le, v, r);
    PrintReads(le, w, q);
    SplitAt(Print(le, v), r, Print(le, w), q);
  }

  /** Equal texts mean equal values up to key order, whatever the comparator. */
  lemma TextDeterminesMeaning(le: Comparator, v: Json, w: Json)
    requires Accepted(v) && Accepted(w) && DistinctKeys(v) && DistinctKeys(w)
    requires Print(le, v) == Print(le, w)
    ensures MeaningOf(v) == MeaningOf(w)
  {
    hide Print, Parse, Arranged, MeaningOf;
    CanonicalTextReads(le, v);
    CanonicalTextReads(le, w);
  }

  // ---------- UTF-8 ----------

  predicate IsContinuation(b: Bytes, i: nat) {
    i < |b| && 0x80 <= b[i] < 0xC0
  }

  /** The payload of the first byte, over its marker bits. */
  function Lead(b: Bytes, marker: nat): nat
    requires b != [] && b[0] >= marker
  {
    b[0] - marker
  }

  /** The six payload bits of a continuation byte. */
  function Low(b: Bytes, i: nat): nat
    requires IsContinuation(b, i)
  {
    b[i] - 0x80
  }

  /** The code point a byte string starts with, and the bytes after it (RFC 3629, section 3): no overlong
      form, no surrogate, nothing past U+10FFFF. */
  function ReadPoint(b: Bytes): (r: Option<(nat, Bytes)>)
    ensures r.Some? ==> |r.value.1| < |b| && r.value.0 < 0x11_0000
  {
    if b == [] then None
    else if b[0] < 0x80 then Some((b[0], b[1..]))
    else if 0xC0 <= b[0] < 0xE0 && IsContinuation(b, 1) then
      var p := Lead(b, 0xC0) * 0x40 + Low(b, 1);
      if p < 0x80 then None else Some((p, b[2..]))
    else if 0xE0 <= b[0] < 0xF0 && IsContinuation(b, 1) && IsContinuation(b, 2) then
      var p := Lead(b, 0xE0) * 0x1000 + Low(b, 1) * 0x40 + Low(b, 2);
      if p < 0x800 || 0xD800 <= p < 0xE000 then None else Some((p, b[3..]))
    else if 0xF0 <= b[0] < 0xF8 && IsContinuation(b, 1) && IsContinuation(b, 2) && IsContinuation(b, 3) then
      var p := Lead(b, 0xF0) * 0x4_0000 + Low(b, 1) * 0x1000 + Low(b, 2) * 0x40 + Low(b, 3);
      if p < 0x1_0000 || p >= 0x11_0000 then None else Some((p, b[4..]))
    else None
  }

  /** The UTF-16 units of a code point. */
  function Units(p: nat): Text
    requires p < 0x11_0000
  {
    if p < 0x1_0000 then [p] else [0xD800 + (p - 0x1_0000) / 0x400, 0xDC00 + (p - 0x1_0000) % 0x400]
  }

  function DecodeUtf8(b: Bytes): Option<Text>
    decreases |b|
  {
    if b == [] then Some([])
    else match ReadPoint(b)
      case None => None
      case Some((p, rest)) =>
        match DecodeUtf8(rest)
        case None => None
        case Some(t) => Some(Units(p) + t)
  }

  lemma PointReads(p: nat, r: Bytes)
    requires p < 0x11_0000 && !(0xD800 <= p < 0xE000)
    ensures ReadPoint(EncodePoint(p) + r) == Some((p, r))
  {
    var x := EncodePoint(p);
    var b := x + r;
    assert b[..|x|] == x && b[|x|..] == r;
    assert forall i :: 0 <= i < |x| ==> b[i] == x[i];
  }

  lemma PairReads(high: Unit, low: Unit)
    requires IsHigh(high) && IsLow(low)
    ensures CodePoint(high, low) < 0x11_0000 && Units(CodePoint(high, low)) == [high, low]
  {
  }

  /** The bytes of well-formed text decode to it. */
  lemma {:induction false} Utf8Reads(t: Text)
    requires WellFormed(t)
    ensures DecodeUtf8(Utf8(t)) == Some(t)
  {
    hide EncodePoint, ReadPoint, Units;
    if t != [] {
      var n := if Paired(t) then 2 else 1;
      var p := if Paired(t) then CodePoint(t[0], t[1]) else t[0];
      if Paired(t) { PairReads(t[0], t[1]); }
      Utf8Reads(t[n..]);
      PointReads(p, Utf8(t[n..]));
      OneUnit(t[0]);
      assert t == t[..n] + t[n..] && t[..n] == Units(p);
    }
  }

  lemma OneUnit(c: Unit)
    ensures Units(c) == [c]
  {
  }

  lemma Utf8Unique(a: Text, b: Text)
    requires WellFormed(a) && WellFormed(b) && Utf8(a) == Utf8(b)
    ensures a == b
  {
    Utf8Reads(a);
    Utf8Reads(b);
  }

  // ---------- canonical text is well-formed, so its UTF-8 bytes determine it ----------

  lemma {:induction false} PrintWellFormed(le: Comparator, v: Json)
    requires Accepted(v)
    ensures WellFormed(Print(le, v))
    decreases v, 2
  {
    match v
    case JString(s) => QuoteWellFormed(s);
    case JNumber(n) => IntegerWellFormed(n);
    case JArray(items) =>
      PlainIsWellFormed([OPEN_ARRAY]);
      if items == [] {
        WellFormedConcat([OPEN_ARRAY], [CLOSE_ARRAY]);
      } else {
        PrintWellFormed(le, items[0]);
        ArrayTailWellFormed(le, v, items[1..]);
        WellFormedConcat(Print(le, items[0]), ArrayTail(le, items[1..]));
        WellFormedConcat([OPEN_ARRAY], Print(le, items[0]) + ArrayTail(le, items[1..]));
      }
    case JObject(fields) =>
      var fs := Sort(le, fields);
      SortMembers(le, fields);
      ObjectText(le, fields);
      PlainIsWellFormed([OPEN_OBJECT]);
      MembersWellFormed(le, v, fs);
      WellFormedConcat([OPEN_OBJECT], ObjectBody(Entries(le, fs)));
    case _ => PlainIsWellFormed(Print(le, v));
  }

  lemma {:induction false} ArrayTailWellFormed(le: Comparator, v: Json, items: seq<Json>)
    requires v.JArray? && Accepted(v) && forall x :: x in items ==> x in v.items
    ensures WellFormed(ArrayTail(le, items))
    decreases v, 0, |items|
  {
    hide Print;
    if items == [] {
      PlainIsWellFormed([CLOSE_ARRAY]);
    } else {
      assert items[0] in v.items && items[0] < v;
      PrintWellFormed(le, items[0]);
      ArrayTailWellFormed(le, v, items[1..]);
      PlainIsWellFormed([COMMA]);
      WellFormedConcat(Print(le, items[0]), ArrayTail(le, items[1..]));
      WellFormedConcat([COMMA], Print(le, items[0]) + ArrayTail(le, items[1..]));
    }
  }

  lemma {:induction false} MembersWellFormed(le: Comparator, v: Json, fs: seq<Field>)
    requires v.JObject? && Accepted(v) && forall x :: x in fs ==> x in v.fields
    ensures WellFormed(ObjectBody(Entries(le, fs))) && WellFormed(ObjectTail(Entries(le, fs)))
    decreases v, 0, |fs|
  {
    hide Print, WellFormed, Quote;
    PlainIsWellFormed([CLOSE_OBJECT]);
    PlainIsWellFormed([COMMA]);
    PlainIsWellFormed([COLON]);
    var es := Entries(le, fs);
    if fs != [] {
      assert fs[0] in fs;
      var i :| 0 <= i < |v.fields| && v.fields[i] == fs[0];
      PrintWellFormed(le, fs[0].value);
      MembersWellFormed(le, v, fs[1..]);
      assert es[1..] == Entries(le, fs[1..]);
      QuoteWellFormed(fs[0].key);
      WellFormedConcat([COLON], Print(le, fs[0].value));
      WellFormedConcat(Quote(fs[0].key), [COLON] + Print(le, fs[0].value));
      WellFormedConcat(Member(es[0]), ObjectTail(es[1..]));
      WellFormedConcat([COMMA], Member(es[0]) + ObjectTail(es[1..]));
    }
  }

  /** The bytes that are hashed: decoded and read, they give the value back. */
  lemma CanonicalBytesRead(le: Comparator, v: Json)
    requires Accepted(v) && DistinctKeys(v)
    ensures DecodeUtf8(Utf8(Print(le, v))) == Some(Print(le, v))
    ensures Parse(Print(le, v)) == Some(Arranged(le, v)) && MeaningOf(Arranged(le, v)) == MeaningOf(v)
  {
    hide Print, Utf8, DecodeUtf8, Parse, Arranged, MeaningOf;
    PrintWellFormed(le, v);
    Utf8Reads(Print(le, v));
    CanonicalTextReads(le, v);
  }
}
