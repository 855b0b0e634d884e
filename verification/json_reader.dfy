/** A reader written from the grammar of RFC 8259, independent of the writers, and the
    proof that it recovers what they write. */
module JsonReader {
  import opened Json

  datatype Read<T> = Fail | Got(value: T, rest: string)

  // ------------------------------------------------------------ the grammar

  /** Section 2. */
  predicate White(c: char) { c == ' ' || c == '\t' || c == '\n' || c == '\r' }

  function SkipWhite(t: string): (r: string)
    ensures |r| <= |t|
  {
    if t != "" && White(t[0]) then SkipWhite(t[1..]) else t
  }

  predicate StartsWith(t: string, word: string) { |word| <= |t| && t[..|word|] == word }

  predicate Digit(c: char) { '0' <= c <= '9' }

  /** Section 6: the characters of a number, and which texts of them are one. */
  predicate NumberChar(c: char) { Digit(c) || c == '-' || c == '+' || c == '.' || c == 'e' || c == 'E' }

  function SkipDigits(t: string): (r: string)
    ensures |r| <= |t|
  {
    if t != "" && Digit(t[0]) then SkipDigits(t[1..]) else t
  }

  predicate Exponent(t: string) {
    t == "" || (
      (t[0] == 'e' || t[0] == 'E')
      && var u := if |t| > 1 && (t[1] == '+' || t[1] == '-') then t[2..] else t[1..];
      u != "" && Digit(u[0]) && SkipDigits(u) == "")
  }

  predicate FractionAndExponent(t: string) {
    if t != "" && t[0] == '.' then |t| > 1 && Digit(t[1]) && Exponent(SkipDigits(t[1..]))
    else Exponent(t)
  }

  predicate IsNumber(t: string) {
    && (forall i | 0 <= i < |t| :: NumberChar(t[i]))
    && var u := if t != "" && t[0] == '-' then t[1..] else t;
    u != "" && Digit(u[0]) && FractionAndExponent(if u[0] == '0' then u[1..] else SkipDigits(u))
  }

  function NumberRun(t: string): (n: nat)
    ensures n <= |t| && forall i | 0 <= i < n :: NumberChar(t[i])
    ensures n < |t| ==> !NumberChar(t[n])
  {
    if t != "" && NumberChar(t[0]) then
      assert forall i | 1 <= i < |t| :: t[i] == t[1..][i - 1];
      1 + NumberRun(t[1..])
    else 0
  }

  function ReadNumber(t: string): (r: Read<Value>)
    ensures r.Got? ==> |r.rest| < |t|
  {
    var n := NumberRun(t);
    if IsNumber(t[..n]) then Got(Number(t[..n]), t[n..]) else Fail
  }

  /** Section 7. */
  function HexValue(c: char): int {
    if '0' <= c <= '9' then c as int - '0' as int
    else if 'a' <= c <= 'f' then c as int - 'a' as int + 10
    else if 'A' <= c <= 'F' then c as int - 'A' as int + 10
    else -1
  }

  /** The code unit after \u. */
  function ReadUnit(t: string): (r: Read<int>)
    ensures r.Got? ==> |r.rest| < |t| && 0 <= r.value < 0x10000
  {
    if |t| >= 4 && HexValue(t[0]) >= 0 && HexValue(t[1]) >= 0 && HexValue(t[2]) >= 0 && HexValue(t[3]) >= 0
    then Got(HexValue(t[0]) * 4096 + HexValue(t[1]) * 256 + HexValue(t[2]) * 16 + HexValue(t[3]), t[4..])
    else Fail
  }

  function CodePoint(n: int): char
    requires 0 <= n < 0xD800 || 0xE000 <= n < 0x110000
  {
    n as char
  }

  /** After \u: one code unit, or a surrogate pair. */
  function ReadEscapedPoint(t: string): (r: Read<char>)
    ensures r.Got? ==> |r.rest| < |t|
  {
    match ReadUnit(t)
    case Fail => Fail
    case Got(high, rest) =>
      if high < 0xD800 || 0xE000 <= high then Got(CodePoint(high), rest)
      else if high < 0xDC00 && StartsWith(rest, "\\u") then
        match ReadUnit(rest[2..])
        case Fail => Fail
        case Got(low, after) =>
          if 0xDC00 <= low < 0xE000
            then Got(CodePoint(0x10000 + (high - 0xD800) * 1024 + (low - 0xDC00)), after) else Fail
      else Fail
  }

  function ReadChar(t: string): (r: Read<char>)
    ensures r.Got? ==> |r.rest| < |t|
  {
    if t == "" || t[0] == '"' || t[0] as int < 0x20 then Fail
    else if t[0] != '\\' then Got(t[0], t[1..])
    else if |t| == 1 then Fail
    else if t[1] == '"' || t[1] == '\\' || t[1] == '/' then Got(t[1], t[2..])
    else if t[1] == 'b' then Got(CodePoint(8), t[2..])
    else if t[1] == 't' then Got(CodePoint(9), t[2..])
    else if t[1] == 'n' then Got(CodePoint(10), t[2..])
    else if t[1] == 'f' then Got(CodePoint(12), t[2..])
    else if t[1] == 'r' then Got(CodePoint(13), t[2..])
    else if t[1] == 'u' then ReadEscapedPoint(t[2..])
    else Fail
  }

  /** After the opening quote. */
  function ReadChars(t: string): (r: Read<string>)
    ensures r.Got? ==> |r.rest| < |t|
    decreases |t|
  {
    if t != "" && t[0] == '"' then Got("", t[1..])
    else
      match ReadChar(t)
      case Fail => Fail
      case Got(c, rest) =>
        match ReadChars(rest)
        case Fail => Fail
        case Got(s, after) => Got([c] + s, after)
  }

  function ReadString(t: string): (r: Read<string>)
    ensures r.Got? ==> |r.rest| < |t|
  {
    if t != "" && t[0] == '"' then ReadChars(t[1..]) else Fail
  }

  /** Section 3. */
  function ReadValue(text: string): (r: Read<Value>)
    ensures r.Got? ==> |r.rest| < |text|
    decreases |text|, 1
  {
    var t := SkipWhite(text);
    if t == "" then Fail
    else if t[0] == 'n' then if StartsWith(t, "null") then Got(Null, t[4..]) else Fail
    else if t[0] == 't' then if StartsWith(t, "true") then Got(Bool(true), t[4..]) else Fail
    else if t[0] == 'f' then if StartsWith(t, "false") then Got(Bool(false), t[5..]) else Fail
    else if t[0] == '"' then
      match ReadChars(t[1..])
      case Fail => Fail
      case Got(s, rest) => Got(String(s), rest)
    else if t[0] == '[' then
      var u := SkipWhite(t[1..]);
      if u != "" && u[0] == ']' then Got(Array([]), u[1..])
      else
        match ReadItems(t[1..])
        case Fail => Fail
        case Got(items, rest) => Got(Array(items), rest)
    else if t[0] == '{' then
      var u := SkipWhite(t[1..]);
      if u != "" && u[0] == '}' then Got(Object([]), u[1..])
      else
        match ReadPairs(t[1..])
        case Fail => Fail
        case Got(pairs, rest) => Got(Object(pairs), rest)
    else ReadNumber(t)
  }

  /** Section 5: items separated by commas, and the closing bracket. */
  function ReadItems(text: string): (r: Read<seq<Value>>)
    ensures r.Got? ==> |r.rest| < |text|
    decreases |text|, 2
  {
    match ReadValue(text)
    case Fail => Fail
    case Got(v, rest) =>
      var t := SkipWhite(rest);
      if t == "" then Fail
      else if t[0] == ']' then Got([v], t[1..])
      else if t[0] == ',' then
        match ReadItems(t[1..])
        case Fail => Fail
        case Got(items, after) => Got([v] + items, after)
      else Fail
  }

  /** Section 4: one member. */
  function ReadPair(text: string): (r: Read<Pair>)
    ensures r.Got? ==> |r.rest| < |text|
    decreases |text|, 2
  {
    match ReadString(SkipWhite(text))
    case Fail => Fail
    case Got(key, rest) =>
      var t := SkipWhite(rest);
      if t == "" || t[0] != ':' then Fail
      else
        match ReadValue(t[1..])
        case Fail => Fail
        case Got(v, after) => Got(Pair(key, v), after)
  }

  function ReadPairs(text: string): (r: Read<seq<Pair>>)
    ensures r.Got? ==> |r.rest| < |text|
    decreases |text|, 3
  {
    match ReadPair(text)
    case Fail => Fail
    case Got(pair, rest) =>
      var t := SkipWhite(rest);
      if t == "" then Fail
      else if t[0] == '}' then Got([pair], t[1..])
      else if t[0] == ',' then
        match ReadPairs(t[1..])
        case Fail => Fail
        case Got(pairs, after) => Got([pair] + pairs, after)
      else Fail
  }

  /** A whole text. */
  function ReadDocument(text: string): Read<Value> {
    match ReadValue(text)
    case Fail => Fail
    case Got(v, rest) => if SkipWhite(rest) == "" then Got(v, "") else Fail
  }

  // ------------------------------------------------------------ strings come back

  lemma HexRoundTrip(n: nat, tail: string)
    requires n < 0x10000
    ensures ReadUnit(Hex4(n) + tail) == Got(n as int, tail)
  {
    HexDigitRoundTrip(n / 4096);
    HexDigitRoundTrip(n / 256 % 16);
    HexDigitRoundTrip(n / 16 % 16);
    HexDigitRoundTrip(n % 16);
    NibblesMakeUnit(n);
    assert (Hex4(n) + tail)[4..] == tail;
  }

  lemma HexDigitRoundTrip(n: nat)
    requires n < 16
    ensures HexValue(HexDigit(n)) == n
  {
  }

  lemma NibblesMakeUnit(n: nat)
    requires n < 0x10000
    ensures n / 4096 * 4096 + n / 256 % 16 * 256 + n / 16 % 16 * 16 + n % 16 == n
  {
    assert n / 256 / 16 == n / 4096 && n / 16 / 16 == n / 256;
  }

  lemma PointRoundTrip(c: char, tail: string)
    requires c as int >= 0x80 || c as int < 0x20
    ensures var r := c as int;
            && (r <= 0xFFFF ==> ReadEscapedPoint(Hex4(r) + tail) == Got(c, tail))
            && (r > 0xFFFF ==>
                ReadEscapedPoint(Hex4(0xD800 + (r - 0x10000) / 1024)
                                 + ("\\u" + (Hex4(0xDC00 + (r - 0x10000) % 1024) + tail))) == Got(c, tail))
  {
    hide ReadUnit, Hex4;
    var r := c as int;
    if r <= 0xFFFF {
      HexRoundTrip(r, tail);
    } else {
      var low := Hex4(0xDC00 + (r - 0x10000) % 1024) + tail;
      HexRoundTrip(0xD800 + (r - 0x10000) / 1024, "\\u" + low);
      HexRoundTrip(0xDC00 + (r - 0x10000) % 1024, tail);
      assert ("\\u" + low)[2..] == low && StartsWith("\\u" + low, "\\u");
    }
  }

  predicate Short(c: char) { c == '"' || c == '\\' || c as int in {8, 9, 10, 12, 13} }

  lemma ShortRoundTrip(c: char, tail: string)
    requires Short(c)
    ensures ReadChar(Escape(c) + tail) == Got(c, tail)
    ensures Escape(c) != "" && Escape(c)[0] != '"'
  {
    hide ReadEscapedPoint, Hex4;
    assert |Escape(c)| == 2 && (Escape(c) + tail)[2..] == tail;
  }

  lemma PlainRoundTrip(c: char, tail: string)
    requires !Short(c) && 0x20 <= c as int < 0x80
    ensures ReadChar(Escape(c) + tail) == Got(c, tail)
    ensures Escape(c) != "" && Escape(c)[0] != '"'
  {
    hide ReadEscapedPoint, Hex4;
    assert Escape(c) == [c] && ([c] + tail)[1..] == tail;
  }

  lemma AfterBackslashU(rest: string)
    ensures ReadChar("\\u" + rest) == ReadEscapedPoint(rest)
  {
    hide ReadEscapedPoint;
    assert ("\\u" + rest)[2..] == rest;
  }

  lemma EscapedIs(c: char)
    requires !Short(c) && (c as int >= 0x80 || c as int < 0x20)
    ensures var r := c as int;
            Escape(c) == "\\u"
              + if r <= 0xFFFF then Hex4(r)
                else Hex4(0xD800 + (r - 0x10000) / 1024) + ("\\u" + Hex4(0xDC00 + (r - 0x10000) % 1024))
  {
    hide Hex4;
  }

  lemma EscapedRoundTrip(c: char, tail: string)
    requires !Short(c) && (c as int >= 0x80 || c as int < 0x20)
    ensures ReadChar(Escape(c) + tail) == Got(c, tail)
    ensures Escape(c) != "" && Escape(c)[0] != '"'
  {
    hide ReadChar, Escape, ReadEscapedPoint, Hex4;
    var r := c as int;
    EscapedIs(c);
    PointRoundTrip(c, tail);
    if r <= 0xFFFF {
      AfterBackslashU(Hex4(r) + tail);
      assert Escape(c) + tail == "\\u" + (Hex4(r) + tail);
    } else {
      var high, low := Hex4(0xD800 + (r - 0x10000) / 1024), Hex4(0xDC00 + (r - 0x10000) % 1024);
      AfterBackslashU(high + ("\\u" + (low + tail)));
      assert Escape(c) + tail == "\\u" + (high + ("\\u" + (low + tail)));
    }
  }

  lemma CharRoundTrip(c: char, tail: string)
    ensures ReadChar(Escape(c) + tail) == Got(c, tail)
    ensures Escape(c) != "" && Escape(c)[0] != '"'
  {
    hide ReadChar, Escape;
    if Short(c) {
      ShortRoundTrip(c, tail);
    } else if 0x20 <= c as int < 0x80 {
      PlainRoundTrip(c, tail);
    } else {
      EscapedRoundTrip(c, tail);
    }
  }

  lemma {:induction false} CharsRoundTrip(s: string, tail: string)
    ensures ReadChars(CharsText(s) + tail) == Got(s, tail)
  {
    hide ReadChar, Escape;
    if s == "" {
      assert ("\"" + tail)[1..] == tail;
    } else {
      var rest := CharsText(s[1..]) + tail;
      CharRoundTrip(s[0], rest);
      CharsRoundTrip(s[1..], tail);
      assert CharsText(s) + tail == Escape(s[0]) + rest;
      assert s == [s[0]] + s[1..];
    }
  }

  lemma StringRoundTrip(s: string, tail: string)
    ensures ReadString(StringText(s) + tail) == Got(s, tail)
  {
    hide CharsText, ReadChars;
    CharsRoundTrip(s, tail);
    assert (StringText(s) + tail)[1..] == CharsText(s) + tail;
  }

  // ------------------------------------------------------------ values come back

  /** Number texts are JSON numbers, at every depth. */
  predicate WellFormed(v: Value) {
    match v
    case Number(token) => IsNumber(token)
    case Array(items) => forall i | 0 <= i < |items| :: WellFormed(items[i])
    case Object(pairs) => forall i | 0 <= i < |pairs| :: WellFormed(pairs[i].val)
    case _ => true
  }

  /** A text that does not carry on a number. */
  predicate Delimited(tail: string) { tail == "" || !NumberChar(tail[0]) }

  lemma {:induction false} RunOfNumber(token: string, tail: string)
    requires (forall i | 0 <= i < |token| :: NumberChar(token[i])) && Delimited(tail)
    ensures NumberRun(token + tail) == |token|
  {
    if token != "" {
      RunOfNumber(token[1..], tail);
      assert (token + tail)[1..] == token[1..] + tail;
    }
  }

  lemma NumberRoundTrip(token: string, tail: string)
    requires IsNumber(token) && Delimited(tail)
    ensures ReadValue(token + tail) == Got(Number(token), tail)
  {
    hide FractionAndExponent;
    RunOfNumber(token, tail);
    assert (token + tail)[..|token|] == token && (token + tail)[|token|..] == tail;
    assert token[0] == '-' || Digit(token[0]);
    assert SkipWhite(token + tail) == token + tail;
  }

  /** No value's text begins with white space or a closing bracket. */
  lemma FirstChar(v: Value)
    requires WellFormed(v)
    ensures var t := Text(v); t != "" && !White(t[0]) && t[0] != ']' && t[0] != '}'
  {
    hide FractionAndExponent, CharsText, ItemsText, PairsText;
  }

  lemma ItemsTail(v: Value, i: nat, tail: string)
    requires v.Array? && i <= |v.items|
    ensures ItemsText(v, |v.items|) + tail == "]" + tail
    ensures 0 < i < |v.items| ==> ItemsText(v, i) + tail == "," + (Text(v.items[i]) + (ItemsText(v, i + 1) + tail))
    ensures i > 0 ==> Delimited(ItemsText(v, i) + tail)
  {
    hide Text;
  }

  lemma PairsTail(v: Value, i: nat, tail: string)
    requires v.Object? && i <= |v.pairs|
    ensures PairsText(v, |v.pairs|) + tail == "}" + tail
    ensures 0 < i < |v.pairs| ==> PairsText(v, i) + tail == "," + (PairText(v.pairs[i]) + (PairsText(v, i + 1) + tail))
    ensures i > 0 ==> Delimited(PairsText(v, i) + tail)
  {
    hide Text, StringText;
  }

  ghost function PairText(pair: Pair): string {
    StringText(pair.key) + (":" + Text(pair.val))
  }

  lemma AfterHead(head: char, rest: string)
    requires !White(head)
    ensures SkipWhite([head] + rest) == [head] + rest && ([head] + rest)[1..] == rest
  {
  }

  lemma WordRoundTrip(tail: string)
    ensures ReadValue("null" + tail) == Got(Null, tail)
    ensures ReadValue("true" + tail) == Got(Bool(true), tail)
    ensures ReadValue("false" + tail) == Got(Bool(false), tail)
  {
    hide ReadItems, ReadPairs, ReadNumber, ReadChars;
    assert ("null" + tail)[4..] == tail;
    assert ("true" + tail)[4..] == tail;
    assert ("false" + tail)[5..] == tail;
  }

  lemma StringValueRoundTrip(s: string, tail: string)
    ensures ReadValue(StringText(s) + tail) == Got(String(s), tail)
  {
    hide CharsText, ReadItems, ReadPairs, ReadNumber, ReadChars;
    CharsRoundTrip(s, tail);
    assert StringText(s) + tail == ['"'] + (CharsText(s) + tail);
    AfterHead('"', CharsText(s) + tail);
  }

  /** What a value prints is read back as that value, and nothing more is consumed. */
  lemma {:induction false} ValueRoundTrip(v: Value, tail: string)
    requires WellFormed(v) && Delimited(tail)
    ensures ReadValue(Text(v) + tail) == Got(v, tail)
    decreases v, 1, 0
  {
    hide ReadValue, StringText, IsNumber, Delimited;
    match v
    case Null => WordRoundTrip(tail);
    case Bool(b) => WordRoundTrip(tail);
    case Number(token) => NumberRoundTrip(token, tail);
    case String(s) => StringValueRoundTrip(s, tail);
    case Array(items) => ArrayRoundTrip(v, tail);
    case Object(pairs) => ObjectRoundTrip(v, tail);
  }

  lemma {:induction false} ArrayRoundTrip(v: Value, tail: string)
    requires v.Array? && WellFormed(v) && Delimited(tail)
    ensures ReadValue(Text(v) + tail) == Got(v, tail)
    decreases v, 0, |v.items| + 1
  {
    hide ReadItems, ItemsText;
    Brackets(v);
    var body := ItemsText(v, 0) + tail;
    assert Text(v) + tail == "[" + body;
    AfterHead('[', body);
    if v.items == [] {
      ItemsTail(v, 0, tail);
      AfterHead(']', tail);
    } else {
      FirstItem(v, tail);
      FirstChar(v.items[0]);
      ItemsRoundTrip(v, 0, tail);
      AfterHead(body[0], body[1..]);
      assert body == [body[0]] + body[1..];
    }
  }

  lemma FirstItem(v: Value, tail: string)
    requires v.Array? && v.items != []
    ensures ItemsText(v, 0) + tail == Text(v.items[0]) + (ItemsText(v, 1) + tail)
  {
    hide Text;
  }

  lemma {:induction false} ItemsRoundTrip(v: Value, i: nat, tail: string)
    requires v.Array? && i < |v.items| && WellFormed(v) && Delimited(tail)
    ensures ReadItems(Text(v.items[i]) + (ItemsText(v, i + 1) + tail)) == Got(v.items[i..], tail)
    decreases v, 0, |v.items| - i
  {
    hide ReadValue, Text, ItemsText;
    var rest := ItemsText(v, i + 1) + tail;
    ItemsTail(v, i + 1, tail);
    ValueRoundTrip(v.items[i], rest);
    if i + 1 == |v.items| {
      AfterHead(']', tail);
      assert v.items[i..] == [v.items[i]];
    } else {
      ItemsRoundTrip(v, i + 1, tail);
      AfterHead(',', Text(v.items[i + 1]) + (ItemsText(v, i + 2) + tail));
      assert v.items[i..] == [v.items[i]] + v.items[i + 1..];
    }
  }

  lemma {:induction false} ObjectRoundTrip(v: Value, tail: string)
    requires v.Object? && WellFormed(v) && Delimited(tail)
    ensures ReadValue(Text(v) + tail) == Got(v, tail)
    decreases v, 0, |v.pairs| + 1
  {
    hide ReadPairs, PairsText;
    Brackets(v);
    var body := PairsText(v, 0) + tail;
    assert Text(v) + tail == "{" + body;
    AfterHead('{', body);
    if v.pairs == [] {
      PairsTail(v, 0, tail);
      AfterHead('}', tail);
    } else {
      FirstPair(v, tail);
      PairsRoundTrip(v, 0, tail);
      assert body[0] == '"';
      AfterHead(body[0], body[1..]);
      assert body == [body[0]] + body[1..];
    }
  }

  lemma FirstPair(v: Value, tail: string)
    requires v.Object? && v.pairs != []
    ensures PairsText(v, 0) + tail == PairText(v.pairs[0]) + (PairsText(v, 1) + tail)
  {
    hide Text, StringText;
  }

  lemma {:induction false} PairRoundTrip(v: Value, i: nat, tail: string)
    requires v.Object? && i < |v.pairs| && WellFormed(v) && Delimited(tail)
    ensures ReadPair(PairText(v.pairs[i]) + tail) == Got(v.pairs[i], tail)
    decreases v, 0, 0
  {
    hide ReadValue, Text, CharsText, ReadChars;
    var pair := v.pairs[i];
    var value := Text(pair.val) + tail;
    var whole := StringText(pair.key) + ([':'] + value);
    assert PairText(pair) + tail == whole;
    AfterHead('"', whole[1..]);
    assert whole == ['"'] + whole[1..];
    StringRoundTrip(pair.key, [':'] + value);
    AfterHead(':', value);
    ValueRoundTrip(pair.val, tail);
  }

  lemma {:induction false} PairsRoundTrip(v: Value, i: nat, tail: string)
    requires v.Object? && i < |v.pairs| && WellFormed(v) && Delimited(tail)
    ensures ReadPairs(PairText(v.pairs[i]) + (PairsText(v, i + 1) + tail)) == Got(v.pairs[i..], tail)
    decreases v, 0, |v.pairs| - i
  {
    hide ReadPair, PairText, PairsText;
    var rest := PairsText(v, i + 1) + tail;
    PairsTail(v, i + 1, tail);
    PairRoundTrip(v, i, rest);
    if i + 1 == |v.pairs| {
      AfterHead('}', tail);
      assert v.pairs[i..] == [v.pairs[i]];
    } else {
      PairsRoundTrip(v, i + 1, tail);
      AfterHead(',', PairText(v.pairs[i + 1]) + (PairsText(v, i + 2) + tail));
      assert v.pairs[i..] == [v.pairs[i]] + v.pairs[i + 1..];
    }
  }

  /** Reading what the compact writer printed gives the value back. */
  lemma DocumentRoundTrip(v: Value)
    requires WellFormed(v)
    ensures ReadDocument(Text(v)) == Got(v, "")
  {
    ValueRoundTrip(v, "");
    assert Text(v) + "" == Text(v);
  }

  /** So two values never print the same text. */
  lemma TextIsInjective(a: Value, b: Value)
    requires WellFormed(a) && WellFormed(b) && Text(a) == Text(b)
    ensures a == b
  {
    DocumentRoundTrip(a);
    DocumentRoundTrip(b);
  }

  // ------------------------------------------------------------ ASCII

  ghost predicate Ascii(t: string) {
    forall i | 0 <= i < |t| :: t[i] as int < 0x80
  }

  lemma {:induction false} CharsAreAscii(s: string)
    ensures Ascii(CharsText(s))
  {
    if s != "" {
      CharsAreAscii(s[1..]);
      EscapeIsAscii(s[0]);
    }
  }

  lemma EscapeIsAscii(c: char)
    ensures Ascii(Escape(c))
  {
  }

  /** Whatever the strings hold, the text is ASCII only. */
  lemma {:induction false} TextIsAscii(v: Value)
    requires WellFormed(v)
    ensures Ascii(Text(v))
    decreases v, 1, 0
  {
    hide FractionAndExponent, CharsText;
    match v
    case Number(token) =>
      assert forall i | 0 <= i < |token| :: NumberChar(token[i]);
    case String(s) => CharsAreAscii(s);
    case Array(items) => ItemsAreAscii(v, 0);
    case Object(pairs) => PairsAreAscii(v, 0);
    case _ =>
  }

  lemma {:induction false} ItemsAreAscii(v: Value, i: nat)
    requires v.Array? && i <= |v.items| && WellFormed(v)
    ensures Ascii(ItemsText(v, i))
    decreases v, 0, |v.items| - i
  {
    hide Text;
    if i < |v.items| {
      TextIsAscii(v.items[i]);
      ItemsAreAscii(v, i + 1);
    }
  }

  lemma {:induction false} PairsAreAscii(v: Value, i: nat)
    requires v.Object? && i <= |v.pairs| && WellFormed(v)
    ensures Ascii(PairsText(v, i))
    decreases v, 0, |v.pairs| - i
  {
    hide Text, CharsText;
    if i < |v.pairs| {
      CharsAreAscii(v.pairs[i].key);
      TextIsAscii(v.pairs[i].val);
      PairsAreAscii(v, i + 1);
    }
  }
}
