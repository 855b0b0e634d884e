/** JSON values with ordered members, and the writers that print them in Python's
    compact ASCII form. */
module Json {
  /** Number carries the text that is written for it: the token itself for an integer,
      its rendering for a float. */
  datatype Value =
    | Null
    | Bool(b: bool)
    | Number(token: string)
    | String(s: string)
    | Array(items: seq<Value>)
    | Object(pairs: seq<Pair>)

  datatype Pair = Pair(key: string, val: Value)

  // ------------------------------------------------------------ objects as Python dicts

  function Get(v: Value, key: string): Value {
    if v.Object? && exists i :: 0 <= i < |v.pairs| && v.pairs[i].key == key
    then v.pairs[FirstIndex(v.pairs, key)].val
    else Null
  }

  function FirstIndex(pairs: seq<Pair>, key: string): (i: nat)
    requires exists i :: 0 <= i < |pairs| && pairs[i].key == key
    ensures i < |pairs| && pairs[i].key == key
    ensures forall j | 0 <= j < i :: pairs[j].key != key
  {
    if pairs[0].key == key then 0
    else
      assert forall i | 1 <= i < |pairs| :: pairs[1..][i - 1] == pairs[i];
      1 + FirstIndex(pairs[1..], key)
  }

  ghost predicate DistinctKeys(pairs: seq<Pair>) {
    forall i, j | 0 <= i < j < |pairs| :: pairs[i].key != pairs[j].key
  }

  /** jVal.get: a loop over the members. */
  method Lookup(v: Value, key: string) returns (found: Value)
    ensures found == Get(v, key)
  {
    if v.Object? {
      for i := 0 to |v.pairs|
        invariant forall j | 0 <= j < i :: v.pairs[j].key != key
      {
        if v.pairs[i].key == key {
          assert FirstIndex(v.pairs, key) == i;
          return v.pairs[i].val;
        }
      }
    }
    found := Null;
  }

  /** jVal.set: replaces the member in its place, or appends it. */
  method Set(v: Value, key: string, val: Value) returns (v': Value)
    ensures !v.Object? ==> v' == v
    ensures v.Object? ==> v'.Object? && (DistinctKeys(v.pairs) ==> DistinctKeys(v'.pairs))
    ensures v.Object? ==> Get(v', key) == val && forall other | other != key :: Get(v', other) == Get(v, other)
    ensures v.Object? ==> |v.pairs| <= |v'.pairs| && forall i | 0 <= i < |v.pairs| :: v'.pairs[i].key == v.pairs[i].key
  {
    if !v.Object? { return v; }
    for i := 0 to |v.pairs|
      invariant forall j | 0 <= j < i :: v.pairs[j].key != key
    {
      if v.pairs[i].key == key {
        v' := Object(v.pairs[i := Pair(key, val)]);
        SetMeans(v.pairs, v'.pairs, i, key, val);
        return;
      }
    }
    v' := Object(v.pairs + [Pair(key, val)]);
    SetMeans(v.pairs, v'.pairs, |v.pairs|, key, val);
  }

  lemma SetMeans(pairs: seq<Pair>, pairs': seq<Pair>, at: nat, key: string, val: Value)
    requires at <= |pairs| && |pairs'| == (if at == |pairs| then |pairs| + 1 else |pairs|)
    requires forall i | 0 <= i < |pairs'| :: pairs'[i] == if i == at then Pair(key, val) else pairs[i]
    requires at < |pairs| ==> pairs[at].key == key
    requires forall j | 0 <= j < at :: pairs[j].key != key
    ensures Get(Object(pairs'), key) == val
    ensures forall other | other != key :: Get(Object(pairs'), other) == Get(Object(pairs), other)
  {
    assert pairs'[at].key == key;
    assert FirstIndex(pairs', key) == at;
    forall other | other != key ensures Get(Object(pairs'), other) == Get(Object(pairs), other) {
      if i :| 0 <= i < |pairs| && pairs[i].key == other {
        var first := FirstIndex(pairs, other);
        assert pairs'[first].key == other && FirstIndex(pairs', other) == first;
      }
    }
  }

  // ------------------------------------------------------------ text

  function HexDigit(n: nat): char
    requires n < 16
  {
    if n < 10 then (n + '0' as int) as char else (n - 10 + 'a' as int) as char
  }

  /** %04x */
  function Hex4(n: nat): string
    requires n < 0x10000
  {
    [HexDigit(n / 4096), HexDigit(n / 256 % 16), HexDigit(n / 16 % 16), HexDigit(n % 16)]
  }

  /** One code point, ASCII only. */
  function Escape(c: char): string {
    var r := c as int;
    if c == '"' then "\\\""
    else if c == '\\' then "\\\\"
    else if r == 8 then "\\b"
    else if r == 9 then "\\t"
    else if r == 10 then "\\n"
    else if r == 12 then "\\f"
    else if r == 13 then "\\r"
    else if 0x20 <= r < 0x80 then [c]
    else if r <= 0xFFFF then "\\u" + Hex4(r)
    else "\\u" + Hex4(0xD800 + (r - 0x10000) / 1024) + "\\u" + Hex4(0xDC00 + (r - 0x10000) % 1024)
  }

  /** The code points from `s` on, and the closing quote. */
  function CharsText(s: string): string {
    if s == "" then "\"" else Escape(s[0]) + CharsText(s[1..])
  }

  function StringText(s: string): string { "\"" + CharsText(s) }

  function Text(v: Value): string
    decreases v, 1, 0
  {
    match v
    case Null => "null"
    case Bool(b) => if b then "true" else "false"
    case Number(token) => token
    case String(s) => StringText(s)
    case Array(items) => "[" + ItemsText(v, 0)
    case Object(pairs) => "{" + PairsText(v, 0)
  }

  /** What is written of an array from item `i` on. */
  function ItemsText(v: Value, i: nat): string
    requires v.Array? && i <= |v.items|
    decreases v, 0, |v.items| - i
  {
    if i == |v.items| then "]"
    else (if i > 0 then "," else "") + (Text(v.items[i]) + ItemsText(v, i + 1))
  }

  /** What is written of an object from member `i` on. */
  function PairsText(v: Value, i: nat): string
    requires v.Object? && i <= |v.pairs|
    decreases v, 0, |v.pairs| - i
  {
    if i == |v.pairs| then "}"
    else
      (if i > 0 then "," else "")
      + (StringText(v.pairs[i].key) + (":" + (Text(v.pairs[i].val) + PairsText(v, i + 1))))
  }

  // ------------------------------------------------------------ the writers

  /** strings.Builder */
  class Builder {
    var text: string

    constructor ()
      ensures text == ""
    {
      text := "";
    }

    method WriteString(s: string)
      modifies this
      ensures text == old(text) + s
    {
      text := text + s;
    }
  }

  method WriteJsonString(b: Builder, s: string)
    modifies b
    ensures b.text == old(b.text) + StringText(s)
  {
    hide Escape;
    b.WriteString("\"");
    for i := 0 to |s|
      invariant b.text + CharsText(s[i..]) == old(b.text) + StringText(s)
    {
      ghost var left := s[i..];
      assert left[0] == s[i] && left[1..] == s[i + 1..];
      b.WriteString(Escape(s[i]));
    }
    b.WriteString("\"");
  }

  method WriteJson(b: Builder, v: Value)
    modifies b
    ensures b.text == old(b.text) + Text(v)
    decreases v
  {
    match v
    case Null => b.WriteString("null");
    case Bool(t) => b.WriteString(if t then "true" else "false");
    case Number(token) => b.WriteString(token);
    case String(s) => WriteJsonString(b, s);
    case Array(items) => WriteArray(b, v);
    case Object(pairs) => WriteObject(b, v);
  }

  /** Writing one more item leaves the rest of the text to write. */
  lemma ItemWritten(before: string, v: Value, i: nat, whole: string)
    requires v.Array? && i < |v.items| && before + ItemsText(v, i) == whole
    ensures before + (if i > 0 then "," else "") + Text(v.items[i]) + ItemsText(v, i + 1) == whole
  {
  }

  lemma PairWritten(before: string, v: Value, i: nat, whole: string)
    requires v.Object? && i < |v.pairs| && before + PairsText(v, i) == whole
    ensures before + (if i > 0 then "," else "") + StringText(v.pairs[i].key) + ":" + Text(v.pairs[i].val)
            + PairsText(v, i + 1) == whole
  {
    hide StringText;
  }

  lemma Brackets(v: Value)
    ensures v.Array? ==> Text(v) == "[" + ItemsText(v, 0) && ItemsText(v, |v.items|) == "]"
    ensures v.Object? ==> Text(v) == "{" + PairsText(v, 0) && PairsText(v, |v.pairs|) == "}"
  {
  }

  method WriteArray(b: Builder, v: Value)
    requires v.Array?
    modifies b
    ensures b.text == old(b.text) + Text(v)
    decreases v, 0
  {
    hide Text, ItemsText;
    Brackets(v);
    b.WriteString("[");
    ghost var whole := b.text + ItemsText(v, 0);
    assert whole == old(b.text) + Text(v);
    for i := 0 to |v.items|
      invariant b.text + ItemsText(v, i) == whole
    {
      ItemWritten(b.text, v, i, whole);
      if i > 0 { b.WriteString(","); }
      WriteJson(b, v.items[i]);
    }
    b.WriteString("]");
  }

  method WriteObject(b: Builder, v: Value)
    requires v.Object?
    modifies b
    ensures b.text == old(b.text) + Text(v)
    decreases v, 0
  {
    hide Text, PairsText, StringText;
    Brackets(v);
    b.WriteString("{");
    ghost var whole := b.text + PairsText(v, 0);
    assert whole == old(b.text) + Text(v);
    for i := 0 to |v.pairs|
      invariant b.text + PairsText(v, i) == whole
    {
      PairWritten(b.text, v, i, whole);
      if i > 0 { b.WriteString(","); }
      WriteJsonString(b, v.pairs[i].key);
      b.WriteString(":");
      WriteJson(b, v.pairs[i].val);
    }
    b.WriteString("}");
  }
}
