/** JSON trees, the text cJSON prints for them and the tree it reads from a text. */
module Json {
  import opened Common
  import opened Digits

  /** Children are chained through `next`, as in the source. */
  datatype Json =
    | Null
    | Bool(b: bool)
    | Num(n: int)
    | Str(s: Text)
    | Arr(items: Items)
    | Obj(fields: Fields)
  datatype Items = NoItem | Item(value: Json, next: Items)
  datatype Fields = NoField | Field(name: Text, value: Json, next: Fields)

  const INT_MIN: int := -0x8000_0000
  const INT_MAX: int := 0x7fff_ffff

  const QUOTE: Byte := 34
  const BACKSLASH: Byte := 92
  const COMMA: Byte := 44
  const COLON: Byte := 58
  const MINUS: Byte := 45
  const LBRACKET: Byte := 91
  const RBRACKET: Byte := 93
  const LBRACE: Byte := 123
  const RBRACE: Byte := 125
  const SPACE: Byte := 32
  const NEWLINE: Byte := 10
  const TAB: Byte := 9

  const NULL_TEXT: Text := [110, 117, 108, 108]
  const TRUE_TEXT: Text := [116, 114, 117, 101]
  const FALSE_TEXT: Text := [102, 97, 108, 115, 101]

  /** C strings hold no zero byte. */
  predicate NulFree(t: Text) { forall i :: 0 <= i < |t| ==> t[i] != 0 }

  predicate InInt(n: int) { INT_MIN <= n <= INT_MAX }

  /** What a cJSON tree of 32-bit integers can hold. */
  predicate WellFormed(v: Json) {
    match v
    case Null => true
    case Bool(_) => true
    case Num(n) => InInt(n)
    case Str(s) => NulFree(s)
    case Arr(items) => ItemsWellFormed(items)
    case Obj(fields) => FieldsWellFormed(fields)
  }

  predicate ItemsWellFormed(items: Items) {
    items.Item? ==> WellFormed(items.value) && ItemsWellFormed(items.next)
  }

  predicate FieldsWellFormed(fields: Fields) {
    fields.Field? ==> NulFree(fields.name) && WellFormed(fields.value) && FieldsWellFormed(fields.next)
  }

  // ---- printing ----

  function HexDigit(d: nat): (b: Byte)
    requires d < 16
  {
    if d < 10 then 48 + d else 87 + d
  }

  /** The letter after the backslash of a two-byte escape, or 0. */
  function ShortEscape(b: Byte): (e: Byte) {
    if b == QUOTE || b == BACKSLASH then b
    else if b == 8 then 98
    else if b == 12 then 102
    else if b == 10 then 110
    else if b == 13 then 114
    else if b == 9 then 116
    else 0
  }

  /** How one byte of a string is printed. */
  function Escape(b: Byte): (t: Text)
    ensures 1 <= |t| <= 6
    ensures b != 0 ==> NulFree(t)
  {
    if b > 31 && b != QUOTE && b != BACKSLASH then [b]
    else if ShortEscape(b) != 0 then [BACKSLASH, ShortEscape(b)]
    else [BACKSLASH, 117, 48, 48, HexDigit(b / 16), HexDigit(b % 16)]
  }

  function Escaped(s: Text): (t: Text)
    ensures |t| >= |s|
    ensures NulFree(s) ==> NulFree(t)
  {
    if s == [] then [] else Escape(s[0]) + Escaped(s[1..])
  }

  function PrintString(s: Text): (t: Text)
    ensures |t| >= 2 && t[0] == QUOTE
    ensures NulFree(s) ==> NulFree(t)
  {
    [QUOTE] + Escaped(s) + [QUOTE]
  }

  function PrintInt(n: int): (t: Text)
    ensures |t| >= 1 && (t[0] == MINUS || IsDigit(t[0])) && NulFree(t)
  {
    if n < 0 then [MINUS] + Decimal(-n) else Decimal(n)
  }

  function Tabs(n: int): (t: Text)
    ensures |t| == if n <= 0 then 0 else n
    ensures forall i :: 0 <= i < |t| ==> t[i] == TAB
  {
    if n <= 0 then [] else [TAB] + Tabs(n - 1)
  }

  /** Layout that is written only when the output is formatted. */
  function When(fmt: bool, t: Text): Text { if fmt then t else [] }

  function Print(v: Json, depth: nat, fmt: bool): (t: Text)
    decreases v, 2
  {
    match v
    case Null => NULL_TEXT
    case Bool(b) => if b then TRUE_TEXT else FALSE_TEXT
    case Num(n) => PrintInt(n)
    case Str(s) => PrintString(s)
    case Arr(items) => [LBRACKET] + JoinItems(PrintItems(items, depth + 1, fmt), fmt) + [RBRACKET]
    case Obj(fields) =>
      if fields.NoField? then [LBRACE] + When(fmt, [NEWLINE] + Tabs(depth - 1)) + [RBRACE]
      else
        [LBRACE] + When(fmt, [NEWLINE]) + JoinFields(PrintFields(fields, depth + 1, fmt), depth + 1, fmt)
          + When(fmt, Tabs(depth)) + [RBRACE]
  }

  function PrintItems(items: Items, depth: nat, fmt: bool): (ts: seq<Text>)
    ensures ts == [] <==> items.NoItem?
    decreases items, 1
  {
    match items
    case NoItem => []
    case Item(v, next) => [Print(v, depth, fmt)] + PrintItems(next, depth, fmt)
  }

  function PrintFields(fields: Fields, depth: nat, fmt: bool): (ts: seq<(Text, Text)>)
    ensures ts == [] <==> fields.NoField?
    decreases fields, 1
  {
    match fields
    case NoField => []
    case Field(name, v, next) => [(PrintString(name), Print(v, depth, fmt))] + PrintFields(next, depth, fmt)
  }

  /** Entries with a comma, and in formatted output a space, between them. */
  function JoinItems(ts: seq<Text>, fmt: bool): Text {
    if ts == [] then []
    else if |ts| == 1 then ts[0]
    else ts[0] + [COMMA] + When(fmt, [SPACE]) + JoinItems(ts[1..], fmt)
  }

  /** One line per field in formatted output. */
  function JoinFields(ts: seq<(Text, Text)>, depth: nat, fmt: bool): Text {
    if ts == [] then []
    else
      When(fmt, Tabs(depth)) + ts[0].0 + [COLON] + When(fmt, [TAB]) + ts[0].1
        + (if |ts| == 1 then [] else [COMMA]) + When(fmt, [NEWLINE]) + JoinFields(ts[1..], depth, fmt)
  }

  // ---- parsing ----

  /** Skips white space and control characters. */
  function Skip(t: Text): (r: Text)
    ensures |r| <= |t|
    ensures r == [] || r[0] > 32
  {
    if t == [] || t[0] > 32 then t else Skip(t[1..])
  }

  predicate Starts(t: Text, b: Byte) { t != [] && t[0] == b }

  /** The parsed value and the text after it; None for a failed parse. */
  type Parsed<!T> = Option<(T, Text)>

  predicate IsHex(b: Byte) { 48 <= b <= 57 || 65 <= b <= 70 || 97 <= b <= 102 }

  function HexValue(b: Byte): (d: nat)
    requires IsHex(b)
    ensures d < 16
  {
    if b <= 57 then b - 48 else if b <= 70 then b - 55 else b - 87
  }

  predicate HasHex4(t: Text) { |t| >= 4 && IsHex(t[0]) && IsHex(t[1]) && IsHex(t[2]) && IsHex(t[3]) }

  function Hex4(t: Text): (h: nat)
    requires HasHex4(t)
    ensures h < 0x10000
  {
    ((HexValue(t[0]) * 16 + HexValue(t[1])) * 16 + HexValue(t[2])) * 16 + HexValue(t[3])
  }

  /** The UTF-8 bytes of a code point, written from the last byte to the first. */
  function Utf8(uc: nat): (t: Text)
    requires uc < 0x110000
    ensures 1 <= |t| <= 4
    ensures uc < 0x10000 ==> |t| <= 3
  {
    if uc < 0x80 then [uc]
    else if uc < 0x800 then [0xC0 + uc / 64, 0x80 + uc % 64]
    else if uc < 0x10000 then [0xE0 + uc / 64 / 64, 0x80 + uc / 64 % 64, 0x80 + uc % 64]
    else [0xF0 + uc / 64 / 64 / 64, 0x80 + uc / 64 / 64 % 64, 0x80 + uc / 64 % 64, 0x80 + uc % 64]
  }

  /** What one escape stands for and how many bytes it takes; None for a malformed one. */
  function Unescape(t: Text): (r: Option<(Text, nat)>)
    requires Starts(t, BACKSLASH)
    ensures r.Some? ==> 2 <= r.value.1 <= |t|
  {
    if |t| < 2 then None
    else if t[1] == 98 then Some(([8], 2))
    else if t[1] == 102 then Some(([12], 2))
    else if t[1] == 110 then Some(([10], 2))
    else if t[1] == 114 then Some(([13], 2))
    else if t[1] == 116 then Some(([9], 2))
    else if t[1] == 117 then UnescapeU(t)
    else Some(([t[1]], 2))
  }

  /** \uXXXX, with a second escape for the lower half of a surrogate pair. */
  function UnescapeU(t: Text): (r: Option<(Text, nat)>)
    ensures r.Some? ==> 6 <= r.value.1 <= |t|
  {
    if |t| < 6 || !HasHex4(t[2..]) then None
    else
      var uc := Hex4(t[2..]);
      if 0xDC00 <= uc <= 0xDFFF || uc == 0 then Some(([], 6))
      else if 0xD800 <= uc <= 0xDBFF then
        if |t| < 8 || t[6] != BACKSLASH || t[7] != 117 then Some(([], 6))
        else if !HasHex4(t[8..]) then None
        else
          var uc2 := Hex4(t[8..]);
          if uc2 < 0xDC00 || uc2 > 0xDFFF then Some(([], 12))
          else Some((Utf8(0x10000 + (uc % 0x400) * 0x400 + uc2 % 0x400), 12))
      else Some((Utf8(uc), 6))
  }

  /** The string up to the closing quote; a text that ends before it is accepted. */
  function ParseChars(t: Text): (r: Parsed<Text>)
    ensures r.Some? ==> |r.value.1| <= |t|
    decreases |t|
  {
    if t == [] then Some(([], []))
    else if t[0] == QUOTE then Some(([], t[1..]))
    else if t[0] != BACKSLASH then Prepend([t[0]], ParseChars(t[1..]))
    else
      var e := Unescape(t);
      if e.None? then None else Prepend(e.value.0, ParseChars(t[e.value.1..]))
  }

  function Prepend(a: Text, r: Parsed<Text>): Parsed<Text> {
    if r.None? then None else Some((a + r.value.0, r.value.1))
  }

  function ParseString(t: Text): (r: Parsed<Text>)
    ensures r.Some? ==> |r.value.1| < |t|
  {
    if !Starts(t, QUOTE) then None else ParseChars(t[1..])
  }

  /** Sign, one optional zero, digits. */
  function ParseInt(t: Text): (r: (int, Text))
    ensures |r.1| <= |t|
  {
    var negative := Starts(t, MINUS);
    var t1 := if negative then t[1..] else t;
    var t2 := if Starts(t1, ZERO) then t1[1..] else t1;
    var (n, rest) := if t2 != [] && 49 <= t2[0] <= 57 then Scan(0, t2) else (0, t2);
    ScanShorter(0, t2);
    var m: int := n;
    (if negative then -m else m, rest)
  }

  lemma ScanShorter(acc: nat, t: Text)
    ensures |Scan(acc, t).1| <= |t|
    decreases |t|
  {}

  /** A fraction or an exponent follows. */
  predicate GoesOn(t: Text) {
    (|t| >= 2 && t[0] == 46 && IsDigit(t[1])) || Starts(t, 101) || Starts(t, 69)
  }

  /** Integers of 32 bits; other numbers are outside this model. */
  function ParseNumber(t: Text): (r: Parsed<Json>)
    ensures r.Some? ==> |r.value.1| <= |t|
  {
    var (n, rest) := ParseInt(t);
    if GoesOn(rest) || !InInt(n) then None else Some((Num(n), rest))
  }

  function Parse(t: Text): (r: Parsed<Json>)
    ensures r.Some? ==> |r.value.1| <= |t|
    decreases |t|, 1
  {
    if NULL_TEXT <= t then Some((Null, t[4..]))
    else if FALSE_TEXT <= t then Some((Bool(false), t[5..]))
    else if TRUE_TEXT <= t then Some((Bool(true), t[4..]))
    else if Starts(t, QUOTE) then
      var r := ParseString(t);
      if r.None? then None else Some((Str(r.value.0), r.value.1))
    else if t != [] && (t[0] == MINUS || IsDigit(t[0])) then ParseNumber(t)
    else if Starts(t, LBRACKET) then
      var u := Skip(t[1..]);
      if Starts(u, RBRACKET) then Some((Arr(NoItem), u[1..]))
      else
        var r := ParseItems(Skip(u));
        if r.None? then None else Some((Arr(r.value.0), r.value.1))
    else if Starts(t, LBRACE) then
      var u := Skip(t[1..]);
      if Starts(u, RBRACE) then Some((Obj(NoField), u[1..]))
      else
        var r := ParseFields(Skip(u));
        if r.None? then None else Some((Obj(r.value.0), r.value.1))
    else None
  }

  /** Values separated by commas up to the closing bracket. */
  function ParseItems(t: Text): (r: Parsed<Items>)
    ensures r.Some? ==> |r.value.1| <= |t|
    decreases |t|, 2
  {
    var v := Parse(t);
    if v.None? then None
    else
      var u := Skip(v.value.1);
      if Starts(u, COMMA) then
        var r := ParseItems(Skip(u[1..]));
        if r.None? then None else Some((Item(v.value.0, r.value.0), r.value.1))
      else if Starts(u, RBRACKET) then Some((Item(v.value.0, NoItem), u[1..]))
      else None
  }

  /** Named values separated by commas up to the closing brace. */
  function ParseFields(t: Text): (r: Parsed<Fields>)
    ensures r.Some? ==> |r.value.1| <= |t|
    decreases |t|, 2
  {
    var name := ParseString(t);
    if name.None? then None
    else
      var u := Skip(name.value.1);
      if !Starts(u, COLON) then None
      else
        var v := Parse(Skip(u[1..]));
        if v.None? then None
        else
          var w := Skip(v.value.1);
          if Starts(w, COMMA) then
            var r := ParseFields(Skip(w[1..]));
            if r.None? then None else Some((Field(name.value.0, v.value.0, r.value.0), r.value.1))
          else if Starts(w, RBRACE) then Some((Field(name.value.0, v.value.0, NoField), w[1..]))
          else None
  }
}
