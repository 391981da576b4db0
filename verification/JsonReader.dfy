/** The recursive-descent parser with its loops, its string buffer and its chains of children. */
module JsonReader {
  import opened Common
  import opened Digits
  import opened Json
  import opened JsonPrinter
  import opened JsonGrammar
  import opened JsonAccepts
  import opened JsonExact

  /** `skip`. */
  method SkipBlanks(t: Text) returns (r: Text)
    ensures r == Skip(t)
  {
    r := t;
    while r != [] && r[0] <= 32
      invariant Skip(r) == Skip(t)
      decreases |r|
    {
      r := r[1..];
    }
  }

  // ---- strings ----

  /** Bytes that the first pass of `parse_string` reserves for the text up to the closing quote. */
  function Room(t: Text): (n: nat)
    decreases |t|
  {
    if t == [] || t[0] == QUOTE then 0
    else if t[0] == BACKSLASH then 1 + if |t| < 2 then 0 else Room(t[2..])
    else 1 + Room(t[1..])
  }

  method CountChars(t: Text) returns (len: nat)
    ensures len == Room(t)
  {
    len := 0;
    var ptr := t;
    while ptr != [] && ptr[0] != QUOTE
      invariant len + Room(ptr) == Room(t)
      decreases |ptr|
    {
      len := len + 1;
      if ptr[0] == BACKSLASH {
        ptr := if |ptr| < 2 then [] else ptr[2..];
      } else {
        ptr := ptr[1..];
      }
    }
  }

  lemma {:induction false} RoomHex(t: Text)
    requires HasHex4(t)
    ensures Room(t) == 4 + Room(t[4..])
  {
    RoomOne(t);
    RoomOne(t[1..]);
    RoomOne(t[2..]);
    RoomOne(t[3..]);
    assert t[1..][1..] == t[2..] && t[2..][1..] == t[3..] && t[3..][1..] == t[4..];
  }

  lemma RoomOne(t: Text)
    requires t != [] && t[0] != QUOTE && t[0] != BACKSLASH
    ensures Room(t) == 1 + Room(t[1..])
  {}

  /** An escape never stands for more bytes than were reserved for it. */
  lemma {:induction false} RoomForEscape(t: Text)
    requires Starts(t, BACKSLASH) && Unescape(t).Some?
    ensures var e := Unescape(t).value; |e.0| + Room(t[e.1..]) <= Room(t)
  {
    hide HasHex4, Hex4, Utf8;
    if t[1] == 117 {
      RoomForU(t);
    } else {
      assert Room(t) == 1 + Room(t[2..]);
    }
  }

  lemma {:induction false} RoomForU(t: Text)
    requires |t| >= 2 && t[0] == BACKSLASH && UnescapeU(t).Some?
    ensures var e := UnescapeU(t).value; |e.0| + Room(t[e.1..]) <= Room(t)
  {
    hide HasHex4, Hex4, Utf8;
    RoomHex(t[2..]);
    assert t[2..][4..] == t[6..];
    assert Room(t) == 5 + Room(t[6..]);
    if UnescapeU(t).value.1 == 12 {
      var u := t[6..];
      assert u[0] == BACKSLASH && u[2..] == t[8..] && Room(u) == 1 + Room(u[2..]);
      RoomHex(t[8..]);
      assert t[8..][4..] == t[12..];
    }
  }

  lemma PrependTwice(a: Text, b: Text, r: Parsed<Text>)
    ensures Prepend(a, Prepend(b, r)) == Prepend(a + b, r)
  {
    if r.Some? { assert a + (b + r.value.0) == a + b + r.value.0; }
  }

  /** One round of the decoding loop of `parse_string`. */
  lemma {:induction false} CharsStep(t: Text)
    requires t != [] && t[0] != QUOTE
    ensures t[0] != BACKSLASH ==>
      ParseChars(t) == Prepend([t[0]], ParseChars(t[1..])) && Room(t) == 1 + Room(t[1..])
    ensures t[0] == BACKSLASH && Unescape(t).None? ==> ParseChars(t) == None
    ensures t[0] == BACKSLASH && Unescape(t).Some? ==>
      var e := Unescape(t).value;
      ParseChars(t) == Prepend(e.0, ParseChars(t[e.1..])) && |e.0| + Room(t[e.1..]) <= Room(t)
  {
    hide Unescape;
    if t[0] == BACKSLASH && Unescape(t).Some? { RoomForEscape(t); }
  }

  lemma CharsEnd(t: Text)
    requires t == [] || t[0] == QUOTE
    ensures ParseChars(t) == Some(([], if t == [] then [] else t[1..]))
  {}

  lemma {:induction false} StringsRead(str: Text)
    ensures forall ps, rest :: PiecesOk(ps) && str == Quoted(ps) + rest ==>
      ParseString(str) == Some((PiecesValue(ps), rest))
  {
    hide ParseString, PiecesOk, PiecesValue, Quoted;
    forall ps, rest | PiecesOk(ps) && str == Quoted(ps) + rest
      ensures ParseString(str) == Some((PiecesValue(ps), rest))
    {
      StringRead(ps, rest);
    }
  }

  /** `parse_string`: decodes into a buffer of the size counted before, which it never overruns. */
  method ReadString(str: Text) returns (r: Parsed<Text>)
    ensures r == ParseString(str)
    ensures r.Some? ==> |r.value.0| <= Room(str[1..])
    ensures forall ps, rest :: PiecesOk(ps) && str == Quoted(ps) + rest ==> r == Some((PiecesValue(ps), rest))
  {
    StringsRead(str);
    hide ParseChars, Room, Unescape, PiecesOk, PiecesValue, Quoted;
    if !Starts(str, QUOTE) {
      return None;
    }
    ghost var t := str[1..];
    var len := CountChars(str[1..]);
    var out := new Byte[len + 1];
    var ptr, ptr2 := str[1..], 0;
    PrependNothing(ParseChars(t));
    assert out[..0] == [];
    while ptr != [] && ptr[0] != QUOTE
      invariant 0 <= ptr2 && ptr2 + Room(ptr) <= len
      invariant ParseChars(t) == Prepend(out[..ptr2], ParseChars(ptr))
      decreases |ptr|
    {
      CharsStep(ptr);
      if ptr[0] != BACKSLASH {
        PrependTwice(out[..ptr2], [ptr[0]], ParseChars(ptr[1..]));
        ptr2 := Append(out, ptr2, [ptr[0]]);
        ptr := ptr[1..];
      } else {
        var e := Unescape(ptr);
        if e.None? {
          return None;
        }
        PrependTwice(out[..ptr2], e.value.0, ParseChars(ptr[e.value.1..]));
        ptr2 := Append(out, ptr2, e.value.0);
        ptr := ptr[e.value.1..];
      }
    }
    CharsEnd(ptr);
    ghost var done := out[..ptr2];
    assert done + [] == done;
    out[ptr2] := 0;
    assert out[..ptr2] == done;
    r := Some((out[..ptr2], if ptr == [] then [] else ptr[1..]));
  }

  lemma PrependNothing(r: Parsed<Text>)
    ensures Prepend([], r) == r
  {
    if r.Some? { assert [] + r.value.0 == r.value.0; }
  }

  // ---- numbers ----

  /** The digits of `parse_number`. */
  method ReadDigits(t: Text) returns (n: nat, rest: Text)
    ensures (n, rest) == Scan(0, t)
  {
    n, rest := 0, t;
    while rest != [] && IsDigit(rest[0])
      invariant Scan(n, rest) == Scan(0, t)
      decreases |rest|
    {
      n, rest := n * 10 + (rest[0] - 48), rest[1..];
    }
  }

  method ReadNumber(t: Text) returns (r: Parsed<Json>)
    ensures r == ParseNumber(t)
  {
    var negative, num := false, t;
    if Starts(num, MINUS) {
      negative, num := true, num[1..];
    }
    if Starts(num, ZERO) {
      num := num[1..];
    }
    var n: int := 0;
    if num != [] && 49 <= num[0] <= 57 {
      n, num := ReadDigits(num);
    }
    n := if negative then -n else n;
    r := if GoesOn(num) || !InInt(n) then None else Some((Num(n), num));
  }

  // ---- arrays and objects ----

  /** A chain of children: `vs` in order, then `tail`. */
  function Chain(vs: seq<Json>, tail: Items): Items {
    if vs == [] then tail else Item(vs[0], Chain(vs[1..], tail))
  }

  function Chained(vs: seq<Json>, r: Parsed<Items>): Parsed<Items> {
    if r.None? then None else Some((Chain(vs, r.value.0), r.value.1))
  }

  lemma {:induction false} ChainSnoc(vs: seq<Json>, v: Json, tail: Items)
    ensures Chain(vs + [v], tail) == Chain(vs, Item(v, tail))
    decreases |vs|
  {
    if vs != [] {
      assert (vs + [v])[1..] == vs[1..] + [v];
      ChainSnoc(vs[1..], v, tail);
    }
  }

  /** What `parse_array` makes of the text after an entry. */
  function ItemsTail(u: Text): Parsed<Items> {
    if Starts(u, COMMA) then ParseItems(Skip(u[1..]))
    else if Starts(u, RBRACKET) then Some((NoItem, u[1..]))
    else None
  }

  lemma {:induction false} ItemsStep(vs: seq<Json>, t: Text)
    ensures Parse(t).None? ==> Chained(vs, ParseItems(t)) == None
    ensures Parse(t).Some? ==>
      Chained(vs, ParseItems(t)) == Chained(vs + [Parse(t).value.0], ItemsTail(Skip(Parse(t).value.1)))
  {
    hide Parse, Skip;
    var p := Parse(t);
    if p.Some? {
      var tail := ItemsTail(Skip(p.value.1));
      if tail.Some? { ChainSnoc(vs, p.value.0, tail.value.0); }
    }
  }

  method ReadItems(t: Text) returns (r: Parsed<Items>)
    ensures r == ParseItems(t)
    decreases |t|, 1
  {
    hide Parse, ParseItems, Skip;
    var v := ReadValue(t);
    ItemsStep([], t);
    assert ParseItems(t) == Chained([], ParseItems(t));
    if v.None? {
      return None;
    }
    var vs := [v.value.0];
    assert [] + vs == vs;
    var value := SkipBlanks(v.value.1);
    while Starts(value, COMMA)
      invariant |value| <= |t|
      invariant ParseItems(t) == Chained(vs, ItemsTail(value))
      decreases |value|
    {
      var u := SkipBlanks(value[1..]);
      v := ReadValue(u);
      ItemsStep(vs, u);
      if v.None? {
        return None;
      }
      vs := vs + [v.value.0];
      value := SkipBlanks(v.value.1);
    }
    r := if Starts(value, RBRACKET) then Some((Chain(vs, NoItem), value[1..])) else None;
  }

  function ChainF(vs: seq<(Text, Json)>, tail: Fields): Fields {
    if vs == [] then tail else Field(vs[0].0, vs[0].1, ChainF(vs[1..], tail))
  }

  function ChainedF(vs: seq<(Text, Json)>, r: Parsed<Fields>): Parsed<Fields> {
    if r.None? then None else Some((ChainF(vs, r.value.0), r.value.1))
  }

  lemma {:induction false} ChainFSnoc(vs: seq<(Text, Json)>, v: (Text, Json), tail: Fields)
    ensures ChainF(vs + [v], tail) == ChainF(vs, Field(v.0, v.1, tail))
    decreases |vs|
  {
    if vs != [] {
      assert (vs + [v])[1..] == vs[1..] + [v];
      ChainFSnoc(vs[1..], v, tail);
    }
  }

  function FieldsTail(w: Text): Parsed<Fields> {
    if Starts(w, COMMA) then ParseFields(Skip(w[1..]))
    else if Starts(w, RBRACE) then Some((NoField, w[1..]))
    else None
  }

  /** One name, a colon and one value. */
  function ParseField(t: Text): (r: Parsed<(Text, Json)>)
    ensures r.Some? ==> |r.value.1| < |t|
  {
    var name := ParseString(t);
    if name.None? then None
    else
      var u := Skip(name.value.1);
      if !Starts(u, COLON) then None
      else
        var v := Parse(Skip(u[1..]));
        if v.None? then None else Some(((name.value.0, v.value.0), v.value.1))
  }

  lemma {:induction false} FieldsStep(vs: seq<(Text, Json)>, t: Text)
    ensures ParseField(t).None? ==> ChainedF(vs, ParseFields(t)) == None
    ensures ParseField(t).Some? ==>
      ChainedF(vs, ParseFields(t)) == ChainedF(vs + [ParseField(t).value.0], FieldsTail(Skip(ParseField(t).value.1)))
  {
    hide Parse, ParseString, Skip;
    var p := ParseField(t);
    if p.Some? {
      var tail := FieldsTail(Skip(p.value.1));
      if tail.Some? { ChainFSnoc(vs, p.value.0, tail.value.0); }
    }
  }

  method ReadField(t: Text) returns (r: Parsed<(Text, Json)>)
    ensures r == ParseField(t)
    decreases |t|, 1
  {
    hide Parse, Skip, ParseString;
    var name := ReadString(t);
    if name.None? {
      return None;
    }
    var u := SkipBlanks(name.value.1);
    if !Starts(u, COLON) {
      return None;
    }
    var value := SkipBlanks(u[1..]);
    var v := ReadValue(value);
    r := if v.None? then None else Some(((name.value.0, v.value.0), v.value.1));
  }

  lemma {:induction false} AllFieldsRead(t: Text)
    ensures forall xs: TFields, rest :: xs.TField? && FieldsOk(xs) && t == SpellFields(xs) + ([Code('}')] + rest) ==>
      ParseFields(t) == Some((FieldsValue(xs), rest))
  {
    hide ParseFields, FieldsOk, SpellFields, FieldsValue;
    forall xs: TFields, rest | xs.TField? && FieldsOk(xs) && t == SpellFields(xs) + ([Code('}')] + rest)
      ensures ParseFields(t) == Some((FieldsValue(xs), rest))
    {
      FieldsRead(xs, rest);
    }
  }

  method ReadFields(t: Text) returns (r: Parsed<Fields>)
    ensures r == ParseFields(t)
    ensures forall xs: TFields, rest :: xs.TField? && FieldsOk(xs) && t == SpellFields(xs) + ([Code('}')] + rest) ==>
      r == Some((FieldsValue(xs), rest))
    decreases |t|, 2
  {
    AllFieldsRead(t);
    hide ParseField, ParseFields, Skip, FieldsOk, SpellFields, FieldsValue;
    var v := ReadField(t);
    FieldsStep([], t);
    assert ParseFields(t) == ChainedF([], ParseFields(t));
    if v.None? {
      return None;
    }
    var vs := [v.value.0];
    assert [] + vs == vs;
    var value := SkipBlanks(v.value.1);
    while Starts(value, COMMA)
      invariant |value| <= |t|
      invariant ParseFields(t) == ChainedF(vs, FieldsTail(value))
      decreases |value|
    {
      var u := SkipBlanks(value[1..]);
      v := ReadField(u);
      FieldsStep(vs, u);
      if v.None? {
        return None;
      }
      vs := vs + [v.value.0];
      value := SkipBlanks(v.value.1);
    }
    r := if Starts(value, RBRACE) then Some((ChainF(vs, NoField), value[1..])) else None;
  }

  lemma {:induction false} AllValuesRead(t: Text)
    ensures forall x, rest :: TreeOk(x) && Ends(rest) && t == Spell(x) + rest ==> Parse(t) == Some((Value(x), rest))
  {
    hide Parse, TreeOk, Spell, Value, Ends;
    forall x, rest | TreeOk(x) && Ends(rest) && t == Spell(x) + rest ensures Parse(t) == Some((Value(x), rest)) {
      Accepts(x, rest);
    }
  }

  /** `parse_value`: a text of the grammar is read to the value it denotes. */
  method ReadValue(t: Text) returns (r: Parsed<Json>)
    ensures r == Parse(t)
    ensures forall x, rest :: TreeOk(x) && Ends(rest) && t == Spell(x) + rest ==> r == Some((Value(x), rest))
    decreases |t|, 0
  {
    AllValuesRead(t);
    hide ParseItems, ParseFields, ParseString, ParseNumber, Skip, TreeOk, Spell, Value, Ends;
    if NULL_TEXT <= t {
      r := Some((Null, t[4..]));
    } else if FALSE_TEXT <= t {
      r := Some((Bool(false), t[5..]));
    } else if TRUE_TEXT <= t {
      r := Some((Bool(true), t[4..]));
    } else if Starts(t, QUOTE) {
      var s := ReadString(t);
      r := if s.None? then None else Some((Str(s.value.0), s.value.1));
    } else if t != [] && (t[0] == MINUS || IsDigit(t[0])) {
      r := ReadNumber(t);
    } else if Starts(t, LBRACKET) {
      var u := SkipBlanks(t[1..]);
      if Starts(u, RBRACKET) {
        return Some((Arr(NoItem), u[1..]));
      }
      u := SkipBlanks(u);
      var items := ReadItems(u);
      r := if items.None? then None else Some((Arr(items.value.0), items.value.1));
    } else if Starts(t, LBRACE) {
      var u := SkipBlanks(t[1..]);
      if Starts(u, RBRACE) {
        return Some((Obj(NoField), u[1..]));
      }
      u := SkipBlanks(u);
      var fields := ReadFields(u);
      r := if fields.None? then None else Some((Obj(fields.value.0), fields.value.1));
    } else {
      r := None;
    }
  }

  /**
   * `cJSON_Parse`: white space, a text of the grammar and whatever follows it give the value of the text. A
   * zero-free text that gives a value begins with such a text.
   */
  method ParseText(text: Text) returns (r: Option<Json>)
    ensures forall ws, x, rest :: White(ws) && TreeOk(x) && Ends(rest) && text == ws + (Spell(x) + rest) ==>
      r == Some(Value(x))
    ensures NulFree(text) && r.Some? ==> exists x, rest :: Reads(Skip(text), x, r.value, rest)
  {
    AllTextsRead(text);
    var v := SkipBlanks(text);
    var p := ReadValue(v);
    hide *;
    r := if p.None? then None else Some(p.value.0);
    if NulFree(text) && r.Some? {
      var ws := SkipSplit(text);
      var x := ParsedTextIsGrammar(Skip(text));
    }
  }

  lemma {:induction false} AllTextsRead(text: Text)
    ensures forall ws, x, rest :: White(ws) && TreeOk(x) && Ends(rest) && text == ws + (Spell(x) + rest) ==>
      Parse(Skip(text)) == Some((Value(x), rest))
  {
    hide Parse, TreeOk, Spell, Value, Ends, Skip, White;
    forall ws, x, rest | White(ws) && TreeOk(x) && Ends(rest) && text == ws + (Spell(x) + rest)
      ensures Parse(Skip(text)) == Some((Value(x), rest))
    {
      Accepts(x, rest);
      FirstByte(x);
      SkipTo(ws, Spell(x) + rest);
    }
  }
}
