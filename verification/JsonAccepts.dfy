/** The parser reads every text of the grammar to the tree it denotes. */
module JsonAccepts {
  import opened Common
  import opened Digits
  import opened Json
  import opened Utf8Text
  import opened JsonGrammar

  /** What may follow a number without becoming part of it. */
  predicate Ends(rest: Text) {
    rest == [] || !(IsDigit(rest[0]) || rest[0] == Code('.') || rest[0] == Code('e') || rest[0] == Code('E'))
  }

  // ---- white space ----

  lemma {:induction false} SkipWhite(ws: Text, t: Text)
    requires White(ws)
    ensures Skip(ws + t) == Skip(t)
    decreases |ws|
  {
    if ws == [] {
      assert ws + t == t;
    } else {
      assert (ws + t)[1..] == ws[1..] + t;
      SkipWhite(ws[1..], t);
    }
  }

  /** White space before a byte that is none is skipped exactly. */
  lemma {:induction false} SkipTo(ws: Text, t: Text)
    requires White(ws) && t != [] && t[0] > Code(' ')
    ensures Skip(ws + t) == t && Skip(t) == t
  {
    SkipWhite(ws, t);
  }

  // ---- strings ----

  lemma {:induction false} HexAgree(t: Text, rest: Text)
    requires IsHex4(t)
    ensures HasHex4(t + rest) && Hex4(t + rest) == Hex4Of(t)
  {
    assert (t + rest)[0] == t[0] && (t + rest)[1] == t[1] && (t + rest)[2] == t[2] && (t + rest)[3] == t[3];
    HexSame(t[0]);
    HexSame(t[1]);
    HexSame(t[2]);
    HexSame(t[3]);
    hide HexOf, HexValue, HexChar, IsHex;
  }

  lemma HexSame(b: Byte)
    ensures HexChar(b) <==> IsHex(b)
    ensures HexChar(b) ==> HexOf(b) == HexValue(b)
  {}

  /** A piece that is not a plain byte is read as the escape it is. */
  lemma {:induction false} EscapeRead(p: Piece, rest: Text)
    requires PieceOk(p) && !p.Plain? && (p.High? ==> !StartsU(rest))
    ensures var t := PieceText(p) + rest;
      Starts(t, BACKSLASH) && Unescape(t) == Some((PieceValue(p), |PieceText(p)|))
  {
    hide Utf8, Decode, Hex4, Hex4Of, HasHex4, IsHex4;
    if !p.Short? && !p.Other? { UnitRead(p, rest); }
  }

  lemma {:induction false} UnitRead(p: Piece, rest: Text)
    requires PieceOk(p) && !p.Plain? && !p.Short? && !p.Other? && (p.High? ==> !StartsU(rest))
    ensures UnescapeU(PieceText(p) + rest) == Some((PieceValue(p), |PieceText(p)|))
  {
    hide Utf8, Decode, Hex4, Hex4Of, HasHex4, IsHex4;
    HexSize(p.hex);
    var t := PieceText(p) + rest;
    var more := t[6..];
    HexAgree(p.hex, more);
    assert t[2..] == p.hex + more;
    if p.Unit? { DecodeEncode(p.utf8, Hex4Of(p.hex)); }
    if p.Pair? || p.Mismatched? {
      var low := if p.Pair? then p.low else p.other;
      HexSize(low);
      HexAgree(low, rest);
      assert t[8..] == low + rest;
      if p.Pair? { PairRead(p); }
    }
    if p.High? { assert more == rest; }
  }

  lemma HexSize(t: Text)
    requires IsHex4(t)
    ensures |t| == 4
  {}

  lemma {:induction false} PairRead(p: Piece)
    requires PieceOk(p) && p.Pair?
    ensures Hex4Of(p.hex) % 0x400 == Hex4Of(p.hex) - 0xD800 && Hex4Of(p.low) % 0x400 == Hex4Of(p.low) - 0xDC00
    ensures Utf8(0x10000 + (Hex4Of(p.hex) % 0x400) * 0x400 + Hex4Of(p.low) % 0x400) == p.utf8
  {
    hide Utf8, Decode, Hex4Of, IsHex4;
    DecodeEncode(p.utf8, Paired(p.hex, p.low));
  }

  /** A row of pieces is read up to the quote that closes it, or to the end of the text. */
  lemma {:induction false} PiecesRead(ps: seq<Piece>, tail: Text)
    requires PiecesOk(ps) && (tail == [] || tail[0] == Code('"'))
    ensures ParseChars(PiecesText(ps) + tail) == Some((PiecesValue(ps), if tail == [] then [] else tail[1..]))
    decreases |ps|
  {
    hide PieceOk, PieceText, PieceValue, Unescape;
    if ps == [] {
      assert [] + tail == tail;
    } else {
      var p, more := PieceText(ps[0]), PiecesText(ps[1..]) + tail;
      var t := PiecesText(ps) + tail;
      assert t == p + more;
      PiecesRead(ps[1..], tail);
      if ps[0].Plain? {
        PlainText(ps[0]);
        assert t[1..] == more;
      } else {
        if ps[0].High? { NoUnitFollows(ps, tail); }
        EscapeRead(ps[0], more);
        assert t[|p|..] == more;
      }
    }
  }

  lemma PlainText(p: Piece)
    requires PieceOk(p) && p.Plain?
    ensures PieceText(p) == PieceValue(p) == [p.b] && p.b != QUOTE && p.b != BACKSLASH
  {}

  lemma {:induction false} NoUnitFollows(ps: seq<Piece>, tail: Text)
    requires PiecesOk(ps) && ps != [] && ps[0].High? && (tail == [] || tail[0] == Code('"'))
    ensures !StartsU(PiecesText(ps[1..]) + tail)
  {
    hide IsHex4, Hex4Of, Decode;
    if |ps| > 1 {
      assert ps[1..][0] == ps[1];
      var t := PieceText(ps[1]);
      assert |t| >= 1 && (|t| == 1 ==> t[0] != Code('\\'));
    }
  }

  lemma {:induction false} StringRead(ps: seq<Piece>, rest: Text)
    requires PiecesOk(ps)
    ensures ParseString(Quoted(ps) + rest) == Some((PiecesValue(ps), rest))
  {
    hide ParseChars, PiecesText, PiecesOk;
    PiecesRead(ps, [Code('"')] + rest);
    assert ([Code('"')] + rest)[1..] == rest;
    assert (Quoted(ps) + rest)[1..] == PiecesText(ps) + ([Code('"')] + rest);
  }

  // ---- numbers ----

  lemma {:induction false} DigitsRead(ds: Text, rest: Text)
    requires DigitChars(ds) && NoDigitFirst(rest)
    ensures Scan(0, ds + rest) == (DecimalValue(ds), rest)
    decreases |ds|
  {
    if ds == [] {
      assert ds + rest == rest;
    } else {
      var n := |ds| - 1;
      DigitsRead(ds[..n], []);
      assert ds[..n] + [] == ds[..n];
      assert ds + rest == ds[..n] + ([48 + (ds[n] - 48)] + rest);
      ScanMore(ds[..n], DecimalValue(ds[..n]), ds[n] - 48, rest);
    }
  }

  /** Without a sign: one zero that is passed over, then digits. */
  lemma {:induction false} UnsignedRead(zero: bool, digits: Text, rest: Text)
    requires DigitChars(digits) && (digits != [] ==> digits[0] != Code('0')) && Ends(rest)
    requires zero || digits != [] || !Starts(rest, MINUS)
    ensures ParseInt((if zero then [Code('0')] else []) + digits + rest) == (DecimalValue(digits), rest)
  {
    hide Scan, DecimalValue;
    var t := (if zero then [Code('0')] else []) + digits + rest;
    if zero { assert t[1..] == digits + rest; } else { assert t == digits + rest; }
    DigitsRead(digits, rest);
    if digits == [] {
      NoDigits(digits);
      assert digits + rest == rest;
    }
  }

  /** A bare sign is read as zero. */
  lemma {:induction false} SignRead(t: Text)
    ensures ParseInt([MINUS] + t).1 == (if Starts(t, MINUS) then t else ParseInt(t).1)
    ensures ParseInt([MINUS] + t).0 == (if Starts(t, MINUS) then 0 else -ParseInt(t).0)
  {
    hide Scan;
    assert ([MINUS] + t)[1..] == t;
  }

  lemma {:induction false} NumberRead(neg: bool, zero: bool, digits: Text, rest: Text)
    requires NumOk(neg, zero, digits) && Ends(rest)
    ensures ParseNumber(Spell(TNum(neg, zero, digits)) + rest) == Some((Num(NumValue(neg, digits)), rest))
  {
    hide ParseInt, DecimalValue, DigitChars;
    var t := Spell(TNum(neg, zero, digits)) + rest;
    var u := (if zero then [Code('0')] else []) + digits + rest;
    NumberText(neg, zero, digits, rest);
    if neg { SignRead(u); } else { assert [] + u == u; }
    if !zero && digits == [] && Starts(rest, MINUS) {
      assert u == rest;
      NoDigits(digits);
    } else {
      UnsignedRead(zero, digits, rest);
      SignLess(zero, digits, rest);
    }
  }

  lemma {:induction false} NumberText(neg: bool, zero: bool, digits: Text, rest: Text)
    requires NumOk(neg, zero, digits)
    ensures Spell(TNum(neg, zero, digits)) + rest ==
      (if neg then [MINUS] else []) + ((if zero then [Code('0')] else []) + digits + rest)
  {
    hide DecimalValue;
  }

  lemma SignLess(zero: bool, digits: Text, rest: Text)
    requires DigitChars(digits) && (zero || digits != [] || !Starts(rest, MINUS))
    ensures !Starts((if zero then [Code('0')] else []) + digits + rest, MINUS)
  {
    var head := if zero then [Code('0')] else [];
    assert digits == [] ==> head + digits + rest == head + rest;
  }

  lemma NoDigits(ds: Text)
    requires ds == []
    ensures DecimalValue(ds) == 0
  {}

  // ---- values ----

  lemma {:induction false} FirstByte(x: Tree)
    requires TreeOk(x)
    ensures var t := Spell(x);
      |t| >= 1 && t[0] > Code(' ') && t[0] != Code(']') && t[0] != Code('}') && t[0] != Code(',')
  {
    hide PiecesText, SpellItems, SpellFields, PiecesOk, ItemsOk, FieldsOk;
  }

  lemma {:induction false} NoKeyword(t: Text)
    requires t != [] && t[0] != Code('n') && t[0] != Code('t') && t[0] != Code('f')
    ensures !(NULL_TEXT <= t) && !(FALSE_TEXT <= t) && !(TRUE_TEXT <= t)
  {
    assert NULL_TEXT[0] == 110 && FALSE_TEXT[0] == 102 && TRUE_TEXT[0] == 116;
  }

  lemma {:induction false} KeywordRead(x: Tree, rest: Text)
    requires x.TNull? || x.TTrue? || x.TFalse?
    ensures Parse(Spell(x) + rest) == Some((Value(x), rest))
  {
    var t := Spell(x) + rest;
    assert t[|Spell(x)|..] == rest;
    if x.TTrue? { assert t[0] == 116; }
    if x.TFalse? { assert t[0] == 102; }
  }

  lemma {:induction false} ScalarRead(x: Tree, rest: Text)
    requires TreeOk(x) && (x.TNum? || x.TStr?) && Ends(rest)
    ensures Parse(Spell(x) + rest) == Some((Value(x), rest))
  {
    hide ParseString, ParseNumber, PiecesOk, PiecesText, DecimalValue;
    var t := Spell(x) + rest;
    match x
    case TNum(neg, zero, digits) =>
      NumberRead(neg, zero, digits, rest);
      NoKeyword(t);
    case TStr(ps) =>
      StringRead(ps, rest);
      NoKeyword(t);
  }

  /** A bracketed text, given what its inside is read to. */
  lemma {:induction false} ArrayRead(gap: Text, body: Text, items: Items, rest: Text)
    requires White(gap)
    requires items.NoItem? ==> body == []
    requires items.Item? ==>
      && |body| >= 1 && body[0] > Code(' ') && body[0] != Code(']')
      && ParseItems(body + ([Code(']')] + rest)) == Some((items, rest))
    ensures Parse([Code('[')] + gap + body + [Code(']')] + rest) == Some((Arr(items), rest))
  {
    hide ParseItems, Skip;
    var t := [Code('[')] + gap + body + [Code(']')] + rest;
    var u := body + ([Code(']')] + rest);
    assert t[0] == 91 && t[1..] == gap + u;
    NoKeyword(t);
    SkipTo(gap, u);
    if items.NoItem? { assert u == [Code(']')] + rest && u[1..] == rest; }
  }

  lemma {:induction false} ObjectRead(gap: Text, body: Text, fields: Fields, rest: Text)
    requires White(gap)
    requires fields.NoField? ==> body == []
    requires fields.Field? ==>
      |body| >= 1 && body[0] == Code('"') && ParseFields(body + ([Code('}')] + rest)) == Some((fields, rest))
    ensures Parse([Code('{')] + gap + body + [Code('}')] + rest) == Some((Obj(fields), rest))
  {
    hide ParseFields, Skip;
    var t := [Code('{')] + gap + body + [Code('}')] + rest;
    var u := body + ([Code('}')] + rest);
    assert t[0] == 123 && t[1..] == gap + u;
    NoKeyword(t);
    SkipTo(gap, u);
    if fields.NoField? { assert u == [Code('}')] + rest && u[1..] == rest; }
  }

  /**
   * Whatever white space stands between two tokens, however a string is escaped and a number written: the parser
   * reads the text to the tree it denotes and stops right behind it.
   */
  lemma {:induction false} Accepts(x: Tree, rest: Text)
    requires TreeOk(x) && Ends(rest)
    ensures Parse(Spell(x) + rest) == Some((Value(x), rest))
    decreases x, 2
  {
    hide Parse, ParseItems, ParseFields, SpellItems, SpellFields, ItemsValue, FieldsValue, PiecesOk;
    match x
    case TArr(gap, items) =>
      if items.TItem? { ItemsRead(items, rest); }
      ItemsFirst(items);
      ArrayRead(gap, SpellItems(items), ItemsValue(items), rest);
    case TObj(gap, fields) =>
      if fields.TField? { FieldsRead(fields, rest); }
      FieldsFirst(fields);
      ObjectRead(gap, SpellFields(fields), FieldsValue(fields), rest);
    case TNum(_, _, _) => ScalarRead(x, rest);
    case TStr(_) => ScalarRead(x, rest);
    case _ => KeywordRead(x, rest);
  }

  lemma {:induction false} ItemsFirst(xs: TItems)
    requires ItemsOk(xs)
    ensures ItemsValue(xs).NoItem? <==> xs.TNoItem?
    ensures var t := SpellItems(xs);
      if xs.TNoItem? then t == [] else |t| >= 1 && t[0] > Code(' ') && t[0] != Code(']')
  {
    hide Spell, Value;
    if xs.TItem? { FirstByte(xs.value); }
  }

  lemma {:induction false} FieldsFirst(xs: TFields)
    requires FieldsOk(xs)
    ensures FieldsValue(xs).NoField? <==> xs.TNoField?
    ensures var t := SpellFields(xs); if xs.TNoField? then t == [] else |t| >= 1 && t[0] == Code('"')
  {
    hide Spell, Value, PiecesText, PiecesOk;
  }

  lemma {:induction false} WhiteEnds(ws: Text, c: Byte, rest: Text)
    requires White(ws) && (c == Code(',') || c == Code(']') || c == Code('}'))
    ensures Ends(ws + ([c] + rest)) && Skip(ws + ([c] + rest)) == [c] + rest && ([c] + rest)[1..] == rest
  {
    SkipTo(ws, [c] + rest);
  }

  lemma {:induction false} ItemsRead(xs: TItems, rest: Text)
    requires xs.TItem? && ItemsOk(xs)
    ensures ParseItems(SpellItems(xs) + ([Code(']')] + rest)) == Some((ItemsValue(xs), rest))
    decreases xs, 1
  {
    hide Parse, Spell, Value, Skip;
    var e, after := Spell(xs.value), xs.after;
    var t := SpellItems(xs) + ([Code(']')] + rest);
    if xs.next.TNoItem? {
      var tail := after + ([Code(']')] + rest);
      WhiteEnds(after, Code(']'), rest);
      Accepts(xs.value, tail);
      assert t == e + tail;
    } else {
      var more := SpellItems(xs.next) + ([Code(']')] + rest);
      var tail := after + ([Code(',')] + (xs.before + more));
      WhiteEnds(after, Code(','), xs.before + more);
      Accepts(xs.value, tail);
      assert t == e + tail;
      ItemsFirst(xs.next);
      SkipTo(xs.before, more);
      ItemsRead(xs.next, rest);
    }
  }

  /** One field, given that its value and what follows it are read. */
  lemma {:induction false} OneField(xs: TFields, e: Text, tail: Text, more: Parsed<Fields>)
    requires xs.TField? && PiecesOk(xs.name) && White(xs.colon) && White(xs.gap)
    requires TreeOk(xs.value) && |e| >= 1 && e[0] > Code(' ') && Parse(e + tail) == Some((Value(xs.value), tail))
    requires more ==
      (var w := Skip(tail);
       if Starts(w, COMMA) then ParseFields(Skip(w[1..]))
       else if Starts(w, RBRACE) then Some((NoField, w[1..]))
       else None)
    ensures ParseFields(Quoted(xs.name) + xs.colon + [Code(':')] + xs.gap + e + tail) ==
      if more.None? then None else Some((Field(PiecesValue(xs.name), Value(xs.value), more.value.0), more.value.1))
  {
    hide Parse, ParseString, Value, Quoted, PiecesOk, PiecesValue, TreeOk;
    var t := Quoted(xs.name) + xs.colon + [Code(':')] + xs.gap + e + tail;
    var u := [Code(':')] + (xs.gap + (e + tail));
    assert t == Quoted(xs.name) + (xs.colon + u);
    StringRead(xs.name, xs.colon + u);
    SkipTo(xs.colon, u);
    assert u[1..] == xs.gap + (e + tail);
    SkipTo(xs.gap, e + tail);
  }

  lemma {:induction false} FieldsText(xs: TFields, rest: Text)
    requires xs.TField? && FieldsOk(xs)
    ensures var tail := xs.after +
        (if xs.next.TNoField? then [Code('}')] + rest
         else [Code(',')] + (xs.before + (SpellFields(xs.next) + ([Code('}')] + rest))));
      SpellFields(xs) + ([Code('}')] + rest)
        == Quoted(xs.name) + xs.colon + [Code(':')] + xs.gap + Spell(xs.value) + tail
  {
    hide Spell, Quoted, PiecesOk, TreeOk;
  }

  lemma {:induction false} FieldsRead(xs: TFields, rest: Text)
    requires xs.TField? && FieldsOk(xs)
    ensures ParseFields(SpellFields(xs) + ([Code('}')] + rest)) == Some((FieldsValue(xs), rest))
    decreases xs, 1
  {
    hide Parse, ParseFields, Spell, Value, Skip, SpellFields, Quoted, PiecesOk, TreeOk;
    var e := Spell(xs.value);
    var close := [Code('}')] + rest;
    FieldsText(xs, rest);
    FirstByte(xs.value);
    if xs.next.TNoField? {
      var tail := xs.after + close;
      WhiteEnds(xs.after, Code('}'), rest);
      Accepts(xs.value, tail);
      OneField(xs, e, tail, Some((NoField, rest)));
    } else {
      var more := SpellFields(xs.next) + close;
      var tail := xs.after + ([Code(',')] + (xs.before + more));
      WhiteEnds(xs.after, Code(','), xs.before + more);
      Accepts(xs.value, tail);
      FieldsFirst(xs.next);
      SkipTo(xs.before, more);
      FieldsRead(xs.next, rest);
      OneField(xs, e, tail, ParseFields(more));
    }
  }
}
