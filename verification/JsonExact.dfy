/** The parser accepts nothing but the texts of the grammar. */
module JsonExact {
  import opened Common
  import opened Digits
  import opened Json
  import opened Utf8Text
  import opened JsonGrammar
  import opened JsonAccepts

  lemma {:induction false} SkipSplit(t: Text) returns (ws: Text)
    requires NulFree(t)
    ensures White(ws) && t == ws + Skip(t) && NulFree(Skip(t))
  {
    if t == [] || t[0] > 32 {
      ws := [];
    } else {
      ws := SkipSplit(t[1..]);
      ws := [t[0]] + ws;
    }
  }

  // ---- strings ----

  lemma {:induction false} HexFrom(t: Text)
    requires HasHex4(t)
    ensures IsHex4(t[..4]) && Hex4Of(t[..4]) == Hex4(t)
  {
    HexSame(t[0]);
    HexSame(t[1]);
    HexSame(t[2]);
    HexSame(t[3]);
    hide HexOf, HexValue, HexChar, IsHex;
  }

  /** What an escape is, as a piece of the grammar. */
  lemma {:induction false} EscapeFrom(t: Text) returns (p: Piece)
    requires NulFree(t) && Starts(t, BACKSLASH) && Unescape(t).Some?
    ensures var e := Unescape(t).value;
      && PieceOk(p) && !p.Plain? && PieceValue(p) == e.0 && PieceText(p) == t[..e.1]
      && (p.High? ==> !StartsU(t[e.1..]))
  {
    hide Utf8, Decode, Hex4, Hex4Of, HasHex4, IsHex4;
    if t[1] == 117 {
      p := UnitFrom(t);
    } else if t[1] == 98 {
      p := Short('b');
    } else if t[1] == 102 {
      p := Short('f');
    } else if t[1] == 110 {
      p := Short('n');
    } else if t[1] == 114 {
      p := Short('r');
    } else if t[1] == 116 {
      p := Short('t');
    } else {
      p := Other(t[1]);
    }
  }

  lemma {:induction false} UnitFrom(t: Text) returns (p: Piece)
    requires |t| >= 2 && t[0] == BACKSLASH && t[1] == 117 && UnescapeU(t).Some?
    ensures var e := UnescapeU(t).value;
      && PieceOk(p) && !p.Plain? && PieceValue(p) == e.0 && PieceText(p) == t[..e.1]
      && (p.High? ==> !StartsU(t[e.1..]))
  {
    hide Utf8, Decode, Hex4, Hex4Of, HasHex4, IsHex4;
    var hex := t[2..][..4];
    HexFrom(t[2..]);
    assert t[..6] == [BACKSLASH, 117] + hex;
    var uc := Hex4(t[2..]);
    if 0xDC00 <= uc <= 0xDFFF || uc == 0 {
      p := Lone(hex);
    } else if !(0xD800 <= uc <= 0xDBFF) {
      p := Unit(hex, Utf8(uc));
      EncodeDecode(uc);
    } else if |t| < 8 || t[6] != BACKSLASH || t[7] != 117 {
      p := High(hex);
    } else {
      p := PairFrom(t, hex, t[8..][..4]);
    }
  }

  lemma {:induction false} PairFrom(t: Text, hex: Text, low: Text) returns (p: Piece)
    requires |t| >= 8 && t[0] == BACKSLASH && t[1] == 117 && t[6] == BACKSLASH && t[7] == 117
    requires UnescapeU(t).Some? && IsHighHex(hex) && Hex4Of(hex) == Hex4(t[2..]) && hex == t[2..][..4]
    requires |t| >= 12 && low == t[8..][..4]
    ensures var e := UnescapeU(t).value;
      PieceOk(p) && (p.Pair? || p.Mismatched?) && PieceValue(p) == e.0 && PieceText(p) == t[..e.1]
  {
    hide Utf8, Decode, Hex4, Hex4Of, HasHex4, IsHex4;
    HexFrom(t[8..]);
    assert t[..12] == [BACKSLASH, 117] + hex + [BACKSLASH, 117] + low;
    if IsLowHex(low) {
      p := Pair(hex, low, Utf8(Paired(hex, low)));
      EncodeDecode(Paired(hex, low));
    } else {
      p := Mismatched(hex, low);
    }
  }

  /** A string body is a row of pieces up to the closing quote, or to the end of a text that has none. */
  lemma {:induction false} PiecesFrom(t: Text) returns (ps: seq<Piece>)
    requires NulFree(t) && ParseChars(t).Some?
    ensures var (s, rest) := ParseChars(t).value;
      && PiecesOk(ps) && PiecesValue(ps) == s && NulFree(rest)
      && (t == PiecesText(ps) + ([Code('"')] + rest) || (rest == [] && t == PiecesText(ps)))
    decreases |t|
  {
    hide PieceOk, PieceText, PieceValue, Unescape;
    if t == [] {
      ps := [];
    } else if t[0] == QUOTE {
      ps := [];
      assert t == [] + ([Code('"')] + t[1..]);
    } else if t[0] != BACKSLASH {
      var more := PiecesFrom(t[1..]);
      ps := [Plain(t[0])] + more;
      PlainFrom(t[0]);
      assert ps[1..] == more;
      assert t == [t[0]] + t[1..];
      Prefixed([t[0]], more, t, t[1..], ParseChars(t[1..]).value.1);
    } else {
      var p := EscapeFrom(t);
      var n := Unescape(t).value.1;
      var more := PiecesFrom(t[n..]);
      ps := [p] + more;
      assert ps[1..] == more;
      assert t == t[..n] + t[n..];
      if p.High? && |ps| > 1 { NextIsNoUnit(more, t[n..]); }
      Prefixed(t[..n], more, t, t[n..], ParseChars(t[n..]).value.1);
    }
  }

  lemma PlainFrom(b: Byte)
    requires b != 0 && b != QUOTE && b != BACKSLASH
    ensures PieceOk(Plain(b)) && PieceText(Plain(b)) == PieceValue(Plain(b)) == [b]
  {}

  lemma {:induction false} Prefixed(a: Text, more: seq<Piece>, t: Text, u: Text, rest: Text)
    requires PiecesOk(more) && t == a + u
    ensures u == PiecesText(more) + ([Code('"')] + rest) ==> t == (a + PiecesText(more)) + ([Code('"')] + rest)
    ensures u == PiecesText(more) ==> t == a + PiecesText(more)
  {
    hide PiecesText, PiecesOk;
  }

  lemma {:induction false} NextIsNoUnit(more: seq<Piece>, u: Text)
    requires PiecesOk(more) && more != [] && PiecesText(more) <= u && !StartsU(u)
    ensures PieceOk(more[0]) && !StartsU(PieceText(more[0]))
  {
    hide PieceOk;
    assert PieceText(more[0]) <= PiecesText(more);
  }

  lemma {:induction false} StringFrom(t: Text) returns (ps: seq<Piece>)
    requires NulFree(t) && ParseString(t).Some?
    ensures var (s, rest) := ParseString(t).value;
      && PiecesOk(ps) && PiecesValue(ps) == s && NulFree(rest)
      && (t == Quoted(ps) + rest || (rest == [] && t + [Code('"')] == Quoted(ps)))
  {
    hide ParseChars, PiecesText, PiecesOk, PiecesValue;
    ps := PiecesFrom(t[1..]);
    var rest := ParseString(t).value.1;
    assert t == [Code('"')] + t[1..];
    assert t[1..] == PiecesText(ps) + ([Code('"')] + rest) ==> t == Quoted(ps) + rest;
  }

  // ---- numbers ----

  lemma {:induction false} ScanFrom(acc: nat, t: Text) returns (ds: Text)
    requires NulFree(t)
    ensures var rest := Scan(acc, t).1; DigitChars(ds) && t == ds + rest && NoDigitFirst(rest) && NulFree(rest)
    ensures t != [] && IsDigit(t[0]) ==> ds != [] && ds[0] == t[0]
    decreases |t|
  {
    if t == [] || !IsDigit(t[0]) {
      ds := [];
    } else {
      var acc' := acc * 10 + (t[0] - 48);
      var more := ScanFrom(acc', t[1..]);
      assert Scan(acc, t) == Scan(acc', t[1..]);
      hide Scan;
      ds := [t[0]] + more;
      assert t == [t[0]] + t[1..];
    }
  }

  lemma {:induction false} DigitsFrom(t: Text) returns (ds: Text)
    requires NulFree(t)
    ensures var (n, rest) := if t != [] && 49 <= t[0] <= 57 then Scan(0, t) else (0, t);
      && DigitChars(ds) && t == ds + rest && NulFree(rest) && DecimalValue(ds) == n && (ds != [] ==> ds[0] != Code('0'))
      && (ds == [] ==> !(t != [] && 49 <= t[0] <= 57))
  {
    hide DecimalValue, Scan;
    if t != [] && 49 <= t[0] <= 57 {
      ds := ScanFrom(0, t);
      DigitsRead(ds, Scan(0, t).1);
    } else {
      ds := [];
      NoDigits(ds);
    }
  }

  lemma {:induction false} IntFrom(t: Text) returns (neg: bool, zero: bool, ds: Text)
    requires NulFree(t) && t != [] && (t[0] == MINUS || IsDigit(t[0]))
    ensures DigitChars(ds) && (ds != [] ==> ds[0] != Code('0')) && (neg || zero || ds != [])
    ensures var (n, rest) := ParseInt(t);
      && n == NumValue(neg, ds) && NulFree(rest)
      && t == (if neg then [Code('-')] else []) + ((if zero then [Code('0')] else []) + (ds + rest))
  {
    hide DecimalValue, Scan;
    neg := Starts(t, MINUS);
    var t1 := if neg then t[1..] else t;
    zero := Starts(t1, ZERO);
    var t2 := if zero then t1[1..] else t1;
    ds := DigitsFrom(t2);
    assert ParseInt(t).0 == NumValue(neg, ds) && t2 == ds + ParseInt(t).1;
    hide ParseInt, NumValue, DigitChars;
    if neg { assert t == [Code('-')] + t1; } else { assert t == [] + t1; }
    if zero { assert t1 == [Code('0')] + t2; } else { assert t1 == [] + t2; }
  }

  lemma {:induction false} NumberFrom(t: Text) returns (x: Tree)
    requires NulFree(t) && t != [] && (t[0] == MINUS || IsDigit(t[0])) && ParseNumber(t).Some?
    ensures var (v, rest) := ParseNumber(t).value;
      x.TNum? && TreeOk(x) && Value(x) == v && t == Spell(x) + rest && NulFree(rest)
  {
    hide DecimalValue, ParseInt;
    var neg, zero, ds := IntFrom(t);
    x := TNum(neg, zero, ds);
    var rest := ParseInt(t).1;
    var a, b: Text := if neg then [Code('-')] else [], if zero then [Code('0')] else [];
    assert a + (b + (ds + rest)) == (a + b + ds) + rest;
  }

  // ---- values ----

  /** t is the text of x up to rest; a string may lack its closing quote at the very end. */
  ghost predicate Reads(t: Text, x: Tree, v: Json, rest: Text) {
    && TreeOk(x) && Value(x) == v && NulFree(rest)
    && (t == Spell(x) + rest || (x.TStr? && rest == [] && t + [Code('"')] == Spell(x)))
  }

  /**
   * Whatever the parser accepts is a text of the grammar, and the tree it gives is the one that text denotes. The
   * one exception is a string that the end of the text leaves open.
   */
  lemma {:induction false} ParsedTextIsGrammar(t: Text) returns (x: Tree)
    requires NulFree(t) && Parse(t).Some?
    ensures Reads(t, x, Parse(t).value.0, Parse(t).value.1)
    decreases |t|, 1
  {
    hide ParseString, ParseNumber, ParseItems, ParseFields, Skip, PiecesOk, PiecesText, PiecesValue;
    if NULL_TEXT <= t {
      x := TNull;
      assert t == Spell(x) + t[4..];
    } else if FALSE_TEXT <= t {
      x := TFalse;
      assert t == Spell(x) + t[5..];
    } else if TRUE_TEXT <= t {
      x := TTrue;
      assert t == Spell(x) + t[4..];
    } else if Starts(t, QUOTE) {
      var ps := StringFrom(t);
      x := TStr(ps);
    } else if t[0] == MINUS || IsDigit(t[0]) {
      x := NumberFrom(t);
    } else if t[0] == LBRACKET {
      x := ArrayFrom(t);
    } else {
      x := ObjectFrom(t);
    }
  }

  lemma {:induction false} SkipTwice(t: Text)
    ensures Skip(Skip(t)) == Skip(t)
  {
    if t != [] && t[0] <= 32 { SkipTwice(t[1..]); }
  }

  /** What the parser does with an opening bracket or brace. */
  lemma {:induction false} Opened(t: Text)
    requires Starts(t, LBRACKET) || Starts(t, LBRACE)
    ensures var u := Skip(t[1..]);
      && (Starts(t, LBRACKET) ==>
            Parse(t) == (if Starts(u, RBRACKET) then Some((Arr(NoItem), u[1..]))
                         else if ParseItems(u).None? then None
                         else Some((Arr(ParseItems(u).value.0), ParseItems(u).value.1))))
      && (Starts(t, LBRACE) ==>
            Parse(t) == (if Starts(u, RBRACE) then Some((Obj(NoField), u[1..]))
                         else if ParseFields(u).None? then None
                         else Some((Obj(ParseFields(u).value.0), ParseFields(u).value.1))))
  {
    hide ParseItems, ParseFields, Skip, ParseString, ParseNumber;
    NoKeyword(t);
    SkipTwice(t[1..]);
  }

  lemma {:induction false} ArrayFrom(t: Text) returns (x: Tree)
    requires NulFree(t) && Starts(t, LBRACKET) && Parse(t).Some?
    ensures Reads(t, x, Parse(t).value.0, Parse(t).value.1)
    decreases |t|, 0
  {
    hide Parse, ParseItems, Skip, SpellItems, ItemsValue, ItemsOk;
    Opened(t);
    var gap := SkipSplit(t[1..]);
    var u := Skip(t[1..]);
    var rest := Parse(t).value.1;
    assert t == [Code('[')] + (gap + u);
    var items := TNoItem;
    if Starts(u, RBRACKET) {
      assert u == [] + ([Code(']')] + rest);
      NothingInside();
    } else {
      items := ItemsFrom(u);
    }
    x := TArr(gap, items);
    Regroup([Code('[')], gap, SpellItems(items), [Code(']')], rest);
  }

  lemma NothingInside()
    ensures ItemsOk(TNoItem) && SpellItems(TNoItem) == [] && ItemsValue(TNoItem) == NoItem
    ensures FieldsOk(TNoField) && SpellFields(TNoField) == [] && FieldsValue(TNoField) == NoField
  {}

  lemma Regroup(a: Text, b: Text, c: Text, d: Text, e: Text)
    ensures a + (b + (c + (d + e))) == (a + b + c + d) + e
  {}

  lemma {:induction false} ItemsFrom(t: Text) returns (xs: TItems)
    requires NulFree(t) && ParseItems(t).Some?
    ensures var (items, rest) := ParseItems(t).value;
      && xs.TItem? && ItemsOk(xs) && ItemsValue(xs) == items && NulFree(rest)
      && t == SpellItems(xs) + ([Code(']')] + rest)
    decreases |t|, 2
  {
    hide Parse, Skip, Spell, Value, TreeOk;
    var x := ParsedTextIsGrammar(t);
    var (v, after) := Parse(t).value;
    var ws := SkipSplit(after);
    var u := Skip(after);
    assert after != [];
    var rest := ParseItems(t).value.1;
    if Starts(u, COMMA) {
      var before := SkipSplit(u[1..]);
      assert u == [Code(',')] + (before + Skip(u[1..]));
      var next := ItemsFrom(Skip(u[1..]));
      xs := TItem(x, ws, before, next);
      InnerItem(Spell(x), ws, before, SpellItems(next), [Code(']')] + rest);
    } else {
      xs := TItem(x, ws, [], TNoItem);
      assert u == [Code(']')] + rest;
      assert t == Spell(x) + ws + [] + ([Code(']')] + rest);
    }
  }

  lemma InnerItem(e: Text, ws: Text, before: Text, more: Text, tail: Text)
    ensures e + (ws + ([COMMA] + (before + (more + tail)))) == (e + ws + ([COMMA] + before + more)) + tail
  {}

  lemma {:induction false} ObjectFrom(t: Text) returns (x: Tree)
    requires NulFree(t) && Starts(t, LBRACE) && Parse(t).Some?
    ensures Reads(t, x, Parse(t).value.0, Parse(t).value.1)
    decreases |t|, 0
  {
    hide Parse, ParseFields, Skip, SpellFields, FieldsValue, FieldsOk;
    Opened(t);
    var gap := SkipSplit(t[1..]);
    var u := Skip(t[1..]);
    var rest := Parse(t).value.1;
    assert t == [Code('{')] + (gap + u);
    var fields := TNoField;
    if Starts(u, RBRACE) {
      assert u == [] + ([Code('}')] + rest);
      NothingInside();
    } else {
      fields := FieldsFrom(u);
    }
    x := TObj(gap, fields);
    Regroup([Code('{')], gap, SpellFields(fields), [Code('}')], rest);
  }

  /** The name, the colon and the value of a field. */
  lemma {:induction false} FieldFrom(t: Text) returns (name: seq<Piece>, colon: Text, gap: Text, e: Text)
    requires NulFree(t) && ParseFields(t).Some?
    ensures PiecesOk(name) && White(colon) && White(gap) && NulFree(e)
    ensures t == Quoted(name) + colon + [Code(':')] + gap + e && |e| < |t|
    ensures Parse(e).Some? && ParseFields(t) ==
      (var v, w := Parse(e).value.0, Skip(Parse(e).value.1);
       if Starts(w, COMMA) then
         var r := ParseFields(Skip(w[1..]));
         if r.None? then None else Some((Field(PiecesValue(name), v, r.value.0), r.value.1))
       else if Starts(w, RBRACE) then Some((Field(PiecesValue(name), v, NoField), w[1..]))
       else None)
  {
    hide Parse, Skip, ParseString, PiecesOk, PiecesText, PiecesValue;
    name := StringFrom(t);
    var rest := ParseString(t).value.1;
    colon := SkipSplit(rest);
    var u := Skip(rest);
    assert rest != [];
    gap := SkipSplit(u[1..]);
    e := Skip(u[1..]);
    assert rest == colon + ([Code(':')] + (gap + e));
    assert t == Quoted(name) + colon + [Code(':')] + gap + e;
  }

  lemma {:induction false} FieldsFrom(t: Text) returns (xs: TFields)
    requires NulFree(t) && ParseFields(t).Some?
    ensures var (fields, rest) := ParseFields(t).value;
      && xs.TField? && FieldsOk(xs) && FieldsValue(xs) == fields && NulFree(rest)
      && t == SpellFields(xs) + ([Code('}')] + rest)
    decreases |t|, 2
  {
    hide Parse, ParseFields, Skip, Spell, Value, TreeOk, PiecesOk, PiecesValue, Quoted;
    var name, colon, gap, e := FieldFrom(t);
    var x := ParsedTextIsGrammar(e);
    var (v, after) := Parse(e).value;
    var ws := SkipSplit(after);
    var w := Skip(after);
    assert after != [];
    var rest := ParseFields(t).value.1;
    var head := Quoted(name) + colon + [Code(':')] + gap;
    if Starts(w, COMMA) {
      var before := SkipSplit(w[1..]);
      assert w == [Code(',')] + (before + Skip(w[1..]));
      var next := FieldsFrom(Skip(w[1..]));
      xs := TField(name, colon, gap, x, ws, before, next);
      InnerItem(head + Spell(x), ws, before, SpellFields(next), [Code('}')] + rest);
      assert t == head + Spell(x) + (ws + w);
    } else {
      xs := TField(name, colon, gap, x, ws, [], TNoField);
      assert w == [Code('}')] + rest;
      assert t == head + Spell(x) + ws + [] + ([Code('}')] + rest);
    }
  }

  /**
   * The language of the parser: a zero-free text is read to v with nothing left over exactly when it is the text of
   * a grammar tree that denotes v, or would be if its last string were closed.
   */
  lemma {:induction false} ParsesIff(t: Text, v: Json)
    requires NulFree(t)
    ensures Parse(t) == Some((v, [])) <==>
      exists x :: TreeOk(x) && Value(x) == v && (Spell(x) == t || (x.TStr? && Spell(x) == t + [Code('"')]))
  {
    hide Parse, Spell, Value, TreeOk;
    if Parse(t) == Some((v, [])) {
      var x := ParsedTextIsGrammar(t);
      assert Spell(x) + [] == Spell(x);
    }
    if x :| TreeOk(x) && Value(x) == v && (Spell(x) == t || (x.TStr? && Spell(x) == t + [Code('"')])) {
      if Spell(x) == t {
        Accepts(x, []);
        assert Spell(x) + [] == Spell(x);
      } else {
        OpenStringRead(t, x);
      }
    }
  }

  lemma {:induction false} OpenStringRead(t: Text, x: Tree)
    requires TreeOk(x) && x.TStr? && Spell(x) == t + [Code('"')]
    ensures Parse(t) == Some((Value(x), []))
  {
    hide ParseChars, PiecesText, PiecesOk, PiecesValue;
    var body := PiecesText(x.pieces);
    assert Spell(x) == ([Code('"')] + body) + [Code('"')];
    assert t == Spell(x)[..|t|] == [Code('"')] + body;
    PiecesRead(x.pieces, []);
    assert t[1..] == body == body + [];
    NoKeyword(t);
  }
}
