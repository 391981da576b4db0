/** Parsing undoes printing, for both layouts, because both sides are texts of one grammar. */
module JsonRoundTrip {
  import opened Common
  import opened Digits
  import opened Json
  import opened Utf8Text
  import opened JsonGrammar
  import opened JsonAccepts
  import opened JsonLayout
  import opened JsonExact

  /** The escapes that the printer writes are undone exactly. */
  lemma {:induction false} CharsRoundTrip(s: Text, rest: Text)
    requires NulFree(s)
    ensures ParseChars(Escaped(s) + ([QUOTE] + rest)) == Some((s, rest))
  {
    hide ParseChars, Escaped, PiecesOk, PiecesText, PiecesValue;
    StringLayout(s);
    PiecesRead(PiecesOf(s), [QUOTE] + rest);
    assert ([QUOTE] + rest)[1..] == rest;
  }

  /** A printed integer, of any size, is read back up to the first byte that cannot belong to it. */
  lemma {:induction false} IntRoundTrip(n: int, rest: Text)
    requires JsonAccepts.Ends(rest)
    ensures ParseInt(PrintInt(n) + rest) == (n, rest)
  {
    hide Decimal, ParseInt, DecimalValue;
    var m: nat := if n < 0 then -n else n;
    DecimalDenotes(m);
    if n == 0 {
      ZeroText();
      UnsignedRead(true, [], rest);
      JsonLayout.NoDigits();
      assert [Code('0')] + [] + rest == PrintInt(n) + rest;
    } else {
      UnsignedRead(false, Decimal(m), rest);
      assert [] + Decimal(m) + rest == Decimal(m) + rest;
      if n < 0 {
        SignRead(Decimal(m) + rest);
        assert PrintInt(n) + rest == [MINUS] + (Decimal(m) + rest);
      }
    }
  }

  lemma {:induction false} ValueRoundTrip(v: Json, depth: nat, fmt: bool, rest: Text)
    requires WellFormed(v) && JsonAccepts.Ends(rest)
    ensures Parse(Print(v, depth, fmt) + rest) == Some((v, rest))
  {
    hide Parse, Print, Spell, Value, TreeOk, Layout, Strict;
    PrintedTextIsJson(v, depth, fmt);
    Accepts(Layout(v, depth, fmt), rest);
  }

  /** `cJSON_Parse` of the text of `cJSON_Print` or `cJSON_PrintUnformatted` gives the tree back. */
  lemma {:induction false} PrintThenParse(v: Json, fmt: bool)
    requires WellFormed(v)
    ensures Parse(Skip(Print(v, 0, fmt))) == Some((v, []))
  {
    hide Parse, Print, Spell, Value, TreeOk, Layout, Strict;
    PrintedTextIsJson(v, 0, fmt);
    ValueRoundTrip(v, 0, fmt, []);
    FirstByte(Layout(v, 0, fmt));
    var t := Print(v, 0, fmt);
    SkipTo([], t);
    assert [] + t == t == t + [];
  }

  /** Different trees have different texts, formatted or not. */
  lemma {:induction false} PrintIsInjective(v: Json, w: Json, fmt: bool)
    requires WellFormed(v) && WellFormed(w) && Print(v, 0, fmt) == Print(w, 0, fmt)
    ensures v == w
  {
    hide Parse, Print, WellFormed;
    PrintThenParse(v, fmt);
    PrintThenParse(w, fmt);
  }

  // ---- every parsed tree can be printed ----

  lemma {:induction false} PiecesNulFree(ps: seq<Piece>)
    requires PiecesOk(ps)
    ensures NulFree(PiecesValue(ps))
    decreases |ps|
  {
    hide Hex4Of, IsHex4;
    if ps != [] {
      PiecesNulFree(ps[1..]);
      assert NulFree(PieceValue(ps[0]));
    }
  }

  lemma {:induction false} DenotedWellFormed(x: Tree)
    requires TreeOk(x)
    ensures WellFormed(Value(x))
    decreases x, 2
  {
    hide PiecesOk, PiecesValue, DecimalValue;
    match x
    case TStr(ps) => PiecesNulFree(ps);
    case TArr(_, items) => ItemsDenoted(items);
    case TObj(_, fields) => FieldsDenoted(fields);
    case _ =>
  }

  lemma {:induction false} ItemsDenoted(xs: TItems)
    requires ItemsOk(xs)
    ensures ItemsWellFormed(ItemsValue(xs))
    decreases xs, 1
  {
    hide TreeOk, Value, WellFormed;
    if xs.TItem? {
      DenotedWellFormed(xs.value);
      ItemsDenoted(xs.next);
    }
  }

  lemma {:induction false} FieldsDenoted(xs: TFields)
    requires FieldsOk(xs)
    ensures FieldsWellFormed(FieldsValue(xs))
    decreases xs, 1
  {
    hide TreeOk, Value, WellFormed, PiecesOk, PiecesValue;
    if xs.TField? {
      PiecesNulFree(xs.name);
      DenotedWellFormed(xs.value);
      FieldsDenoted(xs.next);
    }
  }

  /** Whatever a zero-free text parses to is a tree of the model: zero-free strings and 32-bit integers. */
  lemma {:induction false} ParseWellFormed(t: Text)
    requires NulFree(t) && Parse(t).Some?
    ensures WellFormed(Parse(t).value.0) && NulFree(Parse(t).value.1)
  {
    hide Parse, TreeOk, Value, WellFormed, Spell;
    var x := ParsedTextIsGrammar(t);
    DenotedWellFormed(x);
  }

  /** Parsing, printing in either layout and parsing again is parsing once. */
  lemma {:induction false} ParsePrintParse(t: Text, fmt: bool)
    requires NulFree(t) && Parse(Skip(t)).Some?
    ensures var v := Parse(Skip(t)).value.0; Parse(Skip(Print(v, 0, fmt))) == Some((v, []))
  {
    hide Parse, Print, WellFormed, Skip;
    var ws := SkipSplit(t);
    ParseWellFormed(Skip(t));
    PrintThenParse(Parse(Skip(t)).value.0, fmt);
  }
}
