/** The text cJSON prints, as a tree of the grammar: the formatted and the unformatted layout of a value. */
module JsonLayout {
  import opened Common
  import opened Digits
  import opened Json
  import opened Utf8Text
  import opened JsonGrammar

  // ---- strings ----

  function HexLetter(d: nat): (b: Byte)
    requires d < 16
    ensures HexChar(b) && HexOf(b) == d
  {
    if d < 10 then Code('0') + d else Code('a') + (d - 10)
  }

  /** How the printer writes one byte: short escapes for the usual control characters, \u00xx for the others. */
  function PieceOf(b: Byte): (p: Piece)
    requires b != 0
    ensures PieceOk(p) && PieceValue(p) == [b] && !p.High?
    ensures p.Short? || p.Unit? || (p.Plain? && p.b >= 0x20)
  {
    if b == Code('"') then Short('"')
    else if b == Code('\\') then Short('\\')
    else if b == 0x08 then Short('b')
    else if b == 0x0C then Short('f')
    else if b == 0x0A then Short('n')
    else if b == 0x0D then Short('r')
    else if b == 0x09 then Short('t')
    else if b < 0x20 then Unit([Code('0'), Code('0'), HexLetter(b / 16), HexLetter(b % 16)], [b])
    else Plain(b)
  }

  lemma {:induction false} EscapeIsPiece(b: Byte)
    requires b != 0
    ensures Escape(b) == PieceText(PieceOf(b))
  {
  }

  function PiecesOf(s: Text): (ps: seq<Piece>)
    requires NulFree(s)
    ensures |ps| == |s| && forall i :: 0 <= i < |s| ==> ps[i] == PieceOf(s[i])
  {
    if s == [] then [] else [PieceOf(s[0])] + PiecesOf(s[1..])
  }

  lemma {:induction false} StringLayout(s: Text)
    requires NulFree(s)
    ensures PiecesOk(PiecesOf(s)) && StrictPieces(PiecesOf(s)) && PiecesValue(PiecesOf(s)) == s
    ensures PiecesText(PiecesOf(s)) == Escaped(s)
    decreases |s|
  {
    hide Escape, PieceOf, PieceOk, PieceText, PieceValue;
    if s != [] {
      var ps := PiecesOf(s);
      assert ps[1..] == PiecesOf(s[1..]);
      StringLayout(s[1..]);
      EscapeIsPiece(s[0]);
    }
  }

  // ---- numbers ----

  function NumberOf(n: int): Tree {
    TNum(n < 0, n == 0, if n == 0 then [] else Decimal(if n < 0 then -n else n))
  }

  lemma {:induction false} NumberLayout(n: int)
    requires InInt(n)
    ensures var x := NumberOf(n); TreeOk(x) && Strict(x) && Value(x) == Num(n) && Spell(x) == PrintInt(n)
  {
    hide Decimal, DecimalValue;
    DecimalDenotes(if n < 0 then -n else n);
    if n == 0 {
      assert PrintInt(0) == [Code('0')] by { ZeroText(); }
      assert DecimalValue([]) == 0 by { NoDigits(); }
    }
  }

  lemma ZeroText()
    ensures Decimal(0) == [48]
  {}

  lemma NoDigits()
    ensures DecimalValue([]) == 0
  {}

  // ---- white space ----

  function TabChars(n: int): (t: Text)
    ensures forall i :: 0 <= i < |t| ==> t[i] == Code('\t')
    ensures t == Tabs(n)
  {
    if n <= 0 then [] else [Code('\t')] + TabChars(n - 1)
  }

  /** In formatted output, a new line and its indentation. */
  function Line(fmt: bool, n: int): (t: Text)
    ensures White(t) && StrictWhite(t)
  {
    if fmt then [Code('\n')] + TabChars(n) else []
  }

  function Gap(fmt: bool, c: char): (t: Text)
    requires c == ' ' || c == '\t'
    ensures White(t) && StrictWhite(t)
  {
    if fmt then [Code(c)] else []
  }

  // ---- values ----

  /**
   * The layout of a value at a nesting depth: array entries on one line with a space after the comma; fields on
   * lines of their own, indented by tabs, with a tab after the colon. Unformatted output has no white space at all.
   */
  function Layout(v: Json, depth: nat, fmt: bool): Tree
    requires WellFormed(v)
    decreases v
  {
    match v
    case Null => TNull
    case Bool(b) => if b then TTrue else TFalse
    case Num(n) => NumberOf(n)
    case Str(s) => TStr(PiecesOf(s))
    case Arr(items) => TArr([], LayoutItems(items, depth + 1, fmt))
    case Obj(fields) =>
      TObj(Line(fmt, if fields.NoField? then depth - 1 else depth + 1), LayoutFields(fields, depth + 1, fmt))
  }

  function LayoutItems(items: Items, depth: nat, fmt: bool): TItems
    requires ItemsWellFormed(items)
    decreases items
  {
    match items
    case NoItem => TNoItem
    case Item(v, next) => TItem(Layout(v, depth, fmt), [], Gap(fmt, ' '), LayoutItems(next, depth, fmt))
  }

  function LayoutFields(fields: Fields, depth: nat, fmt: bool): TFields
    requires FieldsWellFormed(fields)
    decreases fields
  {
    match fields
    case NoField => TNoField
    case Field(name, v, next) =>
      TField(PiecesOf(name), [], Gap(fmt, '\t'), Layout(v, depth, fmt),
             if next.NoField? then Line(fmt, depth - 1) else [], Line(fmt, depth), LayoutFields(next, depth, fmt))
  }

  /** Every value has one text per layout; it is JSON by the standard, denotes the value, and is what is printed. */
  lemma {:induction false} PrintedTextIsJson(v: Json, depth: nat, fmt: bool)
    requires WellFormed(v)
    ensures var x := Layout(v, depth, fmt);
      TreeOk(x) && Strict(x) && Value(x) == v && Spell(x) == Print(v, depth, fmt)
    decreases v, 2
  {
    hide PrintItems, PrintFields, JoinItems, JoinFields, LayoutItems, LayoutFields, ItemsOk, FieldsOk, StrictItems;
    hide StrictFields, SpellItems, SpellFields, ItemsValue, FieldsValue, Decimal, Escaped, PiecesOk, PiecesText, Tabs;
    hide PiecesValue, NumberOf;
    match v
    case Null =>
    case Bool(_) =>
    case Num(n) => NumberLayout(n);
    case Str(s) => StringLayout(s);
    case Arr(items) => PrintedItems(items, depth + 1, fmt);
    case Obj(fields) =>
      PrintedFields(fields, depth + 1, fmt);
      if fields.NoField? { NoFieldsText(depth + 1, fmt); }
      ObjectText(v, depth, fmt, SpellFields(LayoutFields(fields, depth + 1, fmt)));
  }

  lemma NoFieldsText(depth: nat, fmt: bool)
    ensures LayoutFields(NoField, depth, fmt) == TNoField && SpellFields(TNoField) == []
  {}

  lemma {:induction false} ObjectText(v: Json, depth: nat, fmt: bool, body: Text)
    requires v.Obj? && (v.fields.NoField? ==> body == [])
    requires v.fields.Field? ==>
      When(fmt, [NEWLINE]) + JoinFields(PrintFields(v.fields, depth + 1, fmt), depth + 1, fmt) + When(fmt, Tabs(depth))
        == Line(fmt, depth + 1) + body
    ensures Print(v, depth, fmt)
      == [Code('{')] + Line(fmt, if v.fields.NoField? then depth - 1 else depth + 1) + body + [Code('}')]
  {
    hide PrintFields, JoinFields, PrintItems, JoinItems, PrintInt, PrintString, Tabs, TabChars;
    if v.fields.Field? {
      var b := JoinFields(PrintFields(v.fields, depth + 1, fmt), depth + 1, fmt);
      Braced(When(fmt, [NEWLINE]), b, When(fmt, Tabs(depth)), Line(fmt, depth + 1), body);
    } else {
      assert When(fmt, [NEWLINE] + Tabs(depth - 1)) == Line(fmt, depth - 1);
    }
  }

  lemma Braced(a: Text, b: Text, c: Text, line: Text, body: Text)
    requires a + b + c == line + body
    ensures [LBRACE] + a + b + c + [RBRACE] == [LBRACE] + line + body + [RBRACE]
  {
    assert [LBRACE] + a + b + c == [LBRACE] + (a + b + c);
    assert [LBRACE] + line + body == [LBRACE] + (line + body);
  }

  lemma {:induction false} PrintedItems(items: Items, depth: nat, fmt: bool)
    requires ItemsWellFormed(items)
    ensures var xs := LayoutItems(items, depth, fmt);
      && ItemsOk(xs) && StrictItems(xs) && ItemsValue(xs) == items
      && SpellItems(xs) == JoinItems(PrintItems(items, depth, fmt), fmt)
    decreases items, 1
  {
    hide Print, Layout, TreeOk, Strict, Value, Spell;
    if items.Item? {
      PrintedTextIsJson(items.value, depth, fmt);
      PrintedItems(items.next, depth, fmt);
      var ts := PrintItems(items, depth, fmt);
      assert ts[1..] == PrintItems(items.next, depth, fmt);
    }
  }

  lemma {:induction false} PrintedFields(fields: Fields, depth: nat, fmt: bool)
    requires FieldsWellFormed(fields)
    ensures var xs := LayoutFields(fields, depth, fmt);
      && FieldsOk(xs) && StrictFields(xs) && FieldsValue(xs) == fields
      && (fields.Field? ==>
            When(fmt, [NEWLINE]) + JoinFields(PrintFields(fields, depth, fmt), depth, fmt) + When(fmt, Tabs(depth - 1))
              == Line(fmt, depth) + SpellFields(xs))
    decreases fields, 1
  {
    hide Print, Layout, TreeOk, Strict, Value, Spell, PiecesOk, PiecesText, PiecesValue, Escaped;
    hide JoinFields, SpellFields, PrintFields, StrictPieces;
    if fields.Field? {
      PrintedTextIsJson(fields.value, depth, fmt);
      PrintedFields(fields.next, depth, fmt);
      StringLayout(fields.name);
      FieldText(fields, depth, fmt);
    }
  }

  lemma LastField(nl: Text, tabs: Text, head: Text, e: Text, up: Text)
    ensures nl + (tabs + head + e + [] + nl + []) + up == (nl + tabs) + (head + e + (nl + up) + [])
  {}

  lemma InnerField(nl: Text, tabs: Text, head: Text, e: Text, more: Text, up: Text, line: Text, rest: Text)
    requires nl + more + up == line + rest
    ensures nl + (tabs + head + e + [COMMA] + nl + more) + up == (nl + tabs) + (head + e + [] + ([COMMA] + line + rest))
  {
    assert nl + (tabs + head + e + [COMMA] + nl + more) + up == (nl + tabs) + (head + e + ([COMMA] + (nl + more + up)));
    assert [COMMA] + line + rest == [COMMA] + (line + rest);
  }

  lemma {:induction false} FieldText(fields: Fields, depth: nat, fmt: bool)
    requires fields.Field? && FieldsWellFormed(fields)
    requires var xs := LayoutFields(fields, depth, fmt);
      && FieldsOk(xs)
      && Spell(xs.value) == Print(fields.value, depth, fmt) && Quoted(xs.name) == PrintString(fields.name)
      && (fields.next.Field? ==>
            When(fmt, [NEWLINE]) + JoinFields(PrintFields(fields.next, depth, fmt), depth, fmt)
              + When(fmt, Tabs(depth - 1)) == Line(fmt, depth) + SpellFields(xs.next))
    ensures When(fmt, [NEWLINE]) + JoinFields(PrintFields(fields, depth, fmt), depth, fmt) + When(fmt, Tabs(depth - 1))
      == Line(fmt, depth) + SpellFields(LayoutFields(fields, depth, fmt))
  {
    hide Print, Layout, TreeOk, Spell, PiecesOk, Quoted, PrintString, Tabs, TabChars;
    var xs := LayoutFields(fields, depth, fmt);
    var more := JoinFields(PrintFields(fields.next, depth, fmt), depth, fmt);
    var nl, tabs, up := When(fmt, [NEWLINE]), When(fmt, Tabs(depth)), When(fmt, Tabs(depth - 1));
    var head := PrintString(fields.name) + [COLON] + When(fmt, [TAB]);
    var e := Print(fields.value, depth, fmt);
    JoinHead(fields, depth, fmt);
    SpellHead(xs);
    assert Line(fmt, depth) == nl + tabs && Line(fmt, depth - 1) == nl + up && Gap(fmt, '\t') == When(fmt, [TAB]);
    hide *;
    if fields.next.NoField? {
      LastField(nl, tabs, head, e, up);
    } else {
      InnerField(nl, tabs, head, e, more, up, Line(fmt, depth), SpellFields(xs.next));
    }
  }

  lemma {:induction false} JoinHead(fields: Fields, depth: nat, fmt: bool)
    requires fields.Field?
    ensures var more := JoinFields(PrintFields(fields.next, depth, fmt), depth, fmt);
      && (fields.next.NoField? ==> more == [])
      && JoinFields(PrintFields(fields, depth, fmt), depth, fmt)
        == When(fmt, Tabs(depth)) + (PrintString(fields.name) + [COLON] + When(fmt, [TAB]))
          + Print(fields.value, depth, fmt) + (if fields.next.NoField? then [] else [COMMA])
          + When(fmt, [NEWLINE]) + more
  {
    hide Print, PrintString, Tabs, When;
    var ts := PrintFields(fields, depth, fmt);
    assert ts[1..] == PrintFields(fields.next, depth, fmt);
    assert ts[0] == (PrintString(fields.name), Print(fields.value, depth, fmt));
  }

  lemma {:induction false} SpellHead(xs: TFields)
    requires xs.TField? && FieldsOk(xs) && xs.colon == []
    ensures SpellFields(xs) == (Quoted(xs.name) + [Code(':')] + xs.gap) + Spell(xs.value) + xs.after
      + (if xs.next.TNoField? then [] else [Code(',')] + xs.before + SpellFields(xs.next))
  {
    hide Spell, Quoted, TreeOk, PiecesOk;
    assert Quoted(xs.name) + [] == Quoted(xs.name);
  }
}
