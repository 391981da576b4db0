/**
 * The JSON grammar of RFC 8259 as concrete syntax trees, spelled with literal characters: every choice a text makes
 * (white space between two tokens, escapes, number forms) is a field of the tree. Besides the forms of the standard
 * there are the ones that cJSON accepts on top of it.
 */
module JsonGrammar {
  import opened Common
  import opened Digits
  import opened Json
  import opened Utf8Text

  function Code(c: char): Byte
    requires c as int < 128
  {
    c as int
  }

  // ---- strings ----

  /**
   * One element of a quoted string and the bytes it stands for, where these are not determined by its characters.
   * `Other`, `Lone`, `High` and `Mismatched` are not JSON: cJSON takes the byte after the backslash, or drops it.
   */
  datatype Piece =
    | Plain(b: Byte)
    | Short(c: char)
    | Unit(hex: Text, utf8: Text)                        // \uXXXX
    | Pair(hex: Text, low: Text, utf8: Text)             // \uXXXX\uXXXX, a surrogate pair
    | Other(b: Byte)
    | Lone(hex: Text)
    | High(hex: Text)
    | Mismatched(hex: Text, other: Text)

  predicate HexChar(b: Byte) {
    Code('0') <= b <= Code('9') || Code('A') <= b <= Code('F') || Code('a') <= b <= Code('f')
  }

  function HexOf(b: Byte): (d: nat)
    requires HexChar(b)
    ensures d < 16
  {
    if b <= Code('9') then b - Code('0') else if b <= Code('F') then 10 + (b - Code('A')) else 10 + (b - Code('a'))
  }

  predicate IsHex4(t: Text) { |t| == 4 && HexChar(t[0]) && HexChar(t[1]) && HexChar(t[2]) && HexChar(t[3]) }

  function Hex4Of(t: Text): (n: nat)
    requires IsHex4(t)
  {
    HexOf(t[0]) * 4096 + HexOf(t[1]) * 256 + HexOf(t[2]) * 16 + HexOf(t[3])
  }

  predicate ShortChar(c: char) {
    c == '"' || c == '\\' || c == '/' || c == 'b' || c == 'f' || c == 'n' || c == 'r' || c == 't'
  }

  predicate IsHighHex(t: Text) { IsHex4(t) && 0xD800 <= Hex4Of(t) <= 0xDBFF }
  predicate IsLowHex(t: Text) { IsHex4(t) && 0xDC00 <= Hex4Of(t) <= 0xDFFF }

  /** The code point of a surrogate pair, section 7 of RFC 8259. */
  function Paired(hex: Text, low: Text): nat
    requires IsHighHex(hex) && IsLowHex(low)
  {
    0x10000 + (Hex4Of(hex) - 0xD800) * 0x400 + (Hex4Of(low) - 0xDC00)
  }

  predicate PieceOk(p: Piece) {
    match p
    case Plain(b) => b != 0 && b != Code('"') && b != Code('\\')
    case Short(c) => ShortChar(c)
    case Unit(hex, utf8) => IsHex4(hex) && Hex4Of(hex) != 0 && Decode(utf8) == Some(Hex4Of(hex))
    case Pair(hex, low, utf8) => IsHighHex(hex) && IsLowHex(low) && Decode(utf8) == Some(Paired(hex, low))
    case Other(b) =>
      b != 0 && b != Code('b') && b != Code('f') && b != Code('n') && b != Code('r') && b != Code('t') && b != Code('u')
    case Lone(hex) => IsHex4(hex) && (Hex4Of(hex) == 0 || IsLowHex(hex))
    case High(hex) => IsHighHex(hex)
    case Mismatched(hex, other) => IsHighHex(hex) && IsHex4(other) && !IsLowHex(other)
  }

  function PieceText(p: Piece): Text
    requires PieceOk(p)
  {
    match p
    case Plain(b) => [b]
    case Short(c) => [Code('\\'), Code(c)]
    case Unit(hex, _) => [Code('\\'), Code('u')] + hex
    case Pair(hex, low, _) => [Code('\\'), Code('u')] + hex + [Code('\\'), Code('u')] + low
    case Other(b) => [Code('\\'), b]
    case Lone(hex) => [Code('\\'), Code('u')] + hex
    case High(hex) => [Code('\\'), Code('u')] + hex
    case Mismatched(hex, other) => [Code('\\'), Code('u')] + hex + [Code('\\'), Code('u')] + other
  }

  /** What a piece stands for. */
  function PieceValue(p: Piece): Text
    requires PieceOk(p)
  {
    match p
    case Plain(b) => [b]
    case Short(c) =>
      if c == 'b' then [0x08] else if c == 'f' then [0x0C] else if c == 'n' then [0x0A]
      else if c == 'r' then [0x0D] else if c == 't' then [0x09] else [Code(c)]
    case Unit(_, utf8) => utf8
    case Pair(_, _, utf8) => utf8
    case Other(b) => [b]
    case Lone(_) => []
    case High(_) => []
    case Mismatched(_, _) => []
  }

  predicate StartsU(t: Text) { |t| >= 2 && t[0] == Code('\\') && t[1] == Code('u') }

  /** A high surrogate is alone only if no \u follows it. */
  predicate PiecesOk(ps: seq<Piece>) {
    ps == [] ||
    (PieceOk(ps[0]) && PiecesOk(ps[1..]) && (ps[0].High? && |ps| > 1 ==> PieceOk(ps[1]) && !StartsU(PieceText(ps[1]))))
  }

  function PiecesText(ps: seq<Piece>): Text
    requires PiecesOk(ps)
  {
    if ps == [] then [] else PieceText(ps[0]) + PiecesText(ps[1..])
  }

  function PiecesValue(ps: seq<Piece>): Text
    requires PiecesOk(ps)
  {
    if ps == [] then [] else PieceValue(ps[0]) + PiecesValue(ps[1..])
  }

  function Quoted(ps: seq<Piece>): Text
    requires PiecesOk(ps)
  {
    [Code('"')] + PiecesText(ps) + [Code('"')]
  }

  // ---- values ----

  datatype Tree =
    | TNull
    | TTrue
    | TFalse
    | TNum(neg: bool, zero: bool, digits: Text)
    | TStr(pieces: seq<Piece>)
    | TArr(gap: Text, items: TItems)
    | TObj(gap: Text, fields: TFields)
  datatype TItems = TNoItem | TItem(value: Tree, after: Text, before: Text, next: TItems)
  datatype TFields =
    | TNoField
    | TField(name: seq<Piece>, colon: Text, gap: Text, value: Tree, after: Text, before: Text, next: TFields)

  /** White space as cJSON skips it; space, tab, line feed and carriage return are among it. */
  predicate White(t: Text) { forall i :: 0 <= i < |t| ==> 0 < t[i] <= Code(' ') }

  /**
   * Sign, one zero, and digits that do not begin with a zero; a 32-bit integer. JSON wants the zero or the digits,
   * and not both.
   */
  predicate NumOk(neg: bool, zero: bool, digits: Text) {
    && DigitChars(digits) && (digits != [] ==> digits[0] != Code('0')) && (neg || zero || digits != [])
    && InInt(NumValue(neg, digits))
  }

  function NumValue(neg: bool, digits: Text): int
    requires DigitChars(digits)
  {
    var n: int := DecimalValue(digits);
    if neg then -n else n
  }

  predicate TreeOk(x: Tree) {
    match x
    case TNull => true
    case TTrue => true
    case TFalse => true
    case TNum(neg, zero, digits) => NumOk(neg, zero, digits)
    case TStr(ps) => PiecesOk(ps)
    case TArr(gap, items) => White(gap) && ItemsOk(items)
    case TObj(gap, fields) => White(gap) && FieldsOk(fields)
  }

  predicate ItemsOk(xs: TItems) {
    xs.TItem? ==> TreeOk(xs.value) && White(xs.after) && White(xs.before) && ItemsOk(xs.next)
  }

  predicate FieldsOk(xs: TFields) {
    xs.TField? ==>
      && PiecesOk(xs.name) && White(xs.colon) && White(xs.gap) && TreeOk(xs.value)
      && White(xs.after) && White(xs.before) && FieldsOk(xs.next)
  }

  /** The text of a tree. */
  function Spell(x: Tree): Text
    requires TreeOk(x)
  {
    match x
    case TNull => [Code('n'), Code('u'), Code('l'), Code('l')]
    case TTrue => [Code('t'), Code('r'), Code('u'), Code('e')]
    case TFalse => [Code('f'), Code('a'), Code('l'), Code('s'), Code('e')]
    case TNum(neg, zero, digits) => (if neg then [Code('-')] else []) + (if zero then [Code('0')] else []) + digits
    case TStr(ps) => Quoted(ps)
    case TArr(gap, items) => [Code('[')] + gap + SpellItems(items) + [Code(']')]
    case TObj(gap, fields) => [Code('{')] + gap + SpellFields(fields) + [Code('}')]
  }

  function SpellItems(xs: TItems): Text
    requires ItemsOk(xs)
  {
    match xs
    case TNoItem => []
    case TItem(value, after, before, next) =>
      Spell(value) + after + (if next.TNoItem? then [] else [Code(',')] + before + SpellItems(next))
  }

  function SpellFields(xs: TFields): Text
    requires FieldsOk(xs)
  {
    match xs
    case TNoField => []
    case TField(name, colon, gap, value, after, before, next) =>
      Quoted(name) + colon + [Code(':')] + gap + Spell(value) + after
        + (if next.TNoField? then [] else [Code(',')] + before + SpellFields(next))
  }

  /** The tree that a text denotes. */
  function Value(x: Tree): Json
    requires TreeOk(x)
  {
    match x
    case TNull => Null
    case TTrue => Bool(true)
    case TFalse => Bool(false)
    case TNum(neg, _, digits) => Num(NumValue(neg, digits))
    case TStr(ps) => Str(PiecesValue(ps))
    case TArr(_, items) => Arr(ItemsValue(items))
    case TObj(_, fields) => Obj(FieldsValue(fields))
  }

  function ItemsValue(xs: TItems): Items
    requires ItemsOk(xs)
  {
    if xs.TNoItem? then NoItem else Item(Value(xs.value), ItemsValue(xs.next))
  }

  function FieldsValue(xs: TFields): Fields
    requires FieldsOk(xs)
  {
    if xs.TNoField? then NoField else Field(PiecesValue(xs.name), Value(xs.value), FieldsValue(xs.next))
  }

  // ---- the standard's own forms ----

  predicate StrictWhite(t: Text) {
    forall i :: 0 <= i < |t| ==> t[i] == Code(' ') || t[i] == Code('\t') || t[i] == Code('\n') || t[i] == Code('\r')
  }

  predicate StrictPieces(ps: seq<Piece>) {
    forall i :: 0 <= i < |ps| ==> ps[i].Short? || ps[i].Unit? || ps[i].Pair? || (ps[i].Plain? && ps[i].b >= 0x20)
  }

  /** A tree that uses nothing but what RFC 8259 allows. */
  predicate Strict(x: Tree) {
    match x
    case TNull => true
    case TTrue => true
    case TFalse => true
    case TNum(_, zero, digits) => zero <==> digits == []
    case TStr(ps) => StrictPieces(ps)
    case TArr(gap, items) => StrictWhite(gap) && StrictItems(items)
    case TObj(gap, fields) => StrictWhite(gap) && StrictFields(fields)
  }

  predicate StrictItems(xs: TItems) {
    xs.TItem? ==> Strict(xs.value) && StrictWhite(xs.after) && StrictWhite(xs.before) && StrictItems(xs.next)
  }

  predicate StrictFields(xs: TFields) {
    xs.TField? ==>
      && StrictPieces(xs.name) && StrictWhite(xs.colon) && StrictWhite(xs.gap) && Strict(xs.value)
      && StrictWhite(xs.after) && StrictWhite(xs.before) && StrictFields(xs.next)
  }
}
