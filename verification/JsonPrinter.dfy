/**
 * The unbuffered printers: each computes the size of its buffer in a first pass and fills it in a second one.
 * A returned `text` is the C string in the buffer, `size` the number of bytes that were allocated for it.
 */
module JsonPrinter {
  import opened Digits
  import opened Json
  import opened JsonGrammar
  import opened JsonLayout

  /** `memcpy` of a text behind the first `at` bytes. */
  method Append(out: array<Byte>, at: nat, t: Text) returns (end: nat)
    requires at + |t| <= out.Length
    modifies out
    ensures end == at + |t| && out[..end] == old(out[..at]) + t
  {
    forall j | 0 <= j < |t| { out[at + j] := t[j]; }
    end := at + |t|;
    assert out[..at] == old(out[..at]);
    assert out[at..end] == t;
  }

  /** Bytes that the counting pass charges for one byte of a string. */
  function Charge(b: Byte): (n: nat)
    requires b != 0
    ensures n == |Escape(b)|
  {
    if ShortEscape(b) != 0 then 2 else if b < 32 then 6 else 1
  }

  predicate Special(b: Byte) { 0 < b < 32 || b == QUOTE || b == BACKSLASH }

  lemma {:induction false} PlainIsUnescaped(s: Text)
    requires NulFree(s) && forall i :: 0 <= i < |s| ==> !Special(s[i])
    ensures Escaped(s) == s
  {
    if s != [] {
      PlainIsUnescaped(s[1..]);
      assert Escape(s[0]) == [s[0]];
    }
  }

  lemma {:induction false} EscapedAt(s: Text, i: nat)
    requires i < |s|
    ensures Escaped(s[i..]) == Escape(s[i]) + Escaped(s[i + 1..])
  {
    assert s[i..][1..] == s[i + 1..];
  }

  /** The first pass of `print_string_ptr`. */
  method CountEscaped(str: Text) returns (len: nat)
    requires NulFree(str)
    ensures len == |Escaped(str)|
  {
    len := 0;
    var i := 0;
    assert str[0..] == str;
    while i < |str|
      invariant 0 <= i <= |str|
      invariant len + |Escaped(str[i..])| == |Escaped(str)|
    {
      EscapedAt(str, i);
      len := len + 1;
      if ShortEscape(str[i]) != 0 {
        len := len + 1;
      } else if str[i] < 32 {
        len := len + 5;
      }
      assert Charge(str[i]) == |Escape(str[i])|;
      i := i + 1;
    }
  }

  /** The second pass: writes the escaped bytes behind the opening quote. */
  method WriteEscaped(out: array<Byte>, str: Text) returns (ptr: nat)
    requires NulFree(str) && out.Length >= 1 + |Escaped(str)|
    modifies out
    ensures ptr == 1 + |Escaped(str)| && out[..ptr] == [QUOTE] + Escaped(str)
  {
    hide Escaped, Escape;
    out[0] := QUOTE;
    ptr := 1;
    var i := 0;
    assert str[0..] == str && out[..1] == [QUOTE];
    while i < |str|
      invariant 0 <= i <= |str|
      invariant ptr + |Escaped(str[i..])| == 1 + |Escaped(str)|
      invariant out[..ptr] + Escaped(str[i..]) == [QUOTE] + Escaped(str)
    {
      EscapedAt(str, i);
      Shift(out[..ptr], Escape(str[i]), Escaped(str[i + 1..]));
      ptr := WriteByte(out, ptr, str[i]);
      i := i + 1;
    }
    assert str[i..] == [];
    NoneEscaped();
    assert out[..ptr] + [] == out[..ptr];
  }

  lemma NoneEscaped()
    ensures Escaped([]) == []
  {}

  method WriteByte(out: array<Byte>, at: nat, b: Byte) returns (ptr: nat)
    requires b != 0 && at + |Escape(b)| <= out.Length
    modifies out
    ensures ptr == at + |Escape(b)| && out[..ptr] == old(out[..at]) + Escape(b)
  {
    if b > 31 && b != QUOTE && b != BACKSLASH {
      ptr := Append(out, at, [b]);
    } else if ShortEscape(b) != 0 {
      ptr := Append(out, at, [BACKSLASH, ShortEscape(b)]);
    } else {
      ptr := Append(out, at, [BACKSLASH, 117, 48, 48, HexDigit(b / 16), HexDigit(b % 16)]);
    }
  }

  /** `print_string_ptr`: the buffer is filled to its last byte. */
  method PrintStringPtr(str: Text) returns (text: Text, size: nat)
    requires NulFree(str)
    ensures text == PrintString(str) && size == |text| + 1
  {
    var flag, i := false, 0;
    while i < |str|
      invariant 0 <= i <= |str|
      invariant flag <==> exists j :: 0 <= j < i && Special(str[j])
    {
      flag := flag || Special(str[i]);
      i := i + 1;
    }
    var out: array<Byte>, ptr: nat;
    if !flag {
      PlainIsUnescaped(str);
      size := |str| + 3;
      out := new Byte[size];
      out[0] := QUOTE;
      ptr := Append(out, 1, str);
    } else {
      var len := CountEscaped(str);
      size := len + 3;
      out := new Byte[size];
      ptr := WriteEscaped(out, str);
    }
    assert out[..ptr] == [QUOTE] + Escaped(str);
    ptr := Append(out, ptr, [QUOTE]);
    text := out[..ptr];
    out[ptr] := 0;
  }

  lemma {:induction false} DecimalLength(n: nat, k: nat)
    requires k >= 1 && n < Pow10(k)
    ensures |Decimal(n)| <= k
  {
    assert Pow10(k) == 10 * Pow10(k - 1);
    if n >= 10 { DecimalLength(n / 10, k - 1); }
  }

  lemma IntLength(n: int)
    requires InInt(n)
    ensures |PrintInt(n)| <= 11
  {
    assert Pow10(10) == 10_000_000_000;
    DecimalLength(if n < 0 then -n else n, 10);
  }

  /** `print_number` for an integer. */
  method PrintNumber(n: int) returns (text: Text, size: nat)
    requires InInt(n)
    ensures text == PrintInt(n) && |text| + 1 <= size
  {
    size := if n == 0 then 2 else 21;
    IntLength(n);
    var out := new Byte[size];
    if n == 0 { assert PrintInt(0) == [ZERO]; }
    var ptr := Append(out, 0, PrintInt(n));
    text := out[..ptr];
    out[ptr] := 0;
  }

  function Flag(fmt: bool): nat { if fmt then 1 else 0 }

  /** Room that the first pass of `print_array` reserves for the entries. */
  function ItemRoom(ts: seq<Text>, fmt: bool): nat {
    if ts == [] then 0 else ItemRoom(ts[..|ts| - 1], fmt) + |ts[|ts| - 1]| + 2 + Flag(fmt)
  }

  lemma {:induction false} ItemRoomFront(ts: seq<Text>, fmt: bool)
    requires ts != []
    ensures ItemRoom(ts, fmt) == |ts[0]| + 2 + Flag(fmt) + ItemRoom(ts[1..], fmt)
  {
    if |ts| > 1 {
      var n := |ts| - 1;
      ItemRoomFront(ts[..n], fmt);
      assert ts[..n][1..] == ts[1..][..n - 1];
    }
  }

  lemma {:induction false} JoinFits(ts: seq<Text>, fmt: bool)
    ensures |JoinItems(ts, fmt)| <= ItemRoom(ts, fmt)
    decreases |ts|
  {
    if ts != [] {
      ItemRoomFront(ts, fmt);
      JoinFits(ts[1..], fmt);
    }
  }

  /** What `print_array` writes after an entry. */
  function ItemSep(last: bool, fmt: bool): Text {
    if last then [] else [COMMA] + When(fmt, [SPACE])
  }

  lemma {:induction false} JoinAt(ts: seq<Text>, fmt: bool, i: nat)
    requires i < |ts|
    ensures JoinItems(ts[i..], fmt) == (ts[i] + ItemSep(i == |ts| - 1, fmt)) + JoinItems(ts[i + 1..], fmt)
  {
    assert ts[i..][1..] == ts[i + 1..];
    var a, c := ts[i], JoinItems(ts[i + 1..], fmt);
    assert a + ([COMMA] + When(fmt, [SPACE])) + c == a + [COMMA] + When(fmt, [SPACE]) + c;
  }

  method PutItem(out: array<Byte>, at: nat, entry: Text, last: bool, fmt: bool) returns (ptr: nat)
    requires at + |entry| + |ItemSep(last, fmt)| < out.Length
    modifies out
    ensures ptr == at + |entry| + |ItemSep(last, fmt)| && out[..ptr] == old(out[..at]) + (entry + ItemSep(last, fmt))
  {
    ghost var before := out[..at];
    ptr := Append(out, at, entry);
    if !last {
      ptr := Append(out, ptr, [COMMA]);
      if fmt { ptr := Append(out, ptr, [SPACE]); }
      ghost var done := out[..ptr];
      out[ptr] := 0;
      assert out[..ptr] == done;
    }
    assert before + entry + ItemSep(last, fmt) == before + (entry + ItemSep(last, fmt));
  }

  lemma Shift(a: Text, b: Text, c: Text)
    ensures a + (b + c) == (a + b) + c
  {}

  /** The second pass of `print_array`. */
  method ComposeArray(entries: seq<Text>, fmt: bool, size: nat) returns (text: Text)
    requires entries != [] && size == 5 + ItemRoom(entries, fmt)
    ensures text == [LBRACKET] + JoinItems(entries, fmt) + [RBRACKET] && |text| + 1 <= size
  {
    hide JoinItems, ItemRoom, ItemSep;
    JoinFits(entries, fmt);
    ghost var all := [LBRACKET] + JoinItems(entries, fmt);
    var out := new Byte[size];
    out[0] := LBRACKET;
    out[1] := 0;
    var ptr, i := 1, 0;
    assert entries[0..] == entries && out[..1] == [LBRACKET];
    while i < |entries|
      invariant 0 <= i <= |entries|
      invariant 0 <= ptr && ptr + |JoinItems(entries[i..], fmt)| == |all|
      invariant out[..ptr] + JoinItems(entries[i..], fmt) == all
    {
      JoinAt(entries, fmt, i);
      Shift(out[..ptr], entries[i] + ItemSep(i == |entries| - 1, fmt), JoinItems(entries[i + 1..], fmt));
      ptr := PutItem(out, ptr, entries[i], i == |entries| - 1, fmt);
      i := i + 1;
    }
    assert entries[i..] == [];
    NoJoin(fmt);
    assert out[..ptr] + [] == out[..ptr];
    ptr := Append(out, ptr, [RBRACKET]);
    text := out[..ptr];
    out[ptr] := 0;
  }

  lemma NoJoin(fmt: bool)
    ensures JoinItems([], fmt) == []
  {}

  // ---- objects ----

  /** Room that the first pass of `print_object` reserves for the fields, printed at `depth`. */
  function FieldRoom(ts: seq<(Text, Text)>, depth: nat, fmt: bool): nat {
    if ts == [] then 0
    else
      var last := ts[|ts| - 1];
      FieldRoom(ts[..|ts| - 1], depth, fmt) + |last.1| + |last.0| + 2 + if fmt then 2 + depth else 0
  }

  lemma {:induction false} FieldRoomFront(ts: seq<(Text, Text)>, depth: nat, fmt: bool)
    requires ts != []
    ensures FieldRoom(ts, depth, fmt) ==
      |ts[0].1| + |ts[0].0| + 2 + (if fmt then 2 + depth else 0) + FieldRoom(ts[1..], depth, fmt)
  {
    if |ts| > 1 {
      var n := |ts| - 1;
      FieldRoomFront(ts[..n], depth, fmt);
      assert ts[..n][1..] == ts[1..][..n - 1];
    }
  }

  lemma {:induction false} FieldsFit(ts: seq<(Text, Text)>, depth: nat, fmt: bool)
    ensures |JoinFields(ts, depth, fmt)| <= FieldRoom(ts, depth, fmt)
    decreases |ts|
  {
    if ts != [] {
      FieldRoomFront(ts, depth, fmt);
      FieldsFit(ts[1..], depth, fmt);
    }
  }

  /** What `print_object` writes before the value of a field, and from the value on. */
  function NameText(name: Text, depth: nat, fmt: bool): Text {
    When(fmt, Tabs(depth)) + name + [COLON] + When(fmt, [TAB])
  }

  function EntryText(entry: Text, last: bool, fmt: bool): Text {
    entry + (if last then [] else [COMMA]) + When(fmt, [NEWLINE])
  }

  function FieldText(t: (Text, Text), last: bool, depth: nat, fmt: bool): Text {
    NameText(t.0, depth, fmt) + EntryText(t.1, last, fmt)
  }

  lemma {:induction false} FieldsAt(ts: seq<(Text, Text)>, depth: nat, fmt: bool, i: nat)
    requires i < |ts|
    ensures JoinFields(ts[i..], depth, fmt) ==
      FieldText(ts[i], i == |ts| - 1, depth, fmt) + JoinFields(ts[i + 1..], depth, fmt)
  {
    assert ts[i..][1..] == ts[i + 1..];
  }

  /** `for (j = 0; j < n; j++) *ptr++ = '\t'`. */
  method PutTabs(out: array<Byte>, at: nat, n: int) returns (ptr: nat)
    requires at + |Tabs(n)| <= out.Length
    modifies out
    ensures ptr == at + |Tabs(n)| && out[..ptr] == old(out[..at]) + Tabs(n)
  {
    ptr := at;
    var j := 0;
    while j < n
      invariant 0 <= j && (n >= 0 ==> j <= n) && (n < 0 ==> j == 0) && ptr == at + j
      invariant out[..ptr] == old(out[..at]) + Tabs(j)
    {
      TabsGrow(j);
      ptr := Append(out, ptr, [TAB]);
      j := j + 1;
    }
  }

  lemma {:induction false} TabsGrow(n: nat)
    ensures Tabs(n + 1) == Tabs(n) + [TAB]
  {}

  method PutName(out: array<Byte>, at: nat, name: Text, depth: nat, fmt: bool) returns (ptr: nat)
    requires at + |NameText(name, depth, fmt)| <= out.Length
    modifies out
    ensures ptr == at + |NameText(name, depth, fmt)| && out[..ptr] == old(out[..at]) + NameText(name, depth, fmt)
  {
    hide Tabs;
    ptr := at;
    if fmt {
      ptr := PutTabs(out, ptr, depth);
      ptr := Append(out, ptr, name);
      ptr := Append(out, ptr, [COLON]);
      ptr := Append(out, ptr, [TAB]);
    } else {
      ptr := Append(out, ptr, name);
      ptr := Append(out, ptr, [COLON]);
    }
  }

  method PutEntry(out: array<Byte>, at: nat, entry: Text, last: bool, fmt: bool) returns (ptr: nat)
    requires at + |EntryText(entry, last, fmt)| < out.Length
    modifies out
    ensures ptr == at + |EntryText(entry, last, fmt)| && out[..ptr] == old(out[..at]) + EntryText(entry, last, fmt)
  {
    ptr := Append(out, at, entry);
    if !last { ptr := Append(out, ptr, [COMMA]); }
    if fmt { ptr := Append(out, ptr, [NEWLINE]); }
    ghost var done := out[..ptr];
    out[ptr] := 0;
    assert out[..ptr] == done;
  }

  method PutField(out: array<Byte>, at: nat, t: (Text, Text), last: bool, depth: nat, fmt: bool) returns (ptr: nat)
    requires at + |FieldText(t, last, depth, fmt)| < out.Length
    modifies out
    ensures ptr == at + |FieldText(t, last, depth, fmt)|
    ensures out[..ptr] == old(out[..at]) + FieldText(t, last, depth, fmt)
  {
    hide NameText, EntryText;
    ptr := PutName(out, at, t.0, depth, fmt);
    ptr := PutEntry(out, ptr, t.1, last, fmt);
  }

  /** The second pass of `print_object`; `depth` is that of the fields. */
  method ComposeObject(entries: seq<(Text, Text)>, depth: nat, fmt: bool, size: nat) returns (text: Text)
    requires entries != [] && depth >= 1 && size == 7 + (if fmt then depth else 0) + FieldRoom(entries, depth, fmt)
    ensures text ==
      [LBRACE] + When(fmt, [NEWLINE]) + JoinFields(entries, depth, fmt) + When(fmt, Tabs(depth - 1)) + [RBRACE]
    ensures |text| + 1 <= size
  {
    hide JoinFields, FieldRoom, FieldText;
    FieldsFit(entries, depth, fmt);
    ghost var all := [LBRACE] + When(fmt, [NEWLINE]) + JoinFields(entries, depth, fmt);
    var out := new Byte[size];
    var ptr := Append(out, 0, [LBRACE]);
    if fmt { ptr := Append(out, ptr, [NEWLINE]); }
    var i := 0;
    assert entries[0..] == entries && out[..ptr] == [LBRACE] + When(fmt, [NEWLINE]);
    assert |all| + (if fmt then depth - 1 else 0) + 2 <= size;
    while i < |entries|
      invariant 0 <= i <= |entries|
      invariant 0 <= ptr && ptr + |JoinFields(entries[i..], depth, fmt)| == |all|
      invariant out[..ptr] + JoinFields(entries[i..], depth, fmt) == all
    {
      FieldsAt(entries, depth, fmt, i);
      ghost var last := i == |entries| - 1;
      Shift(out[..ptr], FieldText(entries[i], last, depth, fmt), JoinFields(entries[i + 1..], depth, fmt));
      ptr := PutField(out, ptr, entries[i], i == |entries| - 1, depth, fmt);
      i := i + 1;
    }
    assert entries[i..] == [];
    NoJoinFields(depth, fmt);
    assert out[..ptr] == all by { assert out[..ptr] + [] == out[..ptr]; }
    if fmt { ptr := PutTabs(out, ptr, depth - 1); }
    ptr := Append(out, ptr, [RBRACE]);
    text := out[..ptr];
    out[ptr] := 0;
  }

  lemma NoJoinFields(depth: nat, fmt: bool)
    ensures JoinFields([], depth, fmt) == []
  {}

  // ---- values ----

  /**
   * `print_value`: the text of the tree, always shorter than the buffer it is written into. It is the JSON text of
   * the value in the formatted or the unformatted layout.
   */
  method PrintValue(v: Json, depth: nat, fmt: bool) returns (text: Text, size: nat)
    requires WellFormed(v)
    ensures text == Print(v, depth, fmt) && |text| + 1 <= size
    ensures var x := Layout(v, depth, fmt); TreeOk(x) && Strict(x) && Value(x) == v && text == Spell(x)
    decreases v, 2
  {
    PrintedTextIsJson(v, depth, fmt);
    hide Layout, TreeOk, Strict, Value, Spell;
    match v
    case Null => text := NULL_TEXT; size := |text| + 1;
    case Bool(b) => text := if b then TRUE_TEXT else FALSE_TEXT; size := |text| + 1;
    case Num(n) => text, size := PrintNumber(n);
    case Str(s) => text, size := PrintStringPtr(s);
    case Arr(items) => text, size := PrintArray(items, depth, fmt);
    case Obj(fields) => text, size := PrintObject(fields, depth, fmt);
  }

  lemma NoRoom(depth: nat, fmt: bool)
    ensures ItemRoom([], fmt) == 0 && PrintItems(NoItem, depth, fmt) == []
  {}

  lemma {:induction false} CollectStep(entries: seq<Text>, ret: Text, child: Items, depth: nat, fmt: bool)
    requires child.Item? && ret == Print(child.value, depth, fmt)
    ensures entries + PrintItems(child, depth, fmt) == entries + [ret] + PrintItems(child.next, depth, fmt)
    ensures ItemRoom(entries + [ret], fmt) == ItemRoom(entries, fmt) + |ret| + 2 + Flag(fmt)
  {
    hide Print;
    assert (entries + [ret])[..|entries|] == entries;
    assert PrintItems(child, depth, fmt) == [ret] + PrintItems(child.next, depth, fmt);
  }

  /** The first pass of `print_array`: prints the entries and adds up the room they need. */
  method CollectItems(items: Items, depth: nat, fmt: bool) returns (entries: seq<Text>, size: nat)
    requires ItemsWellFormed(items)
    ensures entries == PrintItems(items, depth, fmt) && size == 5 + ItemRoom(entries, fmt)
    decreases items, 0
  {
    hide Print, WellFormed, PrintItems, ItemRoom, Layout, TreeOk, Strict, Value, Spell;
    size := 5;
    entries := [];
    var child := items;
    NoRoom(depth, fmt);
    while child.Item?
      invariant child == items || child < items
      invariant ItemsWellFormed(child)
      invariant entries + PrintItems(child, depth, fmt) == PrintItems(items, depth, fmt)
      invariant size == 5 + ItemRoom(entries, fmt)
      decreases child
    {
      var ret, _ := PrintValue(child.value, depth, fmt);
      CollectStep(entries, ret, child, depth, fmt);
      entries := entries + [ret];
      size := size + |ret| + 2 + if fmt then 1 else 0;
      child := child.next;
    }
  }

  method PrintArray(items: Items, depth: nat, fmt: bool) returns (text: Text, size: nat)
    requires ItemsWellFormed(items)
    ensures text == Print(Arr(items), depth, fmt) && |text| + 1 <= size
    decreases items, 1
  {
    hide ItemsWellFormed, ItemRoom;
    if items.NoItem? {
      size := 3;
      text := [LBRACKET, RBRACKET];
    } else {
      var entries;
      entries, size := CollectItems(items, depth + 1, fmt);
      text := ComposeArray(entries, fmt, size);
    }
  }

  /** The first pass of `print_object`. */
  method CollectFields(fields: Fields, depth: nat, fmt: bool) returns (entries: seq<(Text, Text)>, size: nat)
    requires FieldsWellFormed(fields)
    ensures entries == PrintFields(fields, depth, fmt)
    ensures size == 7 + (if fmt then depth else 0) + FieldRoom(entries, depth, fmt)
    decreases fields, 0
  {
    hide Print, WellFormed, PrintString, Layout, TreeOk, Strict, Value, Spell;
    size := 7 + if fmt then depth else 0;
    entries := [];
    var child := fields;
    while child.Field?
      invariant child == fields || child < fields
      invariant FieldsWellFormed(child)
      invariant entries + PrintFields(child, depth, fmt) == PrintFields(fields, depth, fmt)
      invariant size == 7 + (if fmt then depth else 0) + FieldRoom(entries, depth, fmt)
      decreases child
    {
      var str, _ := PrintStringPtr(child.name);
      var ret, _ := PrintValue(child.value, depth, fmt);
      ghost var more := PrintFields(child.next, depth, fmt);
      assert entries + ([(str, ret)] + more) == entries + [(str, ret)] + more;
      entries := entries + [(str, ret)];
      assert entries[..|entries| - 1] + [(str, ret)] == entries;
      size := size + |ret| + |str| + 2 + if fmt then 2 + depth else 0;
      child := child.next;
    }
  }

  /** The special case of an object without fields. */
  method PrintEmptyObject(depth: nat, fmt: bool) returns (text: Text, size: nat)
    ensures text == Print(Obj(NoField), depth, fmt) && |text| + 1 <= size
  {
    size := if fmt then depth + 4 else 3;
    var out := new Byte[size];
    var ptr := Append(out, 0, [LBRACE]);
    if fmt {
      ptr := Append(out, ptr, [NEWLINE]);
      ptr := PutTabs(out, ptr, depth - 1);
    }
    ptr := Append(out, ptr, [RBRACE]);
    text := out[..ptr];
    out[ptr] := 0;
  }

  method PrintObject(fields: Fields, depth: nat, fmt: bool) returns (text: Text, size: nat)
    requires FieldsWellFormed(fields)
    ensures text == Print(Obj(fields), depth, fmt) && |text| + 1 <= size
    decreases fields, 1
  {
    hide FieldsWellFormed, FieldRoom;
    if fields.NoField? {
      text, size := PrintEmptyObject(depth, fmt);
    } else {
      var entries;
      entries, size := CollectFields(fields, depth + 1, fmt);
      text := ComposeObject(entries, depth + 1, fmt, size);
    }
  }
}
