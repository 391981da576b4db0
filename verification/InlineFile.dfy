/** Small files kept inside their metadata value, and how a byte range of one is read and overwritten. */
module InlineFile {
  import opened Digits

  const PSTAT_SIZE: nat := 44
  const INLINE_MAX: nat := 4052

  type Word = w: int | 0 <= w < 0x1_0000_0000

  /** `struct pacon_stat`: eleven 32-bit words. */
  datatype Stat = Stat(flags: Word, mode: Word, ctime: Word, atime: Word, mtime: Word, size: Word,
                       uid: Word, gid: Word, nlink: Word, openCounter: Word, fd: Word)

  predicate NulFree(t: Text) { forall i :: 0 <= i < |t| ==> t[i] != 0 }

  /** The text of a C string that starts here; the store puts a zero byte behind every value it returns. */
  function CString(t: Text): (s: Text)
    ensures NulFree(s) && s <= t
    ensures NulFree(t) ==> s == t
  {
    if t == [] || t[0] == 0 then [] else [t[0]] + CString(t[1..])
  }

  // ---- serialised metadata ----

  function WordBytes(w: Word): (t: Text)
    ensures |t| == 4
  {
    [w % 256, w / 256 % 256, w / 256 / 256 % 256, w / 256 / 256 / 256]
  }

  function WordOf(a: int, b: int, c: int, d: int): (w: Word)
    requires 0 <= a < 256 && 0 <= b < 256 && 0 <= c < 256 && 0 <= d < 256
  {
    a + 256 * (b + 256 * (c + 256 * d))
  }

  function WordAt(t: Text, at: nat): (w: Word)
    requires at + 4 <= |t|
  {
    WordOf(t[at], t[at + 1], t[at + 2], t[at + 3])
  }

  lemma WordRoundTrip(w: Word)
    ensures var t := WordBytes(w); WordOf(t[0], t[1], t[2], t[3]) == w
  {}

  function WordsBytes(ws: seq<Word>): (t: Text)
    ensures |t| == 4 * |ws|
  {
    if ws == [] then [] else WordBytes(ws[0]) + WordsBytes(ws[1..])
  }

  lemma {:induction false} WordIn(ws: seq<Word>, post: Text, i: nat)
    requires i < |ws|
    ensures WordAt(WordsBytes(ws) + post, 4 * i) == ws[i]
    decreases |ws|
  {
    hide WordBytes, WordOf;
    var t, b, more := WordsBytes(ws) + post, WordBytes(ws[0]), WordsBytes(ws[1..]) + post;
    assert t == b + more;
    if i == 0 {
      WordRoundTrip(ws[0]);
    } else {
      WordIn(ws[1..], post, i - 1);
      var at := 4 * (i - 1);
      assert t[4 + at] == more[at] && t[4 + at + 1] == more[at + 1]
        && t[4 + at + 2] == more[at + 2] && t[4 + at + 3] == more[at + 3];
    }
  }

  function Words(s: Stat): (ws: seq<Word>)
    ensures |ws| == 11
  {
    [s.flags, s.mode, s.ctime, s.atime, s.mtime, s.size, s.uid, s.gid, s.nlink, s.openCounter, s.fd]
  }

  /** `seri_inline_data`, and the `PSTAT_SIZE + size` bytes that are stored of it. */
  function Serialise(s: Stat, data: Text): (val: Text)
    ensures |val| == PSTAT_SIZE + |data|
  {
    WordsBytes(Words(s)) + data
  }

  function StatOf(val: Text): Stat
    requires |val| >= PSTAT_SIZE
  {
    Stat(WordAt(val, 0), WordAt(val, 4), WordAt(val, 8), WordAt(val, 12), WordAt(val, 16), WordAt(val, 20),
         WordAt(val, 24), WordAt(val, 28), WordAt(val, 32), WordAt(val, 36), WordAt(val, 40))
  }

  /** The inline data that `deseri_inline_data` copies with `strcpy`. */
  function DataOf(val: Text): (data: Text)
    requires |val| >= PSTAT_SIZE
    ensures PSTAT_SIZE + |data| <= |val|
  {
    CString(val[PSTAT_SIZE..])
  }

  /** Reading a value back gives the metadata and, as long as it holds no zero byte, the data. */
  lemma {:induction false} SerialiseRoundTrip(s: Stat, data: Text)
    ensures StatOf(Serialise(s, data)) == s
    ensures DataOf(Serialise(s, data)) == CString(data)
    ensures NulFree(data) <==> DataOf(Serialise(s, data)) == data
  {
    hide WordsBytes, WordAt, CString;
    var ws := Words(s);
    var val := Serialise(s, data);
    forall i: nat | i < 11 ensures WordAt(val, 4 * i) == ws[i] { WordIn(ws, data, i); }
    assert WordAt(val, 4 * 0) == ws[0] && WordAt(val, 4 * 1) == ws[1] && WordAt(val, 4 * 2) == ws[2];
    assert WordAt(val, 4 * 3) == ws[3] && WordAt(val, 4 * 4) == ws[4] && WordAt(val, 4 * 5) == ws[5];
    assert WordAt(val, 4 * 6) == ws[6] && WordAt(val, 4 * 7) == ws[7] && WordAt(val, 4 * 8) == ws[8];
    assert WordAt(val, 4 * 9) == ws[9] && WordAt(val, 4 * 10) == ws[10];
    assert val[PSTAT_SIZE..] == data;
  }

  /** Bit 1 of the flags tells that the data is inline. */
  predicate IsInline(flags: Word) { flags / 2 % 2 == 1 }

  function SetInline(flags: Word): (f: Word)
    ensures IsInline(f) && f / 4 == flags / 4 && f % 2 == flags % 2
  {
    if IsInline(flags) then flags else flags + 2
  }

  // ---- byte ranges ----

  function Max(a: nat, b: nat): nat { if a > b then a else b }

  /** `file` with `buf` written over it at `offset`. */
  function Overwrite(file: Text, offset: nat, buf: Text): (r: Text)
    requires offset <= |file|
    ensures |r| == Max(offset + |buf|, |file|)
    ensures forall i :: 0 <= i < |r| ==> r[i] == if offset <= i < offset + |buf| then buf[i - offset] else file[i]
  {
    file[..offset] + buf + if offset + |buf| < |file| then file[offset + |buf|..] else []
  }

  lemma OverwriteNulFree(file: Text, offset: nat, buf: Text)
    requires offset <= |file| && NulFree(file) && NulFree(buf)
    ensures NulFree(Overwrite(file, offset, buf))
  {
    hide Overwrite;
  }

  /** `memcpy(to + at, from, |from|)`. */
  method CopyInto(to: array<Byte>, at: nat, from: Text)
    requires at + |from| <= to.Length
    modifies to
    ensures forall i :: 0 <= i < to.Length ==>
      to[i] == if at <= i < at + |from| then from[i - at] else old(to[i])
  {
    forall j | 0 <= j < |from| { to[at + j] := from[j]; }
  }

  /** The local buffer after `strcpy` has put `data` and its terminator over whatever the stack held. */
  function Copied(data: Text, stack: Text): (b: Text)
    requires |data| < |stack|
    ensures |b| == |stack| && data <= b && b[|data|] == 0
  {
    data + [0] + stack[|data| + 1..]
  }

  /** The bytes stored for `newData`: `seri_inline_data` copies them up to the first zero byte only. */
  function Stowed(newData: Text, junk: Text): (t: Text)
    requires |newData| <= |junk|
    ensures |t| == |newData|
    ensures NulFree(newData) ==> t == newData
  {
    (CString(newData) + [0] + junk)[..|newData|]
  }

  /** The three copies of `pacon_write_new` from one buffer of INLINE_MAX bytes into another. */
  method Splice(inlineData: Text, size: nat, buf: Text, offset: nat) returns (newData: Text)
    requires |inlineData| == INLINE_MAX && offset <= size && Max(offset + |buf|, size) < INLINE_MAX - 1
    ensures newData == Overwrite(inlineData[..size], offset, buf)
  {
    hide Overwrite;
    var out := new Byte[INLINE_MAX];
    CopyInto(out, 0, inlineData[..offset]);
    CopyInto(out, offset, buf);
    if offset + |buf| < size {
      CopyInto(out, offset + |buf|, inlineData[offset + |buf|..size]);
    }
    var newSize := if offset + |buf| > size then offset + |buf| else size;
    out[newSize] := 0;
    newData := out[..newSize];
  }
}
