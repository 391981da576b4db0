/** What single steps of inline reads and writes answer and store, byte by byte and field by field. */
module InlineLaws {
  import opened Common
  import opened Digits
  import opened InlineFile
  import opened InlineShared

  // ---- metadata ----

  /** Bit k of a word. */
  predicate Bit(w: nat, k: nat) {
    if k == 0 then w % 2 == 1 else Bit(w / 2, k - 1)
  }

  /** Setting the inline flag sets bit 1 and touches no other bit. */
  lemma {:induction false} OnlyInlineBit(flags: Word, k: nat)
    ensures Bit(SetInline(flags), k) == (k == 1 || Bit(flags, k))
    ensures IsInline(flags) == Bit(flags, 1)
  {
    var f := SetInline(flags);
    if k >= 2 {
      assert Bit(f, k) == Bit(f / 2 / 2, k - 2) && Bit(flags, k) == Bit(flags / 2 / 2, k - 2);
      assert f / 2 / 2 == f / 4 && flags / 2 / 2 == flags / 4;
    }
  }

  /** The fields of the metadata that no inline call ever changes, and every flag but the inline one. */
  ghost predicate SameFile(a: Stat, b: Stat) {
    && a.mode == b.mode && a.ctime == b.ctime && a.uid == b.uid && a.gid == b.gid
    && a.nlink == b.nlink && a.openCounter == b.openCounter && a.fd == b.fd
    && forall k: nat :: k != 1 ==> Bit(a.flags, k) == Bit(b.flags, k)
  }

  /** A write that stays inline: both times are now, the size covers the range, the rest of the metadata is kept. */
  lemma {:induction false} WriteKeepsMetadata(call: Call, val: Text, stack: Text, now: Word, junk: Text)
    requires Fits(val) && CallOk(call) && StaysInline(call, val) && |stack| == |junk| == INLINE_MAX
    ensures |NewValue(call, val, stack, now, junk)| >= PSTAT_SIZE
    ensures var a, b := StatOf(val), StatOf(NewValue(call, val, stack, now, junk));
      && b.mode == a.mode && b.ctime == a.ctime && b.uid == a.uid && b.gid == a.gid
      && b.nlink == a.nlink && b.openCounter == a.openCounter && b.fd == a.fd
      && b.atime == now && b.mtime == now
      && b.size == (if call.offset + call.size > a.size then call.offset + call.size else a.size)
      && Bit(b.flags, 1) && forall k: nat :: k != 1 ==> Bit(b.flags, k) == Bit(a.flags, k)
  {
    hide DataOf, StatOf, Overwrite, Serialise, CString, Copied, Stowed, Bit, SetInline;
    var st := StatOf(val);
    SerialiseRoundTrip(NewStat(call, st, now),
                       Stowed(Overwrite(Copied(DataOf(val), stack)[..st.size], call.offset, call.buf), junk));
    forall k: nat ensures Bit(SetInline(st.flags), k) == (k == 1 || Bit(st.flags, k)) { OnlyInlineBit(st.flags, k); }
  }

  /** The end of a switch keeps all metadata and drops the data, unless its swap conflicts and changes nothing. */
  lemma {:induction false} SwitchKeepsMetadata(s: State, c: nat)
    requires Enabled(s, Switch(c)) && ClientOk(s, c)
    ensures |s.val| >= PSTAT_SIZE
    ensures var s' := Next(s, Switch(c));
      && |s'.val| >= PSTAT_SIZE && StatOf(s'.val) == StatOf(s.val) && s'.log == s.log
      && (s.clients[c].phase.version != s.version ==> s'.val == s.val && s'.version == s.version)
      && (s.clients[c].phase.version == s.version ==> DataOf(s'.val) == [] && s'.version == s.version + 1)
  {
    hide StatOf, DataOf, Fits;
    FitsSize(s.val);
    if s.clients[c].phase.version == s.version { CutMetadata(s.val); }
  }

  lemma {:induction false} StepKeepsMetadata(s: State, e: Step, init: File)
    requires InlineShared.Inv(s, init) && Enabled(s, e)
    ensures |s.val| >= PSTAT_SIZE && |Next(s, e).val| >= PSTAT_SIZE
    ensures SameFile(StatOf(s.val), StatOf(Next(s, e).val))
  {
    hide StatOf, DataOf, StaysInline, CallOk, Fits, NewValue, Bit, Sound, EventsOf, Finished, HasSwitch, Decide;
    FitsSize(s.val);
    assert ClientOk(s, e.c);
    match e
    case Swap(c, now, junk) =>
      var got := s.clients[c].phase;
      if got.version == s.version { WriteKeepsMetadata(got.call, got.val, got.stack, now, junk); }
    case Switch(c) => SwitchKeepsMetadata(s, c);
    case Start(_, _) =>
    case Get(_, _, _) =>
    case Return(_) =>
  }

  lemma FitsSize(val: Text)
    requires Fits(val)
    ensures |val| >= PSTAT_SIZE
  {}

  lemma {:induction false} RunKeepsFile(s: State, run: seq<Step>, init: File)
    requires InlineShared.Inv(s, init) && ValidRun(s, run)
    ensures |s.val| >= PSTAT_SIZE && |After(s, run).val| >= PSTAT_SIZE
    ensures SameFile(StatOf(s.val), StatOf(After(s, run).val))
    decreases |run|
  {
    hide StatOf, Enabled, Next, Bit, InlineShared.Inv;
    if run == [] {
      InvSize(s, init);
    } else {
      StepKeepsMetadata(s, run[0], init);
      StepKeepsInv(s, run[0], init);
      RunKeepsFile(Next(s, run[0]), run[1..], init);
    }
  }

  lemma InvSize(s: State, init: File)
    requires InlineShared.Inv(s, init)
    ensures |s.val| >= PSTAT_SIZE
  {
    hide StatOf, DataOf, Sound, ClientOk, EventsOf;
  }

  /**
   * However many handles read, write and switch: mode, creation time, owner, group, link count, open counter and
   * descriptor word, and every flag but the inline one, are those the file started with.
   */
  lemma {:induction false} MetadataOverRuns(s: State, run: seq<Step>, file: File)
    requires Initial(s, file) && ValidRun(s, run)
    ensures |s.val| >= PSTAT_SIZE && |After(s, run).val| >= PSTAT_SIZE
    ensures var a, b := StatOf(s.val), StatOf(After(s, run).val);
      && b.mode == a.mode && b.ctime == a.ctime && b.uid == a.uid && b.gid == a.gid
      && b.nlink == a.nlink && b.openCounter == a.openCounter && b.fd == a.fd
      && forall k: nat :: k != 1 ==> Bit(b.flags, k) == Bit(a.flags, k)
  {
    hide StatOf, DataOf, After, ValidRun, Moved, Bit, Explains;
    assert InlineShared.Inv(s, file) by { assert Explains(file, [], file) by { NoCalls(file); } }
    RunKeepsFile(s, run, file);
  }

  /** A little-endian 32-bit word at a position of a stored value. */
  function Word32(val: Text, at: nat): int
    requires at + 4 <= |val|
  {
    val[at] + 0x100 * (val[at + 1] as int) + 0x1_0000 * (val[at + 2] as int) + 0x100_0000 * (val[at + 3] as int)
  }

  /** Where a stored value keeps what: the words of `struct pacon_stat` in their order, then the data from byte 44. */
  lemma {:induction false} StoredLayout(st: Stat, data: Text)
    ensures var val := Serialise(st, data);
      && |val| == 44 + |data| && val[44..] == data
      && Word32(val, 0) == st.flags && Word32(val, 4) == st.mode && Word32(val, 8) == st.ctime
      && Word32(val, 12) == st.atime && Word32(val, 16) == st.mtime && Word32(val, 20) == st.size
      && Word32(val, 24) == st.uid && Word32(val, 28) == st.gid && Word32(val, 32) == st.nlink
      && Word32(val, 36) == st.openCounter && Word32(val, 40) == st.fd
  {
    hide WordsBytes, Words;
    SerialiseRoundTrip(st, data);
    var val := Serialise(st, data);
    assert val[44..] == data;
    hide Serialise;
    forall at: nat | at + 4 <= |val| ensures WordAt(val, at) == Word32(val, at) {}
  }

  /** Data counts as lost in exactly one kind of step: the swap of a switch that meets a non-empty file unchanged. */
  lemma {:induction false} LostExactly(s: State, e: Step)
    requires Enabled(s, e) && ClientOk(s, e.c)
    ensures |s.val| >= PSTAT_SIZE
    ensures Next(s, e).lost != s.lost <==>
      s.lost.None? && e.Switch? && s.clients[e.c].phase.version == s.version && DataOf(s.val) != []
    ensures Next(s, e).lost != s.lost ==>
      Next(s, e).lost == Some(|s.log|) && DataOf(s.val) != [] && |Next(s, e).val| == 44
  {
    hide StatOf, DataOf, StaysInline, Decide, NewValue;
  }

  // ---- single steps, byte by byte ----

  /**
   * The get of a read by a handle without a descriptor, on an inline file: it answers the requested bytes when the
   * range lies inside the file and an error exactly when it does not, and stores nothing.
   */
  lemma {:induction false} ReadAnswers(s: State, c: nat, stack: Text, kept: bool, size: nat, offset: nat)
    requires Enabled(s, Get(c, stack, kept)) && s.clients[c].phase == Called(Read(size, offset)) && !s.clients[c].fd
    requires Stored(s.val) && Bit(StatOf(s.val).flags, 1)
    ensures var s', data := Next(s, Get(c, stack, kept)), DataOf(s.val);
      && s'.val == s.val && s'.version == s.version && |s'.log| == |s.log| + 1 && s.log < s'.log
      && var e := s'.log[|s.log|];
      && e.who == c && e.call == Read(size, offset) && s'.clients[c].phase == Done(e)
      && (if offset + size <= |data| then
            e.outcome.Bytes? && |e.outcome.t| == size &&
            forall i :: 0 <= i < size ==> e.outcome.t[i] == data[offset + i]
          else e.outcome == Error)
  {
    hide StatOf, DataOf;
    OnlyInlineBit(StatOf(s.val).flags, 1);
  }

  /**
   * The get of a write by a handle without a descriptor: past the end of the file it is refused, a range that ends
   * below byte 4051 goes on to a swap, and any other goes to the file system beneath. None of them stores anything.
   */
  lemma {:induction false} WriteDecides(s: State, c: nat, stack: Text, kept: bool, buf: Text, offset: nat)
    requires Enabled(s, Get(c, stack, kept)) && Stored(s.val) && !s.clients[c].fd
    requires s.clients[c].phase == Called(Write(buf, |buf|, offset))
    ensures var s', n, call := Next(s, Get(c, stack, kept)), |DataOf(s.val)|, Write(buf, |buf|, offset);
      && s'.val == s.val && s'.version == s.version
      && (offset > n ==> s'.clients[c].phase == Done(Event(c, call, Error)))
      && (offset <= n && offset + |buf| < 4051 ==>
            s'.clients[c].phase == Got(call, s.val, s.version, stack) && s'.log == s.log)
      && (offset <= n && offset + |buf| >= 4051 ==>
            s'.clients[c].phase == Switching(Event(c, call, FileSystem(true)), s.val, s.version) && s'.clients[c].fd)
  {
    hide StatOf, DataOf;
  }

  /**
   * The get of any other call: a buffer longer than its size is refused; a handle with a descriptor, and a read of a
   * file that is not inline, go to the file system beneath, and a handle keeps a descriptor exactly when it had one
   * or its file could be opened. None of them stores anything.
   */
  lemma {:induction false} OtherAnswers(s: State, c: nat, stack: Text, kept: bool)
    requires Enabled(s, Get(c, stack, kept)) && |s.val| >= PSTAT_SIZE
    ensures var s', cl := Next(s, Get(c, stack, kept)), s.clients[c];
      var call := cl.phase.call;
      && s'.val == s.val && s'.version == s.version
      && (call.Write? && |call.buf| > call.size ==>
            s'.clients[c].phase == Done(Event(c, call, Error)) && s'.clients[c].fd == cl.fd)
      && (call.Write? && |call.buf| <= call.size && cl.fd ==>
            s'.clients[c].phase == Switching(Event(c, call, FileSystem(true)), s.val, s.version) && s'.clients[c].fd)
      && (call.Read? && (cl.fd || !Bit(StatOf(s.val).flags, 1)) ==>
            && s'.clients[c].phase == Done(Event(c, call, FileSystem(cl.fd || kept)))
            && s'.clients[c].fd == (cl.fd || kept))
  {
    hide StatOf, DataOf;
    OnlyInlineBit(StatOf(s.val).flags, 1);
  }

  /**
   * The swap of a write: on a conflict the writer is back before its get and nothing is stored; otherwise the file
   * holds the written bytes in their range and its old bytes elsewhere, and the caller gets the byte count.
   */
  lemma {:induction false} SwapStores(s: State, c: nat, now: Word, junk: Text)
    requires Stored(s.val) && Enabled(s, Swap(c, now, junk)) && ClientOk(s, c)
    ensures var s', call, old' := Next(s, Swap(c, now, junk)), s.clients[c].phase.call, DataOf(s.val);
      if s.clients[c].phase.version != s.version then
        s'.val == s.val && s'.version == s.version && s'.log == s.log && s'.clients[c].phase == Called(call)
      else
        && s'.log == s.log + [Event(c, call, Count(call.size))] && s'.version == s.version + 1 && Stored(s'.val)
        && var new' := DataOf(s'.val);
        && |new'| == (if call.offset + call.size > |old'| then call.offset + call.size else |old'|)
        && (forall i :: 0 <= i < call.size ==> new'[call.offset + i] == call.buf[i])
        && (forall i :: 0 <= i < |old'| && !(call.offset <= i < call.offset + call.size) ==> new'[i] == old'[i])
  {
    hide StatOf, DataOf, NewValue, Overwrite, IsInline;
    var got := s.clients[c].phase;
    if got.version == s.version { NewValueIsApply(got.call, got.val, got.stack, now, junk); }
  }

  /** A read of the range just written, by any handle without a descriptor, answers what was written. */
  lemma {:induction false} ReadBack(s: State, c: nat, now: Word, junk: Text, d: nat, stack: Text, kept: bool)
    requires Stored(s.val) && Enabled(s, Swap(c, now, junk)) && ClientOk(s, c)
    requires s.clients[c].phase.version == s.version
    requires d < |s.clients| && d != c && s.clients[d].phase.Idle? && !s.clients[d].fd && |stack| == INLINE_MAX
    ensures var call, s1 := s.clients[c].phase.call, Next(s, Swap(c, now, junk));
      var read := Read(call.size, call.offset);
      && Enabled(s1, Start(d, read))
      && var s2 := Next(s1, Start(d, read));
      && Enabled(s2, Get(d, stack, kept))
      && Next(s2, Get(d, stack, kept)).log
        == s.log + [Event(c, call, Count(call.size)), Event(d, read, Bytes(call.buf))]
  {
    hide StatOf, DataOf, NewValue, Decide, GetNext, Bit;
    var got := s.clients[c].phase;
    SwapStores(s, c, now, junk);
    WriteKeepsMetadata(got.call, got.val, got.stack, now, junk);
    var s1 := Next(s, Swap(c, now, junk));
    var read := Read(got.call.size, got.call.offset);
    var s2 := Next(s1, Start(d, read));
    ReadAnswers(s2, d, stack, kept, got.call.size, got.call.offset);
    assert Next(s2, Get(d, stack, kept)).log[|s2.log|].outcome.t == got.call.buf;
  }

  // ---- a handle alone ----

  /** From right after the effect of a call to its return. */
  lemma {:induction false} Finishing(s: State, c: nat, init: InlineShared.File) returns (run: seq<Step>)
    requires InlineShared.Inv(s, init) && c < |s.clients|
    requires s.clients[c].phase.Done? || s.clients[c].phase.Switching?
    ensures ValidRun(s, run) && InlineShared.Inv(After(s, run), init)
    ensures |run| == if s.clients[c].phase.Done? then 1 else 2
    ensures var s', cl := After(s, run), s.clients[c];
      && s'.log == s.log && c < |s'.clients|
      && s'.clients[c] == cl.(phase := Idle, returned := cl.returned + [cl.phase.event])
  {
    hide StatOf, DataOf, Sound, EventsOf, Finished, NewValue, Decide, StaysInline, HasSwitch;
    assert ClientOk(s, c);
    var rest: seq<Step> := [];
    run := [Return(c)] + rest;
    if s.clients[c].phase.Done? {
      RunStep(s, Return(c), rest);
    } else {
      var s1 := Next(s, Switch(c));
      StepKeepsInv(s, Switch(c), init);
      RunStep(s1, Return(c), rest);
      RunStep(s, Switch(c), run);
      run := [Switch(c)] + run;
    }
    assert ValidRun(s, run);
    RunKeepsInv(s, run, init);
  }

  /**
   * An idle handle can make any call, and without interference it returns from it after at most four steps; a write
   * then answers its byte count exactly when it starts inside the file and ends below byte 4051.
   */
  lemma {:induction false} AnyCallReturns(s: State, c: nat, call: Call, stack: Text, kept: bool, now: Word, junk: Text,
      init: InlineShared.File) returns (run: seq<Step>, e: Event)
    requires InlineShared.Inv(s, init) && c < |s.clients| && s.clients[c].phase.Idle? && CallOk(call)
    requires |stack| == |junk| == INLINE_MAX
    ensures ValidRun(s, run) && |run| <= 4 && InlineShared.Inv(After(s, run), init)
    ensures e.who == c && e.call == call
    ensures var s' := After(s, run);
      && s'.log == s.log + [e] && c < |s'.clients|
      && s'.clients[c].phase == Idle && s'.clients[c].returned == s.clients[c].returned + [e]
    ensures Stored(s.val) && !s.clients[c].fd && call.Write? && call.size == |call.buf| ==>
      (e.outcome == Count(call.size) <==> call.offset <= |DataOf(s.val)| && call.offset + call.size < 4051)
  {
    hide InlineShared.Inv, StatOf, DataOf, Decide, NewValue, After, ValidRun;
    AlwaysFits(s, c, init);
    var s1 := Next(s, Start(c, call));
    StepKeepsInv(s, Start(c, call), init);
    AlwaysFits(s1, c, init);
    var s2 := Next(s1, Get(c, stack, kept));
    StepKeepsInv(s1, Get(c, stack, kept), init);
    if Stored(s.val) && !s.clients[c].fd && call.Write? && call.size == |call.buf| {
      WriteDecides(s1, c, stack, kept, call.buf, call.offset);
    }
    if s2.clients[c].phase.Got? {
      AlwaysFits(s2, c, init);
      var s3 := Next(s2, Swap(c, now, junk));
      StepKeepsInv(s2, Swap(c, now, junk), init);
      e := s3.clients[c].phase.event;
      run := Finishing(s3, c, init);
      RunStep(s2, Swap(c, now, junk), run);
      run := [Swap(c, now, junk)] + run;
    } else {
      e := s2.clients[c].phase.event;
      run := Finishing(s2, c, init);
    }
    RunStep(s1, Get(c, stack, kept), run);
    RunStep(s, Start(c, call), [Get(c, stack, kept)] + run);
    run := [Start(c, call)] + ([Get(c, stack, kept)] + run);
  }

  lemma {:induction false} AlwaysFits(s: State, c: nat, init: InlineShared.File)
    requires InlineShared.Inv(s, init) && c < |s.clients|
    ensures Fits(s.val) && ClientOk(s, c)
  {
    hide ClientOk, Sound, Fits, EventsOf;
  }

  // ---- whole histories, without the plain file ----

  /** The byte at position p after a history: that of the last write that reached p, or the one from the start. */
  function ByteAt(start: Text, log: seq<Event>, p: nat): Option<Byte>
    decreases |log|
  {
    if log == [] then if p < |start| then Some(start[p]) else None
    else
      var e := log[|log| - 1];
      if e.call.Write? && e.outcome.Count? && e.call.offset <= p < e.call.offset + |e.call.buf| then
        Some(e.call.buf[p - e.call.offset])
      else ByteAt(start, log[..|log| - 1], p)
  }

  /** The file in the middle of a history. */
  lemma {:induction false} Midway(f: InlineShared.File, log: seq<Event>, final: InlineShared.File, n: nat)
    returns (mid: InlineShared.File, next: InlineShared.File)
    requires Explains(f, log, final) && n < |log|
    ensures Explains(f, log[..n], mid) && Replayed(mid, log[n]) == (next, log[n].outcome)
    ensures n == |log| - 1 ==> next == final
    decreases n
  {
    hide Replayed;
    if n == 0 {
      mid, next := f, Replayed(f, log[0]).0;
      if |log| == 1 { assert log[1..] == []; }
    } else {
      mid, next := Midway(Replayed(f, log[0]).0, log[1..], final, n - 1);
      assert log[..n][1..] == log[1..][..n - 1];
    }
  }

  /** The content after a history holds, at each position, what the last write to it put there. */
  lemma {:induction false} BytesByHistory(f: InlineShared.File, log: seq<Event>, final: InlineShared.File, p: nat)
    requires Explains(f, log, final)
    ensures ByteAt(f.bytes, log, p) == if p < |final.bytes| then Some(final.bytes[p]) else None
    decreases |log|
  {
    hide Explains;
    if log == [] {
      NothingHappened(f, final);
    } else {
      var mid, next := Midway(f, log, final, |log| - 1);
      BytesByHistory(f, log[..|log| - 1], mid, p);
      OneMoreCall(mid, log[|log| - 1], final, p);
    }
  }

  lemma NothingHappened(f: InlineShared.File, final: InlineShared.File)
    requires Explains(f, [], final)
    ensures final == f
  {}

  /** One call changes exactly the bytes of a counted write. */
  lemma {:induction false} OneMoreCall(f: InlineShared.File, e: Event, g: InlineShared.File, p: nat)
    requires Replayed(f, e) == (g, e.outcome)
    ensures (if p < |g.bytes| then Some(g.bytes[p]) else None) ==
      if e.call.Write? && e.outcome.Count? && e.call.offset <= p < e.call.offset + |e.call.buf| then
        Some(e.call.buf[p - e.call.offset])
      else if p < |f.bytes| then Some(f.bytes[p]) else None
  {
    hide Overwrite;
  }

  /**
   * What call number n of a history answered, told by the earlier ones alone: a read gives the last bytes written to
   * its range, a read or write that fails reached past the end, and a write that is counted is counted in full.
   */
  lemma {:induction false} CallByHistory(f: InlineShared.File, log: seq<Event>, final: InlineShared.File, n: nat)
    requires Explains(f, log, final) && n < |log| && CallOk(log[n].call)
    ensures var e, past := log[n], log[..n];
      && (e.call.Read? && e.outcome.Bytes? ==>
            && |e.outcome.t| == e.call.size
            && forall i :: 0 <= i < e.call.size ==> Some(e.outcome.t[i]) == ByteAt(f.bytes, past, e.call.offset + i))
      && (e.call.Read? && e.outcome == Error ==>
            e.call.offset + e.call.size > 0 && ByteAt(f.bytes, past, e.call.offset + e.call.size - 1) == None)
      && (e.call.Write? && e.outcome.Count? ==>
            && e.outcome.n == |e.call.buf|
            && (e.call.offset > 0 ==> ByteAt(f.bytes, past, e.call.offset - 1).Some?))
      && (e.call.Write? && e.outcome == Error && e.call.size == |e.call.buf| ==>
            e.call.offset > 0 && ByteAt(f.bytes, past, e.call.offset - 1) == None)
  {
    hide Explains, Overwrite, ByteAt;
    var mid, next := Midway(f, log, final, n);
    forall p: nat ensures ByteAt(f.bytes, log[..n], p) == if p < |mid.bytes| then Some(mid.bytes[p]) else None {
      BytesByHistory(f, log[..n], mid, p);
    }
  }

  /** Every logged call was legal for its caller. */
  ghost predicate LoggedOk(s: State) {
    && (forall n :: 0 <= n < |s.log| ==> CallOk(s.log[n].call))
    && (forall c :: 0 <= c < |s.clients| ==>
          var ph := s.clients[c].phase; (ph.Called? ==> CallOk(ph.call)) && (ph.Got? ==> CallOk(ph.call)))
  }

  lemma {:induction false} StepKeepsLogged(s: State, e: Step)
    requires LoggedOk(s) && Enabled(s, e)
    ensures LoggedOk(Next(s, e))
  {
    hide StaysInline, Decide, NewValue, Fits, CallOk;
  }

  lemma {:induction false} RunKeepsLogged(s: State, run: seq<Step>)
    requires LoggedOk(s) && ValidRun(s, run)
    ensures LoggedOk(After(s, run))
    decreases |run|
  {
    hide LoggedOk, Enabled, Next;
    if run != [] {
      StepKeepsLogged(s, run[0]);
      RunKeepsLogged(Next(s, run[0]), run[1..]);
    }
  }

  /**
   * Under any interleaving of any number of handles, up to a switch that cuts data off: each byte a read answers is
   * the one that the last earlier write to its position put there, or the one the file began with, and so is each
   * byte that is stored at the end.
   */
  lemma {:induction false} ReadsSeeTheLastWrite(s: State, run: seq<Step>, file: InlineShared.File, n: nat, p: nat)
    requires Initial(s, file) && ValidRun(s, run) && n < |After(s, run).log|
    requires After(s, run).lost.None? || n < After(s, run).lost.value
    ensures var s' := After(s, run);
      var e, past := s'.log[n], s'.log[..n];
      && Fits(s'.val)
      && (e.call.Read? && e.outcome.Bytes? ==>
            && |e.outcome.t| == e.call.size
            && forall i :: 0 <= i < e.call.size ==> Some(e.outcome.t[i]) == ByteAt(file.bytes, past, e.call.offset + i))
      && (e.call.Read? && e.outcome == Error ==>
            e.call.offset + e.call.size > 0 && ByteAt(file.bytes, past, e.call.offset + e.call.size - 1) == None)
      && (s'.lost.None? ==>
            var data := DataOf(s'.val); ByteAt(file.bytes, s'.log, p) == if p < |data| then Some(data[p]) else None)
  {
    hide StatOf, DataOf, After, ValidRun, Moved, Explains, ByteAt, CallOk;
    InlineCallsAreLinearizable(s, run, file);
    RunKeepsLogged(s, run);
    var s' := After(s, run);
    if s'.lost.None? {
      CallByHistory(file, s'.log, FileOf(s'), n);
      BytesByHistory(file, s'.log, FileOf(s'), p);
    } else {
      var log := s'.log[..s'.lost.value];
      var f :| Explains(file, log, f);
      CallByHistory(file, log, f, n);
      assert log[..n] == s'.log[..n] && log[n] == s'.log[n];
    }
  }
}
