/**
 * Any number of open handles reading and writing one small file through get-with-version and compare-and-swap.
 * One step is one access to the shared store, with the local computation around it. Local buffers are not
 * cleared by the code, so what they held before is a parameter of the steps that use them.
 */
module InlineShared {
  import opened Common
  import opened Digits
  import opened InlineFile

  datatype Call = Write(buf: Text, size: nat, offset: nat) | Read(size: nat, offset: nat)

  /**
   * What the caller gets: a byte count, the bytes read, -1, or an answer from the file system beneath, after which
   * the handle may keep a descriptor that sends all its later calls there.
   */
  datatype Outcome = Count(n: nat) | Bytes(t: Text) | Error | FileSystem(kept: bool)

  // ---- the sequential file ----

  /** A plain byte file of bounded size, and the handles that have moved to the file system. */
  datatype File = File(bytes: Text, isInline: bool, moved: set<nat>)

  /** The meaning of one call executed alone; only a read may fail to open the file beneath. */
  function Apply(f: File, who: nat, call: Call, kept: bool): (r: (File, Outcome)) {
    match call
    case Write(buf, size, offset) =>
      if |buf| > size then (f, Error)
      else if who in f.moved then (f, FileSystem(true))
      else if offset > |f.bytes| then (f, Error)
      else if Max(offset + size, |f.bytes|) >= INLINE_MAX - 1 then
        (f.(moved := f.moved + {who}), FileSystem(true))
      else (File(Overwrite(f.bytes, offset, buf), true, f.moved), Count(size))
    case Read(size, offset) =>
      if who in f.moved then (f, FileSystem(true))
      else if !f.isInline then (f.(moved := if kept then f.moved + {who} else f.moved), FileSystem(kept))
      else if offset + size > |f.bytes| then (f, Error)
      else (f, Bytes(f.bytes[offset..offset + size]))
  }

  /** The log holds one event per call, in the order in which the calls take effect. */
  datatype Event = Event(who: nat, call: Call, outcome: Outcome)

  function Replayed(f: File, e: Event): (File, Outcome) {
    Apply(f, e.who, e.call, e.outcome == FileSystem(true))
  }

  /** Executing the calls of a log one after the other gives exactly the logged outcomes and the final file. */
  ghost predicate Explains(f: File, log: seq<Event>, final: File)
    decreases |log|
  {
    if log == [] then final == f
    else Replayed(f, log[0]).1 == log[0].outcome && Explains(Replayed(f, log[0]).0, log[1..], final)
  }

  lemma {:induction false} ExplainsSnoc(f: File, log: seq<Event>, mid: File, e: Event, final: File)
    requires Explains(f, log, mid) && Replayed(mid, e) == (final, e.outcome)
    ensures Explains(f, log + [e], final)
    decreases |log|
  {
    hide Replayed;
    if log == [] {
      assert ([] + [e])[1..] == [];
    } else {
      assert (log + [e])[1..] == log[1..] + [e];
      ExplainsSnoc(Replayed(f, log[0]).0, log[1..], mid, e, final);
    }
  }

  // ---- the handles ----

  datatype Phase =
    | Idle
    | Called(call: Call)
    | Got(call: Call, val: Text, version: nat, stack: Text)
    | Switching(event: Event, val: Text, version: nat)
    | Done(event: Event)

  /** `fd` tells that the handle holds a descriptor; `returned` are its calls that came back, in order. */
  datatype Client = Client(phase: Phase, fd: bool, returned: seq<Event>)

  /** `lost` is history: how many calls had taken effect when a switch first cut data off the stored value. */
  datatype State = State(val: Text, version: nat, clients: seq<Client>, log: seq<Event>, lost: Option<nat>)

  datatype Step =
    | Start(c: nat, call: Call)
    | Get(c: nat, stack: Text, kept: bool)
    | Swap(c: nat, now: Word, junk: Text)
    | Switch(c: nat)
    | Return(c: nat)

  /** Callers pass zero-free buffers that are at least `size` bytes long. */
  predicate CallOk(call: Call) {
    call.Write? ==> NulFree(call.buf) && call.size <= |call.buf|
  }

  /** Metadata, data and size word stay inside the local buffers. */
  predicate Fits(val: Text) {
    PSTAT_SIZE <= |val| < PSTAT_SIZE + INLINE_MAX - 1 && StatOf(val).size < INLINE_MAX - 1
  }

  /** A write that stays inline: the handle has no descriptor and the range ends inside the inline limit. */
  predicate StaysInline(call: Call, val: Text) {
    && |val| >= PSTAT_SIZE
    && call.Write? && |call.buf| <= call.size && call.offset <= StatOf(val).size
    && Max(call.offset + call.size, StatOf(val).size) < INLINE_MAX - 1
  }

  predicate Enabled(s: State, e: Step) {
    && Fits(s.val)
    && e.c < |s.clients|
    && var ph := s.clients[e.c].phase;
    match e
    case Start(_, call) => ph.Idle? && CallOk(call)
    case Get(_, stack, _) => ph.Called? && |stack| == INLINE_MAX
    case Swap(_, _, junk) =>
      && ph.Got? && CallOk(ph.call) && Fits(ph.val) && StaysInline(ph.call, ph.val)
      && |ph.stack| == |junk| == INLINE_MAX
    case Switch(_) => ph.Switching? && Fits(ph.val)
    case Return(_) => ph.Done?
  }

  /** What a call that does not go on to a swap answers right after its get. */
  function Decide(cl: Client, call: Call, val: Text, stack: Text, kept: bool): (r: Outcome)
    requires Fits(val) && |stack| == INLINE_MAX
  {
    var st := StatOf(val);
    match call
    case Write(buf, size, offset) =>
      if |buf| > size then Error
      else if cl.fd then FileSystem(true)
      else if st.size < offset then Error
      else FileSystem(true)
    case Read(size, offset) =>
      if cl.fd then FileSystem(true)
      else if !IsInline(st.flags) then FileSystem(kept)
      else if offset + size > st.size then Error
      else Bytes(Copied(DataOf(val), stack)[offset..offset + size])
  }

  /** The metadata of a write that stays inline. */
  function NewStat(call: Call, st: Stat, now: Word): (r: Stat)
    requires Max(call.offset + call.size, st.size) < INLINE_MAX - 1
  {
    st.(atime := now, mtime := now, size := Max(call.offset + call.size, st.size), flags := SetInline(st.flags))
  }

  /** The value a write puts back. */
  function NewValue(call: Call, val: Text, stack: Text, now: Word, junk: Text): (r: Text)
    requires Fits(val) && StaysInline(call, val) && CallOk(call) && |stack| == |junk| == INLINE_MAX
    ensures |r| == PSTAT_SIZE + Max(call.offset + call.size, StatOf(val).size)
  {
    Serialise(NewStat(call, StatOf(val), now),
              Stowed(Overwrite(Copied(DataOf(val), stack)[..StatOf(val).size], call.offset, call.buf), junk))
  }

  function At(s: State, c: nat, ph: Phase): State
    requires c < |s.clients|
  {
    s.(clients := s.clients[c := s.clients[c].(phase := ph)])
  }

  /** The call takes effect now. */
  function Logged(s: State, c: nat, e: Event, ph: Phase): State
    requires c < |s.clients|
  {
    var fd := s.clients[c].fd || e.outcome == FileSystem(true);
    s.(clients := s.clients[c := s.clients[c].(phase := ph, fd := fd)], log := s.log + [e])
  }

  function GetNext(s: State, c: nat, stack: Text, kept: bool): State
    requires Enabled(s, Get(c, stack, kept))
  {
    var cl := s.clients[c];
    var call := cl.phase.call;
    if !cl.fd && StaysInline(call, s.val) then At(s, c, Got(call, s.val, s.version, stack))
    else
      var e := Event(c, call, Decide(cl, call, s.val, stack, kept));
      Logged(s, c, e, if call.Write? && e.outcome.FileSystem? then Switching(e, s.val, s.version) else Done(e))
  }

  /**
   * The end of the switch: the value that was read is stored back cut to PSTAT_SIZE bytes, without the new
   * metadata. A conflict is not retried, because the fields that are compared have just been set.
   */
  function SwitchNext(s: State, c: nat): State
    requires Enabled(s, Switch(c))
  {
    var ph := s.clients[c].phase;
    if ph.version != s.version then At(s, c, Done(ph.event))
    else
      At(s, c, Done(ph.event)).(val := ph.val[..PSTAT_SIZE], version := s.version + 1,
        lost := if s.lost.None? && DataOf(s.val) != [] then Some(|s.log|) else s.lost)
  }

  function Next(s: State, e: Step): State
    requires Enabled(s, e)
  {
    var cl := s.clients[e.c];
    match e
    case Start(c, call) => At(s, c, Called(call))
    case Get(c, stack, kept) => GetNext(s, c, stack, kept)
    case Swap(c, now, junk) =>
      var got := cl.phase;
      // A conflict sends the writer back to its get.
      if got.version != s.version then At(s, c, Called(got.call))
      else
        var e := Event(c, got.call, Count(got.call.size));
        Logged(s, c, e, Done(e)).(val := NewValue(got.call, got.val, got.stack, now, junk), version := s.version + 1)
    case Switch(c) => SwitchNext(s, c)
    case Return(c) => s.(clients := s.clients[c := cl.(phase := Idle, returned := cl.returned + [cl.phase.event])])
  }

  // ---- invariant ----

  /** The stored value is a file: size word and data agree, and a value without the inline flag is empty. */
  ghost predicate Stored(val: Text) {
    && Fits(val) && NulFree(DataOf(val)) && StatOf(val).size == |DataOf(val)|
    && (IsInline(StatOf(val).flags) || DataOf(val) == [])
  }

  function Moved(clients: seq<Client>): (r: set<nat>)
    ensures forall c :: c in r <==> 0 <= c < |clients| && clients[c].fd
  {
    set c: nat | c < |clients| && clients[c].fd
  }

  /** The plain file that a state stands for. */
  function FileOf(s: State): File
    requires Fits(s.val)
  {
    File(DataOf(s.val), IsInline(StatOf(s.val).flags), Moved(s.clients))
  }

  /** The calls of handle c in the log. */
  function EventsOf(log: seq<Event>, c: nat): seq<Event> {
    if log == [] then []
    else EventsOf(log[..|log| - 1], c) + if log[|log| - 1].who == c then [log[|log| - 1]] else []
  }

  function Finished(cl: Client): seq<Event> {
    cl.returned + if cl.phase.Done? || cl.phase.Switching? then [cl.phase.event] else []
  }

  predicate SwitchEvent(e: Event) { e.call.Write? && e.outcome.FileSystem? }

  ghost predicate HasSwitch(log: seq<Event>) {
    exists i :: 0 <= i < |log| && SwitchEvent(log[i])
  }

  ghost predicate ClientOk(s: State, c: nat)
    requires c < |s.clients|
  {
    match s.clients[c].phase
    case Idle => true
    case Called(call) => CallOk(call)
    case Got(call, val, version, stack) =>
      && CallOk(call) && !s.clients[c].fd && Fits(val) && StaysInline(call, val) && |stack| == INLINE_MAX
      && version <= s.version && (version == s.version ==> val == s.val)
    case Switching(event, val, version) =>
      && Fits(val) && version <= s.version && (version == s.version ==> val == s.val) && HasSwitch(s.log)
    case Done(event) => true
  }

  /** Everything that took effect before data was lost is explained; without a loss, so is the stored value. */
  ghost predicate Sound(s: State, init: File)
    requires Fits(s.val)
  {
    match s.lost
    case None => Stored(s.val) && Explains(init, s.log, FileOf(s))
    case Some(n) => n <= |s.log| && HasSwitch(s.log[..n]) && exists f :: Explains(init, s.log[..n], f)
  }

  ghost predicate Inv(s: State, init: File) {
    && Fits(s.val)
    && Sound(s, init)
    && (forall c :: 0 <= c < |s.clients| ==> ClientOk(s, c))
    && (forall c :: 0 <= c < |s.clients| ==> EventsOf(s.log, c) == Finished(s.clients[c]))
  }

  // ---- one call and the plain file ----

  /** What a call decides without a swap is what it does to the plain file. */
  lemma {:induction false} DecideIsApply(cl: Client, who: nat, call: Call, val: Text, moved: set<nat>, stack: Text,
      kept: bool)
    requires Stored(val) && |stack| == INLINE_MAX && CallOk(call) && cl.fd == (who in moved)
    requires cl.fd || !StaysInline(call, val)
    ensures var f, o := File(DataOf(val), IsInline(StatOf(val).flags), moved), Decide(cl, call, val, stack, kept);
      Apply(f, who, call, o == FileSystem(true))
        == (f.(moved := if o == FileSystem(true) then moved + {who} else moved), o)
  {
    hide StatOf, DataOf, Overwrite, Copied, NulFree, IsInline;
    if who in moved { assert moved + {who} == moved; }
    if call.Read? && call.offset + call.size <= |DataOf(val)| {
      var b := Copied(DataOf(val), stack);
      assert b[..|DataOf(val)|] == DataOf(val);
      assert b[call.offset..call.offset + call.size] == b[..|DataOf(val)|][call.offset..call.offset + call.size];
    }
  }

  /** The value a write puts back is the overwritten file. */
  lemma {:induction false} NewValueIsApply(call: Call, val: Text, stack: Text, now: Word, junk: Text)
    requires Stored(val) && CallOk(call) && StaysInline(call, val) && |stack| == |junk| == INLINE_MAX
    ensures call.offset <= |DataOf(val)|
    ensures var val', bytes := NewValue(call, val, stack, now, junk), Overwrite(DataOf(val), call.offset, call.buf);
      Stored(val') && DataOf(val') == bytes && IsInline(StatOf(val').flags)
  {
    hide DataOf, StatOf, Overwrite, Serialise, CString, Copied, Stowed;
    var st := StatOf(val);
    var bytes := Overwrite(DataOf(val), call.offset, call.buf);
    OverwriteNulFree(DataOf(val), call.offset, call.buf);
    assert Copied(DataOf(val), stack)[..st.size] == DataOf(val);
    SerialiseRoundTrip(NewStat(call, st, now), bytes);
  }

  /** Whatever happens, the value that a write puts back fits the buffers of the next call. */
  lemma {:induction false} NewValueFits(call: Call, val: Text, stack: Text, now: Word, junk: Text)
    requires Fits(val) && CallOk(call) && StaysInline(call, val) && |stack| == |junk| == INLINE_MAX
    ensures Fits(NewValue(call, val, stack, now, junk))
  {
    hide DataOf, StatOf, Overwrite, Serialise, CString, Copied, Stowed;
    var st := StatOf(val);
    var data := Stowed(Overwrite(Copied(DataOf(val), stack)[..st.size], call.offset, call.buf), junk);
    SerialiseRoundTrip(NewStat(call, st, now), data);
  }

  /** A cut value keeps its metadata; it is a file exactly when there was no data to lose. */
  lemma {:induction false} CutIsFileIff(val: Text)
    requires Stored(val)
    ensures Fits(val[..PSTAT_SIZE]) && StatOf(val[..PSTAT_SIZE]) == StatOf(val) && DataOf(val[..PSTAT_SIZE]) == []
    ensures Stored(val[..PSTAT_SIZE]) <==> DataOf(val) == []
  {
    CutMetadata(val);
  }

  lemma {:induction false} CutMetadata(val: Text)
    requires Fits(val)
    ensures Fits(val[..PSTAT_SIZE]) && StatOf(val[..PSTAT_SIZE]) == StatOf(val) && DataOf(val[..PSTAT_SIZE]) == []
  {
    var cut := val[..PSTAT_SIZE];
    forall at: nat | at + 4 <= PSTAT_SIZE ensures WordAt(cut, at) == WordAt(val, at) {}
    assert cut[PSTAT_SIZE..] == [];
  }

  // ---- every step keeps the invariant ----

  lemma {:induction false} MovedStep(clients: seq<Client>, c: nat, x: Client)
    requires c < |clients| && (clients[c].fd ==> x.fd)
    ensures Moved(clients[c := x]) == if x.fd && !clients[c].fd then Moved(clients) + {c} else Moved(clients)
  {}

  lemma {:induction false} EventsSnoc(log: seq<Event>, e: Event, c: nat)
    ensures EventsOf(log + [e], c) == EventsOf(log, c) + if e.who == c then [e] else []
  {
    assert (log + [e])[..|log|] == log;
  }

  /** Logging a call of handle c is seen in the history of c alone. */
  lemma {:induction false} LogKeepsClients(s: State, c: nat, e: Event, ph: Phase, d: nat)
    requires c < |s.clients| && d < |s.clients| && e.who == c && (ph == Done(e) || (ph.Switching? && ph.event == e))
    requires !s.clients[c].phase.Done? && !s.clients[c].phase.Switching?
    requires EventsOf(s.log, d) == Finished(s.clients[d])
    ensures EventsOf(s.log + [e], d) == Finished(Logged(s, c, e, ph).clients[d])
  {
    EventsSnoc(s.log, e, d);
  }

  lemma {:induction false} SwitchStays(log: seq<Event>, e: Event)
    requires HasSwitch(log) || SwitchEvent(e)
    ensures HasSwitch(log + [e])
  {
    if HasSwitch(log) {
      var i :| 0 <= i < |log| && SwitchEvent(log[i]);
      assert SwitchEvent((log + [e])[i]);
    } else {
      assert SwitchEvent((log + [e])[|log|]);
    }
  }

  /** Once data is lost, what was explained before stays explained. */
  lemma {:induction false} LostStaysSound(s: State, s': State, init: File)
    requires Fits(s.val) && Fits(s'.val) && Sound(s, init) && s.lost.Some? && s'.lost == s.lost && s.log <= s'.log
    ensures Sound(s', init)
  {
    assert s'.log[..s.lost.value] == s.log[..s.lost.value];
  }

  lemma {:induction false} GetSound(s: State, c: nat, stack: Text, kept: bool, init: File)
    requires Inv(s, init) && Enabled(s, Get(c, stack, kept)) && s.lost.None?
    ensures Sound(GetNext(s, c, stack, kept), init)
  {
    hide StatOf, DataOf, Apply, StaysInline, Decide, EventsOf, Explains, Stored, CallOk, Fits, IsInline, Finished;
    var cl := s.clients[c];
    var call := cl.phase.call;
    var s' := GetNext(s, c, stack, kept);
    MovedStep(s.clients, c, s'.clients[c]);
    if cl.fd || !StaysInline(call, s.val) {
      assert ClientOk(s, c);
      var e := Event(c, call, Decide(cl, call, s.val, stack, kept));
      DecideIsApply(cl, c, call, s.val, Moved(s.clients), stack, kept);
      if cl.fd { assert Moved(s.clients) + {c} == Moved(s.clients); }
      ExplainsSnoc(init, s.log, FileOf(s), e, FileOf(s'));
    }
  }

  lemma {:induction false} GetKeepsInv(s: State, c: nat, stack: Text, kept: bool, init: File)
    requires Inv(s, init) && Enabled(s, Get(c, stack, kept))
    ensures Inv(Next(s, Get(c, stack, kept)), init)
  {
    hide StatOf, DataOf, StaysInline, Decide, EventsOf, Explains, Stored, CallOk, Fits, Sound, Finished, HasSwitch;
    var s' := GetNext(s, c, stack, kept);
    var call := s.clients[c].phase.call;
    if s.lost.None? { GetSound(s, c, stack, kept, init); } else { LostStaysSound(s, s', init); }
    assert ClientOk(s, c);
    if s.clients[c].fd || !StaysInline(call, s.val) {
      var e := Event(c, call, Decide(s.clients[c], call, s.val, stack, kept));
      if HasSwitch(s.log) || SwitchEvent(e) { SwitchStays(s.log, e); }
      forall d | 0 <= d < |s.clients| ensures ClientOk(s', d) { assert ClientOk(s, d); }
      forall d | 0 <= d < |s.clients| ensures EventsOf(s'.log, d) == Finished(s'.clients[d]) {
        LogKeepsClients(s, c, e, s'.clients[c].phase, d);
      }
    } else {
      forall d | 0 <= d < |s.clients| ensures ClientOk(s', d) { assert ClientOk(s, d); }
      forall d | 0 <= d < |s.clients| ensures EventsOf(s'.log, d) == Finished(s'.clients[d]) {
        SameFinished(s.clients[d], s'.clients[d]);
      }
    }
  }

  lemma SameFinished(x: Client, y: Client)
    requires y.returned == x.returned
    requires y.phase == x.phase || (!x.phase.Done? && !x.phase.Switching? && !y.phase.Done? && !y.phase.Switching?) ||
      (x.phase.Switching? && y.phase == Done(x.phase.event))
    ensures Finished(y) == Finished(x)
  {}

  lemma {:induction false} SwapSound(s: State, c: nat, now: Word, junk: Text, init: File)
    requires Inv(s, init) && Enabled(s, Swap(c, now, junk)) && s.lost.None? && s.clients[c].phase.version == s.version
    ensures Fits(Next(s, Swap(c, now, junk)).val) && Sound(Next(s, Swap(c, now, junk)), init)
  {
    hide StatOf, DataOf, EventsOf, Explains, CallOk, NewValue, IsInline, Finished, Overwrite, Max;
    var got := s.clients[c].phase;
    var s' := Next(s, Swap(c, now, junk));
    assert ClientOk(s, c);
    NewValueIsApply(got.call, s.val, got.stack, now, junk);
    MovedStep(s.clients, c, s'.clients[c]);
    var e := Event(c, got.call, Count(got.call.size));
    SwapIsApply(s, c, got.call);
    ExplainsSnoc(init, s.log, FileOf(s), e, FileOf(s'));
  }

  lemma {:induction false} SwapIsApply(s: State, c: nat, call: Call)
    requires Stored(s.val) && c < |s.clients| && !s.clients[c].fd && StaysInline(call, s.val) && CallOk(call)
    ensures call.offset <= |DataOf(s.val)|
    ensures Replayed(FileOf(s), Event(c, call, Count(call.size)))
      == (File(Overwrite(DataOf(s.val), call.offset, call.buf), true, Moved(s.clients)), Count(call.size))
  {
    hide StatOf, DataOf, Overwrite;
  }

  lemma {:induction false} SwapKeepsInv(s: State, c: nat, now: Word, junk: Text, init: File)
    requires Inv(s, init) && Enabled(s, Swap(c, now, junk))
    ensures Inv(Next(s, Swap(c, now, junk)), init)
  {
    hide StatOf, DataOf, StaysInline, EventsOf, Explains, Stored, CallOk, Fits, Sound, Finished, HasSwitch, NewValue;
    var got := s.clients[c].phase;
    var s' := Next(s, Swap(c, now, junk));
    assert ClientOk(s, c);
    if got.version == s.version {
      var e := Event(c, got.call, Count(got.call.size));
      NewValueFits(got.call, got.val, got.stack, now, junk);
      if s.lost.None? { SwapSound(s, c, now, junk, init); } else { LostStaysSound(s, s', init); }
      if HasSwitch(s.log) { SwitchStays(s.log, e); }
      forall d | 0 <= d < |s.clients| ensures ClientOk(s', d) { assert ClientOk(s, d); }
      forall d | 0 <= d < |s.clients| ensures EventsOf(s'.log, d) == Finished(s'.clients[d]) {
        LogKeepsClients(s, c, e, Done(e), d);
      }
    } else {
      SameFinished(s.clients[c], s'.clients[c]);
      QuietKeepsInv(s, s', c, init);
    }
  }

  /** A step of handle c that touches neither the store nor the log. */
  lemma {:induction false} QuietKeepsInv(s: State, s': State, c: nat, init: File)
    requires Inv(s, init) && c < |s.clients| && |s'.clients| == |s.clients|
    requires s' == s.(clients := s.clients[c := s'.clients[c]]) && s'.clients[c].fd == s.clients[c].fd
    requires Finished(s'.clients[c]) == Finished(s.clients[c]) && ClientOk(s', c)
    ensures Inv(s', init)
  {
    hide StatOf, DataOf, StaysInline, EventsOf, Explains, Stored, CallOk, Fits, Finished, HasSwitch;
    forall d | 0 <= d < |s.clients| ensures ClientOk(s', d) { if d != c { assert ClientOk(s, d); } }
    MovedStep(s.clients, c, s'.clients[c]);
    if s.lost.Some? { LostStaysSound(s, s', init); }
  }

  lemma {:induction false} SwitchKeepsInv(s: State, c: nat, init: File)
    requires Inv(s, init) && Enabled(s, Switch(c))
    ensures Inv(Next(s, Switch(c)), init)
  {
    hide StatOf, DataOf, StaysInline, EventsOf, Explains, Stored, CallOk, Fits, Finished, HasSwitch, Sound;
    var ph := s.clients[c].phase;
    var s' := SwitchNext(s, c);
    SameFinished(s.clients[c], s'.clients[c]);
    assert ClientOk(s, c);
    if ph.version != s.version {
      QuietKeepsInv(s, s', c, init);
    } else {
      CutMetadata(s.val);
      SwitchSound(s, c, init);
      forall d | 0 <= d < |s.clients| ensures ClientOk(s', d) { assert ClientOk(s, d); }
    }
  }

  lemma {:induction false} SwitchSound(s: State, c: nat, init: File)
    requires Inv(s, init) && Enabled(s, Switch(c)) && s.clients[c].phase.version == s.version
    ensures Fits(SwitchNext(s, c).val) && Sound(SwitchNext(s, c), init)
  {
    hide StatOf, DataOf, StaysInline, EventsOf, Explains, CallOk, Finished, HasSwitch, Fits;
    var s' := SwitchNext(s, c);
    assert ClientOk(s, c);
    CutMetadata(s.val);
    if s.lost.Some? {
      LostStaysSound(s, s', init);
    } else {
      MovedStep(s.clients, c, s'.clients[c]);
        assert s.log[..|s.log|] == s.log;
    }
  }

  lemma {:induction false} StepKeepsInv(s: State, e: Step, init: File)
    requires Inv(s, init) && Enabled(s, e)
    ensures Inv(Next(s, e), init)
  {
    hide Inv, Fits, StaysInline, CallOk;
    match e
    case Get(c, stack, kept) => GetKeepsInv(s, c, stack, kept, init);
    case Swap(c, now, junk) => SwapKeepsInv(s, c, now, junk, init);
    case Switch(c) => SwitchKeepsInv(s, c, init);
    case Start(c, _) => QuietKeepsInv(s, Next(s, e), c, init);
    case Return(c) => QuietKeepsInv(s, Next(s, e), c, init);
  }

  // ---- whole runs ----

  predicate ValidRun(s: State, run: seq<Step>)
    decreases |run|
  {
    run == [] || (Enabled(s, run[0]) && ValidRun(Next(s, run[0]), run[1..]))
  }

  function After(s: State, run: seq<Step>): State
    requires ValidRun(s, run)
    decreases |run|
  {
    if run == [] then s else After(Next(s, run[0]), run[1..])
  }

  lemma {:induction false} RunKeepsInv(s: State, run: seq<Step>, init: File)
    requires Inv(s, init) && ValidRun(s, run)
    ensures Inv(After(s, run), init)
    decreases |run|
  {
    hide Inv, Enabled, Next;
    if run != [] {
      StepKeepsInv(s, run[0], init);
      RunKeepsInv(Next(s, run[0]), run[1..], init);
    }
  }

  /** A file that nobody is using: inline with any content, or just created, empty and without the inline flag. */
  ghost predicate Initial(s: State, file: File) {
    && Stored(s.val) && s.log == [] && s.lost == None && file == FileOf(s)
    && (forall c :: 0 <= c < |s.clients| ==> s.clients[c] == Client(Idle, false, []))
  }

  /** What `pacon_create` stores: bit 0 of the flags, size 0 and no data. */
  lemma {:induction false} CreatedIsInitial(s: State, st: Stat)
    requires st.flags == 1 && st.size == 0 && s.val == Serialise(st, []) && s.log == [] && s.lost == None
    requires forall c :: 0 <= c < |s.clients| ==> s.clients[c] == Client(Idle, false, [])
    ensures Fits(s.val) && FileOf(s) == File([], false, {}) && Initial(s, FileOf(s))
  {
    hide StatOf, DataOf, Serialise;
    SerialiseRoundTrip(st, []);
  }

  /**
   * Linearizability. However gets and swaps interleave, executing the logged calls one at a time on a plain byte
   * file gives the same outcomes and the stored content, up to the switch, if any, that cuts data off the stored
   * value; each handle's returned calls are its logged calls in order; and the size word is the length of the
   * content and stays below INLINE_MAX - 1.
   */
  lemma {:induction false} InlineCallsAreLinearizable(s: State, run: seq<Step>, file: File)
    requires Initial(s, file) && ValidRun(s, run)
    ensures var s' := After(s, run);
      && Fits(s'.val)
      && (s'.lost.None? ==>
        Explains(file, s'.log, FileOf(s')) && StatOf(s'.val).size == |DataOf(s'.val)| < INLINE_MAX - 1)
      && (s'.lost.Some? ==> s'.lost.value <= |s'.log| && exists f :: Explains(file, s'.log[..s'.lost.value], f))
      && (forall c :: 0 <= c < |s'.clients| ==> EventsOf(s'.log, c) == Finished(s'.clients[c]))
  {
    hide StatOf, DataOf, After, ValidRun, Moved;
    assert Inv(s, file);
    RunKeepsInv(s, run, file);
  }

  /** Without a write that goes to the file system nothing is ever lost, so the whole run is linearizable. */
  lemma {:induction false} NoSwitchNoLoss(s: State, run: seq<Step>, file: File)
    requires Initial(s, file) && ValidRun(s, run) && !HasSwitch(After(s, run).log)
    ensures Fits(After(s, run).val) && Explains(file, After(s, run).log, FileOf(After(s, run)))
  {
    hide StatOf, DataOf, After, ValidRun, Moved, Explains;
    assert Inv(s, file) by { assert Explains(file, [], file) by { NoCalls(file); } }
    RunKeepsInv(s, run, file);
    var s' := After(s, run);
    if s'.lost.Some? { PrefixSwitch(s'.log, s'.lost.value); }
  }

  lemma {:induction false} PrefixSwitch(log: seq<Event>, n: nat)
    requires n <= |log| && HasSwitch(log[..n])
    ensures HasSwitch(log)
  {
    var i :| 0 <= i < n && SwitchEvent(log[..n][i]);
    assert SwitchEvent(log[i]);
  }

  lemma NoCalls(file: File)
    ensures Explains(file, [], file)
  {}

  /** The step of a switch leaves a file behind exactly when its swap conflicts or the file was empty. */
  lemma {:induction false} SwitchKeepsFileIff(s: State, c: nat)
    requires Stored(s.val) && Enabled(s, Switch(c)) && ClientOk(s, c)
    ensures Stored(Next(s, Switch(c)).val) <==> s.clients[c].phase.version != s.version || DataOf(s.val) == []
  {
    hide StatOf, DataOf, Fits, Stored;
    CutIsFileIff(s.val);
  }

  /** A call takes effect between its start and its return: only then is it logged, and never twice. */
  lemma {:induction false} EffectInsideCall(s: State, e: Step)
    requires Enabled(s, e)
    ensures var s' := Next(s, e);
      || s'.log == s.log
      || (var before, after := s.clients[e.c].phase, s'.clients[e.c].phase;
          && (before.Called? || before.Got?) && (after.Done? || after.Switching?) && s'.log == s.log + [after.event]
          && after.event.who == e.c && after.event.call == before.call)
  {
    hide StaysInline, Decide, NewValue, Max, Fits;
  }

  // ---- what a lost value does to later readers ----

  /** A plain zero-free file never answers a zero byte, and stays zero-free. */
  lemma {:induction false} NoZeroRead(f: File, e: Event)
    requires NulFree(f.bytes) && CallOk(e.call)
    ensures NulFree(Replayed(f, e).0.bytes)
    ensures Replayed(f, e).1.Bytes? ==> NulFree(Replayed(f, e).1.t)
  {
    if e.call.Write? && e.call.offset <= |f.bytes| { OverwriteNulFree(f.bytes, e.call.offset, e.call.buf); }
  }

  lemma {:induction false} NoZeroRun(f: File, log: seq<Event>, final: File, i: nat)
    requires NulFree(f.bytes) && Explains(f, log, final) && i < |log| && log[i].outcome.Bytes?
    requires forall j :: 0 <= j < |log| ==> CallOk(log[j].call)
    ensures NulFree(log[i].outcome.t)
    decreases |log|
  {
    hide Replayed;
    NoZeroRead(f, log[0]);
    if i > 0 { NoZeroRun(Replayed(f, log[0]).0, log[1..], final, i - 1); }
  }

  /** After the cut the size word is still there, but the first byte of the buffer is the terminator. */
  lemma {:induction false} ReadAfterCut(s: State, c: nat, stack: Text, val: Text)
    requires Stored(val) && DataOf(val) != [] && s.val == val[..PSTAT_SIZE] && Enabled(s, Get(c, stack, true))
    requires s.clients[c].phase == Called(Read(1, 0)) && !s.clients[c].fd
    ensures var s' := Next(s, Get(c, stack, true)); s'.log == s.log + [Event(c, Read(1, 0), Bytes([0]))]
  {
    hide StatOf, DataOf, Fits, NulFree;
    CutIsFileIff(val);
    var b := Copied([], stack);
    assert b[0..1] == [b[0]];
  }

  /** A write past the inline limit switches, and its swap cuts the value. */
  lemma {:induction false} SwitchRun(s: State, file: File, buf: Text, stack: Text)
    requires Initial(s, file) && file.isInline && file.bytes != [] && |s.clients| >= 2
    requires NulFree(buf) && |buf| >= INLINE_MAX && |stack| == INLINE_MAX
    ensures Enabled(s, Start(0, Write(buf, |buf|, 0)))
    ensures var s1 := Next(s, Start(0, Write(buf, |buf|, 0)));
      && Enabled(s1, Get(0, stack, true))
      && var s2 := Next(s1, Get(0, stack, true));
      && Enabled(s2, Switch(0))
      && var s3 := Next(s2, Switch(0));
      && s3.val == s.val[..PSTAT_SIZE] && s3.log == [Event(0, Write(buf, |buf|, 0), FileSystem(true))]
      && |s3.clients| == |s.clients| && s3.clients[1] == s.clients[1] && Fits(s3.val)
  {
    hide StatOf, DataOf, NulFree;
    CutMetadata(s.val);
  }

  /** Another handle then reads the first byte. */
  lemma {:induction false} ReadRun(s: State, s3: State, file: File, stack: Text)
    requires Initial(s, file) && file.bytes != [] && |s3.clients| >= 2 && |stack| == INLINE_MAX
    requires s3.val == s.val[..PSTAT_SIZE] && Fits(s3.val) && s3.clients[1] == Client(Idle, false, [])
    ensures Enabled(s3, Start(1, Read(1, 0)))
    ensures var s4 := Next(s3, Start(1, Read(1, 0)));
      && Enabled(s4, Get(1, stack, true))
      && Next(s4, Get(1, stack, true)).log == s3.log + [Event(1, Read(1, 0), Bytes([0]))]
  {
    hide StatOf, DataOf, Fits, GetNext;
    ReadAfterCut(Next(s3, Start(1, Read(1, 0))), 1, stack, s.val);
  }

  /** Running one step and then the rest. */
  lemma RunStep(s: State, e: Step, rest: seq<Step>)
    requires Enabled(s, e) && ValidRun(Next(s, e), rest)
    ensures ValidRun(s, [e] + rest) && After(s, [e] + rest) == After(Next(s, e), rest)
  {
    hide Enabled, Next;
    assert ([e] + rest)[1..] == rest;
  }

  lemma {:induction false} BreakingRun(s: State, file: File, buf: Text, a: Text, b: Text)
    requires Initial(s, file) && file.isInline && file.bytes != [] && |s.clients| >= 2
    requires NulFree(buf) && |buf| >= INLINE_MAX && |a| == |b| == INLINE_MAX
    ensures var write, read := Write(buf, |buf|, 0), Read(1, 0);
      var late := [Start(1, read)] + ([Get(1, b, true)] + []);
      var run := [Start(0, write)] + ([Get(0, a, true)] + ([Switch(0)] + late));
      && ValidRun(s, run)
      && After(s, run).log == [Event(0, write, FileSystem(true)), Event(1, read, Bytes([0]))]
  {
    hide Next, Enabled, Fits, FileOf, NulFree, Stored;
    var write, read := Write(buf, |buf|, 0), Read(1, 0);
    SwitchRun(s, file, buf, a);
    var s1 := Next(s, Start(0, write));
    var s2 := Next(s1, Get(0, a, true));
    var s3 := Next(s2, Switch(0));
    ReadRun(s, s3, file, b);
    var s4 := Next(s3, Start(1, read));
    hide Initial;
    RunStep(s4, Get(1, b, true), []);
    RunStep(s3, Start(1, read), [Get(1, b, true)] + []);
    RunStep(s2, Switch(0), [Start(1, read)] + ([Get(1, b, true)] + []));
    RunStep(s1, Get(0, a, true), [Switch(0)] + ([Start(1, read)] + ([Get(1, b, true)] + [])));
    RunStep(s, Start(0, write), [Get(0, a, true)] + ([Switch(0)] + ([Start(1, read)] + ([Get(1, b, true)] + []))));
  }

  /**
   * For every non-empty inline file: a write past the inline limit, followed by another handle's read of the first
   * byte, answers a zero byte, which no execution of these calls on a plain file does.
   */
  lemma {:induction false} SwitchBreaksFile(s: State, file: File, buf: Text, a: Text, b: Text, final: File)
    requires Initial(s, file) && file.isInline && file.bytes != [] && |s.clients| >= 2
    requires NulFree(buf) && |buf| >= INLINE_MAX && |a| == |b| == INLINE_MAX
    ensures var write, read := Write(buf, |buf|, 0), Read(1, 0);
      var run := [Start(0, write), Get(0, a, true), Switch(0), Start(1, read), Get(1, b, true)];
      ValidRun(s, run) && !Explains(file, After(s, run).log, final)
  {
    hide ValidRun, After, Explains, Fits, StatOf, DataOf;
    BreakingRun(s, file, buf, a, b);
    var write, read := Write(buf, |buf|, 0), Read(1, 0);
    assert [Start(0, write)] + ([Get(0, a, true)] + ([Switch(0)] + ([Start(1, read)] + ([Get(1, b, true)] + []))))
      == [Start(0, write), Get(0, a, true), Switch(0), Start(1, read), Get(1, b, true)];
    NotExplained(file, [Event(0, write, FileSystem(true)), Event(1, read, Bytes([0]))], final);
  }

  lemma {:induction false} NotExplained(file: File, log: seq<Event>, final: File)
    requires NulFree(file.bytes) && |log| == 2 && log[1].outcome == Bytes([0])
    requires CallOk(log[0].call) && CallOk(log[1].call)
    ensures !Explains(file, log, final)
  {
    hide Explains, CallOk;
    assert log[1].outcome.t[0] == 0;
    if Explains(file, log, final) { NoZeroRun(file, log, final, 1); }
  }
}
