/**
 * A topic (queue/uTopic.go): an append-only log, the lines that consume it, the records it
 * keeps in the store, and the garbage collector. Each operation is one atomic step, except
 * that `clean` is split into one step per deleted message so that it interleaves with the rest.
 * A step that writes to the store also has the outcomes in which a write or delete fails.
 */
module TopicSpec {
  import opened Base
  import opened Decimal
  import opened StoreKeys
  import opened LineSpec
  import opened LineHistory
  import opened Wire

  datatype TopicState = TopicState(
    name: Bytes,
    persist: bool,
    head: nat,
    tail: nat,
    lines: map<Bytes, Tracked>,
    log: seq<Bytes>,      // every message pushed so far, in order
    clock: int,           // the time of the latest step
    pass: Option<nat>,    // the `ending` of the clean pass in progress, if there is one
    floor: nat)           // one past the last message deleted; `empty` can move the head above it

  /** A topic and the records of the whole store. */
  datatype Sys = Sys(t: TopicState, recs: Records)

  /** The messages of a topic that the store holds. */
  ghost function MsgsOf(t: Bytes, recs: Records): Messages {
    imap id: nat | MsgRec(t, id) in recs :: recs[MsgRec(t, id)]
  }

  ghost function Msgs(s: Sys): Messages {
    MsgsOf(s.t.name, s.recs)
  }

  // ----- Records -----

  function StoreOf(l: LineState): LineStore {
    LineStore(l.head, l.ihead, l.inflight)
  }

  function LineBytes(l: LineState): Bytes {
    MarshalLine(StoreOf(l))
  }

  /** A stand-in for the text of a `time.Duration`: any lossless one will do. */
  function DurationText(d: int): Bytes {
    Itoa(d)
  }

  ghost predicate Enumerates(names: seq<Bytes>, keys: set<Bytes>) {
    && (forall i, j :: 0 <= i < j < |names| ==> names[i] != names[j])
    && (forall n :: n in keys <==> n in names)
  }

  /** The topic record lists the lines in whatever order the map is iterated. */
  ghost predicate IsTopicBytes(b: Bytes, keys: set<Bytes>, persist: bool) {
    exists names :: Enumerates(names, keys) && b == MarshalTopic(TopicStore(names, persist))
  }

  // ----- Pushing -----

  ghost function PushOk(s: Sys, data: Bytes): Sys {
    Sys(s.t.(tail := s.t.tail + 1, log := s.t.log + [data]),
        s.recs[MsgRec(s.t.name, s.t.tail) := data][TailRec(s.t.name) := PutUint64(s.t.tail + 1)])
  }

  /** The message could not be written, or the tail could not be saved after it. */
  ghost predicate PushFailed(s: Sys, data: Bytes, s': Sys) {
    s' == s || s' == s.(recs := s.recs[MsgRec(s.t.name, s.t.tail) := data])
  }

  ghost predicate PushNext(s: Sys, data: Bytes, s': Sys) {
    s' == PushOk(s, data) || PushFailed(s, data, s')
  }

  /** The records after writing messages at ids `from, from + 1, ...`. */
  ghost function WriteMsgs(recs: Records, t: Bytes, from: nat, datas: seq<Bytes>): Records
    decreases |datas|
  {
    if datas == [] then recs
    else
      var n := |datas| - 1;
      WriteMsgs(recs, t, from, datas[..n])[MsgRec(t, from + n) := datas[n]]
  }

  ghost function MPushOk(s: Sys, datas: seq<Bytes>): Sys {
    var tail' := s.t.tail + |datas|;
    Sys(s.t.(tail := tail', log := s.t.log + datas),
        WriteMsgs(s.recs, s.t.name, s.t.tail, datas)[TailRec(s.t.name) := PutUint64(tail')])
  }

  /** The first `k` messages were written; then the next one, or the tail, could not be. */
  ghost predicate MPushStopped(s: Sys, datas: seq<Bytes>, k: nat, s': Sys) {
    k <= |datas| && s' == s.(recs := WriteMsgs(s.recs, s.t.name, s.t.tail, datas[..k]))
  }

  ghost predicate MPushFailed(s: Sys, datas: seq<Bytes>, s': Sys) {
    exists k :: MPushStopped(s, datas, k, s')
  }

  ghost predicate MPushNext(s: Sys, datas: seq<Bytes>, s': Sys) {
    s' == MPushOk(s, datas) || MPushFailed(s, datas, s')
  }

  // ----- Consuming -----

  function SetLine(t: TopicState, n: Bytes, x: Tracked): TopicState {
    t.(lines := t.lines[n := x])
  }

  ghost function PopStep(s: Sys, n: Bytes, now: int): Sys
    requires n in s.t.lines
  {
    s.(t := SetLine(s.t, n, PopTracked(s.t.lines[n], s.t.tail, Msgs(s), now)).(clock := now))
  }

  ghost function MPopStep(s: Sys, n: Bytes, k: int, now: int): Sys
    requires n in s.t.lines
  {
    s.(t := SetLine(s.t, n, MPopTracked(s.t.lines[n], s.t.tail, Msgs(s), now, k)).(clock := now))
  }

  function ConfirmStep(s: Sys, n: Bytes, id: nat): Sys
    requires n in s.t.lines
  {
    s.(t := SetLine(s.t, n, ConfirmTracked(s.t.lines[n], id)))
  }

  // ----- Lines -----

  predicate IsLineOf(k: Key, t: Bytes, names: set<Bytes>) {
    k.LineRec? && k.topic == t && k.line in names
  }

  /** Writes the stores of the lines named in `names`. */
  ghost function ExportLines(recs: Records, t: TopicState, names: set<Bytes>): Records
    requires names <= t.lines.Keys
  {
    imap k: Key | k in recs || IsLineOf(k, t.name, names) ::
      if IsLineOf(k, t.name, names) then LineBytes(t.lines[k.line].line) else recs[k]
  }

  ghost predicate EmptyLineNext(s: Sys, n: Bytes, s': Sys)
    requires n in s.t.lines
  {
    && s'.t == SetLine(s.t, n, EmptyTracked(s.t.lines[n], s.t.tail))
    && (s'.recs == s.recs || s'.recs == ExportLines(s.recs, s'.t, {n}))
  }

  /** The lines named in `names` emptied, the others as they were. */
  function EmptiedLines(t: TopicState, names: set<Bytes>): TopicState {
    t.(lines := map n | n in t.lines :: if n in names then EmptyTracked(t.lines[n], t.tail) else t.lines[n])
  }

  /** The lines in `done` have been emptied and saved. */
  ghost function EmptySoFar(s: Sys, done: set<Bytes>): Sys
    requires done <= s.t.lines.Keys
  {
    var t1 := EmptiedLines(s.t, done);
    Sys(t1, ExportLines(s.recs, t1, done))
  }

  /** One line emptied, and saved if the store allowed. */
  ghost function EmptyAndSave(s: Sys, n: Bytes, saved: bool): Sys
    requires n in s.t.lines
  {
    var x := EmptyTracked(s.t.lines[n], s.t.tail);
    Sys(SetLine(s.t, n, x), if saved then s.recs[LineRec(s.t.name, n) := LineBytes(x.line)] else s.recs)
  }

  /** The lines named, emptied and saved one after the other. */
  ghost function EmptyEach(s: Sys, names: seq<Bytes>): (s': Sys)
    requires forall n :: n in names ==> n in s.t.lines
    ensures s'.t.lines.Keys == s.t.lines.Keys
  {
    if names == [] then s
    else
      var k := |names| - 1;
      EmptyAndSave(EmptyEach(s, names[..k]), names[k], true)
  }

  /** The lines were emptied and saved one by one until `last` could not be saved. */
  ghost predicate EmptyStopped(s: Sys, done: set<Bytes>, last: Bytes, s': Sys) {
    done <= s.t.lines.Keys && last in s.t.lines.Keys - done && s' == EmptyAndSave(EmptySoFar(s, done), last, false)
  }

  /** All lines were emptied and saved, and the head moved to the tail; `headSaved` if that was saved too. */
  ghost predicate EmptyDone(s: Sys, headSaved: bool, s': Sys) {
    var s1 := EmptySoFar(s, s.t.lines.Keys);
    && s'.t == s1.t.(head := s.t.tail)
    && s'.recs == if headSaved then s1.recs[HeadRec(s.t.name) := PutUint64(s.t.tail)] else s1.recs
  }

  /** The end of `empty` by itself: other steps may come between it and the emptying of the lines. */
  ghost predicate EmptyHeadNext(s: Sys, headSaved: bool, s': Sys) {
    && s'.t == s.t.(head := s.t.tail)
    && s'.recs == if headSaved then s.recs[HeadRec(s.t.name) := PutUint64(s.t.tail)] else s.recs
  }

  ghost predicate EmptyTopicNext(s: Sys, s': Sys) {
    || (exists done, last :: EmptyStopped(s, done, last, s'))
    || EmptyDone(s, true, s')
    || EmptyDone(s, false, s')
  }

  ghost predicate EmptyTopicOk(s: Sys, s': Sys) {
    EmptyDone(s, true, s')
  }

  function StartOf(t: TopicState): nat {
    if t.persist then 0 else t.head
  }

  function WithNewLine(t: TopicState, n: Bytes, recycle: int): TopicState {
    SetLine(t, n, NewTracked(recycle, StartOf(t)))
  }

  /** The records of the new line are written, as far as `upTo` goes: its store, its recycle time. */
  ghost function NewLineRecs(s: Sys, n: Bytes, recycle: int, upTo: nat): Records {
    var recs1 := ExportLines(s.recs, WithNewLine(s.t, n, recycle), {n});
    if upTo == 0 then s.recs
    else if upTo == 1 then recs1
    else recs1[RecycleRec(s.t.name, n) := DurationText(recycle)]
  }

  ghost predicate CreateLineOk(s: Sys, n: Bytes, recycle: int, s': Sys) {
    && n !in s.t.lines && s'.t == WithNewLine(s.t, n, recycle)
    && exists b :: IsTopicBytes(b, s'.t.lines.Keys, s.t.persist) &&
         s'.recs == NewLineRecs(s, n, recycle, 2)[TopicRec(s.t.name) := b]
  }

  /** The line exists already, or one of the writes failed. */
  ghost predicate CreateLineFailed(s: Sys, n: Bytes, recycle: int, s': Sys) {
    s' == s || (n !in s.t.lines && s'.t == s.t && exists upTo: nat :: s'.recs == NewLineRecs(s, n, recycle, upTo))
  }

  ghost predicate CreateLineNext(s: Sys, n: Bytes, recycle: int, s': Sys) {
    CreateLineOk(s, n, recycle, s') || CreateLineFailed(s, n, recycle, s')
  }

  /** The line left and the topic was saved; its two records were deleted, as far as the store allowed. */
  ghost predicate RemoveLineOk(s: Sys, n: Bytes, s': Sys) {
    && s'.t == s.t.(lines := s.t.lines - {n})
    && exists b, gone: set<Key> ::
         && IsTopicBytes(b, s'.t.lines.Keys, s.t.persist)
         && gone <= {LineRec(s.t.name, n), RecycleRec(s.t.name, n)}
         && s'.recs == s.recs[TopicRec(s.t.name) := b] - gone
  }

  ghost predicate RemoveLineNext(s: Sys, n: Bytes, s': Sys) {
    s' == s || RemoveLineOk(s, n, s')
  }

  ghost predicate BackupNext(s: Sys, s': Sys) {
    exists saved :: saved <= s.t.lines.Keys && s' == s.(recs := ExportLines(s.recs, s.t, saved))
  }

  // ----- The garbage collector -----

  /** `getEnd`: the head if there are no lines, else the smallest of the tail and all low marks. */
  ghost predicate IsEnd(t: TopicState, end: nat) {
    if t.lines == map[] then end == t.head
    else
      && end <= t.tail
      && (forall n :: n in t.lines ==> end <= LowMark(t.lines[n].line))
      && (end == t.tail || exists n :: n in t.lines && end == LowMark(t.lines[n].line))
  }

  /** A pass is under way and has something left to delete. */
  predicate Sweeping(t: TopicState) {
    t.pass.Some? && t.head < t.pass.value
  }

  ghost predicate CleanBeginNext(s: Sys, s': Sys) {
    && !s.t.persist && s.t.pass == None
    && exists end :: IsEnd(s.t, end) && s' == s.(t := s.t.(pass := Some(end)))
  }

  /** One message is deleted, the head moves over it and is saved; any failure ends the pass. */
  ghost predicate CleanStepNext(s: Sys, s': Sys) {
    && Sweeping(s.t)
    && var recs1 := s.recs - {MsgRec(s.t.name, s.t.head)};
       var t1 := s.t.(head := s.t.head + 1, floor := s.t.head + 1);
       || s' == s.(t := s.t.(pass := None))
       || s' == Sys(t1, recs1[HeadRec(s.t.name) := PutUint64(t1.head)])
       || s' == Sys(t1.(pass := None), recs1)
  }

  ghost predicate CleanEndNext(s: Sys, s': Sys) {
    s' == s.(t := s.t.(pass := None))
  }

  /** `k` steps of a pass, one after the other. */
  ghost predicate CleanRun(s: Sys, k: nat, s': Sys) {
    if k == 0 then s' == s else exists m :: CleanRun(s, k - 1, m) && CleanStepNext(m, s')
  }

  /** A whole pass with nothing in between. */
  ghost predicate CleanPass(s: Sys, s': Sys) {
    exists s1, k: nat, s2 :: CleanBeginNext(s, s1) && CleanRun(s1, k, s2) && CleanEndNext(s2, s')
  }

  // ----- Removing the topic -----

  predicate Owned(k: Key, t: Bytes) {
    !k.QueueIndex? && k.topic == t
  }

  /** The records `remove` deletes. */
  predicate Removes(t: TopicState, k: Key) {
    Owned(k, t.name) &&
    match k
    case LineRec(_, l) => l in t.lines
    case RecycleRec(_, l) => l in t.lines
    case MsgRec(_, id) => t.head <= id < t.tail
    case _ => true
  }

  ghost function Minus(recs: Records, gone: iset<Key>): Records {
    imap k: Key | k in recs && k !in gone :: recs[k]
  }

  ghost function RemovedKeys(t: TopicState): iset<Key> {
    iset k: Key | Removes(t, k)
  }

  ghost function Removed(s: Sys): Records {
    Minus(s.recs, RemovedKeys(s.t))
  }

  // ----- The transition system -----

  /** Nothing the topic owns has changed: what another topic's step looks like from here. */
  ghost predicate SameOwned(t: Bytes, recs: Records, recs': Records) {
    forall k: Key :: Owned(k, t) ==> (k in recs <==> k in recs') && (k in recs ==> recs[k] == recs'[k])
  }

  datatype Op =
    | DoPush(data: Bytes)
    | DoMPush(datas: seq<Bytes>)
    | DoPop(line: Bytes, now: int)
    | DoMPop(line: Bytes, n: int, now: int)
    | DoConfirm(line: Bytes, id: nat)
    | DoEmptyLine(line: Bytes)
    | DoEmptyTopic
    | DoEmptyHead
    | DoCreateLine(line: Bytes, recycle: int)
    | DoRemoveLine(line: Bytes)
    | DoBackup
    | DoCleanBegin
    | DoCleanStep
    | DoCleanEnd
    | DoElsewhere

  predicate Empties(op: Op) {
    op.DoEmptyTopic? || op.DoEmptyHead?
  }

  predicate IsInt64(x: int) {
    -I64 <= x < I64
  }

  /**
   * Time does not run backwards and deadlines fit an int64. Emptying the topic takes the head
   * lock, which a pass holds. A line is not created while a pass has something left to delete
   * (module Joining says what happens when it is).
   */
  predicate Enabled(t: TopicState, op: Op) {
    && (op.DoPop? || op.DoMPop? ==>
          t.clock <= op.now && (op.line in t.lines ==> IsInt64(op.now + t.lines[op.line].line.recycle)))
    && (op.DoCreateLine? ==> IsInt64(op.recycle))
    && (op.DoCreateLine? ==> !Sweeping(t))
    && (Empties(op) ==> t.pass == None)
  }

  ghost predicate Next(s: Sys, op: Op, s': Sys) {
    Enabled(s.t, op) &&
    match op
    case DoPush(data) => PushNext(s, data, s')
    case DoMPush(datas) => MPushNext(s, datas, s')
    case DoPop(n, now) => if n in s.t.lines then s' == PopStep(s, n, now) else s' == s
    case DoMPop(n, k, now) => if n in s.t.lines then s' == MPopStep(s, n, k, now) else s' == s
    case DoConfirm(n, id) => if n in s.t.lines then s' == ConfirmStep(s, n, id) else s' == s
    case DoEmptyLine(n) => if n in s.t.lines then EmptyLineNext(s, n, s') else s' == s
    case DoEmptyTopic => EmptyTopicNext(s, s')
    case DoEmptyHead => EmptyHeadNext(s, true, s') || EmptyHeadNext(s, false, s')
    case DoCreateLine(n, recycle) => CreateLineNext(s, n, recycle, s')
    case DoRemoveLine(n) => if n in s.t.lines then RemoveLineNext(s, n, s') else s' == s
    case DoBackup => BackupNext(s, s')
    case DoCleanBegin => CleanBeginNext(s, s')
    case DoCleanStep => CleanStepNext(s, s')
    case DoCleanEnd => CleanEndNext(s, s')
    case DoElsewhere => s'.t == s.t && SameOwned(s.t.name, s.recs, s'.recs)
  }

  /** A topic as `newTopic` leaves it. */
  ghost predicate Init(s: Sys) {
    && s.t.head == s.t.tail == s.t.floor == 0 && s.t.lines == map[] && s.t.log == [] && s.t.pass == None
    && HeadRec(s.t.name) in s.recs && s.recs[HeadRec(s.t.name)] == PutUint64(0)
    && TailRec(s.t.name) in s.recs && s.recs[TailRec(s.t.name)] == PutUint64(0)
  }

  /** A run: states, one more than the operations between them. */
  ghost predicate IsRun(states: seq<Sys>, ops: seq<Op>) {
    && |states| == |ops| + 1
    && Init(states[0])
    && forall i :: 0 <= i < |ops| ==> Next(states[i], ops[i], states[i + 1])
  }

  // ----- The invariant -----

  /** The first id the store must still hold. */
  function Kept(t: TopicState): nat {
    if t.persist then 0 else t.floor
  }

  ghost predicate LineOk(t: TopicState, x: Tracked) {
    && TrackedInv(x, t.tail, t.clock)
    && Kept(t) <= LowMark(x.line)
    && (Sweeping(t) ==> t.pass.value <= LowMark(x.line))
  }

  ghost predicate LinesOk(t: TopicState) {
    forall n :: n in t.lines ==> LineOk(t, t.lines[n])
  }

  /** Every message from `Kept` on is stored with exactly the bytes that were pushed. */
  ghost predicate Stored(s: Sys) {
    s.t.tail <= |s.t.log| &&
    forall id: nat :: Kept(s.t) <= id < s.t.tail ==>
      MsgRec(s.t.name, id) in s.recs && s.recs[MsgRec(s.t.name, id)] == s.t.log[id]
  }

  ghost predicate Bounded(t: TopicState) {
    && t.floor <= t.head <= t.tail == |t.log|
    && (t.pass.Some? ==> !t.persist && t.pass.value <= t.tail)
  }

  ghost predicate TailSaved(s: Sys) {
    TailRec(s.t.name) in s.recs && s.recs[TailRec(s.t.name)] == PutUint64(s.t.tail)
  }

  /** The times of a line fit the int64 they have in the source. */
  predicate TimesFit(l: LineState) {
    IsInt64(l.recycle) && forall i :: 0 <= i < |l.inflight| ==> IsInt64(l.inflight[i].exptime)
  }

  ghost predicate TimesOk(t: TopicState) {
    forall n :: n in t.lines ==> TimesFit(t.lines[n].line)
  }

  ghost predicate Inv(s: Sys) {
    Bounded(s.t) && LinesOk(s.t) && Stored(s) && TailSaved(s)
  }
}
