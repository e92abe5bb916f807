/**
 * The garbage collector is safe: in every state of every run the store holds, byte for byte,
 * every message that some line can still deliver, so no pop ever misses a read.
 */
module TopicProofs {
  import opened Base
  import opened StoreKeys
  import opened LineSpec
  import opened LineProofs
  import opened LineHistory
  import opened Wire
  import opened TopicSpec

  // ----- Reads never miss -----

  lemma StoredCovers(s: Sys, x: Tracked)
    requires Stored(s) && Kept(s.t) <= LowMark(x.line)
    ensures Covers(Msgs(s), x.line, s.t.tail)
  {
  }

  // ----- One line changes -----

  lemma LineOkMonotone(t: TopicState, t': TopicState, x: Tracked)
    requires LineOk(t, x)
    requires t.head <= t'.head && t.tail <= t'.tail && t.clock <= t'.clock && Kept(t') <= Kept(t)
    requires t'.pass == None || t'.pass == t.pass
    ensures LineOk(t', x)
  {
    TrackedMonotone(x, t.tail, t.clock, t'.tail, t'.clock);
  }

  lemma LinesOkMonotone(t: TopicState, t': TopicState)
    requires LinesOk(t) && t'.lines == t.lines
    requires t.head <= t'.head && t.tail <= t'.tail && t.clock <= t'.clock && Kept(t') <= Kept(t)
    requires t'.pass == None || t'.pass == t.pass
    ensures LinesOk(t')
  {
    forall n | n in t'.lines
      ensures LineOk(t', t'.lines[n])
    {
      LineOkMonotone(t, t', t.lines[n]);
    }
  }

  lemma SetLineOk(t: TopicState, n: Bytes, x: Tracked)
    requires LinesOk(t) && LineOk(t, x)
    ensures LinesOk(SetLine(t, n, x))
  {
    forall m | m in SetLine(t, n, x).lines
      ensures LineOk(SetLine(t, n, x), SetLine(t, n, x).lines[m])
    {
      LineOkMonotone(t, SetLine(t, n, x), if m == n then x else t.lines[m]);
    }
  }

  // ----- Records that are not messages -----

  /** The messages below `limit` and the saved tail are the same in both stores. */
  ghost predicate SameLog(t: Bytes, limit: nat, recs: Records, recs': Records) {
    && (forall id: nat :: id < limit && MsgRec(t, id) in recs ==>
          MsgRec(t, id) in recs' && recs'[MsgRec(t, id)] == recs[MsgRec(t, id)])
    && (TailRec(t) in recs ==> TailRec(t) in recs' && recs'[TailRec(t)] == recs[TailRec(t)])
  }

  lemma SameLogKeeps(s: Sys, s': Sys)
    requires Stored(s) && TailSaved(s) && SameLog(s.t.name, s.t.tail, s.recs, s'.recs)
    requires s'.t.name == s.t.name && s'.t.tail == s.t.tail && s'.t.log == s.t.log && Kept(s.t) <= Kept(s'.t)
    ensures Stored(s') && TailSaved(s')
  {
  }

  lemma ExportSameLog(recs: Records, t: TopicState, names: set<Bytes>)
    requires names <= t.lines.Keys
    ensures SameLog(t.name, t.tail, recs, ExportLines(recs, t, names))
  {
  }

  predicate IsMsgIn(k: Key, t: Bytes, lo: nat, hi: nat) {
    k.MsgRec? && k.topic == t && lo <= k.id < hi
  }

  /** Writing messages writes exactly those messages. */
  lemma {:induction false} WriteMsgsExact(recs: Records, t: Bytes, from: nat, datas: seq<Bytes>)
    ensures forall k: Key :: k in WriteMsgs(recs, t, from, datas) <==> k in recs || IsMsgIn(k, t, from, from + |datas|)
    ensures forall k: Key :: IsMsgIn(k, t, from, from + |datas|) ==>
              WriteMsgs(recs, t, from, datas)[k] == datas[k.id - from]
    ensures forall k: Key :: k in recs && !IsMsgIn(k, t, from, from + |datas|) ==>
              WriteMsgs(recs, t, from, datas)[k] == recs[k]
    decreases |datas|
  {
    if datas != [] {
      WriteMsgsExact(recs, t, from, datas[..|datas| - 1]);
    }
  }

  lemma WriteSameLog(recs: Records, t: Bytes, tail: nat, datas: seq<Bytes>)
    ensures SameLog(t, tail, recs, WriteMsgs(recs, t, tail, datas))
  {
    WriteMsgsExact(recs, t, tail, datas);
  }

  // ----- Each step -----

  lemma PushInv(s: Sys, data: Bytes, s': Sys)
    requires Inv(s) && PushNext(s, data, s')
    ensures Inv(s')
  {
    if s' == PushOk(s, data) {
      LinesOkMonotone(s.t, s'.t);
    }
  }

  lemma MPushStored(s: Sys, datas: seq<Bytes>)
    requires Stored(s) && s.t.tail == |s.t.log|
    ensures Stored(MPushOk(s, datas)) && TailSaved(MPushOk(s, datas))
  {
    WriteMsgsExact(s.recs, s.t.name, s.t.tail, datas);
  }

  lemma MPushInv(s: Sys, datas: seq<Bytes>, s': Sys)
    requires Inv(s) && MPushNext(s, datas, s')
    ensures Inv(s')
  {
    if s' == MPushOk(s, datas) {
      MPushStored(s, datas);
      LinesOkMonotone(s.t, s'.t);
    } else {
      var k: nat :| MPushStopped(s, datas, k, s');
      WriteSameLog(s.recs, s.t.name, s.t.tail, datas[..k]);
      SameLogKeeps(s, s');
    }
  }

  lemma PopLineOk(s: Sys, n: Bytes, now: int)
    requires Inv(s) && n in s.t.lines && s.t.clock <= now
    ensures LineOk(s.t.(clock := now), PopTracked(s.t.lines[n], s.t.tail, Msgs(s), now))
  {
    var x := s.t.lines[n];
    StoredCovers(s, x);
    TrackedMonotone(x, s.t.tail, s.t.clock, s.t.tail, now);
    PopKeeps(x, s.t.tail, Msgs(s), now);
  }

  lemma PopStepInv(s: Sys, n: Bytes, now: int)
    requires Inv(s) && n in s.t.lines && s.t.clock <= now
    ensures Inv(PopStep(s, n, now))
  {
    PopLineOk(s, n, now);
    LinesOkMonotone(s.t, s.t.(clock := now));
    SetLineOk(s.t.(clock := now), n, PopTracked(s.t.lines[n], s.t.tail, Msgs(s), now));
  }

  lemma MPopLineOk(s: Sys, n: Bytes, k: int, now: int)
    requires Inv(s) && n in s.t.lines && s.t.clock <= now
    ensures LineOk(s.t.(clock := now), MPopTracked(s.t.lines[n], s.t.tail, Msgs(s), now, k))
  {
    var x := s.t.lines[n];
    StoredCovers(s, x);
    TrackedMonotone(x, s.t.tail, s.t.clock, s.t.tail, now);
    MPopTrackedInv(x, s.t.tail, Msgs(s), now, k);
  }

  lemma MPopStepInv(s: Sys, n: Bytes, k: int, now: int)
    requires Inv(s) && n in s.t.lines && s.t.clock <= now
    ensures Inv(MPopStep(s, n, k, now))
  {
    MPopLineOk(s, n, k, now);
    LinesOkMonotone(s.t, s.t.(clock := now));
    SetLineOk(s.t.(clock := now), n, MPopTracked(s.t.lines[n], s.t.tail, Msgs(s), now, k));
  }

  lemma ConfirmStepInv(s: Sys, n: Bytes, id: nat)
    requires Inv(s) && n in s.t.lines
    ensures Inv(ConfirmStep(s, n, id))
  {
    var x := s.t.lines[n];
    ConfirmTrackedInv(x, id, s.t.tail, s.t.clock);
    LowMarkMonotone(x.line, s.t.tail, imap[], s.t.clock, id);
    assert LineOk(s.t, ConfirmTracked(x, id));
    SetLineOk(s.t, n, ConfirmTracked(x, id));
  }

  lemma EmptyLineOk(t: TopicState, x: Tracked)
    requires LineOk(t, x) && Bounded(t)
    ensures LineOk(t, EmptyTracked(x, t.tail))
    ensures LowMark(EmptyTracked(x, t.tail).line) == t.tail
  {
    EmptyTrackedInv(x, t.tail, t.clock);
  }

  lemma EmptyLineInv(s: Sys, n: Bytes, s': Sys)
    requires Inv(s) && n in s.t.lines && EmptyLineNext(s, n, s')
    ensures Inv(s')
  {
    EmptyLineOk(s.t, s.t.lines[n]);
    SetLineOk(s.t, n, EmptyTracked(s.t.lines[n], s.t.tail));
    ExportSameLog(s.recs, s'.t, {n});
    SameLogKeeps(s, s');
  }

  lemma EmptiedLinesOk(t: TopicState, names: set<Bytes>)
    requires LinesOk(t) && Bounded(t)
    ensures LinesOk(EmptiedLines(t, names))
    ensures forall n :: n in t.lines && n in names ==> LowMark(EmptiedLines(t, names).lines[n].line) == t.tail
  {
    var t' := EmptiedLines(t, names);
    forall n | n in t'.lines
      ensures LineOk(t', t'.lines[n])
      ensures n in names ==> LowMark(t'.lines[n].line) == t.tail
    {
      EmptyLineOk(t, t.lines[n]);
      LineOkMonotone(t, t', t'.lines[n]);
    }
  }

  lemma EmptyTopicInv(s: Sys, s': Sys)
    requires Inv(s) && s.t.pass == None && EmptyTopicNext(s, s')
    ensures Inv(s')
  {
    if done, last :| EmptyStopped(s, done, last, s') {
      EmptiedLinesOk(s.t, done);
      ExportSameLog(s.recs, EmptiedLines(s.t, done), done);
      SameLogKeeps(s, EmptySoFar(s, done));
      EmptyOneInv(EmptySoFar(s, done), last, s');
    } else {
      HeadMovesInv(s, EmptyDone(s, true, s'), s');
    }
  }

  lemma EmptyOneInv(s: Sys, n: Bytes, s': Sys)
    requires Inv(s) && n in s.t.lines && s' == EmptyAndSave(s, n, false)
    ensures Inv(s')
  {
    EmptyLineOk(s.t, s.t.lines[n]);
    SetLineOk(s.t, n, EmptyTracked(s.t.lines[n], s.t.tail));
  }

  lemma HeadMovesInv(s: Sys, headSaved: bool, s': Sys)
    requires Inv(s) && s.t.pass == None && EmptyDone(s, headSaved, s')
    ensures Inv(s')
  {
    var t1 := EmptiedLines(s.t, s.t.lines.Keys);
    EmptiedLinesOk(s.t, s.t.lines.Keys);
    ExportSameLog(s.recs, t1, s.t.lines.Keys);
    SameLogKeeps(s, s');
    forall n | n in s'.t.lines
      ensures LineOk(s'.t, s'.t.lines[n])
    {
      assert LineOk(t1, t1.lines[n]);
    }
  }

  lemma EmptyHeadInv(s: Sys, s': Sys)
    requires Inv(s) && s.t.pass == None && (EmptyHeadNext(s, true, s') || EmptyHeadNext(s, false, s'))
    ensures Inv(s')
  {
    LinesOkMonotone(s.t, s'.t);
  }

  lemma NewLineOk(t: TopicState, n: Bytes, recycle: int)
    requires LinesOk(t) && Bounded(t) && !Sweeping(t)
    ensures LinesOk(WithNewLine(t, n, recycle))
  {
    NewTrackedInv(recycle, StartOf(t), t.tail, t.clock);
    assert LineOk(t, NewTracked(recycle, StartOf(t)));
    SetLineOk(t, n, NewTracked(recycle, StartOf(t)));
  }

  lemma CreateSameLog(s: Sys, n: Bytes, recycle: int, s': Sys)
    requires CreateLineNext(s, n, recycle, s')
    ensures SameLog(s.t.name, s.t.tail, s.recs, s'.recs)
  {
    ExportSameLog(s.recs, WithNewLine(s.t, n, recycle), {n});
  }

  lemma CreateLineInv(s: Sys, n: Bytes, recycle: int, s': Sys)
    requires Inv(s) && !Sweeping(s.t) && CreateLineNext(s, n, recycle, s')
    ensures Inv(s')
  {
    NewLineOk(s.t, n, recycle);
    CreateSameLog(s, n, recycle, s');
    SameLogKeeps(s, s');
  }

  lemma RemoveLineInv(s: Sys, n: Bytes, s': Sys)
    requires Inv(s) && n in s.t.lines && RemoveLineNext(s, n, s')
    ensures Inv(s')
  {
    if s' != s {
      forall m | m in s'.t.lines
        ensures LineOk(s'.t, s'.t.lines[m])
      {
        LineOkMonotone(s.t, s'.t, s.t.lines[m]);
      }
      RemoveSameLog(s, n, s');
      SameLogKeeps(s, s');
    }
  }

  lemma RemoveSameLog(s: Sys, n: Bytes, s': Sys)
    requires n in s.t.lines && RemoveLineNext(s, n, s')
    ensures SameLog(s.t.name, s.t.tail, s.recs, s'.recs)
  {
  }

  lemma BackupInv(s: Sys, s': Sys)
    requires Inv(s) && BackupNext(s, s')
    ensures Inv(s')
  {
    var saved :| saved <= s.t.lines.Keys && s' == s.(recs := ExportLines(s.recs, s.t, saved));
    ExportSameLog(s.recs, s.t, saved);
    SameLogKeeps(s, s');
  }

  /** The bound computed at the start of a pass is below every low mark. */
  lemma CleanBeginInv(s: Sys, s': Sys)
    requires Inv(s) && CleanBeginNext(s, s')
    ensures Inv(s')
  {
    forall n | n in s'.t.lines
      ensures LineOk(s'.t, s'.t.lines[n])
    {
      TrackedMonotone(s.t.lines[n], s.t.tail, s.t.clock, s.t.tail, s.t.clock);
    }
  }

  lemma CleanStepInv(s: Sys, s': Sys)
    requires Inv(s) && CleanStepNext(s, s')
    ensures Inv(s')
  {
    forall n | n in s'.t.lines
      ensures LineOk(s'.t, s'.t.lines[n])
    {
      TrackedMonotone(s.t.lines[n], s.t.tail, s.t.clock, s.t.tail, s.t.clock);
    }
  }

  /** Every step keeps the invariant, a clean pass being interleaved with everything else. */
  lemma NextInv(s: Sys, op: Op, s': Sys)
    requires Inv(s) && Next(s, op, s')
    ensures Inv(s')
  {
    match op
    case DoPush(data) => PushInv(s, data, s');
    case DoMPush(datas) => MPushInv(s, datas, s');
    case DoPop(n, now) => if n in s.t.lines { PopStepInv(s, n, now); }
    case DoMPop(n, k, now) => if n in s.t.lines { MPopStepInv(s, n, k, now); }
    case DoConfirm(n, id) => if n in s.t.lines { ConfirmStepInv(s, n, id); }
    case DoEmptyLine(n) => if n in s.t.lines { EmptyLineInv(s, n, s'); }
    case DoEmptyTopic => EmptyTopicInv(s, s');
    case DoEmptyHead => EmptyHeadInv(s, s');
    case DoCreateLine(n, recycle) => CreateLineInv(s, n, recycle, s');
    case DoRemoveLine(n) => if n in s.t.lines { RemoveLineInv(s, n, s'); }
    case DoBackup => BackupInv(s, s');
    case DoCleanBegin => CleanBeginInv(s, s');
    case DoCleanStep => CleanStepInv(s, s');
    case DoCleanEnd => LinesOkMonotone(s.t, s'.t);
    case DoElsewhere =>
  }

  // ----- Whole runs -----

  lemma {:induction false} RunInv(states: seq<Sys>, ops: seq<Op>, i: nat)
    requires IsRun(states, ops) && i < |states|
    ensures Inv(states[i])
  {
    if i > 0 {
      RunInv(states, ops, i - 1);
      NextInv(states[i - 1], ops[i - 1], states[i]);
    }
  }

  /**
   * What a consumer sees in any reachable state: a pop never misses a read; it hands out a
   * pushed id with exactly the bytes pushed for it; and it finds nothing only when nothing is
   * pending and nothing in flight has expired.
   */
  lemma PopIsExact(s: Sys, n: Bytes, now: int)
    requires Inv(s) && n in s.t.lines && s.t.clock <= now
    ensures var l := s.t.lines[n].line;
            var r := Pop(l, s.t.tail, Msgs(s), now).1;
            && (r.Ok? ==> r.value.id < s.t.tail && r.value.data == s.t.log[r.value.id])
            && (r.Err? ==> r.error == ErrNone && l.head == s.t.tail)
            && (r.Err? && l.recycle > 0 ==> forall i :: 0 <= i < |l.inflight| ==> !Expired(l.inflight[i], now))
  {
    var x := s.t.lines[n];
    assert LineOk(s.t, x);
    StoredCovers(s, x);
    Bounds(x.line, s.t.tail, s.t.clock);
    if x.line.recycle > 0 {
      FrontIsEarliest(x.line, s.t.tail, s.t.clock, now);
    }
  }

  /** Each id of the batch was pushed, and comes with the bytes pushed for it. */
  ghost predicate ExactBatch(s: Sys, b: Batch) {
    && |b.ids| == |b.datas|
    && s.t.tail <= |s.t.log|
    && forall i :: 0 <= i < |b.ids| ==> b.ids[i] < s.t.tail && b.datas[i] == s.t.log[b.ids[i]]
  }

  predicate InRange(ids: seq<nat>, lo: nat, hi: nat) {
    forall i :: 0 <= i < |ids| ==> lo <= ids[i] < hi
  }

  lemma RangeMore(id: nat, ids: seq<nat>, lo: nat, hi: nat)
    requires InRange(ids, lo, hi) && lo <= id < hi
    ensures InRange([id] + ids, lo, hi)
  {
  }

  lemma PopInRange(l: LineState, lo: nat, tail: nat, msgs: Messages, now: int)
    requires LineInv(l, tail, now) && Covers(msgs, l, tail) && lo <= LowMark(l)
    ensures var (l1, r) := Pop(l, tail, msgs, now);
            && LineInv(l1, tail, now) && lo <= LowMark(l1)
            && (r.Ok? ==> lo <= r.value.id < tail)
  {
    Bounds(l, tail, now);
    PopInv(l, tail, msgs, now);
    LowMarkMonotone(l, tail, msgs, now, 0);
  }

  /** Repeated pops hand out ids between the low mark and the tail. */
  lemma {:induction false} PopsInRange(l: LineState, lo: nat, tail: nat, msgs: Messages, now: int, n: nat)
    requires LineInv(l, tail, now) && Covers(msgs, l, tail) && lo <= LowMark(l)
    ensures InRange(PopRepeatedly(l, tail, msgs, now, n).1.ids, lo, tail)
    decreases n
  {
    var (l1, r) := Pop(l, tail, msgs, now);
    if n > 0 && r.Ok? {
      PopInRange(l, lo, tail, msgs, now);
      PopsInRange(l1, lo, tail, msgs, now, n - 1);
      RangeMore(r.value.id, PopRepeatedly(l1, tail, msgs, now, n - 1).1.ids, lo, tail);
    }
  }

  lemma FetchIsExact(s: Sys, ids: seq<nat>)
    requires Stored(s) && AllStored(ids, Msgs(s))
    requires InRange(ids, Kept(s.t), s.t.tail)
    ensures ExactBatch(s, Batch(ids, Fetch(ids, Msgs(s))))
  {
  }

  /** The same for a batch. */
  lemma MPopIsExact(s: Sys, n: Bytes, k: nat, now: int)
    requires Inv(s) && n in s.t.lines && s.t.clock <= now && k >= 1
    ensures var r := MPop(s.t.lines[n].line, s.t.tail, Msgs(s), now, k).1;
            && (r.Ok? ==> ExactBatch(s, r.value))
            && (r.Err? ==> r.error == ErrNone)
  {
    var x := s.t.lines[n];
    assert LineOk(s.t, x);
    StoredCovers(s, x);
    Bounds(x.line, s.t.tail, s.t.clock);
    InvMonotone(x.line, s.t.tail, s.t.clock, s.t.tail, now);
    MPopIsRepeatedPop(x.line, s.t.tail, Msgs(s), now, k);
    PopsInRange(x.line, Kept(s.t), s.t.tail, Msgs(s), now, k);
    FetchIsExact(s, PopRepeatedly(x.line, s.t.tail, Msgs(s), now, k).1.ids);
  }

  // ----- Batched pushes -----

  ghost function Pushes(s: Sys, datas: seq<Bytes>): Sys
    decreases |datas|
  {
    if datas == [] then s else PushOk(Pushes(s, datas[..|datas| - 1]), datas[|datas| - 1])
  }

  lemma Overwrite(r: Records, k: Key, a: Bytes, m: Key, b: Bytes, c: Bytes)
    requires k != m
    ensures r[k := a][m := b][k := c] == r[m := b][k := c]
  {
  }

  lemma WritePeels(r: Records, t: Bytes, from: nat, datas: seq<Bytes>, n: nat, a: Bytes, c: Bytes)
    requires |datas| == n + 1
    ensures WriteMsgs(r, t, from, datas)[TailRec(t) := c]
         == WriteMsgs(r, t, from, datas[..n])[TailRec(t) := a][MsgRec(t, from + n) := datas[n]][TailRec(t) := c]
  {
    Overwrite(WriteMsgs(r, t, from, datas[..n]), TailRec(t), a, MsgRec(t, from + n), datas[n], c);
  }

  lemma MPushPeels(s: Sys, datas: seq<Bytes>, n: nat)
    requires |datas| == n + 1
    ensures MPushOk(s, datas) == PushOk(MPushOk(s, datas[..n]), datas[n])
  {
    var s1 := MPushOk(s, datas[..n]);
    var s2 := PushOk(s1, datas[n]);
    var s3 := MPushOk(s, datas);
    assert s1.t.tail == s.t.tail + n;
    assert s3.t == s2.t by {
      assert s.t.log + datas == s.t.log + datas[..n] + [datas[n]];
    }
    WritePeels(s.recs, s.t.name, s.t.tail, datas, n, PutUint64(s1.t.tail), PutUint64(s3.t.tail));
    assert s3.recs == s2.recs;
  }

  /** A batch that succeeds is its messages pushed in order. */
  lemma {:induction false} MPushIsPushes(s: Sys, datas: seq<Bytes>)
    requires TailSaved(s)
    ensures MPushOk(s, datas) == Pushes(s, datas)
    decreases |datas|
  {
    if datas == [] {
      assert s.t.log + [] == s.t.log;
      assert s.recs[TailRec(s.t.name) := PutUint64(s.t.tail)] == s.recs;
    } else {
      MPushIsPushes(s, datas[..|datas| - 1]);
      MPushPeels(s, datas, |datas| - 1);
    }
  }

  /** A batch that fails changes nothing a consumer or a restart can see. */
  lemma MPushAllOrNothing(s: Sys, datas: seq<Bytes>, s': Sys)
    requires Inv(s) && MPushNext(s, datas, s')
    ensures s' == Pushes(s, datas) || (s'.t == s.t && SameLog(s.t.name, s.t.tail, s.recs, s'.recs) && TailSaved(s'))
  {
    if s' == MPushOk(s, datas) {
      MPushIsPushes(s, datas);
    } else {
      var k: nat :| MPushStopped(s, datas, k, s');
      WriteSameLog(s.recs, s.t.name, s.t.tail, datas[..k]);
      SameLogKeeps(s, s');
    }
  }

  // ----- Other topics -----

  lemma ExportIsLocal(recs: Records, t: TopicState, names: set<Bytes>, other: Bytes)
    requires names <= t.lines.Keys && other != t.name
    ensures SameOwned(other, recs, ExportLines(recs, t, names))
  {
  }

  lemma CreateIsLocal(s: Sys, n: Bytes, recycle: int, s': Sys, other: Bytes)
    requires CreateLineNext(s, n, recycle, s') && other != s.t.name
    ensures s'.t.name == s.t.name && SameOwned(other, s.recs, s'.recs)
  {
    ExportIsLocal(s.recs, WithNewLine(s.t, n, recycle), {n}, other);
  }

  lemma RemoveIsLocal(s: Sys, n: Bytes, s': Sys, other: Bytes)
    requires n in s.t.lines && RemoveLineNext(s, n, s') && other != s.t.name
    ensures s'.t.name == s.t.name && SameOwned(other, s.recs, s'.recs)
  {
  }

  lemma EmptyLineIsLocal(s: Sys, n: Bytes, s': Sys, other: Bytes)
    requires n in s.t.lines && EmptyLineNext(s, n, s') && other != s.t.name
    ensures s'.t.name == s.t.name && SameOwned(other, s.recs, s'.recs)
  {
    ExportIsLocal(s.recs, s'.t, {n}, other);
  }

  /** A step touches only records the topic owns, so every other topic sees it as a step elsewhere. */
  lemma NextIsLocal(s: Sys, op: Op, s': Sys, other: Bytes)
    requires Next(s, op, s') && !op.DoElsewhere? && other != s.t.name
    ensures s'.t.name == s.t.name
    ensures SameOwned(other, s.recs, s'.recs)
  {
    match op
    case DoCreateLine(n, recycle) => CreateIsLocal(s, n, recycle, s', other);
    case DoRemoveLine(n) => if n in s.t.lines { RemoveIsLocal(s, n, s', other); }
    case DoEmptyLine(n) => if n in s.t.lines { EmptyLineIsLocal(s, n, s', other); }
    case DoEmptyTopic => EmptyTopicIsLocal(s, s', other);
    case DoMPush(datas) => MPushIsLocal(s, datas, s', other);
    case _ =>
  }

  lemma MPushIsLocal(s: Sys, datas: seq<Bytes>, s': Sys, other: Bytes)
    requires MPushNext(s, datas, s') && other != s.t.name
    ensures s'.t.name == s.t.name && SameOwned(other, s.recs, s'.recs)
  {
    forall k | 0 <= k <= |datas|
      ensures SameOwned(other, s.recs, WriteMsgs(s.recs, s.t.name, s.t.tail, datas[..k]))
    {
      WriteMsgsExact(s.recs, s.t.name, s.t.tail, datas[..k]);
    }
    assert datas[..|datas|] == datas;
  }

  lemma EmptyTopicIsLocal(s: Sys, s': Sys, other: Bytes)
    requires EmptyTopicNext(s, s') && other != s.t.name
    ensures s'.t.name == s.t.name && SameOwned(other, s.recs, s'.recs)
  {
    if done, last :| EmptyStopped(s, done, last, s') {
      ExportIsLocal(s.recs, EmptiedLines(s.t, done), done, other);
    } else {
      ExportIsLocal(s.recs, EmptiedLines(s.t, s.t.lines.Keys), s.t.lines.Keys, other);
    }
  }

  // ----- Loops over the lines -----

  lemma ExportOne(recs: Records, t: TopicState, n: Bytes)
    requires n in t.lines
    ensures ExportLines(recs, t, {n}) == recs[LineRec(t.name, n) := LineBytes(t.lines[n].line)]
  {
  }

  lemma ExportNone(recs: Records, t: TopicState)
    ensures ExportLines(recs, t, {}) == recs
  {
  }

  lemma ExportMore(recs: Records, t: TopicState, names: set<Bytes>, n: Bytes)
    requires names <= t.lines.Keys && n in t.lines
    ensures ExportLines(recs, t, names + {n})
         == ExportLines(recs, t, names)[LineRec(t.name, n) := LineBytes(t.lines[n].line)]
  {
    forall k: Key
      ensures IsLineOf(k, t.name, names + {n}) <==> IsLineOf(k, t.name, names) || k == LineRec(t.name, n)
    {
    }
  }

  lemma EmptiedMore(t: TopicState, done: set<Bytes>, n: Bytes)
    requires n in t.lines && n !in done
    ensures EmptiedLines(t, done + {n}).lines == EmptiedLines(t, done).lines[n := EmptyTracked(t.lines[n], t.tail)]
    ensures EmptiedLines(t, done + {n}).lines.Keys == t.lines.Keys == EmptiedLines(t, done).lines.Keys
  {
  }

  lemma ExportSame(recs: Records, t: TopicState, t': TopicState, names: set<Bytes>)
    requires names <= t.lines.Keys && names <= t'.lines.Keys && t'.name == t.name
    requires forall n :: n in names ==> t'.lines[n] == t.lines[n]
    ensures ExportLines(recs, t', names) == ExportLines(recs, t, names)
  {
  }

  lemma EmptyMore(s: Sys, done: set<Bytes>, n: Bytes)
    requires done <= s.t.lines.Keys && n in s.t.lines && n !in done
    ensures EmptyAndSave(EmptySoFar(s, done), n, true) == EmptySoFar(s, done + {n})
  {
    EmptiedMore(s.t, done, n);
    ExportSame(s.recs, EmptiedLines(s.t, done), EmptiedLines(s.t, done + {n}), done);
    ExportMore(s.recs, EmptiedLines(s.t, done + {n}), done, n);
  }

  lemma EmptyNone(s: Sys)
    ensures EmptySoFar(s, {}) == s
  {
    assert EmptiedLines(s.t, {}).lines == s.t.lines;
    ExportNone(s.recs, s.t);
  }

  function NameSet(names: seq<Bytes>): set<Bytes> {
    set n | n in names
  }

  lemma NameSetMore(names: seq<Bytes>, k: nat)
    requires k < |names|
    ensures NameSet(names[..k + 1]) == NameSet(names[..k]) + {names[k]}
  {
    assert names[..k + 1] == names[..k] + [names[k]];
  }

  /** Emptying one after the other comes to the same in whatever order. */
  lemma EmptyEachMore(s: Sys, names: seq<Bytes>, k: nat)
    requires k < |names| && forall n :: n in names ==> n in s.t.lines
    ensures EmptyEach(s, names[..k + 1]) == EmptyAndSave(EmptyEach(s, names[..k]), names[k], true)
  {
    var some := names[..k + 1];
    TakeLess(names, k);
    assert forall n :: n in some ==> n in names;
    EmptyEachStep(s, some, k);
  }

  /** The first `k` of the lines named have been emptied and saved. */
  ghost predicate EmptiedFirst(s: Sys, names: seq<Bytes>, k: nat, s': Sys) {
    forall mark: bool {:trigger Opened(mark)} :: Opened(mark) ==>
      k <= |names| && (forall n :: n in names ==> n in s.t.lines) && s' == EmptyEach(s, names[..k])
  }

  lemma EmptiedFirstNone(s: Sys, names: seq<Bytes>)
    requires forall n :: n in names ==> n in s.t.lines
    ensures EmptiedFirst(s, names, 0, s)
  {
  }

  lemma EmptiedFirstMore(s: Sys, names: seq<Bytes>, k: nat, m: Sys, s': Sys)
    requires EmptiedFirst(s, names, k, m) && k < |names| && names[k] in m.t.lines && s' == EmptyAndSave(m, names[k], true)
    ensures EmptiedFirst(s, names, k + 1, s')
  {
    assert Opened(true);
    EmptyEachMore(s, names, k);
  }

  lemma OpenEmptiedFirst(s: Sys, names: seq<Bytes>, k: nat, s': Sys)
    requires EmptiedFirst(s, names, k, s')
    ensures k <= |names| && (forall n :: n in names ==> n in s.t.lines) && s' == EmptyEach(s, names[..k])
    ensures k == |names| ==> s' == EmptyEach(s, names)
  {
    assert Opened(true);
    assert k == |names| ==> names[..k] == names;
  }

  lemma TakeLess<T>(s: seq<T>, k: nat)
    requires k < |s|
    ensures s[..k + 1][..k] == s[..k] && s[..k + 1][k] == s[k]
  {
  }

  lemma EmptyEachStep(s: Sys, names: seq<Bytes>, k: nat)
    requires |names| == k + 1 && forall n :: n in names ==> n in s.t.lines
    ensures EmptyEach(s, names) == EmptyAndSave(EmptyEach(s, names[..k]), names[k], true)
  {
  }

  lemma {:induction false} EmptyEachIs(s: Sys, names: seq<Bytes>, k: nat)
    requires Enumerates(names, s.t.lines.Keys) && k <= |names|
    ensures NameSet(names[..k]) <= s.t.lines.Keys
    ensures EmptyEach(s, names[..k]) == EmptySoFar(s, NameSet(names[..k]))
  {
    if k == 0 {
      EmptyNone(s);
    } else {
      EmptyEachIs(s, names, k - 1);
      NameSetMore(names, k - 1);
      assert names[..k][..k - 1] == names[..k - 1];
      assert names[k - 1] !in names[..k - 1];
      EmptyMore(s, NameSet(names[..k - 1]), names[k - 1]);
    }
  }

  lemma AllEmptied(s: Sys, names: seq<Bytes>)
    requires Enumerates(names, s.t.lines.Keys)
    ensures EmptyEach(s, names) == EmptySoFar(s, s.t.lines.Keys)
  {
    EmptyEachIs(s, names, |names|);
    assert names[..|names|] == names;
    assert NameSet(names) == s.t.lines.Keys;
  }

  lemma MinusMore(recs: Records, gone: iset<Key>, k: Key)
    ensures Minus(recs, gone) - {k} == Minus(recs, gone + iset{k})
    ensures Minus(recs, iset{}) == recs
  {
  }

  predicate IsLineRecOf(k: Key, t: Bytes, names: set<Bytes>) {
    (k.LineRec? || k.RecycleRec?) && k.topic == t && k.line in names
  }

  /** Nothing is gone but what `remove` deletes. */
  ghost predicate Within(gone: iset<Key>, t: TopicState) {
    forall k :: k in gone ==> Removes(t, k)
  }

  lemma WithinMore(gone: iset<Key>, t: TopicState, k: Key)
    requires Within(gone, t) && Removes(t, k)
    ensures Within(gone + iset{k}, t)
  {
  }

  ghost predicate LinesGone(gone: iset<Key>, t: Bytes, names: set<Bytes>) {
    forall k: Key :: IsLineRecOf(k, t, names) ==> k in gone
  }

  lemma LinesGoneMore(gone: iset<Key>, gone': iset<Key>, t: Bytes, done: set<Bytes>, n: Bytes)
    requires LinesGone(gone, t, done) && gone <= gone' && LineRec(t, n) in gone' && RecycleRec(t, n) in gone'
    ensures LinesGone(gone', t, done + {n})
  {
  }

  ghost predicate MsgsGone(gone: iset<Key>, t: Bytes, lo: nat, hi: nat) {
    forall k: Key :: IsMsgIn(k, t, lo, hi) ==> k in gone
  }

  lemma MsgsGoneMore(gone: iset<Key>, gone': iset<Key>, t: Bytes, lo: nat, hi: nat)
    requires MsgsGone(gone, t, lo, hi) && gone <= gone' && MsgRec(t, hi) in gone'
    ensures MsgsGone(gone', t, lo, hi + 1)
  {
  }

  /** The records of the lines, the three of the topic and the messages are what `remove` deletes. */
  lemma RemovesAll(t: TopicState, gone1: iset<Key>, gone2: iset<Key>, gone: iset<Key>)
    requires gone1 <= gone2 <= gone && Within(gone, t) && LinesGone(gone1, t.name, t.lines.Keys)
    requires HeadRec(t.name) in gone2 && TailRec(t.name) in gone2 && TopicRec(t.name) in gone2
    requires MsgsGone(gone, t.name, t.head, t.tail)
    ensures gone == RemovedKeys(t)
  {
    forall k: Key | Removes(t, k)
      ensures k in gone
    {
      assert IsLineRecOf(k, t.name, t.lines.Keys) || IsMsgIn(k, t.name, t.head, t.tail) || k in gone2;
    }
  }

  lemma PutThenDelete<T>(ts: map<Bytes, T>, name: Bytes, s: T)
    ensures name !in ts ==> ts[name := s] - {name} == ts
    ensures name in ts && ts[name] == s ==> (ts - {name})[name := s] == ts
  {
  }

  lemma IsPass(s: Sys, s1: Sys, k: nat, s2: Sys, s': Sys)
    requires CleanBeginNext(s, s1) && CleanRun(s1, k, s2) && s' == s2.(t := s2.t.(pass := None))
    ensures CleanPass(s, s')
  {
  }

  lemma LineTakenOut(s: Sys, n: Bytes, gone: set<Key>, s': Sys)
    requires s'.t == s.t.(lines := s.t.lines - {n}) && gone <= {LineRec(s.t.name, n), RecycleRec(s.t.name, n)}
    requires exists b :: IsTopicBytes(b, s'.t.lines.Keys, s.t.persist) && s'.recs == s.recs[TopicRec(s.t.name) := b] - gone
    ensures RemoveLineOk(s, n, s')
    ensures forall k: Key :: k in gone ==> k !in s'.recs
  {
  }
}
