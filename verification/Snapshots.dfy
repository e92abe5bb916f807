/**
 * Lines are saved only now and then. Whatever snapshot of a line a crash leaves behind, it
 * accounts for every message the line still owed: nothing unconfirmed is forgotten.
 */
module Snapshots {
  import opened Base
  import opened StoreKeys
  import opened LineSpec
  import opened LineProofs
  import opened LineHistory
  import opened TopicSpec
  import opened TopicProofs

  // ----- What a line owes only shrinks, except for what is pushed -----

  ghost predicate Shrinks(l: LineState, tail: nat, l': LineState, tail': nat) {
    && l'.recycle == l.recycle && tail <= tail'
    && Outstanding(l', tail') <= Outstanding(l, tail) + IdRange(tail, tail')
  }

  lemma InOutstanding(l: LineState, tail: nat, id: nat)
    ensures id in Outstanding(l, tail) <==> InFlight(l, id) || l.head <= id < tail
  {
    InIdSet(l, id);
  }

  lemma PopShrinks(l: LineState, tail: nat, msgs: Messages, now: int)
    requires Pop(l, tail, msgs, now).1 != Err(ErrInternal)
    ensures Shrinks(l, tail, Pop(l, tail, msgs, now).0, tail)
  {
    var l' := Pop(l, tail, msgs, now).0;
    forall id: nat | id in Outstanding(l', tail)
      ensures id in Outstanding(l, tail)
    {
      InOutstanding(l, tail, id);
      InOutstanding(l', tail, id);
      PopOwes(l, l', tail, msgs, now, id);
    }
  }

  lemma PopOwes(l: LineState, l': LineState, tail: nat, msgs: Messages, now: int, id: nat)
    requires Pop(l, tail, msgs, now).1 != Err(ErrInternal) && l' == Pop(l, tail, msgs, now).0
    requires InFlight(l', id) || l'.head <= id < tail
    ensures InFlight(l, id) || l.head <= id < tail
  {
    if Redelivers(l, now) {
      RotateOneInFlight(l, Stamp(l.inflight[0], l, now), l', id);
    } else if l.head < tail && l.recycle > 0 && id != l.head {
      InFlightAppend(l, InflightMessage(l.head, now + l.recycle), l', id);
    }
  }

  lemma ShrinksTransitive(l: LineState, l1: LineState, l2: LineState, tail: nat)
    requires Shrinks(l, tail, l1, tail) && Shrinks(l1, tail, l2, tail)
    ensures Shrinks(l, tail, l2, tail)
  {
    assert IdRange(tail, tail) == {};
  }

  lemma OnePopShrinks(l: LineState, tail: nat, msgs: Messages, now: int)
    requires LineInv(l, tail, now) && Covers(msgs, l, tail)
    ensures var l1 := Pop(l, tail, msgs, now).0;
            LineInv(l1, tail, now) && Covers(msgs, l1, tail) && Shrinks(l, tail, l1, tail)
  {
    PopInv(l, tail, msgs, now);
    PopShrinks(l, tail, msgs, now);
    LowMarkMonotone(l, tail, msgs, now, 0);
  }

  /** What one pop keeps, repeated pops keep. */
  lemma {:induction false} PopsKeep(
    p: LineState -> bool, l: LineState, l': LineState, tail: nat, msgs: Messages, now: int, n: nat)
    requires p(l) && l' == PopRepeatedly(l, tail, msgs, now, n).0
    requires forall x {:trigger Pop(x, tail, msgs, now)} :: p(x) ==> p(Pop(x, tail, msgs, now).0)
    ensures p(l')
    decreases n
  {
    if n > 0 && Pop(l, tail, msgs, now).1.Ok? {
      PopsKeep(p, Pop(l, tail, msgs, now).0, l', tail, msgs, now, n - 1);
    }
  }

  lemma PopsShrink(l: LineState, l': LineState, tail: nat, msgs: Messages, now: int, n: nat)
    requires LineInv(l, tail, now) && Covers(msgs, l, tail)
    requires l' == PopRepeatedly(l, tail, msgs, now, n).0
    ensures Shrinks(l, tail, l', tail)
  {
    var p := (x: LineState) => LineInv(x, tail, now) && Covers(msgs, x, tail) && Shrinks(l, tail, x, tail);
    forall x | p(x)
      ensures p(Pop(x, tail, msgs, now).0)
    {
      OnePopShrinks(x, tail, msgs, now);
      ShrinksTransitive(l, x, Pop(x, tail, msgs, now).0, tail);
    }
    PopsKeep(p, l, l', tail, msgs, now, n);
  }

  lemma MPopShrinks(l: LineState, tail: nat, msgs: Messages, now: int, n: int)
    requires LineInv(l, tail, now) && Covers(msgs, l, tail)
    ensures Shrinks(l, tail, MPop(l, tail, msgs, now, n).0, tail)
  {
    if n >= 1 {
      Bounds(l, tail, now);
      MPopIsRepeatedPop(l, tail, msgs, now, n);
      PopsShrink(l, PopRepeatedly(l, tail, msgs, now, n).0, tail, msgs, now, n);
    } else {
      assert Rotate(l, 0, now) == l;
    }
  }

  lemma ConfirmShrinks(l: LineState, tail: nat, clock: int, id: nat)
    requires LineInv(l, tail, clock)
    ensures Shrinks(l, tail, Confirm(l, id).0, tail)
  {
    var l' := Confirm(l, id).0;
    ConfirmExact(l, id, tail, clock);
    forall x: nat | x in Outstanding(l', tail)
      ensures x in Outstanding(l, tail)
    {
      InOutstanding(l, tail, x);
      InOutstanding(l', tail, x);
    }
  }

  // ----- Times stay in range -----

  lemma PopFits(l: LineState, tail: nat, msgs: Messages, now: int)
    requires TimesFit(l) && IsInt64(now + l.recycle)
    ensures TimesFit(Pop(l, tail, msgs, now).0)
  {
  }

  lemma MPopFits(l: LineState, tail: nat, msgs: Messages, now: int, n: int)
    requires TimesFit(l) && IsInt64(now + l.recycle) && Readable(msgs, l, tail)
    ensures TimesFit(MPop(l, tail, msgs, now, n).0)
  {
    if n >= 1 {
      var p := (x: LineState) => TimesFit(x) && x.recycle == l.recycle;
      forall x | p(x)
        ensures p(Pop(x, tail, msgs, now).0)
      {
        PopFits(x, tail, msgs, now);
      }
      MPopIsRepeatedPop(l, tail, msgs, now, n);
      PopsKeep(p, l, PopRepeatedly(l, tail, msgs, now, n).0, tail, msgs, now, n);
    } else {
      assert Rotate(l, 0, now) == l;
    }
  }

  lemma ConfirmFits(l: LineState, id: nat)
    requires TimesFit(l)
    ensures TimesFit(Confirm(l, id).0)
  {
  }

  // ----- Snapshots -----

  /** `l0` is a line in good order that owes at least what `l` owes. */
  ghost predicate SnapOf(l0: LineState, l: LineState, tail: nat, clock: int) {
    && l0.recycle == l.recycle && LineInv(l0, tail, clock) && TimesFit(l0)
    && Outstanding(l, tail) <= Outstanding(l0, tail)
  }

  lemma SnapOfKept(l0: LineState, l: LineState, tail: nat, clock: int, l': LineState, tail': nat, clock': int)
    requires SnapOf(l0, l, tail, clock) && Shrinks(l, tail, l', tail') && clock <= clock'
    ensures SnapOf(l0, l', tail', clock')
  {
    InvMonotone(l0, tail, clock, tail', clock');
    forall id: nat | id in Outstanding(l', tail')
      ensures id in Outstanding(l0, tail')
    {
      InOutstanding(l0, tail, id);
      InOutstanding(l0, tail', id);
    }
  }

  /** The saved store of line `n` is such a snapshot, and its recycle time is saved too. */
  ghost predicate SnapSaved(s: Sys, n: Bytes)
    requires n in s.t.lines
  {
    var l := s.t.lines[n].line;
    var k := LineRec(s.t.name, n);
    var r := RecycleRec(s.t.name, n);
    && r in s.recs && s.recs[r] == DurationText(l.recycle)
    && k in s.recs && exists l0 :: SnapOf(l0, l, s.t.tail, s.t.clock) && s.recs[k] == LineBytes(l0)
  }

  ghost predicate SnapInv(s: Sys) {
    forall n :: n in s.t.lines ==> SnapSaved(s, n)
  }

  // ----- Every step -----

  lemma DeliveryShrinks(s: Sys, op: Op, n: Bytes)
    requires Inv(s) && n in s.t.lines && (op.DoPop? || op.DoMPop?) && s.t.clock <= op.now
    ensures var l := s.t.lines[n].line;
            && (op.DoPop? ==> Shrinks(l, s.t.tail, Pop(l, s.t.tail, Msgs(s), op.now).0, s.t.tail))
            && (op.DoMPop? ==> Shrinks(l, s.t.tail, MPop(l, s.t.tail, Msgs(s), op.now, op.n).0, s.t.tail))
  {
    var x := s.t.lines[n];
    assert LineOk(s.t, x);
    StoredCovers(s, x);
    InvMonotone(x.line, s.t.tail, s.t.clock, s.t.tail, op.now);
    if op.DoPop? {
      OnePopShrinks(x.line, s.t.tail, Msgs(s), op.now);
    } else {
      MPopShrinks(x.line, s.t.tail, Msgs(s), op.now, op.n);
    }
  }

  lemma GrowthShrinks(l: LineState, tail: nat, tail': nat)
    requires l.head <= tail <= tail'
    ensures Shrinks(l, tail, l, tail')
  {
  }

  lemma EmptyShrinks(l: LineState, tail: nat)
    ensures Shrinks(l, tail, Empty(l, tail), tail)
  {
  }

  /** What a step can do to a line that it does not remove. */
  ghost predicate LineStep(s: Sys, op: Op, x: Tracked, n: Bytes, x': Tracked) {
    || x' == x
    || x' == EmptyTracked(x, s.t.tail)
    || (op.DoPop? && op.line == n && x' == PopTracked(x, s.t.tail, Msgs(s), op.now))
    || (op.DoMPop? && op.line == n && x' == MPopTracked(x, s.t.tail, Msgs(s), op.now, op.n))
    || (op.DoConfirm? && op.line == n && x' == ConfirmTracked(x, op.id))
  }

  /** The line as it was, or emptied; and nothing else of the topic moved but the head. */
  ghost predicate MaybeEmptied(t: TopicState, t': TopicState, n: Bytes)
    requires n in t.lines
  {
    && t'.name == t.name && t'.clock == t.clock && t'.tail == t.tail
    && n in t'.lines && (t'.lines[n] == t.lines[n] || t'.lines[n] == EmptyTracked(t.lines[n], t.tail))
  }

  lemma StoppedLines(s: Sys, done: set<Bytes>, last: Bytes, s': Sys, n: Bytes)
    requires EmptyStopped(s, done, last, s') && n in s.t.lines
    ensures MaybeEmptied(s.t, s'.t, n)
  {
    var t1 := EmptySoFar(s, done).t;
    assert t1.lines[n] == if n in done then EmptyTracked(s.t.lines[n], s.t.tail) else s.t.lines[n];
    assert s'.t.lines[n] == if n == last then EmptyTracked(t1.lines[n], s.t.tail) else t1.lines[n];
  }

  lemma EmptyTopicLines(s: Sys, s': Sys, n: Bytes)
    requires EmptyTopicNext(s, s') && n in s.t.lines
    ensures MaybeEmptied(s.t, s'.t, n)
  {
    if done, last :| EmptyStopped(s, done, last, s') {
      StoppedLines(s, done, last, s', n);
    } else {
      assert EmptySoFar(s, s.t.lines.Keys).t.lines[n] == EmptyTracked(s.t.lines[n], s.t.tail);
    }
  }

  lemma MPushLines(s: Sys, datas: seq<Bytes>, s': Sys)
    requires MPushNext(s, datas, s')
    ensures s'.t.lines == s.t.lines
  {
  }

  lemma BackupLines(s: Sys, s': Sys)
    requires BackupNext(s, s')
    ensures s'.t == s.t
  {
  }

  lemma RemoveLines(s: Sys, m: Bytes, s': Sys, n: Bytes)
    requires s' == s || RemoveLineNext(s, m, s')
    requires n in s.t.lines && n in s'.t.lines
    ensures s'.t.lines[n] == s.t.lines[n]
  {
  }

  lemma CreateLines(s: Sys, m: Bytes, recycle: int, s': Sys, n: Bytes)
    requires CreateLineNext(s, m, recycle, s') && n in s.t.lines
    ensures n in s'.t.lines && s'.t.lines[n] == s.t.lines[n]
  {
  }

  lemma LineSteps(s: Sys, op: Op, s': Sys, n: Bytes)
    requires Next(s, op, s') && n in s.t.lines && n in s'.t.lines
    ensures LineStep(s, op, s.t.lines[n], n, s'.t.lines[n])
  {
    match op
    case DoEmptyTopic => EmptyTopicLines(s, s', n);
    case DoMPush(datas) => MPushLines(s, datas, s');
    case DoBackup => BackupLines(s, s');
    case DoRemoveLine(m) => RemoveLines(s, m, s', n);
    case DoCreateLine(m, recycle) => CreateLines(s, m, recycle, s', n);
    case _ =>
  }

  /** Time and the tail only move forward, and a step that moves the tail leaves the lines alone. */
  lemma StepBounds(s: Sys, op: Op, s': Sys)
    requires Next(s, op, s')
    ensures s'.t.name == s.t.name && s.t.clock <= s'.t.clock && s.t.tail <= s'.t.tail
    ensures s'.t.tail != s.t.tail ==> s'.t.lines == s.t.lines
  {
    match op
    case DoEmptyTopic => EmptyTopicBounds(s, s');
    case DoMPush(datas) => MPushLines(s, datas, s');
    case DoBackup => BackupLines(s, s');
    case _ =>
  }

  lemma EmptyTopicBounds(s: Sys, s': Sys)
    requires EmptyTopicNext(s, s')
    ensures s'.t.name == s.t.name && s'.t.clock == s.t.clock && s'.t.tail == s.t.tail
  {
  }

  /** A line that is there before and after a step owes no more than before, but for what was pushed. */
  lemma LineShrinks(s: Sys, op: Op, s': Sys, n: Bytes)
    requires Inv(s) && Next(s, op, s') && n in s.t.lines && n in s'.t.lines
    ensures Shrinks(s.t.lines[n].line, s.t.tail, s'.t.lines[n].line, s'.t.tail)
  {
    var x, x' := s.t.lines[n], s'.t.lines[n];
    LineSteps(s, op, s', n);
    StepBounds(s, op, s');
    assert LineOk(s.t, x);
    Bounds(x.line, s.t.tail, s.t.clock);
    if x' == x {
      GrowthShrinks(x.line, s.t.tail, s'.t.tail);
    } else if op.DoPop? || op.DoMPop? {
      DeliveryShrinks(s, op, n);
      EmptyShrinks(x.line, s.t.tail);
    } else if op.DoConfirm? {
      ConfirmShrinks(x.line, s.t.tail, s.t.clock, op.id);
      EmptyShrinks(x.line, s.t.tail);
    } else {
      EmptyShrinks(x.line, s.t.tail);
    }
  }

  lemma LineFits(s: Sys, op: Op, s': Sys, n: Bytes)
    requires Inv(s) && TimesOk(s.t) && Next(s, op, s') && n in s.t.lines && n in s'.t.lines
    ensures TimesFit(s'.t.lines[n].line)
  {
    LineSteps(s, op, s', n);
    StepFits(s, op, n, s'.t.lines[n]);
  }

  lemma StepFits(s: Sys, op: Op, n: Bytes, x': Tracked)
    requires Inv(s) && TimesOk(s.t) && Enabled(s.t, op) && n in s.t.lines && LineStep(s, op, s.t.lines[n], n, x')
    ensures TimesFit(x'.line)
  {
    var x := s.t.lines[n];
    assert LineOk(s.t, x);
    if op.DoPop? && op.line == n {
      PopFits(x.line, s.t.tail, Msgs(s), op.now);
    } else if op.DoMPop? && op.line == n {
      StoredCovers(s, x);
      Bounds(x.line, s.t.tail, s.t.clock);
      MPopFits(x.line, s.t.tail, Msgs(s), op.now, op.n);
    } else if op.DoConfirm? {
      ConfirmFits(x.line, op.id);
    }
  }

  /** Deadlines stay within an int64. */
  lemma NextTimes(s: Sys, op: Op, s': Sys)
    requires Inv(s) && TimesOk(s.t) && Next(s, op, s')
    ensures TimesOk(s'.t)
  {
    forall n | n in s'.t.lines
      ensures TimesFit(s'.t.lines[n].line)
    {
      if n in s.t.lines {
        LineFits(s, op, s', n);
      } else {
        OnlyCreateAdds(s, op, s', n);
      }
    }
  }

  /** The saved store of a line is left alone or is the line as it now stands. */
  ghost predicate SavedOrSame(s: Sys, s': Sys, n: Bytes)
    requires n in s'.t.lines
  {
    var k := LineRec(s.t.name, n);
    k in s'.recs && (s'.recs[k] == LineBytes(s'.t.lines[n].line) || (k in s.recs && s'.recs[k] == s.recs[k]))
  }

  ghost predicate RecycleSame(s: Sys, s': Sys, n: Bytes) {
    var k := RecycleRec(s.t.name, n);
    k in s.recs && k in s'.recs && s'.recs[k] == s.recs[k]
  }

  ghost predicate HasRecs(s: Sys, n: Bytes) {
    LineRec(s.t.name, n) in s.recs && RecycleRec(s.t.name, n) in s.recs
  }

  lemma EmptyTopicRecs(s: Sys, s': Sys, n: Bytes)
    requires HasRecs(s, n) && EmptyTopicNext(s, s') && n in s'.t.lines
    ensures SavedOrSame(s, s', n) && RecycleSame(s, s', n)
  {
    if done, last :| EmptyStopped(s, done, last, s') {
    } else {
      assert s'.t.lines == EmptiedLines(s.t, s.t.lines.Keys).lines;
    }
  }

  lemma EmptyLineRecs(s: Sys, m: Bytes, s': Sys, n: Bytes)
    requires HasRecs(s, n) && m in s.t.lines && EmptyLineNext(s, m, s') && n in s'.t.lines
    ensures SavedOrSame(s, s', n) && RecycleSame(s, s', n)
  {
  }

  lemma BackupRecs(s: Sys, s': Sys, n: Bytes)
    requires HasRecs(s, n) && BackupNext(s, s') && n in s'.t.lines
    ensures SavedOrSame(s, s', n) && RecycleSame(s, s', n)
  {
  }

  lemma CreateRecs(s: Sys, m: Bytes, recycle: int, s': Sys, n: Bytes)
    requires HasRecs(s, n) && CreateLineNext(s, m, recycle, s') && n in s.t.lines && n in s'.t.lines
    ensures SavedOrSame(s, s', n) && RecycleSame(s, s', n)
  {
    if m in s.t.lines {
      assert s' == s;
    }
  }

  lemma RemoveRecs(s: Sys, m: Bytes, s': Sys, n: Bytes)
    requires HasRecs(s, n) && m in s.t.lines && RemoveLineNext(s, m, s') && n in s'.t.lines
    ensures SavedOrSame(s, s', n) && RecycleSame(s, s', n)
  {
  }

  lemma MPushRecs(s: Sys, datas: seq<Bytes>, s': Sys, n: Bytes)
    requires HasRecs(s, n) && MPushNext(s, datas, s') && n in s'.t.lines
    ensures SavedOrSame(s, s', n) && RecycleSame(s, s', n)
  {
    forall k | 0 <= k <= |datas|
      ensures var r := WriteMsgs(s.recs, s.t.name, s.t.tail, datas[..k]);
              forall key: Key :: key in s.recs && !key.MsgRec? ==> key in r && r[key] == s.recs[key]
    {
      WriteMsgsExact(s.recs, s.t.name, s.t.tail, datas[..k]);
    }
    assert datas[..|datas|] == datas;
  }

  lemma LineRecsKept(s: Sys, op: Op, s': Sys, n: Bytes)
    requires HasRecs(s, n) && Next(s, op, s') && n in s.t.lines && n in s'.t.lines
    ensures SavedOrSame(s, s', n) && RecycleSame(s, s', n)
  {
    match op
    case DoEmptyTopic => EmptyTopicRecs(s, s', n);
    case DoEmptyLine(m) => if m in s.t.lines { EmptyLineRecs(s, m, s', n); }
    case DoBackup => BackupRecs(s, s', n);
    case DoCreateLine(m, recycle) => CreateRecs(s, m, recycle, s', n);
    case DoRemoveLine(m) => if m in s.t.lines { RemoveRecs(s, m, s', n); }
    case DoMPush(datas) => MPushRecs(s, datas, s', n);
    case _ =>
  }

  lemma SnapKept(s: Sys, op: Op, s': Sys, n: Bytes)
    requires Inv(s) && Inv(s') && TimesOk(s'.t) && Next(s, op, s')
    requires n in s.t.lines && n in s'.t.lines && SnapSaved(s, n)
    ensures SnapSaved(s', n)
  {
    var l, l' := s.t.lines[n].line, s'.t.lines[n].line;
    LineSteps(s, op, s', n);
    StepBounds(s, op, s');
    LineShrinks(s, op, s', n);
    LineRecsKept(s, op, s', n);
    if s'.recs[LineRec(s.t.name, n)] == LineBytes(l') {
      assert LineOk(s'.t, s'.t.lines[n]);
      assert SnapOf(l', l', s'.t.tail, s'.t.clock);
    } else {
      var l0 :| SnapOf(l0, l, s.t.tail, s.t.clock) && s.recs[LineRec(s.t.name, n)] == LineBytes(l0);
      SnapOfKept(l0, l, s.t.tail, s.t.clock, l', s'.t.tail, s'.t.clock);
    }
  }

  lemma OnlyCreateAdds(s: Sys, op: Op, s': Sys, n: Bytes)
    requires Next(s, op, s') && n !in s.t.lines && n in s'.t.lines
    ensures op.DoCreateLine? && op.line == n && CreateLineNext(s, n, op.recycle, s')
  {
    match op
    case DoEmptyTopic => EmptyTopicKeys(s, s');
    case DoMPush(datas) => MPushLines(s, datas, s');
    case DoBackup => BackupLines(s, s');
    case _ =>
  }

  lemma EmptyTopicKeys(s: Sys, s': Sys)
    requires EmptyTopicNext(s, s')
    ensures s'.t.lines.Keys == s.t.lines.Keys
  {
  }

  lemma CreatedRecs(s: Sys, n: Bytes, recycle: int, s': Sys)
    requires CreateLineNext(s, n, recycle, s') && n !in s.t.lines && n in s'.t.lines
    ensures s'.t == WithNewLine(s.t, n, recycle) && HasRecs(s', n)
    ensures s'.recs[LineRec(s'.t.name, n)] == LineBytes(NewLine(recycle, StartOf(s.t)))
    ensures s'.recs[RecycleRec(s'.t.name, n)] == DurationText(recycle)
  {
  }

  lemma SnapNew(s: Sys, n: Bytes, recycle: int, s': Sys)
    requires Bounded(s.t) && IsInt64(recycle)
    requires CreateLineNext(s, n, recycle, s') && n !in s.t.lines && n in s'.t.lines
    ensures SnapSaved(s', n)
  {
    var l := NewLine(recycle, StartOf(s.t));
    CreatedRecs(s, n, recycle, s');
    NewLineInv(recycle, StartOf(s.t), s'.t.tail, s'.t.clock);
    assert SnapOf(l, l, s'.t.tail, s'.t.clock);
  }

  /** The saved snapshots stay good whatever steps are taken and whichever writes fail. */
  lemma NextSnap(s: Sys, op: Op, s': Sys)
    requires Inv(s) && TimesOk(s.t) && SnapInv(s) && Next(s, op, s')
    ensures TimesOk(s'.t) && SnapInv(s')
  {
    NextInv(s, op, s');
    NextTimes(s, op, s');
    forall n | n in s'.t.lines
      ensures SnapSaved(s', n)
    {
      if n in s.t.lines {
        SnapKept(s, op, s', n);
      } else {
        OnlyCreateAdds(s, op, s', n);
        SnapNew(s, n, op.recycle, s');
      }
    }
  }

  lemma RunSnap(states: seq<Sys>, ops: seq<Op>, i: nat)
    requires IsRun(states, ops) && i < |states|
    ensures TimesOk(states[i].t) && SnapInv(states[i])
  {
    var p := s => Inv(s) && TimesOk(s.t) && SnapInv(s);
    forall s, op, s' | p(s) && Next(s, op, s')
      ensures p(s')
    {
      NextInv(s, op, s');
      NextSnap(s, op, s');
    }
    RunInv(states, ops, 0);
    RunKeeps(p, Next, states, ops, i);
  }
}
