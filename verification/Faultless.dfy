/**
 * Runs in which no write or delete fails: the saved records follow the topic exactly, and
 * removing the topic leaves nothing of it in the store.
 */
module Faultless {
  import opened Base
  import opened StoreKeys
  import opened TopicSpec
  import opened TopicProofs
  import opened Snapshots
  import opened Recovery

  /** The step is one whose writes and deletes all succeeded. */
  ghost predicate FaultFree(s: Sys, op: Op, s': Sys) {
    Next(s, op, s') &&
    match op
    case DoPush(data) => s' == PushOk(s, data)
    case DoMPush(datas) => s' == MPushOk(s, datas)
    case DoEmptyLine(n) => n in s.t.lines ==> s'.recs == ExportLines(s.recs, s'.t, {n})
    case DoEmptyTopic => EmptyTopicOk(s, s')
    case DoEmptyHead => EmptyHeadNext(s, true, s')
    case DoCreateLine(n, _) => n in s'.t.lines
    case DoRemoveLine(n) =>
      n !in s'.t.lines && (n in s.t.lines ==> LineRec(s.t.name, n) !in s'.recs && RecycleRec(s.t.name, n) !in s'.recs)
    case DoCleanStep => s'.t.pass == s.t.pass
    case _ => true
  }

  // ----- The records follow the topic -----

  lemma EmptyTopicRecords(s: Sys, s': Sys)
    requires RecordsOk(s) && EmptyTopicOk(s, s')
    ensures RecordsOk(s')
  {
  }

  lemma CreateRecords(s: Sys, n: Bytes, recycle: int, s': Sys)
    requires RecordsOk(s) && CreateLineNext(s, n, recycle, s') && n !in s.t.lines && n in s'.t.lines
    ensures RecordsOk(s')
  {
    CreatedRecs(s, n, recycle, s');
    CreateKeepsRecs(s, n, recycle, s');
  }

  lemma CreateKeepsRecs(s: Sys, n: Bytes, recycle: int, s': Sys)
    requires CreateLineNext(s, n, recycle, s')
    ensures forall k: Key :: k in s.recs && (k.HeadRec? || k.TailRec? || (k.RecycleRec? && k.line != n)) ==>
              k in s'.recs && s'.recs[k] == s.recs[k]
  {
  }

  lemma RemoveRecords(s: Sys, n: Bytes, s': Sys)
    requires RecordsOk(s) && n in s.t.lines && RemoveLineNext(s, n, s')
    ensures RecordsOk(s')
  {
  }

  lemma EmptyLineRecords(s: Sys, n: Bytes, s': Sys)
    requires RecordsOk(s) && n in s.t.lines && EmptyLineNext(s, n, s')
    ensures RecordsOk(s')
  {
  }

  lemma LineOpRecords(s: Sys, op: Op, s': Sys)
    requires RecordsOk(s) && FaultFree(s, op, s') && (op.DoCreateLine? || op.DoRemoveLine? || op.DoEmptyLine?)
    ensures RecordsOk(s')
  {
    match op
    case DoCreateLine(n, recycle) => if n !in s.t.lines { CreateRecords(s, n, recycle, s'); }
    case DoRemoveLine(n) => if n in s.t.lines { RemoveRecords(s, n, s'); }
    case DoEmptyLine(n) => if n in s.t.lines { EmptyLineRecords(s, n, s'); }
  }

  lemma BackupRecords(s: Sys, s': Sys)
    requires RecordsOk(s) && BackupNext(s, s')
    ensures RecordsOk(s')
  {
  }

  lemma MPushRecords(s: Sys, datas: seq<Bytes>)
    requires RecordsOk(s)
    ensures RecordsOk(MPushOk(s, datas))
  {
    WriteMsgsExact(s.recs, s.t.name, s.t.tail, datas);
  }

  lemma DeliveryRecords(s: Sys, op: Op, s': Sys)
    requires Inv(s) && RecordsOk(s) && Next(s, op, s') && (op.DoPop? || op.DoMPop? || op.DoConfirm?)
    ensures RecordsOk(s')
  {
    assert s'.recs == s.recs && s'.t.lines.Keys == s.t.lines.Keys;
    forall n | n in s'.t.lines
      ensures s'.t.lines[n].line.recycle == s.t.lines[n].line.recycle
    {
      LineShrinks(s, op, s', n);
    }
  }

  lemma FaultFreeRecords(s: Sys, op: Op, s': Sys)
    requires Inv(s) && RecordsOk(s) && FaultFree(s, op, s')
    ensures RecordsOk(s')
  {
    match op
    case DoPush(data) => PushRecords(s, data);
    case DoMPush(datas) => MPushRecords(s, datas);
    case DoPop(_, _) => DeliveryRecords(s, op, s');
    case DoMPop(_, _, _) => DeliveryRecords(s, op, s');
    case DoConfirm(_, _) => DeliveryRecords(s, op, s');
    case DoEmptyTopic => EmptyTopicRecords(s, s');
    case DoEmptyLine(_) => LineOpRecords(s, op, s');
    case DoCreateLine(_, _) => LineOpRecords(s, op, s');
    case DoRemoveLine(_) => LineOpRecords(s, op, s');
    case DoBackup => BackupRecords(s, s');
    case DoCleanStep => CleanRecords(s, s');
    case DoElsewhere => ClosedIsLocal(s.t, s.recs, s'.recs);
    case DoEmptyHead => HeadRecords(s, s');
    case _ => SameRecords(s, s');
  }

  lemma PushRecords(s: Sys, data: Bytes)
    requires RecordsOk(s)
    ensures RecordsOk(PushOk(s, data))
  {
  }

  lemma CleanRecords(s: Sys, s': Sys)
    requires RecordsOk(s) && CleanStepNext(s, s') && s'.t.pass == s.t.pass
    ensures RecordsOk(s')
  {
  }

  lemma HeadRecords(s: Sys, s': Sys)
    requires RecordsOk(s) && EmptyHeadNext(s, true, s')
    ensures RecordsOk(s')
  {
  }

  lemma SameRecords(s: Sys, s': Sys)
    requires RecordsOk(s) && s'.recs == s.recs
    requires s'.t.name == s.t.name && s'.t.head == s.t.head && s'.t.tail == s.t.tail && s'.t.lines == s.t.lines
    ensures RecordsOk(s')
  {
  }

  /** What `exportLines` and `exportTopic` write when the queue closes is what a load needs. */
  lemma ExportCloses(s: Sys, b: Bytes, recs': Records)
    requires RecordsOk(s) && IsTopicBytes(b, s.t.lines.Keys, s.t.persist)
    requires recs' == ExportLines(s.recs, s.t, s.t.lines.Keys)[TopicRec(s.t.name) := b]
    ensures ClosedFor(s.t, recs')
  {
  }

  /** Closing another topic disturbs nothing of this one. */
  lemma ClosedIsLocal(t: TopicState, recs: Records, recs': Records)
    requires SameOwned(t.name, recs, recs')
    ensures RecordsOk(Sys(t, recs)) ==> RecordsOk(Sys(t, recs'))
    ensures ClosedFor(t, recs) ==> ClosedFor(t, recs')
  {
  }

  // ----- Removing a topic -----

  predicate IsMsgBelow(k: Key, t: TopicState) {
    k.MsgRec? && k.topic == t.name && k.id < t.head
  }

  /** The topic owns no record but those that `remove` deletes and messages below the head. */
  ghost predicate Tidy(s: Sys) {
    forall k: Key :: k in s.recs && Owned(k, s.t.name) ==> Removes(s.t, k) || IsMsgBelow(k, s.t)
  }

  /** A message below the head is stored; neither `clean` nor `remove` will ever delete it. */
  ghost predicate Leaks(s: Sys) {
    exists id: nat :: id < s.t.head && MsgRec(s.t.name, id) in s.recs
  }

  /** Removing the topic leaves none of its records. */
  ghost predicate RemovedCleanly(s: Sys) {
    forall k: Key :: k in Removed(s) ==> !Owned(k, s.t.name)
  }

  lemma LeftAfterRemove(s: Sys)
    requires Tidy(s)
    ensures RemovedCleanly(s) <==> !Leaks(s)
  {
    if Leaks(s) {
      var id: nat :| id < s.t.head && MsgRec(s.t.name, id) in s.recs;
      assert MsgRec(s.t.name, id) in Removed(s);
    }
  }

  lemma LineOpTidy(s: Sys, op: Op, s': Sys)
    requires Tidy(s) && FaultFree(s, op, s') && (op.DoCreateLine? || op.DoRemoveLine? || op.DoEmptyLine? || op.DoBackup?)
    ensures Tidy(s')
  {
  }

  lemma MPushTidy(s: Sys, datas: seq<Bytes>)
    requires Tidy(s)
    ensures Tidy(MPushOk(s, datas))
  {
    WriteMsgsExact(s.recs, s.t.name, s.t.tail, datas);
  }

  lemma EmptyTidy(s: Sys, s': Sys)
    requires s.t.head <= s.t.tail && Tidy(s) && EmptyTopicOk(s, s')
    ensures Tidy(s')
  {
  }

  lemma FaultFreeTidy(s: Sys, op: Op, s': Sys)
    requires Bounded(s.t) && Tidy(s) && FaultFree(s, op, s')
    ensures Tidy(s')
  {
    match op
    case DoMPush(datas) => MPushTidy(s, datas);
    case DoEmptyTopic => EmptyTidy(s, s');
    case DoEmptyLine(_) => LineOpTidy(s, op, s');
    case DoCreateLine(_, _) => LineOpTidy(s, op, s');
    case DoRemoveLine(_) => LineOpTidy(s, op, s');
    case DoBackup => LineOpTidy(s, op, s');
    case DoPush(data) => PushTidy(s, data);
    case DoCleanStep => CleanTidy(s, s');
    case _ =>
  }

  lemma PushTidy(s: Sys, data: Bytes)
    requires Tidy(s)
    ensures Tidy(PushOk(s, data))
  {
  }

  lemma CleanTidy(s: Sys, s': Sys)
    requires Tidy(s) && CleanStepNext(s, s') && s'.t.pass == s.t.pass
    ensures Tidy(s')
  {
  }

  // ----- What leaks -----

  /** `empty` moves the head over messages that are still stored. */
  predicate EmptiesOver(s: Sys, op: Op) {
    Empties(op) && s.t.head < s.t.tail
  }

  /** The head and the messages below it stay. */
  ghost predicate SameBelow(s: Sys, s': Sys) {
    && s'.t.name == s.t.name && s'.t.head == s.t.head
    && forall id: nat :: id < s.t.head ==> (MsgRec(s.t.name, id) in s'.recs <==> MsgRec(s.t.name, id) in s.recs)
  }

  lemma LineOpBelow(s: Sys, op: Op, s': Sys)
    requires Next(s, op, s') && (op.DoCreateLine? || op.DoRemoveLine? || op.DoEmptyLine? || op.DoBackup?)
    ensures SameBelow(s, s')
  {
  }

  lemma PushBelow(s: Sys, data: Bytes)
    requires s.t.head <= s.t.tail
    ensures SameBelow(s, PushOk(s, data))
  {
  }

  lemma MPushBelow(s: Sys, datas: seq<Bytes>)
    requires s.t.head <= s.t.tail
    ensures SameBelow(s, MPushOk(s, datas))
  {
    WriteMsgsExact(s.recs, s.t.name, s.t.tail, datas);
  }

  /** Every message stored before `empty` is stored after it, and those up to the tail are now below the head. */
  lemma EmptyLeaks(s: Sys, s': Sys)
    requires Bounded(s.t) && Stored(s) && (EmptyTopicOk(s, s') || EmptyHeadNext(s, true, s'))
    ensures Leaks(s') <==> Leaks(s) || s.t.head < s.t.tail
  {
    assert forall id: nat :: MsgRec(s.t.name, id) in s'.recs <==> MsgRec(s.t.name, id) in s.recs;
    if s.t.head < s.t.tail {
      assert MsgRec(s.t.name, s.t.head) in s'.recs;
    } else if Leaks(s) {
      var id: nat :| id < s.t.head && MsgRec(s.t.name, id) in s.recs;
      assert MsgRec(s.t.name, id) in s'.recs;
    }
  }

  lemma CleanLeaks(s: Sys, s': Sys)
    requires CleanStepNext(s, s') && s'.t.pass == s.t.pass
    ensures Leaks(s') <==> Leaks(s)
  {
    assert forall id: nat :: id < s'.t.head ==>
             (MsgRec(s.t.name, id) in s'.recs <==> id < s.t.head && MsgRec(s.t.name, id) in s.recs);
  }

  lemma SameLeaks(s: Sys, s': Sys)
    requires SameBelow(s, s')
    ensures Leaks(s') <==> Leaks(s)
  {
  }

  lemma FaultFreeLeaks(s: Sys, op: Op, s': Sys)
    requires Inv(s) && FaultFree(s, op, s')
    ensures Leaks(s') <==> Leaks(s) || EmptiesOver(s, op)
  {
    match op
    case DoMPush(datas) => MPushBelow(s, datas); SameLeaks(s, s');
    case DoEmptyTopic => EmptyLeaks(s, s');
    case DoEmptyHead => EmptyLeaks(s, s');
    case DoCleanStep => CleanLeaks(s, s');
    case DoEmptyLine(_) => LineOpBelow(s, op, s'); SameLeaks(s, s');
    case DoCreateLine(_, _) => LineOpBelow(s, op, s'); SameLeaks(s, s');
    case DoRemoveLine(_) => LineOpBelow(s, op, s'); SameLeaks(s, s');
    case DoBackup => LineOpBelow(s, op, s'); SameLeaks(s, s');
    case DoPush(data) => PushBelow(s, data); SameLeaks(s, s');
    case _ => SameLeaks(s, s');
  }

  // ----- Whole runs -----

  /** A run without failures, from a store that holds only what a new topic has written. */
  ghost predicate IsTidyRun(states: seq<Sys>, ops: seq<Op>) {
    && IsRun(states, ops)
    && Tidy(states[0])
    && forall i :: 0 <= i < |ops| ==> FaultFree(states[i], ops[i], states[i + 1])
  }

  lemma {:induction false} TidyRun(states: seq<Sys>, ops: seq<Op>, i: nat)
    requires IsTidyRun(states, ops) && i < |states|
    ensures Tidy(states[i])
  {
    if i > 0 {
      TidyRun(states, ops, i - 1);
      RunInv(states, ops, i - 1);
      FaultFreeTidy(states[i - 1], ops[i - 1], states[i]);
    }
  }

  /** Some step up to `i` emptied the topic over stored messages. */
  ghost predicate EmptiedOver(states: seq<Sys>, ops: seq<Op>, i: nat)
    requires i <= |ops| < |states|
  {
    exists j :: 0 <= j < i && EmptiesOver(states[j], ops[j])
  }

  lemma {:induction false} RunLeaks(states: seq<Sys>, ops: seq<Op>, i: nat)
    requires IsTidyRun(states, ops) && i < |states|
    ensures Leaks(states[i]) <==> EmptiedOver(states, ops, i)
  {
    if i > 0 {
      RunLeaks(states, ops, i - 1);
      RunInv(states, ops, i - 1);
      FaultFreeLeaks(states[i - 1], ops[i - 1], states[i]);
      EmptiedMore(states, ops, i - 1);
    }
  }

  lemma EmptiedMore(states: seq<Sys>, ops: seq<Op>, i: nat)
    requires i < |ops| < |states|
    ensures EmptiedOver(states, ops, i + 1) <==> EmptiedOver(states, ops, i) || EmptiesOver(states[i], ops[i])
  {
  }

  /**
   * After any run without failures, removing the topic leaves none of its records if and only if
   * it was never emptied while its head was below its tail.
   */
  lemma RemoveExactly(states: seq<Sys>, ops: seq<Op>)
    requires IsTidyRun(states, ops)
    ensures RemovedCleanly(states[|ops|]) <==> !EmptiedOver(states, ops, |ops|)
  {
    TidyRun(states, ops, |ops|);
    RunLeaks(states, ops, |ops|);
    LeftAfterRemove(states[|ops|]);
  }

  /** And it touches no record of anything else, after any run at all. */
  lemma RemoveIsLocal(s: Sys, k: Key)
    requires !Owned(k, s.t.name)
    ensures k in Removed(s) <==> k in s.recs
    ensures k in s.recs ==> Removed(s)[k] == s.recs[k]
  {
  }

  /** An `empty` and then `remove` leave behind exactly the messages the head was moved over, and those left before. */
  lemma EmptyThenRemoveLeaves(s: Sys, s': Sys)
    requires Inv(s) && Tidy(s) && EmptyTopicOk(s, s')
    ensures forall k: Key :: k in Removed(s') && Owned(k, s.t.name) <==>
              k.MsgRec? && k.topic == s.t.name && k.id < s.t.tail && k in s.recs
    ensures forall id: nat :: s.t.head <= id < s.t.tail ==> MsgRec(s.t.name, id) in Removed(s')
  {
    EmptyTidy(s, s');
    assert forall id: nat :: MsgRec(s.t.name, id) in s'.recs <==> MsgRec(s.t.name, id) in s.recs;
    assert s'.t.name == s.t.name && s'.t.head == s'.t.tail == s.t.tail;
  }
}
