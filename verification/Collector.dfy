/**
 * What the collector leaves behind: it deletes from the head on, so the message below the floor
 * is gone, and a line can read all it owes exactly when it has not fallen below the floor.
 */
module Collector {
  import opened Base
  import opened StoreKeys
  import opened LineSpec
  import opened TopicSpec
  import opened TopicProofs

  /** The last message deleted is not stored. */
  ghost predicate FloorGone(s: Sys) {
    !s.t.persist && s.t.floor > 0 ==> MsgRec(s.t.name, s.t.floor - 1) !in s.recs
  }

  lemma MPushFloor(s: Sys, datas: seq<Bytes>, s': Sys)
    requires Bounded(s.t) && FloorGone(s) && MPushNext(s, datas, s')
    ensures FloorGone(s')
  {
    WriteMsgsExact(s.recs, s.t.name, s.t.tail, datas);
    if MPushFailed(s, datas, s') {
      var k: nat :| MPushStopped(s, datas, k, s');
      WriteMsgsExact(s.recs, s.t.name, s.t.tail, datas[..k]);
    }
  }

  /** Neither the floor nor the messages below it change. */
  ghost predicate SameFloor(s: Sys, s': Sys) {
    && s'.t.name == s.t.name && s'.t.persist == s.t.persist && s'.t.floor == s.t.floor
    && forall id: nat :: id < s.t.floor && MsgRec(s.t.name, id) in s'.recs ==> MsgRec(s.t.name, id) in s.recs
  }

  lemma EmptyTopicFloor(s: Sys, s': Sys)
    requires EmptyTopicNext(s, s')
    ensures SameFloor(s, s')
  {
    if done, last :| EmptyStopped(s, done, last, s') {
      assert s'.recs == EmptySoFar(s, done).recs;
    }
  }

  lemma CreateFloor(s: Sys, n: Bytes, recycle: int, s': Sys)
    requires CreateLineNext(s, n, recycle, s')
    ensures SameFloor(s, s')
  {
  }

  lemma LineOpFloor(s: Sys, op: Op, s': Sys)
    requires Next(s, op, s') && (op.DoRemoveLine? || op.DoEmptyLine? || op.DoBackup? || op.DoEmptyHead?)
    ensures SameFloor(s, s')
  {
  }

  lemma NextFloor(s: Sys, op: Op, s': Sys)
    requires Bounded(s.t) && FloorGone(s) && Next(s, op, s')
    ensures FloorGone(s')
  {
    match op
    case DoMPush(datas) => MPushFloor(s, datas, s');
    case DoEmptyTopic => EmptyTopicFloor(s, s');
    case DoCreateLine(n, recycle) => CreateFloor(s, n, recycle, s');
    case DoRemoveLine(_) => LineOpFloor(s, op, s');
    case DoEmptyLine(_) => LineOpFloor(s, op, s');
    case DoBackup => LineOpFloor(s, op, s');
    case DoEmptyHead => LineOpFloor(s, op, s');
    case _ =>
  }

  lemma {:induction false} RunFloor(states: seq<Sys>, ops: seq<Op>, i: nat)
    requires IsRun(states, ops) && i < |states|
    ensures FloorGone(states[i])
  {
    if i > 0 {
      RunFloor(states, ops, i - 1);
      RunInv(states, ops, i - 1);
      NextFloor(states[i - 1], ops[i - 1], states[i]);
    }
  }

  /** A line in good order can read all it owes exactly when it is not below what must be kept. */
  lemma ReadsExactly(s: Sys, l: LineState)
    requires Bounded(s.t) && Stored(s) && FloorGone(s)
    ensures Covers(Msgs(s), l, s.t.tail) <==> Kept(s.t) <= LowMark(l)
  {
    if LowMark(l) < Kept(s.t) {
      var id: nat := s.t.floor - 1;
      assert MsgRec(s.t.name, id) !in s.recs && id !in Msgs(s);
    } else {
      assert forall id: nat :: LowMark(l) <= id < s.t.tail ==> MsgRec(s.t.name, id) in s.recs;
    }
  }
}
