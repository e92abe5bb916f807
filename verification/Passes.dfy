/** What a pass of the collector gets done, by itself and within a run: what is deleted and what is left. */
module Passes {
  import opened Base
  import opened StoreKeys
  import opened LineSpec
  import opened LineHistory
  import opened Wire
  import opened TopicSpec
  import opened TopicProofs
  import opened Snapshots
  import opened Faultless
  import opened Sweep

  // ----- What an uninterrupted pass gets done -----

  function Max(a: nat, b: nat): nat {
    if a < b then b else a
  }

  /** Nothing has changed but messages of `[lo, hi)`, which are gone, and the saved head. */
  ghost predicate OnlyGone(recs: Records, t: Bytes, lo: nat, hi: nat, recs': Records) {
    && (forall id: nat :: lo <= id < hi ==> MsgRec(t, id) !in recs')
    && (forall k: Key :: !IsMsgIn(k, t, lo, hi) && k != HeadRec(t) ==>
          (k in recs' <==> k in recs) && (k in recs ==> recs'[k] == recs[k]))
  }

  lemma SweptIs(s: Sys, k: nat, s': Sys)
    requires s' == Swept(s, k)
    ensures s'.t == s.t.(head := s'.t.head, floor := s'.t.floor) && s'.t.head == s.t.head + k
    ensures OnlyGone(s.recs, s.t.name, s.t.head, s'.t.head, s'.recs)
    ensures k > 0 ==> HeadRec(s.t.name) in s'.recs && s'.recs[HeadRec(s.t.name)] == PutUint64(s'.t.head)
  {
  }

  /** The tail, or an id that some line owes. */
  ghost predicate TailOrOwed(t: TopicState, id: nat) {
    id == t.tail || exists n :: n in t.lines && id in Outstanding(t.lines[n].line, t.tail)
  }

  /** The least of the tail and all low marks is the tail or an id that some line owes. */
  lemma EndIsOwed(t: TopicState, end: nat)
    requires LinesOk(t) && IsEnd(t, end)
    ensures t.lines != map[] ==> TailOrOwed(t, end)
  {
    if t.lines != map[] && end != t.tail {
      var n :| n in t.lines && end == LowMark(t.lines[n].line);
      assert LineOk(t, t.lines[n]);
      InOutstanding(t.lines[n].line, t.tail, end);
    }
  }

  /**
   * A call of `clean` that no failure ends deletes messages from the head on until a round finds it stopped, and touches
   * no other record but the saved head. If none does, it moves the head to `end`, the least of the tail and all low marks,
   * unless the head is past it; and nothing more could have been deleted: the first message it leaves is owed by a line.
   */
  lemma PassCollects(s: Sys, end: nat, w: Watch, k: nat, quit: bool, failed: bool, s': Sys, reliable: bool)
    requires Inv(s) && Cleaned(s, end, w, k, quit, failed, s', reliable) && (reliable || !failed)
    ensures IsEnd(s.t, end) && k == s'.t.head - s.t.head
    ensures s'.t == s.t.(head := s'.t.head, floor := s'.t.floor)
    ensures OnlyGone(s.recs, s.t.name, s.t.head, s'.t.head, s'.recs)
    ensures k > 0 ==> HeadRec(s.t.name) in s'.recs && s'.recs[HeadRec(s.t.name)] == PutUint64(s'.t.head)
    ensures forall i :: 0 <= i < k ==> !Stops(w, i)
    ensures s'.t.head != Max(s.t.head, end) ==> s'.t.head < end && Stops(w, k) && (quit <==> Signalled(w, k))
    ensures s'.t.head == Max(s.t.head, end) ==> !quit && (k > 0 ==> TailOrOwed(s.t, s'.t.head))
  {
    CleanedIsDone(s, end, w, k, quit, failed, s', reliable);
    SweptIs(s, k, s');
    EndIsOwed(s.t, end);
  }

  lemma CleanedIsDone(s: Sys, end: nat, w: Watch, k: nat, quit: bool, failed: bool, s': Sys, reliable: bool)
    requires Inv(s) && Cleaned(s, end, w, k, quit, failed, s', reliable) && (reliable || !failed)
    ensures PassDone(s, end, w, k, quit, s')
  {
    OpenCleaned(s, end, w, k, quit, failed, s', reliable);
  }

  // ----- A pass within a run -----

  lemma MPushAnyBelow(s: Sys, datas: seq<Bytes>, s': Sys)
    requires s.t.head <= s.t.tail && MPushNext(s, datas, s')
    ensures SameBelow(s, s') && s'.t.pass == s.t.pass
  {
    WriteMsgsExact(s.recs, s.t.name, s.t.tail, datas);
    if MPushFailed(s, datas, s') {
      var k: nat :| MPushStopped(s, datas, k, s');
      WriteMsgsExact(s.recs, s.t.name, s.t.tail, datas[..k]);
    }
  }

  lemma PushAnyBelow(s: Sys, data: Bytes, s': Sys)
    requires s.t.head <= s.t.tail && PushNext(s, data, s')
    ensures SameBelow(s, s') && s'.t.pass == s.t.pass
  {
  }

  predicate Cleans(op: Op) {
    op.DoCleanBegin? || op.DoCleanStep? || op.DoCleanEnd?
  }

  /** Whatever else happens, the head, the messages below it and the pass stay. */
  lemma NextBelow(s: Sys, op: Op, s': Sys)
    requires s.t.head <= s.t.tail && Next(s, op, s') && !Empties(op) && !Cleans(op)
    ensures SameBelow(s, s') && s'.t.pass == s.t.pass
  {
    match op
    case DoPush(data) => PushAnyBelow(s, data, s');
    case DoMPush(datas) => MPushAnyBelow(s, datas, s');
    case DoCreateLine(_, _) => LineOpBelow(s, op, s');
    case DoRemoveLine(_) => LineOpBelow(s, op, s');
    case DoEmptyLine(_) => LineOpBelow(s, op, s');
    case DoBackup => LineOpBelow(s, op, s');
    case _ =>
  }

  /** A pass up to `end` that began with the head at `start` has got as far as the head. */
  ghost predicate Midway(s: Sys, start: nat, end: nat) {
    && s.t.pass == Some(end) && start <= s.t.head <= Max(start, end)
    && forall id: nat :: start <= id < s.t.head ==> MsgRec(s.t.name, id) !in s.recs
  }

  /** The step does not end the pass: it is not its end, and no failure of it. */
  predicate GoesOn(s: Sys, op: Op, s': Sys) {
    !op.DoCleanEnd? && (op.DoCleanStep? ==> s'.t.pass == s.t.pass)
  }

  lemma MidwayNext(s: Sys, op: Op, s': Sys, start: nat, end: nat)
    requires Bounded(s.t) && Midway(s, start, end) && Next(s, op, s') && GoesOn(s, op, s')
    ensures Midway(s', start, end) && s'.t.head == s.t.head + if op.DoCleanStep? then 1 else 0
  {
    if !op.DoCleanStep? {
      NextBelow(s, op, s');
    }
  }

  /** How many of the operations from `i` to `j` delete a message. */
  function Deletions(ops: seq<Op>, i: nat, j: nat): nat
    requires i <= j <= |ops|
    decreases j
  {
    if i == j then 0 else Deletions(ops, i, j - 1) + if ops[j - 1].DoCleanStep? then 1 else 0
  }

  /** From step `i`, which begins a pass up to `end`, to state `j` the pass goes on; anything else may come between. */
  ghost predicate PassRuns(states: seq<Sys>, ops: seq<Op>, i: nat, j: nat, end: nat) {
    && IsRun(states, ops) && i < j < |states|
    && ops[i].DoCleanBegin? && states[i + 1].t.pass == Some(end)
    && forall m :: i < m < j ==> GoesOn(states[m], ops[m], states[m + 1])
  }

  lemma {:induction false} PassMidway(states: seq<Sys>, ops: seq<Op>, i: nat, j: nat, end: nat)
    requires PassRuns(states, ops, i, j, end)
    ensures Midway(states[j], states[i].t.head, end)
    ensures states[j].t.head == states[i].t.head + Deletions(ops, i + 1, j)
    decreases j
  {
    if j > i + 1 {
      PassMidway(states, ops, i, j - 1, end);
      RunInv(states, ops, j - 1);
      MidwayNext(states[j - 1], ops[j - 1], states[j], states[i].t.head, end);
    } else {
      assert Next(states[i], ops[i], states[i + 1]);
    }
  }

  /**
   * A pass within any run, with anything else happening meanwhile, that is not ended early: `end` is the least of the
   * tail and all low marks at its beginning, each of its steps deletes one message, and once it has nothing left the
   * head is at `end` (or was above it), every message it was moved over is gone, and those from there on are stored.
   */
  lemma PassInRun(states: seq<Sys>, ops: seq<Op>, i: nat, j: nat, end: nat)
    requires PassRuns(states, ops, i, j, end)
    ensures IsEnd(states[i].t, end)
    ensures var s, s' := states[i].t, states[j];
            && s'.t.head == s.head + Deletions(ops, i + 1, j)
            && (forall id: nat :: s.head <= id < s'.t.head ==> MsgRec(s'.t.name, id) !in s'.recs)
            && (!Sweeping(s'.t) <==> s'.t.head == Max(s.head, end))
            && Inv(s')
  {
    assert Next(states[i], ops[i], states[i + 1]);
    PassMidway(states, ops, i, j, end);
    RunInv(states, ops, j);
  }
}
