/**
 * `empty` empties the lines of a topic one after the other and then moves the head to the tail.
 * Whether the head then passes a line depends on what happened to the messages pushed meanwhile.
 */
module HeadRace {
  import opened Base
  import opened LineSpec
  import opened LineHistory
  import opened TopicSpec
  import opened TopicProofs
  import opened Snapshots
  import opened Guarantees

  /** The head is at or below everything a line can still deliver. */
  predicate HeadOk(t: TopicState) {
    !t.persist ==> forall n :: n in t.lines ==> t.head <= LowMark(t.lines[n].line)
  }

  // ----- The other steps keep it -----

  /** How far a step can move the head, and where a line it creates starts. */
  lemma HeadMoves(s: Sys, op: Op, s': Sys, n: Bytes)
    requires Next(s, op, s') && !op.DoEmptyHead? && !s.t.persist && n in s'.t.lines
    ensures || s'.t.head == s.t.head
            || (s'.t.lines == s.t.lines && Sweeping(s.t) && s'.t.head <= s.t.pass.value)
            || LowMark(s'.t.lines[n].line) == s'.t.head
    ensures n !in s.t.lines ==> LowMark(s'.t.lines[n].line) == s'.t.head
  {
    if n !in s.t.lines {
      OnlyCreateAdds(s, op, s', n);
      CreatedRecs(s, n, op.recycle, s');
    } else if op.DoEmptyTopic? {
      EmptyMovesHead(s, s', n);
    }
  }

  lemma EmptyMovesHead(s: Sys, s': Sys, n: Bytes)
    requires EmptyTopicNext(s, s') && n in s.t.lines
    ensures n in s'.t.lines
    ensures s'.t.head == s.t.head || LowMark(s'.t.lines[n].line) == s'.t.head
  {
    EmptyTopicKeys(s, s');
    if EmptyDone(s, true, s') || EmptyDone(s, false, s') {
      assert s'.t.lines[n] == EmptyTracked(s.t.lines[n], s.t.tail);
    }
  }

  lemma KeepsPersist(s: Sys, op: Op, s': Sys)
    requires Next(s, op, s')
    ensures s'.t.persist == s.t.persist
  {
  }

  lemma NextMarkOk(s: Sys, op: Op, s': Sys, n: Bytes)
    requires Inv(s) && HeadOk(s.t) && Next(s, op, s') && !op.DoEmptyHead? && !s.t.persist && n in s'.t.lines
    ensures s'.t.head <= LowMark(s'.t.lines[n].line)
  {
    HeadMoves(s, op, s', n);
    if n in s.t.lines {
      LowMarksNeverDecrease(s, op, s', n);
      assert LineOk(s.t, s.t.lines[n]);
    }
  }

  lemma NextHeadOk(s: Sys, op: Op, s': Sys)
    requires Inv(s) && HeadOk(s.t) && Next(s, op, s') && !op.DoEmptyHead?
    ensures HeadOk(s'.t)
  {
    KeepsPersist(s, op, s');
    if !s.t.persist {
      forall n | n in s'.t.lines
        ensures s'.t.head <= LowMark(s'.t.lines[n].line)
      {
        NextMarkOk(s, op, s', n);
      }
    }
  }

  // ----- When the head moves to the tail -----

  /** What became of a message on a line: confirmed or dropped, or, without recycling, handed out or skipped. */
  ghost predicate Finished(x: Tracked, id: nat) {
    if x.line.recycle > 0 then id in x.hist.confirmed || id in x.hist.dropped
    else WasDelivered(x.hist.trace, id) || Skipped(x.hist.trace, x.hist.start, id)
  }

  /** Every message pushed since the line began is finished on it. */
  ghost predicate LineFinished(x: Tracked, tail: nat) {
    forall id: nat :: x.hist.start <= id < tail ==> Finished(x, id)
  }

  ghost predicate AllFinished(t: TopicState) {
    forall n :: n in t.lines ==> LineFinished(t.lines[n], t.tail)
  }

  lemma SkippedBelowCursor(tr: seq<Event>, start: nat, id: nat)
    requires OrderLaw(tr, start) && Skipped(tr, start, id)
    ensures id < Cursor(tr, start)
  {
    var k :| 0 <= k < |tr| && tr[k].Emptied? && Cursor(tr[..k], start) <= id < tr[k].upTo;
    assert tr[..k + 1][..k] == tr[..k];
    CursorMonotone(tr, start, k + 1, |tr|);
    assert tr[..|tr|] == tr;
  }

  /** On a line that does not recycle the finished messages are those below the cursor. */
  lemma FinishedBelowCursor(x: Tracked, tail: nat, clock: int, id: nat)
    requires TrackedInv(x, tail, clock) && x.line.recycle <= 0 && x.hist.start <= id
    ensures Finished(x, id) <==> id < x.line.head
  {
    var tr, start := x.hist.trace, x.hist.start;
    OpenRecorded(x);
    if WasDelivered(tr, id) {
      DeliveredBelowCursor(tr, start, id);
    }
    if Skipped(tr, start, id) {
      SkippedBelowCursor(tr, start, id);
    }
    if id < x.line.head {
      NoGaps(tr, start, id);
    }
  }

  lemma FinishedOrOwed(x: Tracked, tail: nat, clock: int, id: nat)
    requires TrackedInv(x, tail, clock) && x.hist.start <= id < tail
    ensures Finished(x, id) <==> id !in Outstanding(x.line, tail)
  {
    InOutstanding(x.line, tail, id);
    if x.line.recycle > 0 {
      ExactlyOnePlace(x, tail, clock, id);
    } else {
      FinishedBelowCursor(x, tail, clock, id);
    }
  }

  lemma StartBelowMark(x: Tracked, tail: nat, clock: int)
    requires TrackedInv(x, tail, clock)
    ensures x.hist.start <= LowMark(x.line)
  {
    OpenRecorded(x);
  }

  /** A line is at the tail exactly when every message pushed since it began is finished on it. */
  lemma AtTailIffFinished(x: Tracked, tail: nat, clock: int)
    requires TrackedInv(x, tail, clock)
    ensures LowMark(x.line) <= tail
    ensures LowMark(x.line) == tail <==> LineFinished(x, tail)
  {
    var m := LowMark(x.line);
    StartBelowMark(x, tail, clock);
    Bounds(x.line, tail, clock);
    MarkIsOwed(x.line, tail, clock);
    if m < tail {
      FinishedOrOwed(x, tail, clock, m);
    } else {
      forall id: nat | x.hist.start <= id < tail
        ensures Finished(x, id)
      {
        FinishedOrOwed(x, tail, clock, id);
        if id in Outstanding(x.line, tail) {
          OwedAboveMark(x.line, tail, clock, id);
        }
      }
    }
  }

  /**
   * The head moves to the tail without passing a line exactly when every message pushed since
   * that line began is finished on it. Either way every line can still read all it owes, since
   * nothing was deleted.
   */
  lemma HeadMoveExactly(s: Sys, saved: bool, s': Sys)
    requires Inv(s) && !s.t.persist && s.t.pass == None && EmptyHeadNext(s, saved, s')
    ensures HeadOk(s'.t) <==> AllFinished(s.t)
    ensures Inv(s')
  {
    EmptyHeadInv(s, s');
    forall n | n in s.t.lines
      ensures s'.t.head <= LowMark(s'.t.lines[n].line) <==> LineFinished(s.t.lines[n], s.t.tail)
    {
      assert LineOk(s.t, s.t.lines[n]);
      AtTailIffFinished(s.t.lines[n], s.t.tail, s.t.clock);
    }
  }

  // ----- Whole runs -----

  /** Whenever the head is moved to the tail, everything pushed is finished on every line. */
  ghost predicate MovesWhenFinished(states: seq<Sys>, ops: seq<Op>)
    requires |states| == |ops| + 1
  {
    forall j :: 0 <= j < |ops| && ops[j].DoEmptyHead? && !states[j].t.persist ==> AllFinished(states[j].t)
  }

  lemma {:induction false} FinishedRunHeadOk(states: seq<Sys>, ops: seq<Op>, i: nat)
    requires IsRun(states, ops) && MovesWhenFinished(states, ops) && i < |states|
    ensures HeadOk(states[i].t)
  {
    if i > 0 {
      RunInv(states, ops, i - 1);
      FinishedRunHeadOk(states, ops, i - 1);
      HeadStep(states[i - 1], ops[i - 1], states[i]);
    }
  }

  lemma HeadStep(s: Sys, op: Op, s': Sys)
    requires Inv(s) && HeadOk(s.t) && Next(s, op, s')
    ensures op.DoEmptyHead? && !s.t.persist ==> (HeadOk(s'.t) <==> AllFinished(s.t))
    ensures !(op.DoEmptyHead? && !s.t.persist) ==> HeadOk(s'.t)
  {
    if !op.DoEmptyHead? {
      NextHeadOk(s, op, s');
    } else if !s.t.persist {
      HeadMoveExactly(s, EmptyHeadNext(s, true, s'), s');
    }
  }

  /** Over a whole run the head never passes a line if and only if it is only moved when all is finished. */
  lemma RunHeadExactly(states: seq<Sys>, ops: seq<Op>)
    requires IsRun(states, ops)
    ensures (forall i :: 0 <= i < |states| ==> HeadOk(states[i].t)) <==> MovesWhenFinished(states, ops)
  {
    if MovesWhenFinished(states, ops) {
      forall i | 0 <= i < |states|
        ensures HeadOk(states[i].t)
      {
        FinishedRunHeadOk(states, ops, i);
      }
    } else {
      var j :| 0 <= j < |ops| && ops[j].DoEmptyHead? && !states[j].t.persist && !AllFinished(states[j].t);
      RunInv(states, ops, j);
      MovedTooSoon(states[j], ops[j], states[j + 1]);
    }
  }

  lemma MovedTooSoon(s: Sys, op: Op, s': Sys)
    requires Inv(s) && Next(s, op, s') && op.DoEmptyHead? && !s.t.persist && !AllFinished(s.t)
    ensures !HeadOk(s'.t)
  {
    HeadMoveExactly(s, EmptyHeadNext(s, true, s'), s');
  }

  // ----- An undisturbed empty -----

  /** Line `n` was emptied at step `a`; up to step `j` nothing was pushed and the line was not made anew. */
  ghost predicate QuietSince(states: seq<Sys>, ops: seq<Op>, a: nat, j: nat, n: Bytes) {
    && a < j <= |ops| < |states| && ops[a] == DoEmptyLine(n) && n in states[a].t.lines
    && forall k :: a < k < j ==> IsQuiet(ops[k], n)
  }

  predicate IsQuiet(op: Op, n: Bytes) {
    !op.DoPush? && !op.DoMPush? && !(op.DoCreateLine? && op.line == n)
  }

  lemma TailKept(s: Sys, op: Op, s': Sys)
    requires Next(s, op, s') && !op.DoPush? && !op.DoMPush?
    ensures s'.t.tail == s.t.tail
  {
  }

  ghost predicate OwesNothing(t: TopicState, n: Bytes) {
    n in t.lines ==> Outstanding(t.lines[n].line, t.tail) == {}
  }

  lemma QuietStep(s: Sys, op: Op, s': Sys, n: Bytes)
    requires Inv(s) && Next(s, op, s') && IsQuiet(op, n) && OwesNothing(s.t, n)
    ensures OwesNothing(s'.t, n)
  {
    if n in s'.t.lines {
      if n in s.t.lines {
        LineShrinks(s, op, s', n);
        TailKept(s, op, s');
        assert IdRange(s.t.tail, s.t.tail) == {};
      } else {
        OnlyCreateAdds(s, op, s', n);
      }
    }
  }

  lemma {:induction false} QuietOwesNothing(states: seq<Sys>, ops: seq<Op>, a: nat, j: nat, n: Bytes)
    requires IsRun(states, ops) && QuietSince(states, ops, a, j, n)
    ensures OwesNothing(states[j].t, n)
    decreases j
  {
    if j == a + 1 {
      EmptiedOwesNothing(states[a], n, states[j]);
    } else {
      QuietOwesNothing(states, ops, a, j - 1, n);
      RunInv(states, ops, j - 1);
      QuietStep(states[j - 1], ops[j - 1], states[j], n);
    }
  }

  lemma EmptiedOwesNothing(s: Sys, n: Bytes, s': Sys)
    requires n in s.t.lines && EmptyLineNext(s, n, s')
    ensures OwesNothing(s'.t, n)
  {
    assert IdRange(s.t.tail, s.t.tail) == {};
  }

  /**
   * If nothing is pushed from the emptying of each line until the head is moved, the head passes
   * no line.
   */
  lemma QuietEmpty(states: seq<Sys>, ops: seq<Op>, j: nat)
    requires IsRun(states, ops) && j < |ops| && ops[j].DoEmptyHead?
    requires forall n :: n in states[j].t.lines ==> exists a: nat :: QuietSince(states, ops, a, j, n)
    ensures HeadOk(states[j + 1].t)
  {
    forall n | n in states[j].t.lines
      ensures OwesNothing(states[j].t, n)
    {
      var a: nat :| QuietSince(states, ops, a, j, n);
      QuietOwesNothing(states, ops, a, j, n);
    }
    RunInv(states, ops, j);
    IdleHeadOk(states[j], states[j + 1]);
  }

  lemma IdleHeadOk(s: Sys, s': Sys)
    requires Inv(s) && Next(s, DoEmptyHead, s') && forall n :: n in s.t.lines ==> OwesNothing(s.t, n)
    ensures HeadOk(s'.t)
  {
    forall n | n in s.t.lines
      ensures LowMark(s.t.lines[n].line) == s.t.tail
    {
      assert LineOk(s.t, s.t.lines[n]) && OwesNothing(s.t, n);
      MarkIsOwed(s.t.lines[n].line, s.t.tail, s.t.clock);
    }
  }
}
