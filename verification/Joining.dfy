/**
 * A line that joins a topic while the collector is at work. `newLine` reads the head without
 * the lock that `clean` holds, so deletions can come between that and the moment the line joins.
 */
module Joining {
  import opened Base
  import opened StoreKeys
  import opened LineSpec
  import opened LineHistory
  import opened Wire
  import opened TopicSpec
  import opened TopicProofs
  import opened Collector

  /** The line joins with the start it read from the topic some time ago. */
  function WithLineFrom(t: TopicState, n: Bytes, recycle: int, start: nat): TopicState {
    SetLine(t, n, NewTracked(recycle, start))
  }

  // ----- All that can happen from here -----

  ghost predicate IsRunFrom(s: Sys, states: seq<Sys>, ops: seq<Op>) {
    && |states| == |ops| + 1 && states[0] == s
    && forall i :: 0 <= i < |ops| ==> Next(states[i], ops[i], states[i + 1])
  }

  ghost predicate Reads(s: Sys, n: Bytes) {
    n in s.t.lines ==> Covers(Msgs(s), s.t.lines[n].line, s.t.tail)
  }

  /** Whatever steps are taken, the line can read every message it has yet to deliver. */
  ghost predicate AlwaysReads(s: Sys, n: Bytes) {
    forall states, ops :: IsRunFrom(s, states, ops) ==> Reads(states[|ops|], n)
  }

  lemma {:induction false} RunFromInv(s: Sys, states: seq<Sys>, ops: seq<Op>, i: nat)
    requires Inv(s) && IsRunFrom(s, states, ops) && i < |states|
    ensures Inv(states[i])
  {
    if i > 0 {
      RunFromInv(s, states, ops, i - 1);
      NextInv(states[i - 1], ops[i - 1], states[i]);
    }
  }

  lemma InvReads(s: Sys, n: Bytes)
    requires Inv(s)
    ensures Reads(s, n)
  {
    if n in s.t.lines {
      assert LineOk(s.t, s.t.lines[n]);
      StoredCovers(s, s.t.lines[n]);
    }
  }

  lemma InvAlwaysReads(s: Sys, n: Bytes)
    requires Inv(s)
    ensures AlwaysReads(s, n)
  {
    forall states, ops | IsRunFrom(s, states, ops)
      ensures Reads(states[|ops|], n)
    {
      RunFromInv(s, states, ops, |ops|);
      InvReads(states[|ops|], n);
    }
  }

  // ----- The rest of a pass -----

  ghost function SweepOne(s: Sys): Sys {
    Sys(s.t.(head := s.t.head + 1, floor := s.t.head + 1),
        (s.recs - {MsgRec(s.t.name, s.t.head)})[HeadRec(s.t.name) := PutUint64(s.t.head + 1)])
  }

  /** The next `k` deletions of the pass under way. */
  ghost function Sweep(s: Sys, k: nat): Sys {
    if k == 0 then s else SweepOne(Sweep(s, k - 1))
  }

  lemma {:induction false} SweepIs(s: Sys, k: nat)
    ensures Sweep(s, k).t == s.t.(head := s.t.head + k, floor := if k == 0 then s.t.floor else s.t.head + k)
    ensures k > 0 ==> MsgRec(s.t.name, s.t.head + k - 1) !in Sweep(s, k).recs
  {
    if k > 0 {
      SweepIs(s, k - 1);
    }
  }

  lemma SweepStep(s: Sys, k: nat)
    requires s.t.pass.Some? && s.t.head + k < s.t.pass.value
    ensures Next(Sweep(s, k), DoCleanStep, Sweep(s, k + 1))
  {
    SweepIs(s, k);
  }

  ghost function SweepStates(s: Sys, k: nat): (r: seq<Sys>)
    ensures |r| == k + 1 && forall i :: 0 <= i <= k ==> r[i] == Sweep(s, i)
  {
    seq(k + 1, i requires 0 <= i <= k => Sweep(s, i))
  }

  lemma SweepRuns(s: Sys, k: nat)
    requires s.t.pass.Some? && s.t.head + k <= s.t.pass.value
    ensures IsRunFrom(s, SweepStates(s, k), seq(k, i requires 0 <= i < k => DoCleanStep))
  {
    forall i | 0 <= i < k
      ensures Next(Sweep(s, i), DoCleanStep, Sweep(s, i + 1))
    {
      SweepStep(s, i);
    }
  }

  /** A line below the end of a pass that still deletes will miss a message. */
  lemma SweepTakes(s: Sys, n: Bytes)
    requires Sweeping(s.t) && s.t.pass.value <= s.t.tail
    requires n in s.t.lines && LowMark(s.t.lines[n].line) < s.t.pass.value
    ensures !AlwaysReads(s, n)
  {
    var k := s.t.pass.value - s.t.head;
    SweepRuns(s, k);
    SweepIs(s, k);
    var s' := Sweep(s, k);
    assert SweepStates(s, k)[|seq(k, i requires 0 <= i < k => DoCleanStep)|] == s';
    var id: nat := s.t.pass.value - 1;
    assert id !in Msgs(s') && !Reads(s', n);
  }

  // ----- Joining -----

  lemma LineFromOk(t: TopicState, n: Bytes, recycle: int, start: nat)
    requires LinesOk(t) && Kept(t) <= start <= t.tail && (Sweeping(t) ==> t.pass.value <= start)
    ensures LinesOk(WithLineFrom(t, n, recycle, start))
  {
    NewTrackedInv(recycle, start, t.tail, t.clock);
    SetLineOk(t, n, NewTracked(recycle, start));
  }

  /** Right now the line can read everything exactly when nothing it starts at or above was deleted. */
  lemma JoinReads(s: Sys, n: Bytes, recycle: int, start: nat)
    requires Inv(s) && FloorGone(s)
    ensures Reads(s.(t := WithLineFrom(s.t, n, recycle, start)), n) <==> Kept(s.t) <= start
  {
    var s1 := s.(t := WithLineFrom(s.t, n, recycle, start));
    assert Stored(s1) && FloorGone(s1) && LowMark(s1.t.lines[n].line) == start;
    ReadsExactly(s1, s1.t.lines[n].line);
  }

  /**
   * And it always will, whatever steps follow, exactly when besides that a pass under way has
   * nothing left to delete at or above the start.
   */
  lemma JoinIsSafe(s: Sys, n: Bytes, recycle: int, start: nat)
    requires Inv(s) && FloorGone(s) && start <= s.t.tail
    ensures AlwaysReads(s.(t := WithLineFrom(s.t, n, recycle, start)), n) <==>
              Kept(s.t) <= start && (Sweeping(s.t) ==> s.t.pass.value <= start)
  {
    var s1 := s.(t := WithLineFrom(s.t, n, recycle, start));
    JoinReads(s, n, recycle, start);
    if Kept(s.t) > start {
      assert IsRunFrom(s1, [s1], []);
    } else if Sweeping(s.t) && start < s.t.pass.value {
      SweepTakes(s1, n);
    } else {
      JoinInv(s, n, recycle, start);
      InvAlwaysReads(s1, n);
    }
  }

  lemma JoinInv(s: Sys, n: Bytes, recycle: int, start: nat)
    requires Inv(s) && Kept(s.t) <= start <= s.t.tail && (Sweeping(s.t) ==> s.t.pass.value <= start)
    ensures Inv(s.(t := WithLineFrom(s.t, n, recycle, start)))
  {
    LineFromOk(s.t, n, recycle, start);
    assert Stored(s.(t := WithLineFrom(s.t, n, recycle, start)));
  }

  /** A line that joins in one step with reading the head: exactly when no deletion is pending. */
  lemma CreateDuringPass(s: Sys, n: Bytes, recycle: int)
    requires Inv(s) && FloorGone(s)
    ensures AlwaysReads(s.(t := WithNewLine(s.t, n, recycle)), n) <==> !Sweeping(s.t)
  {
    JoinIsSafe(s, n, recycle, StartOf(s.t));
  }

  /** Otherwise the very next deletion takes the message the new line starts at, and its pops fail. */
  lemma CreateDuringPassLoses(s: Sys, n: Bytes, recycle: int, s': Sys, now: int)
    requires Inv(s) && Sweeping(s.t)
    requires CleanStepNext(s.(t := WithNewLine(s.t, n, recycle)), s') && s'.t.head > s.t.head
    ensures n in s'.t.lines && Pop(s'.t.lines[n].line, s'.t.tail, Msgs(s'), now).1 == Err(ErrInternal)
  {
  }
}
