/**
 * What the queue promises its users, over every run of every topic and whichever writes fail.
 */
module Guarantees {
  import opened Base
  import opened StoreKeys
  import opened LineSpec
  import opened LineProofs
  import opened LineHistory
  import opened TopicSpec
  import opened TopicProofs
  import opened Snapshots
  import opened Names
  import opened QueueSpec
  import opened QueueProofs

  /** The id was pushed, and the line has neither had it confirmed nor dropped it. */
  predicate Unfinished(t: TopicState, x: Tracked, id: nat) {
    x.hist.start <= id < t.tail && id !in x.hist.confirmed && id !in x.hist.dropped
  }

  /**
   * A message lives until its consumer confirms it: on a recycling line every unfinished id is
   * still owed, and the store still holds exactly the bytes that were pushed for it.
   */
  lemma MessageSurvives(states: seq<QueueState>, ops: seq<QueueOp>, s: Sys, t: Bytes, n: Bytes, id: nat)
    requires IsQueueRun(states, ops) && t in states[|ops|].topics && s == SysOf(states[|ops|], t)
    requires n in s.t.lines && s.t.lines[n].line.recycle > 0 && Unfinished(s.t, s.t.lines[n], id)
    ensures id in Outstanding(s.t.lines[n].line, s.t.tail)
    ensures MsgRec(t, id) in s.recs && id < |s.t.log| && s.recs[MsgRec(t, id)] == s.t.log[id]
  {
    QueueRunInv(states, ops, |ops|);
    SurvivesIn(s, n, id);
  }

  lemma SurvivesIn(s: Sys, n: Bytes, id: nat)
    requires Inv(s) && n in s.t.lines && s.t.lines[n].line.recycle > 0 && Unfinished(s.t, s.t.lines[n], id)
    ensures id in Outstanding(s.t.lines[n].line, s.t.tail)
    ensures MsgRec(s.t.name, id) in s.recs && id < |s.t.log| && s.recs[MsgRec(s.t.name, id)] == s.t.log[id]
  {
    var x := s.t.lines[n];
    assert LineOk(s.t, x);
    ExactlyOnePlace(x, s.t.tail, s.t.clock, id);
    OwedAboveMark(x.line, s.t.tail, s.t.clock, id);
  }

  lemma OwedAboveMark(l: LineState, tail: nat, clock: int, id: nat)
    requires LineInv(l, tail, clock) && id in Outstanding(l, tail)
    ensures LowMark(l) <= id < tail
  {
    InOutstanding(l, tail, id);
  }

  /**
   * The laws of delivery hold of the whole trace of every line: order, redelivery, finality. And the deadline of every
   * message in flight is the time of its last delivery plus the recycle time.
   */
  lemma DeliveriesObeyLaws(states: seq<QueueState>, ops: seq<QueueOp>, t: Bytes, n: Bytes)
    requires IsQueueRun(states, ops) && t in states[|ops|].topics && n in states[|ops|].topics[t].lines
    ensures var x := states[|ops|].topics[t].lines[n];
            && OrderLaw(x.hist.trace, x.hist.start)
            && RedeliveryLaw(x.hist.trace, x.line.recycle)
            && FinalityLaw(x.hist.trace)
            && forall m :: m in x.line.inflight ==> DeadlineSet(x.hist.trace, m, x.line.recycle)
  {
    QueueRunInv(states, ops, |ops|);
    var s := SysOf(states[|ops|], t);
    assert LineOk(s.t, s.t.lines[n]);
    OpenRecorded(s.t.lines[n]);
  }

  // ----- Low marks never decrease -----

  lemma MarkIsOwed(l: LineState, tail: nat, clock: int)
    requires LineInv(l, tail, clock)
    ensures LowMark(l) == tail || LowMark(l) in Outstanding(l, tail)
  {
    InOutstanding(l, tail, LowMark(l));
  }

  lemma ShrinkingRaisesMark(l: LineState, tail: nat, clock: int, l': LineState, tail': nat, clock': int)
    requires LineInv(l, tail, clock) && LineInv(l', tail', clock') && Shrinks(l, tail, l', tail')
    ensures LowMark(l) <= LowMark(l')
  {
    MarkIsOwed(l', tail', clock');
    if LowMark(l') in Outstanding(l, tail) {
      OwedAboveMark(l, tail, clock, LowMark(l'));
    }
  }

  /** So the `ending` that `clean` computes once bounds every line for the whole pass. */
  lemma LowMarksNeverDecrease(s: Sys, op: Op, s': Sys, n: Bytes)
    requires Inv(s) && Next(s, op, s') && n in s.t.lines && n in s'.t.lines
    ensures LowMark(s.t.lines[n].line) <= LowMark(s'.t.lines[n].line)
  {
    LineShrinks(s, op, s', n);
    NextInv(s, op, s');
    assert LineOk(s.t, s.t.lines[n]) && LineOk(s'.t, s'.t.lines[n]);
    ShrinkingRaisesMark(s.t.lines[n].line, s.t.tail, s.t.clock, s'.t.lines[n].line, s'.t.tail, s'.t.clock);
  }

  // ----- Everything owed can be had -----

  function Ids(lo: nat, hi: nat): (r: seq<nat>)
    requires lo <= hi
    ensures |r| == hi - lo && forall i :: 0 <= i < |r| ==> r[i] == lo + i
  {
    seq(hi - lo, i requires 0 <= i < hi - lo => lo + i)
  }

  lemma {:induction false} TakesAll(l: LineState, tail: nat, msgs: Messages, now: int, n: nat)
    requires l.head <= tail <= l.head + n && forall id: nat :: l.head <= id < tail ==> id in msgs
    ensures TakeMany(l, tail, msgs, now, n).1 == Ids(l.head, tail)
    decreases n
  {
    if l.head < tail {
      TakesAll(TakeHead(l, now), tail, msgs, now, n - 1);
      assert [l.head] + Ids(l.head + 1, tail) == Ids(l.head, tail);
    }
  }

  lemma AllExpired(l: LineState, now: int, n: nat)
    requires forall i :: 0 <= i < |l.inflight| ==> Expired(l.inflight[i], now)
    requires |l.inflight| <= n
    ensures ExpiredFront(l.inflight, now, n) == |l.inflight|
  {
  }

  /**
   * Once every deadline has passed, a batch large enough hands out every id the line owes, each
   * exactly once: those in flight in deadline order, then the pending ones.
   */
  lemma BatchDrains(l: LineState, tail: nat, clock: int, msgs: Messages, now: int, n: nat)
    requires LineInv(l, tail, clock) && Covers(msgs, l, tail) && Outstanding(l, tail) != {}
    requires l.recycle > 0 ==> forall i :: 0 <= i < |l.inflight| ==> Expired(l.inflight[i], now)
    requires n >= |l.inflight| + tail - l.head
    ensures var r := MPop(l, tail, msgs, now, n).1;
            && r.Ok? && r.value.ids == Tids(l.inflight) + Ids(l.head, tail)
            && (forall id: nat :: id in r.value.ids <==> id in Outstanding(l, tail))
            && |r.value.ids| == |Outstanding(l, tail)|
  {
    DrainedIds(l, tail, clock);
    DrainedStored(l, tail, clock, msgs);
    if l.recycle > 0 {
      AllExpired(l, now, n);
    }
    BatchIs(l, tail, msgs, now, n);
  }

  lemma BatchIs(l: LineState, tail: nat, msgs: Messages, now: int, n: nat)
    requires l.head <= tail && n >= |l.inflight| + tail - l.head
    requires if l.recycle > 0 then ExpiredFront(l.inflight, now, n) == |l.inflight| else l.inflight == []
    requires AllStored(Tids(l.inflight), msgs) && forall id: nat :: l.head <= id < tail ==> id in msgs
    requires Tids(l.inflight) + Ids(l.head, tail) != []
    ensures MPop(l, tail, msgs, now, n).1.Ok?
    ensures MPop(l, tail, msgs, now, n).1.value.ids == Tids(l.inflight) + Ids(l.head, tail)
  {
    var e := |l.inflight|;
    assert l.inflight[..e] == l.inflight;
    TakesAll(if l.recycle > 0 then Rotate(l, e, now) else l, tail, msgs, now, n - e);
    if l.recycle > 0 && e >= n {
      assert Tids(l.inflight) + Ids(l.head, tail) == Tids(l.inflight);
    }
  }

  lemma DrainedStored(l: LineState, tail: nat, clock: int, msgs: Messages)
    requires LineInv(l, tail, clock) && Covers(msgs, l, tail)
    ensures AllStored(Tids(l.inflight), msgs)
    ensures forall id: nat :: l.head <= id < tail ==> id in msgs
  {
  }

  lemma DrainedIds(l: LineState, tail: nat, clock: int)
    requires LineInv(l, tail, clock)
    ensures var ids := Tids(l.inflight) + Ids(l.head, tail);
            && (forall id: nat :: id in ids <==> id in Outstanding(l, tail))
            && |ids| == |Outstanding(l, tail)|
            && (ids == [] <==> Outstanding(l, tail) == {})
  {
    OutstandingSize(l, tail);
    var ids := Tids(l.inflight) + Ids(l.head, tail);
    forall id: nat
      ensures id in ids <==> id in Outstanding(l, tail)
    {
      InOutstanding(l, tail, id);
      DrainedHas(l, tail, id);
    }
  }

  lemma DrainedHas(l: LineState, tail: nat, id: nat)
    requires l.head <= tail
    ensures id in Tids(l.inflight) + Ids(l.head, tail) <==> InFlight(l, id) || l.head <= id < tail
  {
    var a, b := Tids(l.inflight), Ids(l.head, tail);
    if l.head <= id < tail {
      assert b[id - l.head] == id;
    }
    if InFlight(l, id) {
      var i :| 0 <= i < |l.inflight| && l.inflight[i].tid == id;
      assert a[i] == id;
    }
  }

  // ----- Pop, then confirm -----

  /** What a pop hands out is in flight on a recycling line, and confirming it takes just that id away. */
  lemma PopThenConfirm(l: LineState, tail: nat, msgs: Messages, now: int)
    requires LineInv(l, tail, now) && Covers(msgs, l, tail) && l.recycle > 0 && Pop(l, tail, msgs, now).1.Ok?
    ensures var (l1, r) := Pop(l, tail, msgs, now);
            var (l2, c) := Confirm(l1, r.value.id);
            c == Ok(()) && forall id: nat :: InFlight(l2, id) <==> InFlight(l1, id) && id != r.value.id
  {
    var (l1, r) := Pop(l, tail, msgs, now);
    PopInv(l, tail, msgs, now);
    PoppedInFlight(l, tail, msgs, now);
    ConfirmExact(l1, r.value.id, tail, now);
  }

  lemma PoppedInFlight(l: LineState, tail: nat, msgs: Messages, now: int)
    requires l.recycle > 0 && Pop(l, tail, msgs, now).1.Ok?
    ensures var (l1, r) := Pop(l, tail, msgs, now);
            InFlight(l1, r.value.id)
  {
    var (l1, r) := Pop(l, tail, msgs, now);
    assert l1.inflight[|l1.inflight| - 1].tid == r.value.id;
  }

  /**
   * End to end: the id a client gets from a successful Pop on a recycling line, given to
   * Confirm, is accepted and marks exactly that message of that line as done.
   */
  lemma ClientConfirms(u: QueueState, key: Bytes, now: int, t: Bytes, n: Bytes)
    requires QueueInv(u) && PopKey(key) == Ok((t, n)) && t in u.topics && t != [] && n in u.topics[t].lines
    requires u.topics[t].clock <= now && u.topics[t].lines[n].line.recycle > 0 && u.topics[t].tail < U64
    requires QueuePop(u, key, now).1.Ok?
    ensures var (u1, r) := QueuePop(u, key, now);
            var (u2, c) := QueueConfirm(u1, r.value.0);
            && c == Ok(())
            && t in u2.topics && n in u2.topics[t].lines
            && exists id :: r.value.0 == IdOf(key, id)
                 && u2.topics[t].lines[n].hist.confirmed == u.topics[t].lines[n].hist.confirmed + {id}
  {
    var s := SysOf(u, t);
    var x := s.t.lines[n];
    assert TopicGood(s) && LineOk(s.t, x);
    InvMonotone(x.line, s.t.tail, s.t.clock, s.t.tail, now);
    StoredCovers(s, x);
    PopThenConfirm(x.line, s.t.tail, Msgs(s), now);
    var id := Pop(x.line, s.t.tail, Msgs(s), now).1.value.id;
    PopIsExact(s, n, now);
    ConfirmFindsPopped(key, t, n, id);
    ConfirmedBy(u, key, now, t, n, id);
  }

  lemma ConfirmedBy(u: QueueState, key: Bytes, now: int, t: Bytes, n: Bytes, id: nat)
    requires PopKey(key) == Ok((t, n)) && t in u.topics && n in u.topics[t].lines
    requires var l := u.topics[t].lines[n].line;
             var (l1, r) := Pop(l, u.topics[t].tail, Msgs(SysOf(u, t)), now);
             r.Ok? && r.value.id == id && Confirm(l1, id).1 == Ok(())
    requires ConfirmKey(IdOf(key, id)) == Ok((t, n, id))
    ensures var (u1, r) := QueuePop(u, key, now);
            && r.Ok? && r.value.0 == IdOf(key, id)
            && var (u2, c) := QueueConfirm(u1, IdOf(key, id));
               && c == Ok(()) && t in u2.topics && n in u2.topics[t].lines
               && u2.topics[t].lines[n].hist.confirmed == u.topics[t].lines[n].hist.confirmed + {id}
  {
  }
}
