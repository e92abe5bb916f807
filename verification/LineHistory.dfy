/**
 * The history of a line over a whole run: what it delivered and when, what was confirmed and
 * what was dropped. The laws below hold of every run; `TrackedInv` is what every step keeps.
 */
module LineHistory {
  import opened Base
  import opened LineSpec
  import opened LineProofs

  datatype Event = Delivered(id: nat, at: int) | Confirmed(id: nat) | Emptied(upTo: nat)

  datatype History = History(start: nat, confirmed: set<nat>, dropped: set<nat>, trace: seq<Event>)

  /** A line together with its history. */
  datatype Tracked = Tracked(line: LineState, hist: History)

  // ----- Steps with history -----

  function Deliveries(ids: seq<nat>, now: int): (r: seq<Event>)
    ensures |r| == |ids|
    ensures forall i :: 0 <= i < |ids| ==> r[i] == Delivered(ids[i], now)
  {
    seq(|ids|, i requires 0 <= i < |ids| => Delivered(ids[i], now))
  }

  function Deliver(h: History, ids: seq<nat>, now: int): History {
    h.(trace := h.trace + Deliveries(ids, now))
  }

  /** The ids of `[lo, hi)`. */
  function IdRange(lo: nat, hi: nat): (r: set<nat>)
    ensures forall id: nat :: id in r <==> lo <= id < hi
    ensures |r| == if lo <= hi then hi - lo else 0
    decreases hi
  {
    if lo >= hi then {} else IdRange(lo, hi - 1) + {hi - 1}
  }

  function IdSet(s: seq<InflightMessage>): set<nat> {
    set m | m in s :: m.tid
  }

  function NewTracked(recycle: int, start: nat): Tracked {
    Tracked(NewLine(recycle, start), History(start, {}, {}, []))
  }

  ghost function PopTracked(x: Tracked, tail: nat, msgs: Messages, now: int): Tracked {
    var (l, r) := Pop(x.line, tail, msgs, now);
    Tracked(l, if r.Ok? then Deliver(x.hist, [r.value.id], now) else x.hist)
  }

  ghost function MPopTracked(x: Tracked, tail: nat, msgs: Messages, now: int, n: int): Tracked {
    var (l, r) := MPop(x.line, tail, msgs, now, n);
    Tracked(l, if r.Ok? then Deliver(x.hist, r.value.ids, now) else x.hist)
  }

  function ConfirmTracked(x: Tracked, id: nat): Tracked {
    var (l, r) := Confirm(x.line, id);
    Tracked(l, if r.Ok? then x.hist.(confirmed := x.hist.confirmed + {id}, trace := x.hist.trace + [Confirmed(id)])
               else x.hist)
  }

  function EmptyTracked(x: Tracked, tail: nat): Tracked {
    var gone := IdSet(x.line.inflight) + IdRange(x.line.head, tail);
    Tracked(Empty(x.line, tail), x.hist.(dropped := x.hist.dropped + gone, trace := x.hist.trace + [Emptied(tail)]))
  }

  // ----- The laws of a trace -----

  /** Where the cursor of a line that started at `start` stands after a trace. */
  function Cursor(trace: seq<Event>, start: nat): nat {
    if trace == [] then start
    else
      var before := Cursor(trace[..|trace| - 1], start);
      match trace[|trace| - 1]
      case Delivered(id, _) => if id < before then before else id + 1
      case Confirmed(_) => before
      case Emptied(upTo) => upTo
  }

  ghost predicate WasDelivered(trace: seq<Event>, id: nat) {
    exists i :: 0 <= i < |trace| && trace[i].Delivered? && trace[i].id == id
  }

  /** A second delivery of an id happens only on a recycling line, strictly after the deadline of the first. */
  ghost predicate RedeliveryLaw(trace: seq<Event>, recycle: int) {
    forall i, j :: 0 <= i < j < |trace| && trace[i].Delivered? && trace[j].Delivered? && trace[i].id == trace[j].id ==>
      recycle > 0 && trace[i].at + recycle < trace[j].at
  }

  /** Nothing is delivered after it was confirmed or dropped. */
  ghost predicate FinalityLaw(trace: seq<Event>) {
    && (forall i, j :: 0 <= i < j < |trace| && trace[i].Confirmed? && trace[j].Delivered? ==> trace[i].id != trace[j].id)
    && (forall i, j :: 0 <= i < j < |trace| && trace[i].Emptied? && trace[j].Delivered? ==> trace[i].upTo <= trace[j].id)
  }

  /** A delivery repeats an earlier one or is of the very next id; emptying only jumps forward. */
  ghost predicate OrderLaw(trace: seq<Event>, start: nat) {
    && (forall j :: 0 <= j < |trace| && trace[j].Delivered? ==>
          WasDelivered(trace[..j], trace[j].id) || trace[j].id == Cursor(trace[..j], start))
    && (forall j :: 0 <= j < |trace| && trace[j].Emptied? ==> Cursor(trace[..j], start) <= trace[j].upTo)
  }

  // ----- What every step keeps -----

  ghost predicate Laws(x: Tracked) {
    && Cursor(x.hist.trace, x.hist.start) == x.line.head
    && RedeliveryLaw(x.hist.trace, x.line.recycle)
    && FinalityLaw(x.hist.trace)
    && OrderLaw(x.hist.trace, x.hist.start)
  }

  /** On a recycling line every id below the cursor is in exactly one of three places. */
  ghost predicate Conserved(x: Tracked) {
    && x.hist.start <= LowMark(x.line)
    && x.hist.confirmed !! x.hist.dropped
    && (forall id: nat :: id in x.hist.confirmed || id in x.hist.dropped ==>
          x.hist.start <= id < x.line.head && !InFlight(x.line, id))
    && (x.line.recycle > 0 ==>
          forall id: nat :: x.hist.start <= id < x.line.head ==>
            id in x.hist.confirmed || id in x.hist.dropped || InFlight(x.line, id))
  }

  /** The delivery at position `i` is the last one of its id. */
  ghost predicate LastDelivery(tr: seq<Event>, id: nat, i: nat) {
    && i < |tr| && tr[i].Delivered? && tr[i].id == id
    && forall j :: i < j < |tr| && tr[j].Delivered? ==> tr[j].id != id
  }

  /** The deadline of an in-flight message is the time of its last delivery plus the recycle time. */
  ghost predicate DeadlineSet(tr: seq<Event>, m: InflightMessage, recycle: int) {
    exists i: nat :: LastDelivery(tr, m.tid, i) && m.exptime == tr[i].at + recycle
  }

  /** How the trace is reflected in the line. */
  ghost predicate Linked(x: Tracked) {
    var tr := x.hist.trace;
    && (forall m :: m in x.line.inflight ==> DeadlineSet(tr, m, x.line.recycle))
    && (forall i :: 0 <= i < |tr| && tr[i].Delivered? ==> tr[i].id < x.line.head)
    && (forall i :: 0 <= i < |tr| && tr[i].Confirmed? ==> tr[i].id in x.hist.confirmed)
    && (forall id :: id in x.hist.confirmed ==> Confirmed(id) in tr)
    && (forall i :: 0 <= i < |tr| && tr[i].Emptied? ==> tr[i].upTo <= LowMark(x.line))
  }

  /** The history obeys the laws, accounts for every id, and is reflected in the line. */
  ghost predicate Recorded(x: Tracked) {
    forall mark: bool {:trigger Opened(mark)} :: Opened(mark) ==> Laws(x) && Conserved(x) && Linked(x)
  }

  ghost predicate TrackedInv(x: Tracked, tail: nat, clock: int) {
    LineInv(x.line, tail, clock) && Recorded(x)
  }

  lemma OpenRecorded(x: Tracked)
    requires Recorded(x)
    ensures Laws(x) && Conserved(x) && Linked(x)
  {
    assert Opened(true);
  }

  lemma CloseRecorded(x: Tracked)
    requires Laws(x) && Conserved(x) && Linked(x)
    ensures Recorded(x)
  {
  }

  // ----- Adding one event to a trace -----

  lemma Extend(tr: seq<Event>, e: Event)
    ensures (tr + [e])[..|tr|] == tr
    ensures forall j :: 0 <= j <= |tr| ==> (tr + [e])[..j] == tr[..j]
    ensures forall id: nat :: WasDelivered(tr, id) ==> WasDelivered(tr + [e], id)
  {
    forall id: nat | WasDelivered(tr, id)
      ensures WasDelivered(tr + [e], id)
    {
      var i :| 0 <= i < |tr| && tr[i].Delivered? && tr[i].id == id;
      assert (tr + [e])[i] == tr[i];
    }
  }

  lemma ExtendLaws(tr: seq<Event>, e: Event, start: nat, recycle: int)
    requires RedeliveryLaw(tr, recycle) && FinalityLaw(tr) && OrderLaw(tr, start)
    requires e.Delivered? ==> forall i :: 0 <= i < |tr| && tr[i].Delivered? && tr[i].id == e.id ==>
               recycle > 0 && tr[i].at + recycle < e.at
    requires e.Delivered? ==> forall i :: 0 <= i < |tr| && tr[i].Confirmed? ==> tr[i].id != e.id
    requires e.Delivered? ==> forall i :: 0 <= i < |tr| && tr[i].Emptied? ==> tr[i].upTo <= e.id
    requires e.Delivered? ==> WasDelivered(tr, e.id) || e.id == Cursor(tr, start)
    requires e.Emptied? ==> Cursor(tr, start) <= e.upTo
    ensures RedeliveryLaw(tr + [e], recycle) && FinalityLaw(tr + [e]) && OrderLaw(tr + [e], start)
  {
    Extend(tr, e);
    var tr' := tr + [e];
    forall j | 0 <= j < |tr'|
      ensures tr'[j].Delivered? ==> WasDelivered(tr'[..j], tr'[j].id) || tr'[j].id == Cursor(tr'[..j], start)
      ensures tr'[j].Emptied? ==> Cursor(tr'[..j], start) <= tr'[j].upTo
    {
      assert tr'[..j] == tr[..j];
      if j == |tr| {
        assert tr[..j] == tr;
      }
    }
  }

  // ----- Each step -----

  lemma NewTrackedInv(recycle: int, start: nat, tail: nat, clock: int)
    requires start <= tail
    ensures TrackedInv(NewTracked(recycle, start), tail, clock)
  {
    CloseRecorded(NewTracked(recycle, start));
  }

  lemma TrackedMonotone(x: Tracked, tail: nat, clock: int, tail': nat, clock': int)
    requires TrackedInv(x, tail, clock) && tail <= tail' && clock <= clock'
    ensures TrackedInv(x, tail', clock')
  {
  }

  lemma DeadlineKept(tr: seq<Event>, e: Event, m: InflightMessage, recycle: int)
    requires DeadlineSet(tr, m, recycle)
    requires e.Delivered? ==> e.id != m.tid
    ensures DeadlineSet(tr + [e], m, recycle)
  {
    var i: nat :| LastDelivery(tr, m.tid, i) && m.exptime == tr[i].at + recycle;
    assert LastDelivery(tr + [e], m.tid, i);
  }

  /** A delivery just made sets the deadline. */
  lemma DeadlineFromNow(tr: seq<Event>, m: InflightMessage, recycle: int, now: int)
    requires m.exptime == now + recycle
    ensures DeadlineSet(tr + [Delivered(m.tid, now)], m, recycle)
  {
    assert LastDelivery(tr + [Delivered(m.tid, now)], m.tid, |tr|);
  }

  /** Every delivery of a message in flight was made at least the recycle time before its deadline. */
  lemma DeadlineBounds(tr: seq<Event>, m: InflightMessage, recycle: int)
    requires DeadlineSet(tr, m, recycle) && RedeliveryLaw(tr, recycle)
    ensures WasDelivered(tr, m.tid)
    ensures forall i :: 0 <= i < |tr| && tr[i].Delivered? && tr[i].id == m.tid ==> tr[i].at + recycle <= m.exptime
  {
    var i: nat :| LastDelivery(tr, m.tid, i) && m.exptime == tr[i].at + recycle;
    assert tr[i].Delivered? && tr[i].id == m.tid;
  }

  lemma PopTrackedInv(x: Tracked, tail: nat, msgs: Messages, now: int)
    requires TrackedInv(x, tail, now) && Covers(msgs, x.line, tail)
    ensures TrackedInv(PopTracked(x, tail, msgs, now), tail, now)
  {
    var x' := PopTracked(x, tail, msgs, now);
    PopInv(x.line, tail, msgs, now);
    if Redelivers(x.line, now) {
      assert InFlight(x.line, x.line.inflight[0].tid);
      DeliverOne(x.hist, x.line.inflight[0].tid, now);
      RedeliverTracked(x, x', now);
    } else if x.line.head < tail {
      DeliverOne(x.hist, x.line.head, now);
      TakeTracked(x, x', now);
    }
  }

  lemma DeliverOne(h: History, id: nat, now: int)
    ensures Deliver(h, [id], now) == h.(trace := h.trace + [Delivered(id, now)])
  {
  }

  lemma CursorStep(tr: seq<Event>, e: Event, start: nat)
    ensures Cursor(tr + [e], start) ==
              match e
              case Delivered(id, _) => if id < Cursor(tr, start) then Cursor(tr, start) else id + 1
              case Confirmed(_) => Cursor(tr, start)
              case Emptied(upTo) => upTo
  {
    assert (tr + [e])[..|tr|] == tr;
  }

  // A redelivery

  /** The line and the history after the message at the front goes out again. */
  ghost predicate Redelivery(x: Tracked, x': Tracked, now: int) {
    && Redelivers(x.line, now) && Indexed(x.line) && Distinct(x.line.inflight)
    && x'.line == x.line.(inflight := x.line.inflight[1..] + [Stamp(x.line.inflight[0], x.line, now)])
    && x'.hist == x.hist.(trace := x.hist.trace + [Delivered(x.line.inflight[0].tid, now)])
  }

  lemma RedeliverLaws(x: Tracked, x': Tracked, now: int)
    requires Recorded(x) && Redelivery(x, x', now)
    ensures Laws(x')
  {
    OpenRecorded(x);
    var m := x.line.inflight[0];
    var e := Delivered(m.tid, now);
    assert InFlight(x.line, m.tid);
    assert DeadlineSet(x.hist.trace, m, x.line.recycle);
    DeadlineBounds(x.hist.trace, m, x.line.recycle);
    ExtendLaws(x.hist.trace, e, x.hist.start, x.line.recycle);
    CursorStep(x.hist.trace, e, x.hist.start);
  }

  lemma RedeliverConserved(x: Tracked, x': Tracked, now: int)
    requires Conserved(x) && Redelivery(x, x', now)
    ensures Conserved(x')
  {
    forall id: nat
      ensures InFlight(x'.line, id) <==> InFlight(x.line, id)
    {
      RotateOneInFlight(x.line, Stamp(x.line.inflight[0], x.line, now), x'.line, id);
    }
  }

  lemma RedeliverTracked(x: Tracked, x': Tracked, now: int)
    requires Recorded(x) && Redelivery(x, x', now)
    ensures Recorded(x')
  {
    RedeliverLaws(x, x', now);
    OpenRecorded(x);
    RedeliverConserved(x, x', now);
    RedeliverLinked(x, x', Delivered(x.line.inflight[0].tid, now), now);
    CloseRecorded(x');
  }

  lemma RedeliverLinked(x: Tracked, x': Tracked, e: Event, now: int)
    requires Linked(x) && Redelivers(x.line, now) && Indexed(x.line) && Distinct(x.line.inflight)
    requires e == Delivered(x.line.inflight[0].tid, now)
    requires x'.hist == x.hist.(trace := x.hist.trace + [e])
    requires x'.line == x.line.(inflight := x.line.inflight[1..] + [Stamp(x.line.inflight[0], x.line, now)])
    ensures Linked(x')
  {
    var tr := x.hist.trace;
    var m0 := x.line.inflight[0];
    forall m | m in x'.line.inflight
      ensures DeadlineSet(x'.hist.trace, m, x.line.recycle)
    {
      if m in x.line.inflight[1..] {
        DeadlineKept(tr, e, m, x.line.recycle);
      } else {
        assert m == Stamp(m0, x.line, now);
        DeadlineFromNow(tr, m, x.line.recycle, now);
      }
    }
  }

  // A first delivery

  ghost predicate Taking(x: Tracked, x': Tracked, now: int) {
    && (x.line.recycle > 0 ==> Indexed(x.line)) && (x.line.recycle <= 0 ==> x.line.inflight == [])
    && x'.line == TakeHead(x.line, now)
    && x'.hist == x.hist.(trace := x.hist.trace + [Delivered(x.line.head, now)])
  }

  lemma TakeLaws(x: Tracked, x': Tracked, now: int)
    requires Laws(x) && Linked(x) && Conserved(x) && Taking(x, x', now)
    ensures Laws(x')
  {
    var e := Delivered(x.line.head, now);
    NeverBefore(x);
    ExtendLaws(x.hist.trace, e, x.hist.start, x.line.recycle);
    CursorStep(x.hist.trace, e, x.hist.start);
  }

  /** Nothing in the history is about the id at the cursor yet. */
  lemma NeverBefore(x: Tracked)
    requires Linked(x) && Conserved(x) && (x.line.recycle > 0 ==> Indexed(x.line))
    ensures forall i :: 0 <= i < |x.hist.trace| && x.hist.trace[i].Delivered? ==> x.hist.trace[i].id != x.line.head
    ensures forall i :: 0 <= i < |x.hist.trace| && x.hist.trace[i].Confirmed? ==> x.hist.trace[i].id != x.line.head
    ensures forall i :: 0 <= i < |x.hist.trace| && x.hist.trace[i].Emptied? ==> x.hist.trace[i].upTo <= x.line.head
  {
  }

  lemma TakeTracked(x: Tracked, x': Tracked, now: int)
    requires Recorded(x) && Taking(x, x', now)
    ensures Recorded(x')
  {
    OpenRecorded(x);
    TakeLaws(x, x', now);
    assert !InFlight(x.line, x.line.head);
    TakeConserved(x, x', now);
    TakeLinked(x, x', Delivered(x.line.head, now), now);
    CloseRecorded(x');
  }

  lemma TakeConserved(x: Tracked, x': Tracked, now: int)
    requires Conserved(x) && (x.line.recycle > 0 ==> x.line.ihead <= x.line.head)
    requires x'.line == TakeHead(x.line, now)
    requires x'.hist == x.hist.(trace := x'.hist.trace)
    requires !InFlight(x.line, x.line.head)
    ensures Conserved(x')
  {
    forall id: nat
      ensures InFlight(x'.line, id) <==> InFlight(x.line, id) || (x.line.recycle > 0 && id == x.line.head)
    {
      if x.line.recycle > 0 {
        if id == x.line.head {
          assert x'.line.inflight[|x.line.inflight|].tid == id;
        } else {
          InFlightAppend(x.line, InflightMessage(x.line.head, now + x.line.recycle), x'.line, id);
        }
      }
    }
  }

  lemma TakeLinked(x: Tracked, x': Tracked, e: Event, now: int)
    requires Linked(x) && (x.line.recycle > 0 ==> Indexed(x.line)) && (x.line.recycle <= 0 ==> x.line.inflight == [])
    requires e == Delivered(x.line.head, now) && x'.line == TakeHead(x.line, now)
    requires x'.hist == x.hist.(trace := x.hist.trace + [e])
    ensures Linked(x')
  {
    var tr := x.hist.trace;
    forall m | m in x'.line.inflight
      ensures DeadlineSet(x'.hist.trace, m, x.line.recycle)
    {
      if m in x.line.inflight {
        DeadlineKept(tr, e, m, x.line.recycle);
      } else {
        DeadlineFromNow(tr, m, x.line.recycle, now);
      }
    }
  }

  // A confirmation

  lemma ConfirmTrackedInv(x: Tracked, id: nat, tail: nat, clock: int)
    requires TrackedInv(x, tail, clock)
    ensures TrackedInv(ConfirmTracked(x, id), tail, clock)
  {
    var x' := ConfirmTracked(x, id);
    ConfirmInv(x.line, id, tail, clock);
    ConfirmExact(x.line, id, tail, clock);
    if InFlight(x.line, id) {
      LowMarkMonotone(x.line, tail, imap[], clock, id);
      OpenRecorded(x);
      ConfirmLaws(x, x', id);
      ConfirmConserved(x, x', id);
      ConfirmLinked(x, x', id);
      CloseRecorded(x');
    }
  }

  lemma ConfirmLaws(x: Tracked, x': Tracked, id: nat)
    requires Laws(x) && x'.line.head == x.line.head && x'.line.recycle == x.line.recycle
    requires x'.hist.start == x.hist.start && x'.hist.trace == x.hist.trace + [Confirmed(id)]
    ensures Laws(x')
  {
    ExtendLaws(x.hist.trace, Confirmed(id), x.hist.start, x.line.recycle);
    CursorStep(x.hist.trace, Confirmed(id), x.hist.start);
  }

  lemma ConfirmConserved(x: Tracked, x': Tracked, id: nat)
    requires Conserved(x) && InFlight(x.line, id) && x.hist.start <= id < x.line.head
    requires x'.line.head == x.line.head && x'.line.recycle == x.line.recycle && LowMark(x.line) <= LowMark(x'.line)
    requires forall y: nat :: InFlight(x'.line, y) <==> InFlight(x.line, y) && y != id
    requires x'.hist.start == x.hist.start && x'.hist.dropped == x.hist.dropped
    requires x'.hist.confirmed == x.hist.confirmed + {id}
    ensures Conserved(x')
  {
  }

  lemma ConfirmLinked(x: Tracked, x': Tracked, id: nat)
    requires Linked(x) && LowMark(x.line) <= LowMark(x'.line)
    requires Find(x.line.inflight, id) < |x.line.inflight| && x'.line == Remove(x.line, Find(x.line.inflight, id))
    requires x'.hist == x.hist.(confirmed := x.hist.confirmed + {id}, trace := x.hist.trace + [Confirmed(id)])
    ensures Linked(x')
  {
    forall m | m in x'.line.inflight
      ensures DeadlineSet(x'.hist.trace, m, x.line.recycle)
    {
      assert m in x.line.inflight;
      DeadlineKept(x.hist.trace, Confirmed(id), m, x.line.recycle);
    }
  }

  // Emptying

  lemma EmptyTrackedInv(x: Tracked, tail: nat, clock: int)
    requires TrackedInv(x, tail, clock)
    ensures TrackedInv(EmptyTracked(x, tail), tail, clock)
  {
    Bounds(x.line, tail, clock);
    OpenRecorded(x);
    EmptyLaws(x, tail);
    EmptyConserved(x, tail);
    EmptyLinked(x, tail);
    CloseRecorded(EmptyTracked(x, tail));
    NewLineInv(x.line.recycle, tail, tail, clock);
  }

  lemma Bounds(l: LineState, tail: nat, clock: int)
    requires LineInv(l, tail, clock)
    ensures LowMark(l) <= l.head <= tail
    ensures forall i :: 0 <= i < |l.inflight| ==> LowMark(l) <= l.inflight[i].tid < l.head
    ensures Distinct(l.inflight)
  {
  }

  lemma EmptyLaws(x: Tracked, tail: nat)
    requires Laws(x) && x.line.head <= tail
    ensures Laws(EmptyTracked(x, tail))
  {
    ExtendLaws(x.hist.trace, Emptied(tail), x.hist.start, x.line.recycle);
    CursorStep(x.hist.trace, Emptied(tail), x.hist.start);
  }

  lemma EmptyLinked(x: Tracked, tail: nat)
    requires Linked(x) && LowMark(x.line) <= x.line.head <= tail
    ensures Linked(EmptyTracked(x, tail))
  {
  }

  lemma EmptyConserved(x: Tracked, tail: nat)
    requires Conserved(x) && x.line.head <= tail
    requires LowMark(x.line) <= x.line.head
    requires forall i :: 0 <= i < |x.line.inflight| ==> LowMark(x.line) <= x.line.inflight[i].tid < x.line.head
    ensures Conserved(EmptyTracked(x, tail))
  {
    var gone := IdSet(x.line.inflight) + IdRange(x.line.head, tail);
    forall id: nat
      ensures id in gone <==> InFlight(x.line, id) || x.line.head <= id < tail
      ensures InFlight(x.line, id) ==> LowMark(x.line) <= id < x.line.head
    {
      InIdSet(x.line, id);
    }
    assert forall id: nat :: !InFlight(EmptyTracked(x, tail).line, id);
  }

  lemma InIdSet(l: LineState, id: nat)
    ensures id in IdSet(l.inflight) <==> InFlight(l, id)
  {
    if InFlight(l, id) {
      var i :| 0 <= i < |l.inflight| && l.inflight[i].tid == id;
      assert l.inflight[i] in l.inflight;
    }
  }

  // ----- Batches -----

  lemma PopKeeps(x: Tracked, tail: nat, msgs: Messages, now: int)
    requires TrackedInv(x, tail, now) && Covers(msgs, x.line, tail)
    ensures TrackedInv(PopTracked(x, tail, msgs, now), tail, now)
    ensures Covers(msgs, PopTracked(x, tail, msgs, now).line, tail)
    ensures LowMark(x.line) <= LowMark(PopTracked(x, tail, msgs, now).line)
  {
    PopTrackedInv(x, tail, msgs, now);
    LowMarkMonotone(x.line, tail, msgs, now, 0);
  }

  lemma DeliverTwice(h: History, a: seq<nat>, b: seq<nat>, now: int)
    ensures Deliver(Deliver(h, a, now), b, now) == Deliver(h, a + b, now)
    ensures Deliver(h, [], now) == h
  {
    assert Deliveries(a, now) + Deliveries(b, now) == Deliveries(a + b, now);
    assert h.trace + (Deliveries(a, now) + Deliveries(b, now)) == h.trace + Deliveries(a, now) + Deliveries(b, now);
    assert h.trace + [] == h.trace;
  }

  ghost function PopsTracked(x: Tracked, tail: nat, msgs: Messages, now: int, n: nat): Tracked
    decreases n
  {
    if n == 0 || Pop(x.line, tail, msgs, now).1.Err? then x
    else PopsTracked(PopTracked(x, tail, msgs, now), tail, msgs, now, n - 1)
  }

  lemma {:induction false} PopsTrackedIs(x: Tracked, tail: nat, msgs: Messages, now: int, n: nat)
    ensures var (l, b) := PopRepeatedly(x.line, tail, msgs, now, n);
            PopsTracked(x, tail, msgs, now, n) == Tracked(l, Deliver(x.hist, b.ids, now))
    decreases n
  {
    var (l1, r) := Pop(x.line, tail, msgs, now);
    if n > 0 && r.Ok? {
      PopsTrackedIs(PopTracked(x, tail, msgs, now), tail, msgs, now, n - 1);
      DeliverTwice(x.hist, [r.value.id], PopRepeatedly(l1, tail, msgs, now, n - 1).1.ids, now);
    } else {
      DeliverTwice(x.hist, [], [], now);
    }
  }

  lemma {:induction false} PopsTrackedInv(x: Tracked, x': Tracked, tail: nat, msgs: Messages, now: int, n: nat)
    requires TrackedInv(x, tail, now) && Covers(msgs, x.line, tail)
    requires x' == PopsTracked(x, tail, msgs, now, n)
    ensures TrackedInv(x', tail, now)
    ensures LowMark(x.line) <= LowMark(x'.line)
    decreases n
  {
    if n == 0 || Pop(x.line, tail, msgs, now).1.Err? {
      assert x' == x;
    } else {
      PopKeeps(x, tail, msgs, now);
      PopsTrackedInv(PopTracked(x, tail, msgs, now), x', tail, msgs, now, n - 1);
    }
  }

  lemma MPopTrackedNone(x: Tracked, tail: nat, msgs: Messages, now: int, n: int)
    requires n < 1
    ensures MPopTracked(x, tail, msgs, now, n) == x && MPop(x.line, tail, msgs, now, n).1 != Err(ErrInternal)
  {
    MPopOfNone(x.line, tail, msgs, now, n);
    DeliverTwice(x.hist, [], [], now);
  }

  lemma MPopTrackedIs(x: Tracked, tail: nat, msgs: Messages, now: int, n: nat)
    requires n >= 1 && Readable(msgs, x.line, tail)
    ensures MPopTracked(x, tail, msgs, now, n) == PopsTracked(x, tail, msgs, now, n)
    ensures MPop(x.line, tail, msgs, now, n).1 != Err(ErrInternal)
  {
    MPopIsRepeatedPop(x.line, tail, msgs, now, n);
    PopsTrackedIs(x, tail, msgs, now, n);
    DeliverTwice(x.hist, [], [], now);
  }

  lemma MPopTrackedInv(x: Tracked, tail: nat, msgs: Messages, now: int, n: int)
    requires TrackedInv(x, tail, now) && Covers(msgs, x.line, tail)
    ensures TrackedInv(MPopTracked(x, tail, msgs, now, n), tail, now)
    ensures LowMark(x.line) <= LowMark(MPopTracked(x, tail, msgs, now, n).line)
    ensures MPop(x.line, tail, msgs, now, n).1 != Err(ErrInternal)
  {
    if n >= 1 {
      MPopTrackedIs(x, tail, msgs, now, n);
      PopsTrackedInv(x, PopsTracked(x, tail, msgs, now, n), tail, msgs, now, n);
    } else {
      MPopTrackedNone(x, tail, msgs, now, n);
    }
  }

  // ----- What the invariant says about whole runs -----

  /** The ids a line still owes its consumers. */
  function Outstanding(l: LineState, tail: nat): set<nat> {
    IdSet(l.inflight) + IdRange(l.head, tail)
  }

  /** Every id since the start of a recycling line is in exactly one of four places. */
  lemma ExactlyOnePlace(x: Tracked, tail: nat, clock: int, id: nat)
    requires TrackedInv(x, tail, clock) && x.line.recycle > 0 && x.hist.start <= id < tail
    ensures id in Outstanding(x.line, tail) || id in x.hist.confirmed || id in x.hist.dropped
    ensures !(id in Outstanding(x.line, tail) && id in x.hist.confirmed)
    ensures !(id in Outstanding(x.line, tail) && id in x.hist.dropped)
    ensures !(id in x.hist.confirmed && id in x.hist.dropped)
    ensures !(InFlight(x.line, id) && id >= x.line.head)
  {
    OpenRecorded(x);
    InIdSet(x.line, id);
  }

  /** `Count` of `stat`, in unsigned 64-bit arithmetic. */
  function Count(l: LineState, tail: nat): int {
    ((|l.inflight| + tail) % U64 - l.head) % U64
  }

  lemma {:induction false} DistinctCount(s: seq<InflightMessage>)
    requires Distinct(s)
    ensures |IdSet(s)| == |s|
  {
    if s != [] {
      var n := |s| - 1;
      DistinctCount(s[..n]);
      assert s == s[..n] + [s[n]];
      assert IdSet(s) == IdSet(s[..n]) + {s[n].tid};
      assert s[n].tid !in IdSet(s[..n]);
    }
  }

  lemma WrapsBack(a: nat, h: nat)
    requires h <= a < h + U64
    ensures (a % U64 - h) % U64 == a - h
  {
    var q := a / U64;
    assert a % U64 == a - U64 * q;
    assert (a - h) - U64 * q == (a - h) + U64 * (-q);
    ModShift(a - h, -q);
  }

  lemma ModShift(x: int, q: int)
    requires 0 <= x < U64
    ensures (x + U64 * q) % U64 == x
  {
  }

  /** The reported count is the number of ids outstanding: it neither wraps nor drifts. */
  lemma CountIsOutstanding(l: LineState, tail: nat, clock: int)
    requires LineInv(l, tail, clock) && tail < U64
    ensures Count(l, tail) == |Outstanding(l, tail)|
    ensures Count(l, tail) <= tail
  {
    Bounds(l, tail, clock);
    OutstandingSize(l, tail);
    CountValue(l, tail);
  }

  /** The count as `stat` computes it. */
  lemma StatIs(l: LineState, tail: nat, clock: int, c: int)
    requires c == ((|l.inflight| + tail) % U64 - l.head) % U64
    ensures 0 <= c < U64
    ensures LineInv(l, tail, clock) && tail < U64 ==> c == |Outstanding(l, tail)|
  {
    if LineInv(l, tail, clock) && tail < U64 {
      CountIsOutstanding(l, tail, clock);
    }
  }

  lemma CountValue(l: LineState, tail: nat)
    requires |l.inflight| <= l.head <= tail < U64
    ensures Count(l, tail) == |l.inflight| + tail - l.head <= tail
  {
    CountIs(|l.inflight|, tail, l.head);
  }

  lemma CountIs(n: nat, tail: nat, head: nat)
    requires n <= head <= tail < U64
    ensures ((n + tail) % U64 - head) % U64 == n + tail - head <= tail
  {
    WrapsBack(n + tail, head);
  }

  lemma OutstandingSize(l: LineState, tail: nat)
    requires Distinct(l.inflight) && l.head <= tail
    requires forall i :: 0 <= i < |l.inflight| ==> l.inflight[i].tid < l.head
    ensures |Outstanding(l, tail)| == |l.inflight| + tail - l.head
    ensures |l.inflight| <= l.head
  {
    DistinctCount(l.inflight);
    var a, b := IdSet(l.inflight), IdRange(l.head, tail);
    assert a !! b;
    Subset(a, IdRange(0, l.head));
  }

  lemma {:induction false} Subset<T>(a: set<T>, b: set<T>)
    requires a <= b
    ensures |a| <= |b|
  {
    assert b == a + (b - a);
  }

  /** The cursor never moves back. */
  lemma {:induction false} CursorMonotone(tr: seq<Event>, start: nat, i: nat, j: nat)
    requires OrderLaw(tr, start) && i <= j <= |tr|
    ensures Cursor(tr[..i], start) <= Cursor(tr[..j], start)
    decreases j
  {
    if i < j {
      CursorMonotone(tr, start, i, j - 1);
      assert tr[..j][..j - 1] == tr[..j - 1];
    }
  }

  /** First deliveries come in increasing id order. */
  lemma FirstDeliveriesIncrease(tr: seq<Event>, start: nat, i: nat, j: nat)
    requires OrderLaw(tr, start)
    requires i < j < |tr| && tr[i].Delivered? && tr[j].Delivered? && !WasDelivered(tr[..j], tr[j].id)
    ensures tr[i].id < tr[j].id
  {
    CursorPast(tr, start, i);
    CursorMonotone(tr, start, i + 1, j);
  }

  /** Some `empty` jumped over this id while it was pending. */
  ghost predicate Skipped(tr: seq<Event>, start: nat, id: nat) {
    exists k :: 0 <= k < |tr| && tr[k].Emptied? && Cursor(tr[..k], start) <= id < tr[k].upTo
  }

  /** There are no gaps below the cursor except the jumps of `empty`. */
  lemma {:induction false} NoGaps(tr: seq<Event>, start: nat, id: nat)
    requires OrderLaw(tr, start) && start <= id < Cursor(tr, start)
    ensures WasDelivered(tr, id) || Skipped(tr, start, id)
  {
    var n := |tr| - 1;
    var init := tr[..n];
    assert tr == init + [tr[n]];
    assert OrderLaw(init, start) by {
      assert forall j :: 0 <= j <= n ==> init[..j] == tr[..j];
    }
    if id < Cursor(init, start) {
      NoGaps(init, start, id);
      Extend(init, tr[n]);
      if k :| 0 <= k < n && init[k].Emptied? && Cursor(init[..k], start) <= id < init[k].upTo {
        assert tr[..k] == init[..k];
        assert tr[k].Emptied? && Cursor(tr[..k], start) <= id < tr[k].upTo;
      }
    } else if tr[n].Delivered? {
      if WasDelivered(init, tr[n].id) {
        DeliveredBelowCursor(init, start, tr[n].id);
      }
    }
  }

  lemma {:induction false} DeliveredBelowCursor(tr: seq<Event>, start: nat, id: nat)
    requires OrderLaw(tr, start) && WasDelivered(tr, id)
    ensures id < Cursor(tr, start)
  {
    var i: nat :| i < |tr| && tr[i].Delivered? && tr[i].id == id;
    CursorPast(tr, start, i);
    CursorMonotone(tr, start, i + 1, |tr|);
    assert tr[..|tr|] == tr;
  }

  lemma CursorPast(tr: seq<Event>, start: nat, i: nat)
    requires i < |tr| && tr[i].Delivered?
    ensures tr[i].id < Cursor(tr[..i + 1], start)
  {
    assert tr[..i + 1][..i] == tr[..i];
  }
}
