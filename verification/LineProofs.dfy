/** What every operation of a line keeps, and how the batched operation refines the single one. */
module LineProofs {
  import opened Base
  import opened LineSpec

  // ----- The low-water index -----

  /** `UpdateIhead` stops exactly at the first id marked in flight and forgets only ids below it. */
  lemma {:induction false} UpdateIheadStops(ihead: nat, head: nat, flags: map<nat, bool>)
    requires ihead <= head
    ensures var (i, m) := UpdateIhead(ihead, head, flags);
            && ihead <= i <= head
            && (forall id: nat :: ihead <= id < i ==> id !in flags || !flags[id])
            && (i < head ==> i in flags && flags[i])
            && m.Keys <= flags.Keys
            && (forall id: nat :: id in flags && !(ihead <= id < i) ==> id in m && m[id] == flags[id])
            && (forall id: nat :: ihead <= id < i ==> id !in m)
    decreases head - ihead
  {
    if ihead < head {
      if ihead !in flags {
        UpdateIheadStops(ihead + 1, head, flags);
      } else if !flags[ihead] {
        UpdateIheadStops(ihead + 1, head, flags - {ihead});
        assert forall id: nat :: id != ihead ==> (id in flags <==> id in flags - {ihead});
      }
    }
  }

  // ----- The invariant is kept -----

  lemma NewLineInv(recycle: int, start: nat, tail: nat, clock: int)
    requires start <= tail
    ensures LineInv(NewLine(recycle, start), tail, clock)
  {
  }

  lemma InvMonotone(l: LineState, tail: nat, clock: int, tail': nat, clock': int)
    requires LineInv(l, tail, clock) && tail <= tail' && clock <= clock'
    ensures LineInv(l, tail', clock')
  {
  }

  lemma TakeHeadInv(l: LineState, tail: nat, now: int)
    requires LineInv(l, tail, now) && l.head < tail
    ensures LineInv(TakeHead(l, now), tail, now)
  {
    var l' := TakeHead(l, now);
    if l.recycle > 0 {
      assert forall i :: 0 <= i < |l.inflight| ==> l'.inflight[i] == l.inflight[i];
      assert l'.inflight[|l.inflight|].tid == l.head;
      forall id: nat | id in l'.flags
        ensures l'.flags[id] <==> InFlight(l', id)
      {
        if id == l.head {
          assert InFlight(l', id);
        } else {
          InFlightAppend(l, InflightMessage(l.head, now + l.recycle), l', id);
        }
      }
      if l.ihead < l.head {
        InFlightAppend(l, InflightMessage(l.head, now + l.recycle), l', l.ihead);
      }
    }
  }

  lemma InFlightAppend(l: LineState, m: InflightMessage, l': LineState, id: nat)
    requires l'.inflight == l.inflight + [m] && m.tid != id
    ensures InFlight(l', id) <==> InFlight(l, id)
  {
    if InFlight(l, id) {
      var i :| 0 <= i < |l.inflight| && l.inflight[i].tid == id;
      assert l'.inflight[i].tid == id;
    }
  }

  /** A rotation keeps the in-flight ids. */
  lemma RotateOneInFlight(l: LineState, m: InflightMessage, l': LineState, id: nat)
    requires l.inflight != [] && m.tid == l.inflight[0].tid && l'.inflight == l.inflight[1..] + [m]
    ensures InFlight(l', id) <==> InFlight(l, id)
  {
    var n := |l.inflight|;
    if InFlight(l, id) {
      var i :| 0 <= i < n && l.inflight[i].tid == id;
      assert l'.inflight[if i == 0 then n - 1 else i - 1].tid == id;
    }
    if InFlight(l', id) {
      var i :| 0 <= i < n && l'.inflight[i].tid == id;
      assert l.inflight[if i == n - 1 then 0 else i + 1].tid == id;
    }
  }

  lemma RotateOneInv(l: LineState, tail: nat, now: int)
    requires LineInv(l, tail, now) && Redelivers(l, now)
    ensures LineInv(l.(inflight := l.inflight[1..] + [Stamp(l.inflight[0], l, now)]), tail, now)
  {
    var l' := l.(inflight := l.inflight[1..] + [Stamp(l.inflight[0], l, now)]);
    forall id: nat
      ensures InFlight(l', id) <==> InFlight(l, id)
    {
      RotateOneInFlight(l, Stamp(l.inflight[0], l, now), l', id);
    }
  }

  lemma PopInv(l: LineState, tail: nat, msgs: Messages, now: int)
    requires LineInv(l, tail, now)
    requires Covers(msgs, l, tail)
    ensures LineInv(Pop(l, tail, msgs, now).0, tail, now)
    ensures Pop(l, tail, msgs, now).1 != Err(ErrInternal)
  {
    if Redelivers(l, now) {
      RotateOneInv(l, tail, now);
    } else if l.head < tail {
      TakeHeadInv(l, tail, now);
    }
  }

  lemma RemoveInFlight(l: LineState, k: nat, l': LineState, id: nat)
    requires k < |l.inflight| && Distinct(l.inflight)
    requires l'.inflight == l.inflight[..k] + l.inflight[k + 1..]
    ensures InFlight(l', id) <==> InFlight(l, id) && id != l.inflight[k].tid
  {
    if InFlight(l, id) && id != l.inflight[k].tid {
      var i :| 0 <= i < |l.inflight| && l.inflight[i].tid == id;
      assert l'.inflight[if i < k then i else i - 1].tid == id;
    }
    if InFlight(l', id) {
      var i :| 0 <= i < |l'.inflight| && l'.inflight[i].tid == id;
      assert l.inflight[if i < k then i else i + 1].tid == id;
    }
  }

  lemma RemoveIndexed(l: LineState, k: nat)
    requires Indexed(l) && Distinct(l.inflight) && k < |l.inflight|
    ensures Indexed(Remove(l, k)) && l.ihead <= Remove(l, k).ihead
    ensures forall id: nat :: InFlight(Remove(l, k), id) <==> InFlight(l, id) && id != l.inflight[k].tid
  {
    var l' := Remove(l, k);
    var id := l.inflight[k].tid;
    var flags := l.flags[id := false];
    UpdateIheadStops(l.ihead, l.head, flags);
    forall x: nat
      ensures InFlight(l', x) <==> InFlight(l, x) && x != id
    {
      RemoveInFlight(l, k, l', x);
    }
    forall i | 0 <= i < |l'.inflight|
      ensures l'.ihead <= l'.inflight[i].tid < l.head
    {
      var x := l'.inflight[i].tid;
      assert InFlight(l', x);
      assert x in flags && flags[x];
    }
  }

  lemma RemoveInv(l: LineState, k: nat, tail: nat, clock: int)
    requires LineInv(l, tail, clock) && k < |l.inflight|
    ensures LineInv(Remove(l, k), tail, clock)
    ensures l.ihead <= Remove(l, k).ihead
    ensures forall id: nat :: InFlight(Remove(l, k), id) <==> InFlight(l, id) && id != l.inflight[k].tid
  {
    RemoveIndexed(l, k);
  }

  lemma ConfirmInv(l: LineState, id: nat, tail: nat, clock: int)
    requires LineInv(l, tail, clock)
    ensures LineInv(Confirm(l, id).0, tail, clock)
  {
    var k := Find(l.inflight, id);
    if k < |l.inflight| {
      RemoveInv(l, k, tail, clock);
    }
  }

  /** `Confirm` succeeds on exactly the ids in flight, and takes away that id and no other. */
  lemma ConfirmExact(l: LineState, id: nat, tail: nat, clock: int)
    requires LineInv(l, tail, clock)
    ensures Confirm(l, id).1.Ok? <==> InFlight(l, id)
    ensures forall x: nat :: InFlight(Confirm(l, id).0, x) <==> InFlight(l, x) && x != id
    ensures Confirm(l, id).0.head == l.head && Confirm(l, id).0.recycle == l.recycle
  {
    var k := Find(l.inflight, id);
    if k < |l.inflight| {
      assert InFlight(l, id);
      RemoveInv(l, k, tail, clock);
    }
  }

  // ----- Low marks never decrease -----

  lemma LowMarkMonotone(l: LineState, tail: nat, msgs: Messages, now: int, id: nat)
    requires LineInv(l, tail, now)
    ensures LowMark(l) <= LowMark(Pop(l, tail, msgs, now).0)
    ensures LowMark(l) <= LowMark(Confirm(l, id).0)
    ensures LowMark(l) <= LowMark(Empty(l, tail))
  {
    var k := Find(l.inflight, id);
    if k < |l.inflight| {
      RemoveInv(l, k, tail, now);
    }
  }

  // ----- Looking at the front is enough -----

  /** `Pop` redelivers iff some in-flight message has expired, and takes an earliest deadline. */
  lemma FrontIsEarliest(l: LineState, tail: nat, clock: int, now: int)
    requires LineInv(l, tail, clock) && l.recycle > 0
    ensures Redelivers(l, now) <==> exists i :: 0 <= i < |l.inflight| && Expired(l.inflight[i], now)
    ensures Redelivers(l, now) ==>
              forall i :: 0 <= i < |l.inflight| ==> l.inflight[0].exptime <= l.inflight[i].exptime
  {
    if i :| 0 <= i < |l.inflight| && Expired(l.inflight[i], now) {
      assert l.inflight[0].exptime <= l.inflight[i].exptime;
    }
  }

  /** All the expired messages, wherever they are. */
  function ExpiredCount(s: seq<InflightMessage>, now: int): nat {
    if s == [] then 0 else (if Expired(s[0], now) then 1 else 0) + ExpiredCount(s[1..], now)
  }

  /** The scan that stops at the first unexpired message misses none. */
  lemma {:induction false} ScanIsComplete(s: seq<InflightMessage>, now: int, n: nat)
    requires Sorted(s)
    ensures ExpiredFront(s, now, n) == if ExpiredCount(s, now) <= n then ExpiredCount(s, now) else n
  {
    if s != [] {
      if Expired(s[0], now) {
        if n > 0 {
          ScanIsComplete(s[1..], now, n - 1);
        }
      } else {
        NoneExpired(s, now);
      }
    }
  }

  lemma {:induction false} NoneExpired(s: seq<InflightMessage>, now: int)
    requires Sorted(s) && (s != [] ==> !Expired(s[0], now))
    ensures ExpiredCount(s, now) == 0
  {
    if s != [] {
      NoneExpired(s[1..], now);
    }
  }

  // ----- MPop is repeated Pop -----

  /** Every id the line can still hand out, whether or not the invariant holds. */
  ghost predicate Readable(msgs: Messages, l: LineState, tail: nat) {
    && (forall i :: 0 <= i < |l.inflight| ==> l.inflight[i].tid in msgs)
    && (forall id: nat :: l.head <= id < tail ==> id in msgs)
  }

  lemma {:induction false} RepeatedTakes(l: LineState, tail: nat, msgs: Messages, now: int, n: nat)
    requires Readable(msgs, l, tail) && !Redelivers(l, now)
    ensures PopRepeatedly(l, tail, msgs, now, n).0 == TakeMany(l, tail, msgs, now, n).0
    ensures PopRepeatedly(l, tail, msgs, now, n).1.ids == TakeMany(l, tail, msgs, now, n).1
    decreases n
  {
    if n > 0 && l.head < tail {
      var next := TakeHead(l, now);
      assert !Redelivers(next, now);
      RepeatedTakes(next, tail, msgs, now, n - 1);
    }
  }

  lemma {:induction false} ExpiredFrontAppend(s: seq<InflightMessage>, m: InflightMessage, now: int, n: int)
    requires !Expired(m, now)
    ensures ExpiredFront(s + [m], now, n) == ExpiredFront(s, now, n)
  {
    if n > 0 && s != [] && Expired(s[0], now) {
      assert (s + [m])[1..] == s[1..] + [m];
      ExpiredFrontAppend(s[1..], m, now, n - 1);
    }
  }

  lemma RotatedCompose(s: seq<InflightMessage>, e: nat, x: int)
    requires 1 <= e <= |s|
    ensures Rotated(s, 1, x) == s[1..] + [InflightMessage(s[0].tid, x)]
    ensures Rotated(Rotated(s, 1, x), e - 1, x) == Rotated(s, e, x)
    ensures [s[0].tid] + Tids(Rotated(s, 1, x)[..e - 1]) == Tids(s[..e])
  {
    var s1 := Rotated(s, 1, x);
    var s2 := Rotated(s1, e - 1, x);
    var r := Rotated(s, e, x);
    forall i | 0 <= i < |s|
      ensures s2[i] == r[i]
    {
      if i < |s| - e {
        assert s2[i] == s1[i + e - 1];
      } else if i == |s| - e {
        assert s2[i] == s1[|s| - 1];
      } else {
        assert s2[i] == InflightMessage(s1[i + e - 1 - |s|].tid, x);
      }
    }
    assert s1[..e - 1] == s[1..e];
  }

  lemma RotateKeeps(l: LineState, e: nat, tail: nat, msgs: Messages, now: int)
    requires e <= |l.inflight| && Readable(msgs, l, tail)
    ensures Readable(msgs, Rotate(l, e, now), tail)
    ensures l.recycle > 0 && (e < |l.inflight| ==> !Expired(l.inflight[e], now)) ==> !Redelivers(Rotate(l, e, now), now)
  {
    var s := Rotate(l, e, now).inflight;
    var n := |s|;
    forall i | 0 <= i < n
      ensures s[i].tid in msgs
    {
      assert s[i].tid == l.inflight[if i < n - e then i + e else i + e - n].tid;
    }
  }

  /** Popping up to `n` times leaves `l'` and hands out `ids`. */
  ghost predicate Yields(l: LineState, tail: nat, msgs: Messages, now: int, n: nat, l': LineState, ids: seq<nat>) {
    forall mark: bool {:trigger Opened(mark)} :: Opened(mark) ==>
      PopRepeatedly(l, tail, msgs, now, n).0 == l' && PopRepeatedly(l, tail, msgs, now, n).1.ids == ids
  }

  lemma PopRotates(l: LineState, l1: LineState, tail: nat, msgs: Messages, now: int)
    requires Redelivers(l, now) && Readable(msgs, l, tail) && l1 == Rotate(l, 1, now)
    ensures Pop(l, tail, msgs, now) == (l1, Ok(Popped(l.inflight[0].tid, msgs[l.inflight[0].tid])))
  {
    RotatedCompose(l.inflight, 1, now + l.recycle);
  }

  lemma YieldsOneMore(
    l: LineState, l1: LineState, tail: nat, msgs: Messages, now: int, n: nat, l': LineState, ids: seq<nat>, all: seq<nat>)
    requires n > 0 && PopsFirst(l, l1, tail, msgs, now, ids, all) && Yields(l1, tail, msgs, now, n - 1, l', ids)
    ensures Yields(l, tail, msgs, now, n, l', all)
  {
    assert Opened(true);
  }

  lemma ExpiredFrontPeels(s: seq<InflightMessage>, x: int, now: int, n: nat)
    requires now <= x && 1 <= ExpiredFront(s, now, n)
    ensures ExpiredFront(Rotated(s, 1, x), now, n - 1) == ExpiredFront(s, now, n) - 1
  {
    assert Rotated(s, 1, x) == s[1..] + [InflightMessage(s[0].tid, x)];
    ExpiredFrontAppend(s[1..], InflightMessage(s[0].tid, x), now, n - 1);
  }

  /** Rotating `e` messages is rotating one, then the remaining `e - 1`. */
  lemma RotationPeels(l: LineState, e: nat, now: int, n: nat)
    requires l.recycle > 0 && 1 <= e == ExpiredFront(l.inflight, now, n)
    ensures ExpiredFront(Rotate(l, 1, now).inflight, now, n - 1) == e - 1
    ensures Rotate(Rotate(l, 1, now), e - 1, now) == Rotate(l, e, now)
    ensures [l.inflight[0].tid] + Tids(Rotate(l, 1, now).inflight[..e - 1]) == Tids(l.inflight[..e])
  {
    ExpiredFrontPeels(l.inflight, now + l.recycle, now, n);
    RotatedCompose(l.inflight, e, now + l.recycle);
  }

  lemma ConcatAssoc<T>(a: seq<T>, b: seq<T>, c: seq<T>)
    ensures a + (b + c) == (a + b) + c
  {
  }

  /** The pops that redeliver, one after the other, make one rotation. */
  lemma FirstThenMore(id: nat, a: seq<nat>, b: seq<nat>, ids: seq<nat>)
    requires [id] + a == b
    ensures b + ids == [id] + (a + ids)
  {
  }

  /** The first `e` messages of `l` have expired; moved to the back they give `le`, and `all` is their ids and `ids`. */
  ghost predicate Rotating(l: LineState, e: nat, le: LineState, now: int, n: nat, ids: seq<nat>, all: seq<nat>) {
    forall mark: bool {:trigger Opened(mark)} :: Opened(mark) ==>
      e == ExpiredFront(l.inflight, now, n) && le == Rotate(l, e, now) && all == Tids(l.inflight[..e]) + ids
  }

  /** The first of them, popped. */
  ghost predicate PopsFirst(l: LineState, l1: LineState, tail: nat, msgs: Messages, now: int, more: seq<nat>, all: seq<nat>) {
    forall mark: bool {:trigger Opened(mark)} :: Opened(mark) ==>
      && Pop(l, tail, msgs, now).1.Ok? && Pop(l, tail, msgs, now).0 == l1
      && all == [Pop(l, tail, msgs, now).1.value.id] + more
  }

  lemma RotatingNone(l: LineState, le: LineState, now: int, n: nat, ids: seq<nat>, all: seq<nat>)
    requires Rotating(l, 0, le, now, n, ids, all)
    ensures le == l && all == ids
  {
    assert Opened(true);
    assert l.inflight[..0] == [];
  }

  lemma RotationStep(
    l: LineState, e: nat, le: LineState, tail: nat, msgs: Messages, now: int, n: nat, ids: seq<nat>, all: seq<nat>)
    returns (l1: LineState, more: seq<nat>)
    requires l.recycle > 0 && Readable(msgs, l, tail) && e >= 1 && Rotating(l, e, le, now, n, ids, all)
    ensures n > 0 && l1.recycle > 0 && Readable(msgs, l1, tail) && Rotating(l1, e - 1, le, now, n - 1, ids, more)
    ensures PopsFirst(l, l1, tail, msgs, now, more, all)
  {
    assert Opened(true);
    l1 := Rotate(l, 1, now);
    more := Tids(l1.inflight[..e - 1]) + ids;
    RotateKeeps(l, 1, tail, msgs, now);
    RotationPeels(l, e, now, n);
    PopRotates(l, l1, tail, msgs, now);
    FirstThenMore(l.inflight[0].tid, Tids(l1.inflight[..e - 1]), Tids(l.inflight[..e]), ids);
  }

  lemma {:induction false} RepeatedRotations(
    l: LineState, e: nat, le: LineState, tail: nat, msgs: Messages, now: int, n: nat, rest: nat,
    l': LineState, ids: seq<nat>, all: seq<nat>)
    requires l.recycle > 0 && Readable(msgs, l, tail) && Rotating(l, e, le, now, n, ids, all) && rest == n - e
    requires Yields(le, tail, msgs, now, rest, l', ids)
    ensures Yields(l, tail, msgs, now, n, l', all)
    decreases n
  {
    if e == 0 {
      RotatingNone(l, le, now, n, ids, all);
    } else {
      var l1, more := RotationStep(l, e, le, tail, msgs, now, n, ids, all);
      RepeatedRotations(l1, e - 1, le, tail, msgs, now, n - 1, rest, l', ids, more);
      YieldsOneMore(l, l1, tail, msgs, now, n, l', more, all);
    }
  }

  lemma TakesYield(l: LineState, tail: nat, msgs: Messages, now: int, n: nat, l': LineState, ids: seq<nat>)
    requires Readable(msgs, l, tail) && !Redelivers(l, now) && TakeMany(l, tail, msgs, now, n) == (l', ids)
    ensures Yields(l, tail, msgs, now, n, l', ids)
  {
    RepeatedTakes(l, tail, msgs, now, n);
  }

  lemma NothingYields(l: LineState, tail: nat, msgs: Messages, now: int)
    ensures Yields(l, tail, msgs, now, 0, l, [])
  {
  }

  /** The batch with these ids, or the error when there are none. */
  ghost function BatchOf(ids: seq<nat>, msgs: Messages): Result<Batch, Error>
    requires AllStored(ids, msgs)
  {
    if ids == [] then Err(ErrNone) else Ok(Batch(ids, Fetch(ids, msgs)))
  }

  lemma YieldsBatch(l: LineState, tail: nat, msgs: Messages, now: int, n: nat, l': LineState, ids: seq<nat>)
    requires Yields(l, tail, msgs, now, n, l', ids)
    ensures AllStored(ids, msgs)
    ensures var (l1, b) := PopRepeatedly(l, tail, msgs, now, n);
            (l1, if b.ids == [] then Err(ErrNone) else Ok(b)) == (l', BatchOf(ids, msgs))
  {
    assert Opened(true);
  }

  /** What mPop gives, case by case. */
  lemma BatchOfExpired(l: LineState, e: nat, tail: nat, msgs: Messages, now: int, n: nat, all: seq<nat>)
    requires 1 <= n <= e == ExpiredFront(l.inflight, now, n) && Readable(msgs, l, tail) && l.recycle > 0
    requires all == Tids(l.inflight[..e])
    ensures AllStored(all, msgs) && all != [] && MPop(l, tail, msgs, now, n) == (Rotate(l, e, now), BatchOf(all, msgs))
  {
  }

  lemma BatchOfBoth(
    l: LineState, e: nat, tail: nat, msgs: Messages, now: int, n: nat, l': LineState, ids: seq<nat>, all: seq<nat>)
    requires e == ExpiredFront(l.inflight, now, n) < n && Readable(msgs, l, tail) && l.recycle > 0
    requires TakeMany(Rotate(l, e, now), tail, msgs, now, n - e) == (l', ids) && all == Tids(l.inflight[..e]) + ids
    ensures AllStored(all, msgs) && MPop(l, tail, msgs, now, n) == (l', BatchOf(all, msgs))
  {
  }

  lemma BatchOfPending(l: LineState, tail: nat, msgs: Messages, now: int, n: nat, l': LineState, ids: seq<nat>)
    requires l.recycle <= 0 && TakeMany(l, tail, msgs, now, n) == (l', ids)
    ensures AllStored(ids, msgs) && MPop(l, tail, msgs, now, n) == (l', BatchOf(ids, msgs))
  {
    assert Tids(l.inflight[..0]) + ids == ids;
  }

  lemma MPopYields(l: LineState, tail: nat, msgs: Messages, now: int, n: nat) returns (l': LineState, ids: seq<nat>)
    requires n >= 1 && Readable(msgs, l, tail)
    ensures Yields(l, tail, msgs, now, n, l', ids)
    ensures AllStored(ids, msgs) && MPop(l, tail, msgs, now, n) == (l', BatchOf(ids, msgs))
  {
    var e := ExpiredFront(l.inflight, now, n);
    if l.recycle <= 0 {
      var (l1, taken) := TakeMany(l, tail, msgs, now, n);
      l', ids := l1, taken;
      TakesYield(l, tail, msgs, now, n, l', ids);
      BatchOfPending(l, tail, msgs, now, n, l', ids);
    } else {
      l', ids := RecyclingYields(l, e, tail, msgs, now, n);
    }
  }

  lemma RecyclingYields(l: LineState, e: nat, tail: nat, msgs: Messages, now: int, n: nat)
    returns (l': LineState, ids: seq<nat>)
    requires n >= 1 && Readable(msgs, l, tail) && l.recycle > 0 && e == ExpiredFront(l.inflight, now, n)
    ensures Yields(l, tail, msgs, now, n, l', ids)
    ensures AllStored(ids, msgs) && MPop(l, tail, msgs, now, n) == (l', BatchOf(ids, msgs))
  {
    var le := Rotate(l, e, now);
    var again := Tids(l.inflight[..e]);
    if e < n {
      var (l1, taken) := TakeMany(le, tail, msgs, now, n - e);
      l', ids := l1, again + taken;
      BothYield(l, e, le, tail, msgs, now, n, l', taken, ids);
      BatchOfBoth(l, e, tail, msgs, now, n, l', taken, ids);
    } else {
      l', ids := le, again;
      ExpiredYield(l, e, le, tail, msgs, now, n, again);
      BatchOfExpired(l, e, tail, msgs, now, n, again);
    }
  }

  lemma BothYield(
    l: LineState, e: nat, le: LineState, tail: nat, msgs: Messages, now: int, n: nat, l': LineState, taken: seq<nat>, ids: seq<nat>)
    requires e == ExpiredFront(l.inflight, now, n) < n && Readable(msgs, l, tail) && l.recycle > 0 && le == Rotate(l, e, now)
    requires TakeMany(le, tail, msgs, now, n - e) == (l', taken) && ids == Tids(l.inflight[..e]) + taken
    ensures Yields(l, tail, msgs, now, n, l', ids)
  {
    RotateKeeps(l, e, tail, msgs, now);
    TakesYield(le, tail, msgs, now, n - e, l', taken);
    assert Rotating(l, e, le, now, n, taken, ids);
    RepeatedRotations(l, e, le, tail, msgs, now, n, n - e, l', taken, ids);
  }

  lemma ExpiredYield(l: LineState, e: nat, le: LineState, tail: nat, msgs: Messages, now: int, n: nat, ids: seq<nat>)
    requires 1 <= n <= e == ExpiredFront(l.inflight, now, n) && Readable(msgs, l, tail) && l.recycle > 0
    requires le == Rotate(l, e, now) && ids == Tids(l.inflight[..e])
    ensures Yields(l, tail, msgs, now, n, le, ids)
  {
    NothingYields(le, tail, msgs, now);
    assert ids == ids + [];
    assert Rotating(l, e, le, now, n, [], ids);
    RepeatedRotations(l, e, le, tail, msgs, now, n, 0, le, [], ids);
  }

  /** One batch of `n` leaves the line and hands out ids and bodies exactly as `n` single pops do. */
  lemma MPopIsRepeatedPop(l: LineState, tail: nat, msgs: Messages, now: int, n: nat)
    requires n >= 1 && Readable(msgs, l, tail)
    ensures var (l', b) := PopRepeatedly(l, tail, msgs, now, n);
            MPop(l, tail, msgs, now, n) == (l', if b.ids == [] then Err(ErrNone) else Ok(b))
  {
    var l', ids := MPopYields(l, tail, msgs, now, n);
    YieldsBatch(l, tail, msgs, now, n, l', ids);
  }

  /** Asked for none, a batch changes nothing. */
  lemma MPopOfNone(l: LineState, tail: nat, msgs: Messages, now: int, k: int)
    requires k < 1
    ensures MPop(l, tail, msgs, now, k) == (l, if l.recycle > 0 then Ok(Batch([], [])) else Err(ErrNone))
  {
    assert Rotate(l, 0, now) == l;
  }

  // ----- The loops of mPop -----

  /** A scan that has seen only expired messages and has to stop has found the expired front. */
  lemma {:induction false} ScanStops(s: seq<InflightMessage>, now: int, n: int, k: nat)
    requires k <= |s| && (k == 0 || k <= n)
    requires forall i :: 0 <= i < k ==> Expired(s[i], now)
    ensures k == |s| || k >= n || !Expired(s[k], now) ==> ExpiredFront(s, now, n) == k
    ensures k <= ExpiredFront(s, now, n)
    decreases k
  {
    if k > 0 {
      assert Expired(s[0], now);
      forall i | 0 <= i < k - 1
        ensures Expired(s[1..][i], now)
      {
        assert s[1..][i] == s[i + 1];
      }
      ScanStops(s[1..], now, n - 1, k - 1);
    }
  }

  /** The first `fc` messages have expired, and `datas` holds what was read for them. */
  ghost predicate Scanned(s: seq<InflightMessage>, msgs: Messages, now: int, fc: nat, datas: seq<Bytes>) {
    && fc <= |s| && |datas| == fc
    && forall i :: 0 <= i < fc ==> Expired(s[i], now) && s[i].tid in msgs && datas[i] == msgs[s[i].tid]
  }

  lemma ScannedMore(s: seq<InflightMessage>, msgs: Messages, now: int, fc: nat, datas: seq<Bytes>)
    requires Scanned(s, msgs, now, fc, datas) && fc < |s| && Expired(s[fc], now) && s[fc].tid in msgs
    ensures Scanned(s, msgs, now, fc + 1, datas + [msgs[s[fc].tid]])
  {
  }

  lemma ScanFails(s: seq<InflightMessage>, msgs: Messages, now: int, n: int, fc: nat, datas: seq<Bytes>)
    requires Scanned(s, msgs, now, fc, datas) && fc < |s| && fc < n && Expired(s[fc], now) && s[fc].tid !in msgs
    ensures !AllStored(Tids(s[..ExpiredFront(s, now, n)]), msgs)
  {
    ScanStops(s, now, n, fc + 1);
    assert Tids(s[..ExpiredFront(s, now, n)])[fc] !in msgs;
  }

  lemma ScanDone(s: seq<InflightMessage>, msgs: Messages, now: int, n: int, fc: nat, datas: seq<Bytes>)
    requires Scanned(s, msgs, now, fc, datas) && (fc == 0 || fc <= n)
    requires fc == |s| || fc >= n || !Expired(s[fc], now)
    ensures fc == ExpiredFront(s, now, n) && AllStored(Tids(s[..fc]), msgs) && datas == Fetch(Tids(s[..fc]), msgs)
  {
    ScanStops(s, now, n, fc);
  }

  lemma TakeManyPeels(l: LineState, tail: nat, msgs: Messages, now: int, n: int, ids: seq<nat>)
    requires n > 0 && l.head < tail && l.head in msgs
    ensures TakeMany(l, tail, msgs, now, n).0 == TakeMany(TakeHead(l, now), tail, msgs, now, n - 1).0
    ensures ids + TakeMany(l, tail, msgs, now, n).1
         == (ids + [l.head]) + TakeMany(TakeHead(l, now), tail, msgs, now, n - 1).1
  {
    ConcatAssoc(ids, [l.head], TakeMany(TakeHead(l, now), tail, msgs, now, n - 1).1);
  }

  lemma FetchBoth(a: seq<nat>, b: seq<nat>, msgs: Messages)
    requires AllStored(a, msgs) && AllStored(b, msgs)
    ensures AllStored(a + b, msgs) && Fetch(a + b, msgs) == Fetch(a, msgs) + Fetch(b, msgs)
  {
  }

  /** Moving one more message to the back. */
  lemma RotatedStep(s: seq<InflightMessage>, e: nat, x: int)
    requires e < |s|
    ensures var r := Rotated(s, e, x);
            Rotated(s, e + 1, x) == r[1..] + [InflightMessage(r[0].tid, x)]
  {
    var r := Rotated(s, e, x);
    var r1 := Rotated(s, e + 1, x);
    forall i | 0 <= i < |s|
      ensures r1[i] == (r[1..] + [InflightMessage(r[0].tid, x)])[i]
    {
      if i < |s| - 1 {
        assert (r[1..] + [InflightMessage(r[0].tid, x)])[i] == r[i + 1];
      }
    }
  }
}
