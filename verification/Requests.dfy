/**
 * What clients are answered. For every key and every state of good order: which error, and when; which
 * message, with which bytes and under which id; and what the request leaves as it was.
 */
module Requests {
  import opened Base
  import opened Decimal
  import opened LineSpec
  import opened LineProofs
  import opened LineHistory
  import opened TopicSpec
  import opened TopicProofs
  import opened Snapshots
  import opened Names
  import opened QueueSpec
  import opened QueueProofs
  import opened Guarantees

  // ----- What a line has to hand out -----

  /** Something is pending, or something in flight is past its deadline. */
  ghost predicate HasMessage(l: LineState, tail: nat, now: int) {
    l.head < tail || exists m :: m in l.inflight && Expired(m, now)
  }

  /** The message to hand out: an earliest one in flight if it is past its deadline, else the one at the cursor. */
  ghost predicate IsNext(l: LineState, now: int, id: nat) {
    || (exists m :: m in l.inflight && m.tid == id && Expired(m, now) && forall o :: o in l.inflight ==> m.exptime <= o.exptime)
    || (id == l.head && forall m :: m in l.inflight ==> !Expired(m, now))
  }

  /** A pop hands out a message exactly when there is one, and the right one. */
  lemma PopFinds(l: LineState, tail: nat, clock: int, msgs: Messages, now: int)
    requires LineInv(l, tail, clock) && Covers(msgs, l, tail)
    ensures var r := Pop(l, tail, msgs, now).1;
            && (r.Ok? <==> HasMessage(l, tail, now))
            && (r.Err? ==> r.error == ErrNone)
            && (r.Ok? ==> IsNext(l, now, r.value.id))
  {
    Bounds(l, tail, clock);
    if l.recycle > 0 {
      FrontIsEarliest(l, tail, clock, now);
      if m :| m in l.inflight && Expired(m, now) {
        var i :| 0 <= i < |l.inflight| && l.inflight[i] == m;
        assert Expired(l.inflight[i], now);
      }
    }
    if Redelivers(l, now) {
      assert l.inflight[0] in l.inflight;
    }
  }

  // ----- What a batch has to hand out -----

  /** Repeated pops stop before `n` only when there is nothing left. */
  lemma {:induction false} PopsExhaust(l: LineState, l': LineState, b: Batch, tail: nat, msgs: Messages, now: int, n: nat)
    requires (l', b) == PopRepeatedly(l, tail, msgs, now, n)
    ensures |b.ids| <= n && (|b.ids| < n ==> Pop(l', tail, msgs, now).1.Err?)
    decreases n
  {
    var (l1, r) := Pop(l, tail, msgs, now);
    if n > 0 && r.Ok? {
      var (l2, c) := PopRepeatedly(l1, tail, msgs, now, n - 1);
      PopsExhaust(l1, l2, c, tail, msgs, now, n - 1);
    }
  }

  lemma PopKeepsInFlight(l: LineState, tail: nat, msgs: Messages, now: int, id: nat)
    requires InFlight(l, id)
    ensures InFlight(Pop(l, tail, msgs, now).0, id)
  {
    var i :| 0 <= i < |l.inflight| && l.inflight[i].tid == id;
    var l' := Pop(l, tail, msgs, now).0;
    assert l'.inflight[i].tid == id || (i > 0 && l'.inflight[i - 1].tid == id) || l'.inflight[|l'.inflight| - 1].tid == id;
  }

  lemma PopsKeepInFlight(l: LineState, l': LineState, tail: nat, msgs: Messages, now: int, n: nat, id: nat)
    requires InFlight(l, id) && l' == PopRepeatedly(l, tail, msgs, now, n).0
    ensures InFlight(l', id)
  {
    var p := (x: LineState) => InFlight(x, id);
    forall x | p(x)
      ensures p(Pop(x, tail, msgs, now).0)
    {
      PopKeepsInFlight(x, tail, msgs, now, id);
    }
    PopsKeep(p, l, l', tail, msgs, now, n);
  }

  /** On a recycling line all that repeated pops hand out is in flight afterwards. */
  lemma {:induction false} PopsInFlight(l: LineState, l': LineState, b: Batch, tail: nat, msgs: Messages, now: int, n: nat)
    requires l.recycle > 0 && (l', b) == PopRepeatedly(l, tail, msgs, now, n)
    ensures forall i :: 0 <= i < |b.ids| ==> InFlight(l', b.ids[i])
    decreases n
  {
    var (l1, r) := Pop(l, tail, msgs, now);
    if n > 0 && r.Ok? {
      var (l2, c) := PopRepeatedly(l1, tail, msgs, now, n - 1);
      PopsInFlight(l1, l2, c, tail, msgs, now, n - 1);
      PoppedInFlight(l, tail, msgs, now);
      PopsKeepInFlight(l1, l2, tail, msgs, now, n - 1, r.value.id);
    }
  }

  predicate NoRepeats(ids: seq<nat>) {
    forall i, j :: 0 <= i < j < |ids| ==> ids[i] != ids[j]
  }

  /** No batch holds a message twice: a second delivery would have to come later than the first. */
  lemma BatchDistinct(h: History, ids: seq<nat>, now: int, recycle: int)
    requires RedeliveryLaw(Deliver(h, ids, now).trace, recycle)
    ensures NoRepeats(ids)
  {
    var tr := Deliver(h, ids, now).trace;
    forall i, j | 0 <= i < j < |ids|
      ensures ids[i] != ids[j]
    {
      assert tr[|h.trace| + i] == Delivered(ids[i], now) && tr[|h.trace| + j] == Delivered(ids[j], now);
    }
  }

  /** What a successful batch of up to `k` comes to: no repeats, short only if nothing is left, and in flight if recycled. */
  ghost predicate Drawn(l: LineState, tail: nat, now: int, k: int, ids: seq<nat>, l': LineState) {
    && NoRepeats(ids)
    && (k < 1 ==> ids == [])
    && (k >= 1 ==> 1 <= |ids| <= k && (|ids| < k ==> !HasMessage(l', tail, now)))
    && (l.recycle > 0 ==> forall i :: 0 <= i < |ids| ==> InFlight(l', ids[i]))
  }

  /** A batch hands out something exactly when there is something; asked for none, a recycling line gives none. */
  ghost predicate Gives(l: LineState, tail: nat, now: int, k: int) {
    if k >= 1 then HasMessage(l, tail, now) else l.recycle > 0
  }

  lemma DrawsSome(l: LineState, tail: nat, clock: int, msgs: Messages, now: int, n: nat)
    requires LineInv(l, tail, clock) && Covers(msgs, l, tail) && n >= 1
    ensures PopRepeatedly(l, tail, msgs, now, n).1.ids != [] <==> HasMessage(l, tail, now)
  {
    PopFinds(l, tail, clock, msgs, now);
  }

  lemma DrawsMany(l: LineState, l': LineState, b: Batch, tail: nat, msgs: Messages, now: int, n: nat)
    requires LineInv(l, tail, now) && Covers(msgs, l, tail) && n >= 1 && (l', b) == PopRepeatedly(l, tail, msgs, now, n)
    requires LineInv(l', tail, now) && Covers(msgs, l', tail) && NoRepeats(b.ids) && b.ids != []
    ensures Drawn(l, tail, now, n, b.ids, l')
  {
    PopsExhaust(l, l', b, tail, msgs, now, n);
    PopFinds(l', tail, now, msgs, now);
    if l.recycle > 0 {
      PopsInFlight(l, l', b, tail, msgs, now, n);
    }
  }

  lemma MPopDistinct(x: Tracked, tail: nat, msgs: Messages, now: int, k: int)
    requires TrackedInv(x, tail, now) && Covers(msgs, x.line, tail) && MPop(x.line, tail, msgs, now, k).1.Ok?
    ensures NoRepeats(MPop(x.line, tail, msgs, now, k).1.value.ids)
  {
    MPopTrackedInv(x, tail, msgs, now, k);
    var x' := MPopTracked(x, tail, msgs, now, k);
    OpenRecorded(x');
    BatchDistinct(x.hist, MPop(x.line, tail, msgs, now, k).1.value.ids, now, x'.line.recycle);
  }

  /** What a batch answers: something exactly when there is something to give, and nothing changes otherwise. */
  ghost predicate Draws(l: LineState, tail: nat, now: int, k: int, r: Result<Batch, Error>, l': LineState) {
    && (r.Ok? <==> Gives(l, tail, now, k))
    && (r.Err? ==> r.error == ErrNone && l' == l)
    && (r.Ok? ==> Drawn(l, tail, now, k, r.value.ids, l'))
  }

  lemma PopsDraw(l: LineState, tail: nat, msgs: Messages, now: int, n: nat, l': LineState, b: Batch)
    requires LineInv(l, tail, now) && Covers(msgs, l, tail) && n >= 1 && (l', b) == PopRepeatedly(l, tail, msgs, now, n)
    requires LineInv(l', tail, now) && Covers(msgs, l', tail) && NoRepeats(b.ids)
    ensures Draws(l, tail, now, n, if b.ids == [] then Err(ErrNone) else Ok(b), l')
  {
    DrawsSome(l, tail, now, msgs, now, n);
    if b.ids != [] {
      DrawsMany(l, l', b, tail, msgs, now, n);
    }
  }

  lemma MPopDraws(x: Tracked, tail: nat, msgs: Messages, now: int, k: int)
    requires TrackedInv(x, tail, now) && Covers(msgs, x.line, tail)
    ensures var (l', r) := MPop(x.line, tail, msgs, now, k);
            Draws(x.line, tail, now, k, r, l')
  {
    if k >= 1 {
      var (l', b) := PopRepeatedly(x.line, tail, msgs, now, k);
      MPopAsPops(x, tail, msgs, now, k, l', b);
      PopsDraw(x.line, tail, msgs, now, k, l', b);
    } else {
      MPopOfNone(x.line, tail, msgs, now, k);
    }
  }

  lemma MPopAsPops(x: Tracked, tail: nat, msgs: Messages, now: int, n: nat, l': LineState, b: Batch)
    requires TrackedInv(x, tail, now) && Covers(msgs, x.line, tail) && n >= 1
    requires (l', b) == PopRepeatedly(x.line, tail, msgs, now, n)
    ensures MPop(x.line, tail, msgs, now, n) == (l', if b.ids == [] then Err(ErrNone) else Ok(b))
    ensures LineInv(l', tail, now) && Covers(msgs, l', tail) && NoRepeats(b.ids)
  {
    MPopTrackedInv(x, tail, msgs, now, n);
    Bounds(x.line, tail, now);
    MPopIsRepeatedPop(x.line, tail, msgs, now, n);
    if b.ids != [] {
      MPopDistinct(x, tail, msgs, now, n);
    }
  }

  // ----- Keys -----

  ghost predicate Finds(u: QueueState, t: Bytes, n: Bytes) {
    t in u.topics && n in u.topics[t].lines
  }

  /** The key is the topic, the line and the number of the message, and Confirm reads just these from it. */
  predicate NamesMessage(k: Bytes, t: Bytes, n: Bytes, id: nat) {
    k == IdText(t, n, id) && (t != [] && id < U64 ==> ConfirmKey(k) == Ok((t, n, id)))
  }

  lemma IdNames(key: Bytes, t: Bytes, n: Bytes, id: nat)
    requires PopKey(key) == Ok((t, n))
    ensures NamesMessage(IdOf(key, id), t, n, id)
  {
    IdIsJoined(key, t, n, id);
    if t != [] && id < U64 {
      ConfirmFindsPopped(key, t, n, id);
    }
  }

  /** Nothing has changed but one line of one topic, and the time of its latest step. */
  ghost predicate OnlyLine(u: QueueState, t: Bytes, n: Bytes, u': QueueState) {
    && Finds(u, t, n) && Finds(u', t, n)
    && u' == u.(topics := u.topics[t := SetLine(u.topics[t], n, u'.topics[t].lines[n]).(clock := u'.topics[t].clock)])
  }

  // ----- Pop -----

  /** The client was handed message `id`: its key, its bytes as pushed, and the delivery is on record. */
  ghost predicate Handed(u: QueueState, t: Bytes, n: Bytes, now: int, id: nat, answer: (Bytes, Bytes), u': QueueState) {
    && OnlyLine(u, t, n, u')
    && var s, x, x' := u.topics[t], u.topics[t].lines[n], u'.topics[t].lines[n];
       && id < s.tail == |s.log| && IsNext(x.line, now, id)
       && NamesMessage(answer.0, t, n, id) && answer.1 == s.log[id]
       && x'.hist == x.hist.(trace := x.hist.trace + [Delivered(id, now)])
  }

  ghost function WithLine(u: QueueState, t: Bytes, n: Bytes, x: Tracked, clock: int): QueueState
    requires t in u.topics
  {
    u.(topics := u.topics[t := SetLine(u.topics[t], n, x).(clock := clock)])
  }

  lemma OnlyThisLine(u: QueueState, t: Bytes, n: Bytes, x: Tracked, clock: int)
    requires Finds(u, t, n)
    ensures OnlyLine(u, t, n, WithLine(u, t, n, x, clock))
    ensures WithLine(u, t, n, x, clock).topics[t].lines[n] == x
    ensures x == u.topics[t].lines[n] ==> WithLine(u, t, n, x, clock).topics[t].lines == u.topics[t].lines
  {
    if x == u.topics[t].lines[n] {
      assert u.topics[t].lines[n := x] == u.topics[t].lines;
    }
  }

  /** What a pop on a topic in good order answers and records. */
  lemma TopicPops(s: Sys, n: Bytes, now: int, x': Tracked, p: Result<Popped, Error>)
    requires Inv(s) && n in s.t.lines && s.t.clock <= now
    requires x' == PopTracked(s.t.lines[n], s.t.tail, Msgs(s), now)
    requires p == Pop(s.t.lines[n].line, s.t.tail, Msgs(s), now).1
    ensures var x := s.t.lines[n];
            && (p.Ok? <==> HasMessage(x.line, s.t.tail, now))
            && (p.Err? ==> p.error == ErrNone && x' == x)
            && (p.Ok? ==>
                  && p.value.id < s.t.tail == |s.t.log| && IsNext(x.line, now, p.value.id)
                  && p.value.data == s.t.log[p.value.id]
                  && x'.hist == x.hist.(trace := x.hist.trace + [Delivered(p.value.id, now)]))
  {
    var x := s.t.lines[n];
    assert LineOk(s.t, x);
    StoredCovers(s, x);
    PopIsExact(s, n, now);
    PopFinds(x.line, s.t.tail, s.t.clock, Msgs(s), now);
    if p.Ok? {
      DeliverOne(x.hist, p.value.id, now);
    }
  }

  lemma QueuePopIs(u: QueueState, key: Bytes, t: Bytes, n: Bytes, now: int)
    returns (x': Tracked, p: Result<Popped, Error>)
    requires PopKey(key) == Ok((t, n)) && Finds(u, t, n)
    ensures x' == PopTracked(u.topics[t].lines[n], u.topics[t].tail, Msgs(SysOf(u, t)), now)
    ensures p == Pop(u.topics[t].lines[n].line, u.topics[t].tail, Msgs(SysOf(u, t)), now).1
    ensures QueuePop(u, key, now) ==
              (WithLine(u, t, n, x', now), if p.Ok? then Ok((IdOf(key, p.value.id), p.value.data)) else Err(p.error))
  {
    x' := PopTracked(u.topics[t].lines[n], u.topics[t].tail, Msgs(SysOf(u, t)), now);
    p := Pop(u.topics[t].lines[n].line, u.topics[t].tail, Msgs(SysOf(u, t)), now).1;
  }

  /** The answer to a pop of a line that is there. */
  ghost predicate PopAnswered(u: QueueState, t: Bytes, n: Bytes, now: int, r: Result<(Bytes, Bytes), Error>, u': QueueState) {
    Finds(u, t, n) &&
    if HasMessage(u.topics[t].lines[n].line, u.topics[t].tail, now)
    then r.Ok? && exists id :: Handed(u, t, n, now, id, r.value, u')
    else r == Err(ErrNone) && OnlyLine(u, t, n, u') && u'.topics[t].lines == u.topics[t].lines
  }

  lemma PopHands(u: QueueState, key: Bytes, t: Bytes, n: Bytes, now: int)
    requires QueueInv(u) && PopKey(key) == Ok((t, n)) && Finds(u, t, n) && u.topics[t].clock <= now
    ensures PopAnswered(u, t, n, now, QueuePop(u, key, now).1, QueuePop(u, key, now).0)
  {
    var x', p := QueuePopIs(u, key, t, n, now);
    assert TopicGood(SysOf(u, t));
    TopicPops(SysOf(u, t), n, now, x', p);
    OnlyThisLine(u, t, n, x', now);
    if p.Ok? {
      IdNames(key, t, n, p.value.id);
      assert Handed(u, t, n, now, p.value.id, (IdOf(key, p.value.id), p.value.data), WithLine(u, t, n, x', now));
    }
  }

  /**
   * Pop answers with a message exactly when the line named has one, and then with the right one: its bytes as they
   * were pushed and a key that leads back to it. Each error comes exactly in its case.
   */
  lemma PopAnswers(u: QueueState, key: Bytes, t: Bytes, n: Bytes, now: int)
    requires QueueInv(u) && IsPair(key, t, n) && (t in u.topics ==> u.topics[t].clock <= now)
    ensures var (u', r) := QueuePop(u, key, now);
            && (r == Err(ErrTopicNotExisted) <==> t !in u.topics)
            && (r == Err(ErrLineNotExisted) <==> t in u.topics && n !in u.topics[t].lines)
            && (r == Err(ErrNone) <==>
                  Finds(u, t, n) && !HasMessage(u.topics[t].lines[n].line, u.topics[t].tail, now))
            && (r.Ok? <==> Finds(u, t, n) && HasMessage(u.topics[t].lines[n].line, u.topics[t].tail, now))
            && (r.Ok? ==> exists id :: Handed(u, t, n, now, id, r.value, u'))
            && (r.Err? ==> u' == u || (OnlyLine(u, t, n, u') && u'.topics[t].lines == u.topics[t].lines))
  {
    PopKeyExactly(key, t, n);
    if Finds(u, t, n) {
      PopHands(u, key, t, n, now);
    }
  }

  /** A key that names no topic and line is refused, and nothing else is refused as a bad key. */
  lemma PopBadKey(u: QueueState, key: Bytes, k: int, now: int)
    ensures QueuePop(u, key, now).1 == Err(ErrBadKey) <==> forall t, n :: !IsPair(key, t, n)
    ensures QueueMultiPop(u, key, k, now).1 == Err(ErrBadKey) <==> forall t, n :: !IsPair(key, t, n)
    ensures (forall t, n :: !IsPair(key, t, n)) ==> QueuePop(u, key, now).0 == u == QueueMultiPop(u, key, k, now).0
  {
    forall t, n
      ensures IsPair(key, t, n) <==> PopKey(key) == Ok((t, n))
    {
      PopKeyExactly(key, t, n);
    }
    PopKeyExactly(key, [], []);
    if PopKey(key).Ok? {
      assert IsPair(key, PopKey(key).value.0, PopKey(key).value.1);
    }
  }

  // ----- MultiPop -----

  /** The client was handed the messages `ids`, in order: keys, bytes as pushed, and the deliveries on record. */
  ghost predicate HandedAll(
    u: QueueState, t: Bytes, n: Bytes, k: int, now: int, ids: seq<nat>, answer: (seq<Bytes>, seq<Bytes>), u': QueueState)
  {
    && OnlyLine(u, t, n, u')
    && var s, x, x' := u.topics[t], u.topics[t].lines[n], u'.topics[t].lines[n];
       && |answer.0| == |answer.1| == |ids| && s.tail == |s.log|
       && (forall i :: 0 <= i < |ids| ==>
             ids[i] < s.tail && NamesMessage(answer.0[i], t, n, ids[i]) && answer.1[i] == s.log[ids[i]])
       && x'.hist == x.hist.(trace := x.hist.trace + Deliveries(ids, now))
       && Drawn(x.line, s.tail, now, k, ids, x'.line)
  }

  lemma IdsName(key: Bytes, t: Bytes, n: Bytes, ids: seq<nat>)
    requires PopKey(key) == Ok((t, n))
    ensures forall i :: 0 <= i < |ids| ==> NamesMessage(IdsOf(key, ids)[i], t, n, ids[i])
  {
    forall i | 0 <= i < |ids|
      ensures NamesMessage(IdsOf(key, ids)[i], t, n, ids[i])
    {
      IdNames(key, t, n, ids[i]);
    }
  }

  lemma BatchExact(s: Sys, n: Bytes, k: int, now: int)
    requires Inv(s) && n in s.t.lines && s.t.clock <= now
    ensures var r := MPop(s.t.lines[n].line, s.t.tail, Msgs(s), now, k).1;
            r.Ok? ==> ExactBatch(s, r.value)
  {
    if k >= 1 {
      MPopIsExact(s, n, k, now);
    }
  }

  lemma TopicMPops(s: Sys, n: Bytes, k: int, now: int, x': Tracked, p: Result<Batch, Error>)
    requires Inv(s) && n in s.t.lines && s.t.clock <= now
    requires x' == MPopTracked(s.t.lines[n], s.t.tail, Msgs(s), now, k)
    requires p == MPop(s.t.lines[n].line, s.t.tail, Msgs(s), now, k).1
    ensures var x := s.t.lines[n];
            && (p.Ok? <==> Gives(x.line, s.t.tail, now, k))
            && (p.Err? ==> p.error == ErrNone && x' == x)
            && (p.Ok? ==>
                  && ExactBatch(s, p.value) && s.t.tail == |s.t.log|
                  && Drawn(x.line, s.t.tail, now, k, p.value.ids, x'.line)
                  && x'.hist == x.hist.(trace := x.hist.trace + Deliveries(p.value.ids, now)))
  {
    var x := s.t.lines[n];
    assert LineOk(s.t, x);
    StoredCovers(s, x);
    TrackedMonotone(x, s.t.tail, s.t.clock, s.t.tail, now);
    BatchExact(s, n, k, now);
    MPopDraws(x, s.t.tail, Msgs(s), now, k);
  }

  lemma QueueMultiPopIs(u: QueueState, key: Bytes, t: Bytes, n: Bytes, k: int, now: int)
    returns (x': Tracked, p: Result<Batch, Error>)
    requires PopKey(key) == Ok((t, n)) && Finds(u, t, n)
    ensures x' == MPopTracked(u.topics[t].lines[n], u.topics[t].tail, Msgs(SysOf(u, t)), now, k)
    ensures p == MPop(u.topics[t].lines[n].line, u.topics[t].tail, Msgs(SysOf(u, t)), now, k).1
    ensures QueueMultiPop(u, key, k, now) ==
              (WithLine(u, t, n, x', now), if p.Ok? then Ok((IdsOf(key, p.value.ids), p.value.datas)) else Err(p.error))
  {
    x' := MPopTracked(u.topics[t].lines[n], u.topics[t].tail, Msgs(SysOf(u, t)), now, k);
    p := MPop(u.topics[t].lines[n].line, u.topics[t].tail, Msgs(SysOf(u, t)), now, k).1;
  }

  /** The answer to a batch of a line that is there. */
  ghost predicate MultiPopAnswered(
    u: QueueState, t: Bytes, n: Bytes, k: int, now: int, r: Result<(seq<Bytes>, seq<Bytes>), Error>, u': QueueState)
  {
    Finds(u, t, n) &&
    if Gives(u.topics[t].lines[n].line, u.topics[t].tail, now, k)
    then r.Ok? && exists ids :: HandedAll(u, t, n, k, now, ids, r.value, u')
    else r == Err(ErrNone) && OnlyLine(u, t, n, u') && u'.topics[t].lines == u.topics[t].lines
  }

  lemma MultiPopHands(u: QueueState, key: Bytes, t: Bytes, n: Bytes, k: int, now: int)
    requires QueueInv(u) && PopKey(key) == Ok((t, n)) && Finds(u, t, n) && u.topics[t].clock <= now
    ensures MultiPopAnswered(u, t, n, k, now, QueueMultiPop(u, key, k, now).1, QueueMultiPop(u, key, k, now).0)
  {
    var x', p := QueueMultiPopIs(u, key, t, n, k, now);
    assert TopicGood(SysOf(u, t));
    TopicMPops(SysOf(u, t), n, k, now, x', p);
    OnlyThisLine(u, t, n, x', now);
    if p.Ok? {
      IdsName(key, t, n, p.value.ids);
      assert HandedAll(u, t, n, k, now, p.value.ids, (IdsOf(key, p.value.ids), p.value.datas), WithLine(u, t, n, x', now));
    }
  }

  /**
   * MultiPop answers with a batch exactly when there is something to give: keys and bytes of the same messages, in the
   * order they were delivered, none twice, and fewer than asked for only if nothing is left.
   */
  lemma MultiPopAnswers(u: QueueState, key: Bytes, t: Bytes, n: Bytes, k: int, now: int)
    requires QueueInv(u) && IsPair(key, t, n) && (t in u.topics ==> u.topics[t].clock <= now)
    ensures var (u', r) := QueueMultiPop(u, key, k, now);
            && (r == Err(ErrTopicNotExisted) <==> t !in u.topics)
            && (r == Err(ErrLineNotExisted) <==> t in u.topics && n !in u.topics[t].lines)
            && (r == Err(ErrNone) <==> Finds(u, t, n) && !Gives(u.topics[t].lines[n].line, u.topics[t].tail, now, k))
            && (r.Ok? <==> Finds(u, t, n) && Gives(u.topics[t].lines[n].line, u.topics[t].tail, now, k))
            && (r.Ok? ==> exists ids :: HandedAll(u, t, n, k, now, ids, r.value, u'))
            && (r.Err? ==> u' == u || (OnlyLine(u, t, n, u') && u'.topics[t].lines == u.topics[t].lines))
  {
    PopKeyExactly(key, t, n);
    if Finds(u, t, n) {
      MultiPopHands(u, key, t, n, k, now);
    }
  }

  // ----- Confirm -----

  ghost predicate InFlightAt(u: QueueState, t: Bytes, n: Bytes, id: nat) {
    Finds(u, t, n) && InFlight(u.topics[t].lines[n].line, id)
  }

  ghost predicate ConfirmedAt(u: QueueState, t: Bytes, n: Bytes, id: nat) {
    Finds(u, t, n) && id in u.topics[t].lines[n].hist.confirmed
  }

  /** Message `id` was taken out of flight and counted as confirmed; the others keep their deadlines. */
  ghost predicate Settled(u: QueueState, t: Bytes, n: Bytes, id: nat, u': QueueState) {
    && OnlyLine(u, t, n, u') && u'.topics[t].clock == u.topics[t].clock
    && var x, x' := u.topics[t].lines[n], u'.topics[t].lines[n];
       && (forall m :: m in x'.line.inflight <==> m in x.line.inflight && m.tid != id)
       && x'.line.head == x.line.head && x'.line.recycle == x.line.recycle
       && x'.hist == x.hist.(confirmed := x.hist.confirmed + {id}, trace := x.hist.trace + [Confirmed(id)])
  }

  /** Removing a message from a list without repeats leaves the others as they are. */
  lemma OthersStay(l: LineState, id: nat)
    requires Distinct(l.inflight) && InFlight(l, id) && l.recycle != 0 && id < l.head
    ensures forall m :: m in Confirm(l, id).0.inflight <==> m in l.inflight && m.tid != id
  {
    var k := Find(l.inflight, id);
    var rest := l.inflight[..k] + l.inflight[k + 1..];
    assert Confirm(l, id).0.inflight == rest;
    forall m
      ensures m in rest <==> m in l.inflight && m.tid != id
    {
      if m in l.inflight && m.tid != id {
        var i :| 0 <= i < |l.inflight| && l.inflight[i] == m;
        assert rest[if i < k then i else i - 1] == m;
      }
      if m in rest {
        var i :| 0 <= i < |rest| && rest[i] == m;
        assert l.inflight[if i < k then i else i + 1] == m;
      }
    }
  }

  lemma SameLine(u: QueueState, t: Bytes, n: Bytes)
    requires Finds(u, t, n)
    ensures u.topics[t := SetLine(u.topics[t], n, u.topics[t].lines[n])] == u.topics
  {
    assert u.topics[t].lines[n := u.topics[t].lines[n]] == u.topics[t].lines;
  }

  lemma ConfirmSettles(u: QueueState, key: Bytes, t: Bytes, n: Bytes, id: nat)
    requires QueueInv(u) && ConfirmKey(key) == Ok((t, n, id)) && Finds(u, t, n)
    ensures var (u', r) := QueueConfirm(u, key);
            if InFlight(u.topics[t].lines[n].line, id) then r == Ok(()) && Settled(u, t, n, id, u')
            else r == Err(ErrNotDelivered) && u' == u
  {
    var s := SysOf(u, t);
    var x := s.t.lines[n];
    assert TopicGood(s) && LineOk(s.t, x);
    ConfirmExact(x.line, id, s.t.tail, s.t.clock);
    Bounds(x.line, s.t.tail, s.t.clock);
    if InFlight(x.line, id) {
      OthersStay(x.line, id);
    } else {
      SameLine(u, t, n);
    }
  }

  /** Confirm accepts exactly what is in flight, settles that and nothing else; each error comes exactly in its case. */
  lemma ConfirmAnswers(u: QueueState, key: Bytes, t: Bytes, n: Bytes, id: nat)
    requires QueueInv(u) && ConfirmKey(key) == Ok((t, n, id))
    ensures var (u', r) := QueueConfirm(u, key);
            && (r == Err(ErrTopicNotExisted) <==> t !in u.topics)
            && (r == Err(ErrLineNotExisted) <==> t in u.topics && n !in u.topics[t].lines)
            && (r == Err(ErrNotDelivered) <==> Finds(u, t, n) && !InFlightAt(u, t, n, id))
            && (r == Ok(()) <==> InFlightAt(u, t, n, id))
            && (r.Ok? ==> Settled(u, t, n, id, u'))
            && (r.Err? ==> u' == u)
  {
    if Finds(u, t, n) {
      ConfirmSettles(u, key, t, n, id);
    }
  }

  /** A key that names no topic, line and number is refused, and nothing else is refused as a bad key. */
  lemma ConfirmBadKey(u: QueueState, key: Bytes)
    ensures QueueConfirm(u, key).1 == Err(ErrBadKey) <==>
              forall t, n, d {:trigger IsTriple(key, t, n, d)} :: IsTriple(key, t, n, d) ==> ParseUint(d) == None
    ensures ConfirmKey(key).Err? ==> QueueConfirm(u, key).0 == u
  {
    ConfirmKeyExactly(key, [], [], 0);
    if ConfirmKey(key).Ok? {
      var (t, n, id) := ConfirmKey(key).value;
      ConfirmKeyExactly(key, t, n, id);
      var d :| IsTriple(key, t, n, d) && ParseUint(d) == Some(id);
    } else {
      forall t, n, d | IsTriple(key, t, n, d)
        ensures ParseUint(d) == None
      {
        if ParseUint(d).Some? {
          ConfirmKeyExactly(key, t, n, ParseUint(d).value);
        }
      }
    }
  }

  // ----- MultiConfirm -----

  lemma SettledInFlight(u: QueueState, t: Bytes, n: Bytes, id: nat, u': QueueState, t1: Bytes, n1: Bytes, id1: nat)
    requires Settled(u, t, n, id, u')
    ensures Finds(u', t1, n1) <==> Finds(u, t1, n1)
    ensures InFlightAt(u', t1, n1, id1) <==> InFlightAt(u, t1, n1, id1) && (t1, n1, id1) != (t, n, id)
    ensures ConfirmedAt(u', t1, n1, id1) <==> ConfirmedAt(u, t1, n1, id1) || (t1, n1, id1) == (t, n, id)
  {
    if (t1, n1) == (t, n) {
      var l, l' := u.topics[t].lines[n].line, u'.topics[t].lines[n].line;
      if InFlight(l, id1) && id1 != id {
        var i :| 0 <= i < |l.inflight| && l.inflight[i].tid == id1;
        assert l.inflight[i] in l'.inflight;
        var j :| 0 <= j < |l'.inflight| && l'.inflight[j] == l.inflight[i];
        assert InFlight(l', id1);
      }
      if InFlight(l', id1) {
        var i :| 0 <= i < |l'.inflight| && l'.inflight[i].tid == id1;
        assert l'.inflight[i] in l.inflight;
        var j :| 0 <= j < |l.inflight| && l.inflight[j] == l'.inflight[i];
        assert InFlight(l, id1);
      }
    }
  }

  /** One Confirm takes out of flight what its key names, if it was in flight, and touches nothing else. */
  lemma ConfirmTakes(u: QueueState, key: Bytes, t: Bytes, n: Bytes, id: nat)
    requires QueueInv(u)
    ensures var u' := QueueConfirm(u, key).0;
            var named := ConfirmKey(key) == Ok((t, n, id));
            && (Finds(u', t, n) <==> Finds(u, t, n))
            && (InFlightAt(u', t, n, id) <==> InFlightAt(u, t, n, id) && !named)
            && (ConfirmedAt(u', t, n, id) <==> ConfirmedAt(u, t, n, id) || (InFlightAt(u, t, n, id) && named))
  {
    var (u', r) := QueueConfirm(u, key);
    if ConfirmKey(key).Ok? {
      var (t1, n1, id1) := ConfirmKey(key).value;
      ConfirmAnswers(u, key, t1, n1, id1);
      if r.Ok? {
        SettledInFlight(u, t1, n1, id1, u', t, n, id);
      }
    }
  }

  lemma ConfirmKeepsInv(u: QueueState, key: Bytes)
    requires QueueInv(u)
    ensures QueueInv(QueueConfirm(u, key).0)
  {
    if ConfirmKey(key).Ok? {
      var (t, n, id) := ConfirmKey(key).value;
      if Finds(u, t, n) {
        ConfirmIsStep(u, key, t, n, id);
        QueueNextInv(u, OnTopic(t, DoConfirm(n, id)), QueueConfirm(u, key).0);
      }
    }
  }

  /** One of the keys names the message. */
  predicate Named(keys: seq<Bytes>, t: Bytes, n: Bytes, id: nat) {
    exists j :: 0 <= j < |keys| && ConfirmKey(keys[j]) == Ok((t, n, id))
  }

  lemma NamedMore(keys: seq<Bytes>, t: Bytes, n: Bytes, id: nat)
    requires keys != []
    ensures Named(keys, t, n, id) <==>
              Named(keys[..|keys| - 1], t, n, id) || ConfirmKey(keys[|keys| - 1]) == Ok((t, n, id))
  {
    var i := |keys| - 1;
    if Named(keys[..i], t, n, id) {
      var j :| 0 <= j < i && ConfirmKey(keys[..i][j]) == Ok((t, n, id));
      assert ConfirmKey(keys[j]) == Ok((t, n, id));
    }
    if j :| 0 <= j < |keys| && ConfirmKey(keys[j]) == Ok((t, n, id)) {
      assert j == i || ConfirmKey(keys[..i][j]) == Ok((t, n, id));
    }
  }

  lemma {:induction false} MultiConfirmInv(u: QueueState, keys: seq<Bytes>)
    requires QueueInv(u)
    ensures QueueInv(QueueMultiConfirm(u, keys).0)
    decreases |keys|
  {
    if keys != [] {
      var i := |keys| - 1;
      MultiConfirmInv(u, keys[..i]);
      ConfirmKeepsInv(QueueMultiConfirm(u, keys[..i]).0, keys[i]);
    }
  }

  /** After all the keys, what was in flight and is named by one of them is confirmed, and nothing else has changed. */
  lemma {:induction false} MultiConfirmTakes(u: QueueState, keys: seq<Bytes>, t: Bytes, n: Bytes, id: nat)
    requires QueueInv(u)
    ensures var u' := QueueMultiConfirm(u, keys).0;
            && (Finds(u', t, n) <==> Finds(u, t, n))
            && (InFlightAt(u', t, n, id) <==> InFlightAt(u, t, n, id) && !Named(keys, t, n, id))
            && (ConfirmedAt(u', t, n, id) <==>
                  ConfirmedAt(u, t, n, id) || (InFlightAt(u, t, n, id) && Named(keys, t, n, id)))
    decreases |keys|
  {
    if keys != [] {
      var i := |keys| - 1;
      MultiConfirmTakes(u, keys[..i], t, n, id);
      MultiConfirmInv(u, keys[..i]);
      ConfirmTakes(QueueMultiConfirm(u, keys[..i]).0, keys[i], t, n, id);
      NamedMore(keys, t, n, id);
    }
  }

  /** MultiConfirm accepts a key exactly when it names a message that was in flight and no earlier key names it. */
  lemma MultiConfirmAnswers(u: QueueState, keys: seq<Bytes>, i: nat)
    requires QueueInv(u) && i < |keys|
    ensures QueueMultiConfirm(u, keys).1[i].Ok? <==>
              exists t, n, id :: ConfirmKey(keys[i]) == Ok((t, n, id)) && InFlightAt(u, t, n, id) && !Named(keys[..i], t, n, id)
  {
    AnswersOfPrefix(QueueConfirm, u, keys, i);
    MultiConfirmInv(u, keys[..i]);
    var u1 := QueueMultiConfirm(u, keys[..i]).0;
    if ConfirmKey(keys[i]).Ok? {
      var (t, n, id) := ConfirmKey(keys[i]).value;
      ConfirmAnswers(u1, keys[i], t, n, id);
      MultiConfirmTakes(u, keys[..i], t, n, id);
    }
  }

  // ----- MultiPop, then MultiConfirm -----

  lemma BatchNotNamed(keys: seq<Bytes>, t: Bytes, n: Bytes, ids: seq<nat>, i: nat)
    requires |keys| == |ids| && i < |ids| && NoRepeats(ids)
    requires forall j :: 0 <= j < |ids| ==> ConfirmKey(keys[j]) == Ok((t, n, ids[j]))
    ensures !Named(keys[..i], t, n, ids[i])
  {
    forall j | 0 <= j < i
      ensures ConfirmKey(keys[..i][j]) != Ok((t, n, ids[i]))
    {
      assert keys[..i][j] == keys[j];
    }
  }

  lemma HandedInFlight(u: QueueState, t: Bytes, n: Bytes, k: int, now: int, ids: seq<nat>, answer: (seq<Bytes>, seq<Bytes>), u': QueueState)
    requires HandedAll(u, t, n, k, now, ids, answer, u') && t != [] && u.topics[t].tail <= U64
    requires u.topics[t].lines[n].line.recycle > 0
    ensures |answer.0| == |ids| && NoRepeats(ids)
    ensures forall i :: 0 <= i < |ids| ==> ConfirmKey(answer.0[i]) == Ok((t, n, ids[i])) && InFlightAt(u', t, n, ids[i])
  {
  }

  lemma MultiPopKeepsInv(u: QueueState, key: Bytes, t: Bytes, n: Bytes, k: int, now: int)
    requires QueueInv(u) && PopKey(key) == Ok((t, n)) && Finds(u, t, n) && Enabled(u.topics[t], DoPop(n, now))
    ensures QueueInv(QueueMultiPop(u, key, k, now).0)
  {
    RequestsAreSteps(u, key, k, now, t, n);
    QueueNextInv(u, OnTopic(t, DoMPop(n, k, now)), QueueMultiPop(u, key, k, now).0);
  }

  /** MultiConfirm accepts every key, and then exactly `ids` have been confirmed since `u`. */
  ghost predicate AllConfirmed(u: QueueState, u1: QueueState, keys: seq<Bytes>, t: Bytes, n: Bytes, ids: seq<nat>) {
    var (u2, answers) := QueueMultiConfirm(u1, keys);
    && (forall i :: 0 <= i < |answers| ==> answers[i].Ok?)
    && forall id: nat :: ConfirmedAt(u2, t, n, id) <==> ConfirmedAt(u, t, n, id) || id in ids
  }

  /**
   * End to end: the keys a client gets from MultiPop on a recycling line, given to MultiConfirm, are all accepted, and
   * exactly the messages of the batch have then been confirmed on that line.
   */
  lemma ClientConfirmsBatch(u: QueueState, key: Bytes, t: Bytes, n: Bytes, k: int, now: int)
    requires QueueInv(u) && IsPair(key, t, n) && Finds(u, t, n) && t != [] && u.topics[t].tail <= U64
    requires Enabled(u.topics[t], DoPop(n, now)) && u.topics[t].lines[n].line.recycle > 0
    requires QueueMultiPop(u, key, k, now).1.Ok?
    ensures var (u1, r) := QueueMultiPop(u, key, k, now);
            exists ids :: HandedAll(u, t, n, k, now, ids, r.value, u1) && AllConfirmed(u, u1, r.value.0, t, n, ids)
  {
    var (u1, r) := QueueMultiPop(u, key, k, now);
    PopKeyExactly(key, t, n);
    MultiPopKeepsInv(u, key, t, n, k, now);
    MultiPopAnswers(u, key, t, n, k, now);
    var ids :| HandedAll(u, t, n, k, now, ids, r.value, u1);
    BatchConfirmed(u, t, n, k, now, ids, r.value, u1);
  }

  lemma BatchConfirmed(
    u: QueueState, t: Bytes, n: Bytes, k: int, now: int, ids: seq<nat>, answer: (seq<Bytes>, seq<Bytes>), u1: QueueState)
    requires QueueInv(u1) && HandedAll(u, t, n, k, now, ids, answer, u1) && t != [] && u.topics[t].tail <= U64
    requires u.topics[t].lines[n].line.recycle > 0
    ensures AllConfirmed(u, u1, answer.0, t, n, ids)
  {
    var keys := answer.0;
    HandedInFlight(u, t, n, k, now, ids, answer, u1);
    forall i | 0 <= i < |keys|
      ensures QueueMultiConfirm(u1, keys).1[i].Ok?
    {
      BatchAccepted(u1, keys, t, n, ids, i);
    }
    forall id: nat
      ensures ConfirmedAt(QueueMultiConfirm(u1, keys).0, t, n, id) <==> ConfirmedAt(u, t, n, id) || id in ids
    {
      BatchSettled(u1, keys, t, n, ids, id);
      assert ConfirmedAt(u1, t, n, id) <==> ConfirmedAt(u, t, n, id);
    }
  }

  lemma BatchAccepted(u: QueueState, keys: seq<Bytes>, t: Bytes, n: Bytes, ids: seq<nat>, i: nat)
    requires QueueInv(u) && i < |keys| == |ids| && NoRepeats(ids)
    requires forall j :: 0 <= j < |ids| ==> ConfirmKey(keys[j]) == Ok((t, n, ids[j])) && InFlightAt(u, t, n, ids[j])
    ensures QueueMultiConfirm(u, keys).1[i].Ok?
  {
    BatchNotNamed(keys, t, n, ids, i);
    MultiConfirmAnswers(u, keys, i);
    assert ConfirmKey(keys[i]) == Ok((t, n, ids[i]));
  }

  lemma BatchNames(keys: seq<Bytes>, t: Bytes, n: Bytes, ids: seq<nat>, id: nat)
    requires |keys| == |ids| && forall i :: 0 <= i < |ids| ==> ConfirmKey(keys[i]) == Ok((t, n, ids[i]))
    ensures Named(keys, t, n, id) <==> id in ids
  {
    if id in ids {
      var i :| 0 <= i < |ids| && ids[i] == id;
      assert ConfirmKey(keys[i]) == Ok((t, n, id));
    }
    if j :| 0 <= j < |keys| && ConfirmKey(keys[j]) == Ok((t, n, id)) {
      assert ids[j] == id;
    }
  }

  lemma BatchSettled(u: QueueState, keys: seq<Bytes>, t: Bytes, n: Bytes, ids: seq<nat>, id: nat)
    requires QueueInv(u) && |keys| == |ids|
    requires forall i :: 0 <= i < |ids| ==> ConfirmKey(keys[i]) == Ok((t, n, ids[i])) && InFlightAt(u, t, n, ids[i])
    ensures ConfirmedAt(QueueMultiConfirm(u, keys).0, t, n, id) <==> ConfirmedAt(u, t, n, id) || id in ids
  {
    MultiConfirmTakes(u, keys, t, n, id);
    BatchNames(keys, t, n, ids, id);
  }
}
