/**
 * From push to pop: the log of a topic is what was pushed to it, in order, a consumer is handed exactly
 * that, and a line created on a persistent topic, at whatever time, gets all of it.
 */
module Published {
  import opened Base
  import opened StoreKeys
  import opened LineSpec
  import opened LineHistory
  import opened TopicSpec
  import opened TopicProofs
  import opened Snapshots
  import opened Names
  import opened QueueSpec
  import opened QueueProofs
  import opened Guarantees
  import opened Requests

  // ----- The log is what was pushed -----

  /** The bodies of the push, if it is one; that it succeeded shows in the tail. */
  function Pushed(t: TopicState, op: Op, t': TopicState): seq<Bytes> {
    if t'.tail == t.tail then []
    else
      match op
      case DoPush(data) => [data]
      case DoMPush(datas) => datas
      case _ => []
  }

  /** The identity of a topic and its log stay, but for what is pushed. */
  ghost predicate Extends(s: Sys, op: Op, s': Sys) {
    s'.t.name == s.t.name && s'.t.persist == s.t.persist && s'.t.log == s.t.log + Pushed(s.t, op, s'.t)
  }

  lemma SameLogExtends(s: Sys, op: Op, s': Sys)
    requires s'.t.name == s.t.name && s'.t.persist == s.t.persist && s'.t.log == s.t.log && s'.t.tail == s.t.tail
    ensures Extends(s, op, s')
  {
    assert s.t.log + [] == s.t.log;
  }

  lemma MPushExtends(s: Sys, datas: seq<Bytes>, s': Sys)
    requires MPushNext(s, datas, s')
    ensures Extends(s, DoMPush(datas), s')
  {
    if s'.t.tail == s.t.tail {
      assert s.t.log + [] == s.t.log;
    }
  }

  lemma PushExtends(s: Sys, data: Bytes, s': Sys)
    requires PushNext(s, data, s')
    ensures Extends(s, DoPush(data), s')
  {
    if s'.t.tail == s.t.tail {
      assert s.t.log + [] == s.t.log;
    }
  }

  lemma EmptyTopicSame(s: Sys, s': Sys)
    requires EmptyTopicNext(s, s')
    ensures s'.t.name == s.t.name && s'.t.persist == s.t.persist && s'.t.log == s.t.log && s'.t.tail == s.t.tail
  {
  }

  lemma CreateSame(s: Sys, n: Bytes, recycle: int, s': Sys)
    requires CreateLineNext(s, n, recycle, s')
    ensures s'.t.name == s.t.name && s'.t.persist == s.t.persist && s'.t.log == s.t.log && s'.t.tail == s.t.tail
  {
  }

  lemma CleanSame(s: Sys, s': Sys)
    requires CleanStepNext(s, s')
    ensures s'.t.name == s.t.name && s'.t.persist == s.t.persist && s'.t.log == s.t.log && s'.t.tail == s.t.tail
  {
  }

  lemma NextExtends(s: Sys, op: Op, s': Sys)
    requires Next(s, op, s')
    ensures Extends(s, op, s')
  {
    match op
    case DoPush(data) => PushExtends(s, data, s');
    case DoMPush(datas) => MPushExtends(s, datas, s');
    case DoEmptyTopic => EmptyTopicSame(s, s'); SameLogExtends(s, op, s');
    case DoCreateLine(n, recycle) => CreateSame(s, n, recycle, s'); SameLogExtends(s, op, s');
    case DoCleanStep => CleanSame(s, s'); SameLogExtends(s, op, s');
    case _ => SameLogExtends(s, op, s');
  }

  /** What step `i` of a run of the queue adds to the log of a topic. */
  function PushedOn(u: QueueState, op: QueueOp, u': QueueState, t: Bytes): seq<Bytes>
    requires t in u.topics && t in u'.topics
  {
    if op.OnTopic? && op.topic == t then Pushed(u.topics[t], op.op, u'.topics[t]) else []
  }

  /** All that was pushed to a topic since it was created, in order. */
  function PublishedOn(states: seq<QueueState>, ops: seq<QueueOp>, t: Bytes, i: nat): seq<Bytes>
    requires i <= |ops| < |states|
  {
    if i == 0 || t !in states[i - 1].topics || t !in states[i].topics then []
    else PublishedOn(states, ops, t, i - 1) + PushedOn(states[i - 1], ops[i - 1], states[i], t)
  }

  lemma StepLog(u: QueueState, op: QueueOp, u': QueueState, t: Bytes)
    requires QueueNext(u, op, u') && t in u.topics && t in u'.topics
    ensures u'.topics[t].log == u.topics[t].log + PushedOn(u, op, u', t)
    ensures u'.topics[t].persist == u.topics[t].persist
  {
    assert u.topics[t].log + [] == u.topics[t].log;
    if op.OnTopic? && op.topic == t {
      var s' :| TopicNext(u, t, op.op, s', u');
      NextExtends(SysOf(u, t), op.op, s');
    }
  }

  lemma StepNew(u: QueueState, op: QueueOp, u': QueueState, t: Bytes)
    requires QueueNext(u, op, u') && t !in u.topics && t in u'.topics
    ensures op.DoCreateTopic? && op.topic == t && u'.topics[t] == NewTopic(t, op.persist)
  {
  }

  /** In every run, the log of a topic is all that was successfully pushed to it since it was created, in order. */
  lemma {:induction false} RunLog(states: seq<QueueState>, ops: seq<QueueOp>, t: Bytes, i: nat)
    requires IsQueueRun(states, ops) && i <= |ops| && t in states[i].topics
    ensures states[i].topics[t].log == PublishedOn(states, ops, t, i)
  {
    if i > 0 {
      assert QueueNext(states[i - 1], ops[i - 1], states[i]);
      if t in states[i - 1].topics {
        RunLog(states, ops, t, i - 1);
        StepLog(states[i - 1], ops[i - 1], states[i], t);
      } else {
        StepNew(states[i - 1], ops[i - 1], states[i], t);
      }
    }
  }

  // ----- Pushing by key -----

  lemma PushIsStep(u: QueueState, key: Bytes, data: Bytes, r: Result<(), Error>, u': QueueState)
    requires QueuePush(u, key, data, r, u') && Trim(key) in u.topics && data != []
    ensures QueueNext(u, OnTopic(Trim(key), DoPush(data)), u')
    ensures u'.topics[Trim(key)].log == u.topics[Trim(key)].log + if r.Ok? then [data] else []
  {
    var t := Trim(key);
    var s := SysOf(u, t);
    assert s.t.log + [] == s.t.log;
    if r.Ok? {
      assert TopicNext(u, t, DoPush(data), PushOk(s, data), u');
    } else {
      assert TopicNext(u, t, DoPush(data), SysOf(u', t), u');
    }
  }

  lemma MultiPushIsStep(u: QueueState, key: Bytes, datas: seq<Bytes>, r: Result<(), Error>, u': QueueState)
    requires QueueMultiPush(u, key, datas, r, u') && Trim(key) in u.topics && [] !in datas
    ensures QueueNext(u, OnTopic(Trim(key), DoMPush(datas)), u')
    ensures u'.topics[Trim(key)].log == u.topics[Trim(key)].log + if r.Ok? then datas else []
  {
    var t := Trim(key);
    var s := SysOf(u, t);
    assert s.t.log + [] == s.t.log;
    if r.Ok? {
      assert TopicNext(u, t, DoMPush(datas), MPushOk(s, datas), u');
    } else {
      assert TopicNext(u, t, DoMPush(datas), SysOf(u', t), u');
    }
  }

  // ----- What is handed out is what was pushed -----

  /** After any run, what Pop hands out as message `id` is the body of the push number `id`. */
  lemma PopsWhatWasPushed(states: seq<QueueState>, ops: seq<QueueOp>, u: QueueState, key: Bytes, t: Bytes, n: Bytes, now: int)
    requires IsQueueRun(states, ops) && u == states[|ops|]
    requires IsPair(key, t, n) && t in u.topics && u.topics[t].clock <= now
    ensures var (u', r) := QueuePop(u, key, now);
            r.Ok? ==> exists id: nat :: Handed(u, t, n, now, id, r.value, u')
                        && id < |PublishedOn(states, ops, t, |ops|)| && r.value.1 == PublishedOn(states, ops, t, |ops|)[id]
  {
    QueueRunInv(states, ops, |ops|);
    RunLog(states, ops, t, |ops|);
    PopAnswers(u, key, t, n, now);
  }

  // ----- Persistent topics -----

  /** In a run, the topic was created at step `i` and has been there since, up to state `j`. */
  ghost predicate Lives(states: seq<QueueState>, ops: seq<QueueOp>, t: Bytes, persist: bool, i: nat, j: nat) {
    && i < j < |states| == |ops| + 1 && t in states[j].topics
    && forall mark: bool {:trigger Opened(mark)} :: Opened(mark) ==>
         && IsQueueRun(states, ops)
         && ops[i] == DoCreateTopic(t, persist) && t !in states[i].topics
         && forall m :: i < m <= j ==> t in states[m].topics
  }

  lemma LivedBefore(states: seq<QueueState>, ops: seq<QueueOp>, t: Bytes, persist: bool, i: nat, j: nat)
    requires Lives(states, ops, t, persist, i, j)
    ensures IsQueueRun(states, ops) && QueueNext(states[j - 1], ops[j - 1], states[j])
    ensures if j == i + 1 then ops[j - 1] == DoCreateTopic(t, persist) && t !in states[j - 1].topics
            else Lives(states, ops, t, persist, i, j - 1)
  {
    assert Opened(true);
  }

  /** A topic is persistent exactly if it was created so. */
  lemma {:induction false} PersistAsCreated(states: seq<QueueState>, ops: seq<QueueOp>, t: Bytes, persist: bool, i: nat, j: nat)
    requires Lives(states, ops, t, persist, i, j)
    ensures states[j].topics[t].persist == persist
    decreases j
  {
    LivedBefore(states, ops, t, persist, i, j);
    if j == i + 1 {
      StepNew(states[i], ops[i], states[j], t);
    } else {
      PersistAsCreated(states, ops, t, persist, i, j - 1);
      StepLog(states[j - 1], ops[j - 1], states[j], t);
    }
  }

  /** Every message ever pushed to a topic created as persistent is stored, with the bytes that were pushed. */
  lemma PersistentKeepsAll(states: seq<QueueState>, ops: seq<QueueOp>, t: Bytes, i: nat, j: nat, id: nat)
    requires Lives(states, ops, t, true, i, j) && id < |PublishedOn(states, ops, t, j)|
    ensures MsgRec(t, id) in states[j].recs && states[j].recs[MsgRec(t, id)] == PublishedOn(states, ops, t, j)[id]
  {
    PersistAsCreated(states, ops, t, true, i, j);
    LivedBefore(states, ops, t, true, i, j);
    QueueRunInv(states, ops, j);
    RunLog(states, ops, t, j);
    assert TopicGood(SysOf(states[j], t));
  }

  // ----- New lines -----

  /**
   * A new line on a persistent topic owes exactly all that was ever pushed, and on any other topic exactly what is pushed
   * from the head on. It has the recycle time asked for and nothing in flight, and disturbs no other line.
   */
  lemma NewLineOwes(s: Sys, n: Bytes, recycle: int, s': Sys)
    requires CreateLineOk(s, n, recycle, s')
    ensures n in s'.t.lines && s'.t == s.t.(lines := s.t.lines[n := s'.t.lines[n]])
    ensures var l := s'.t.lines[n].line;
            && l.recycle == recycle && l.inflight == [] && LowMark(l) == l.head == StartOf(s.t)
            && (s.t.persist ==> forall id: nat :: id in Outstanding(l, s'.t.tail) <==> id < s.t.tail)
            && (!s.t.persist ==> forall id: nat :: id in Outstanding(l, s'.t.tail) <==> s.t.head <= id < s.t.tail)
  {
    var l := s'.t.lines[n].line;
    forall id: nat
      ensures id in Outstanding(l, s'.t.tail) <==> (s.t.persist || s.t.head <= id) && id < s.t.tail
    {
      InOutstanding(l, s'.t.tail, id);
    }
  }

  lemma BatchOfLog(s: Sys, b: Batch, start: nat)
    requires ExactBatch(s, b) && start <= s.t.tail == |s.t.log| && b.ids == Ids(start, s.t.tail)
    ensures b.datas == s.t.log[start..]
  {
  }

  /** And a batch large enough hands out all of them, from the first one on, with their bytes. */
  lemma NewLineDelivers(s: Sys, n: Bytes, recycle: int, s': Sys, now: int, k: nat)
    requires Inv(s) && Next(s, DoCreateLine(n, recycle), s') && n !in s.t.lines && n in s'.t.lines
    requires StartOf(s.t) < s.t.tail <= k && s.t.clock <= now
    ensures MPop(s'.t.lines[n].line, s'.t.tail, Msgs(s'), now, k).1
         == Ok(Batch(Ids(StartOf(s.t), s.t.tail), s.t.log[StartOf(s.t)..]))
  {
    NewLineOwes(s, n, recycle, s');
    NextInv(s, DoCreateLine(n, recycle), s');
    NewLineDrains(s', n, StartOf(s.t), now, k);
  }

  lemma NewLineDrains(s: Sys, n: Bytes, start: nat, now: int, k: nat)
    requires Inv(s) && n in s.t.lines && s.t.lines[n].line.inflight == []
    requires LowMark(s.t.lines[n].line) == s.t.lines[n].line.head == start
    requires start < s.t.tail <= k && s.t.clock <= now
    ensures MPop(s.t.lines[n].line, s.t.tail, Msgs(s), now, k).1 == Ok(Batch(Ids(start, s.t.tail), s.t.log[start..]))
  {
    var x := s.t.lines[n];
    assert LineOk(s.t, x);
    StoredCovers(s, x);
    InOutstanding(x.line, s.t.tail, start);
    BatchDrains(x.line, s.t.tail, s.t.clock, Msgs(s), now, k);
    MPopIsExact(s, n, k, now);
    var b := MPop(x.line, s.t.tail, Msgs(s), now, k).1.value;
    assert Tids(x.line.inflight) + Ids(start, s.t.tail) == Ids(start, s.t.tail);
    BatchOfLog(s, b, start);
  }

  /** The batch is the log from `start` on, if there is any of it, under the keys of its messages. */
  predicate Replays(log: seq<Bytes>, start: nat, t: Bytes, n: Bytes, r: Result<(seq<Bytes>, seq<Bytes>), Error>) {
    start < |log| ==>
      && r.Ok? && r.value.1 == log[start..] && |r.value.0| == |log| - start
      && forall j :: 0 <= j < |log| - start ==> r.value.0[j] == IdText(t, n, start + j)
  }

  lemma BatchReplays(log: seq<Bytes>, start: nat, t: Bytes, n: Bytes, key: Bytes, b: Batch)
    requires PopKey(key) == Ok((t, n)) && start <= |log| && b == Batch(Ids(start, |log|), log[start..])
    ensures Replays(log, start, t, n, Ok((IdsOf(key, b.ids), b.datas)))
  {
    forall j | 0 <= j < |log| - start
      ensures IdsOf(key, b.ids)[j] == IdText(t, n, start + j)
    {
      IdIsJoined(key, t, n, start + j);
    }
  }

  lemma CreatedReplays(u: QueueState, t: Bytes, n: Bytes, recycle: int, s': Sys, u': QueueState, key: Bytes, now: int, k: nat)
    requires QueueInv(u) && t in u.topics && TopicNext(u, t, DoCreateLine(n, recycle), s', u') && PopKey(key) == Ok((t, n))
    requires n !in u.topics[t].lines && n in s'.t.lines && s'.t.clock <= now && s'.t.tail <= k
    ensures Replays(s'.t.log, StartOf(u.topics[t]), t, n, QueueMultiPop(u', key, k, now).1)
  {
    var s := SysOf(u, t);
    assert TopicGood(s);
    NewLineOwes(s, n, recycle, s');
    if StartOf(s.t) < |s'.t.log| {
      NewLineDelivers(s, n, recycle, s', now, k);
      var x', p := QueueMultiPopIs(u', key, t, n, k, now);
      BatchReplays(s'.t.log, StartOf(s.t), t, n, key, p.value);
    }
  }

  lemma LastReplays(u: QueueState, t: Bytes, n: Bytes, recycle: int, u': QueueState, key: Bytes, now: int, k: nat)
    requires QueueInv(u) && t in u.topics && QueueNext(u, OnTopic(t, DoCreateLine(n, recycle)), u') && IsPair(key, t, n)
    requires n !in u.topics[t].lines && Finds(u', t, n) && u'.topics[t].clock <= now && u'.topics[t].tail <= k
    ensures Replays(u'.topics[t].log, StartOf(u.topics[t]), t, n, QueueMultiPop(u', key, k, now).1)
  {
    PopKeyExactly(key, t, n);
    var s' :| TopicNext(u, t, DoCreateLine(n, recycle), s', u');
    CreatedReplays(u, t, n, recycle, s', u', key, now, k);
  }

  lemma LivingLog(states: seq<QueueState>, ops: seq<QueueOp>, t: Bytes, persist: bool, i: nat, j: nat)
    requires Lives(states, ops, t, persist, i, j) && j < |ops| && t in states[j + 1].topics
    ensures states[j + 1].topics[t].log == PublishedOn(states, ops, t, j + 1)
  {
    LivedBefore(states, ops, t, persist, i, j);
    RunLog(states, ops, t, j + 1);
  }

  lemma LivingStep(states: seq<QueueState>, ops: seq<QueueOp>, t: Bytes, persist: bool, i: nat, j: nat)
    requires Lives(states, ops, t, persist, i, j) && j < |ops| && t in states[j + 1].topics
    ensures QueueInv(states[j]) && states[j].topics[t].persist == persist
    ensures states[j + 1].topics[t].log == PublishedOn(states, ops, t, j + 1)
    ensures QueueNext(states[j], ops[j], states[j + 1])
  {
    PersistAsCreated(states, ops, t, persist, i, j);
    LivingLog(states, ops, t, persist, i, j);
    LivedBefore(states, ops, t, persist, i, j);
    QueueRunInv(states, ops, j);
  }

  /**
   * After any run, a line newly created on a topic gets by MultiPop every message that was ever pushed to the topic, if
   * the topic was created as persistent, and otherwise every one from the head on: in order, with the bytes pushed.
   */
  lemma NewLineReplays(
    states: seq<QueueState>, ops: seq<QueueOp>, t: Bytes, persist: bool, i: nat, j: nat, n: Bytes, recycle: int,
    key: Bytes, now: int, k: nat)
    requires Lives(states, ops, t, persist, i, j) && j < |ops| && ops[j] == OnTopic(t, DoCreateLine(n, recycle))
    requires n !in states[j].topics[t].lines && Finds(states[j + 1], t, n) && IsPair(key, t, n)
    requires states[j + 1].topics[t].clock <= now && states[j + 1].topics[t].tail <= k
    ensures Replays(PublishedOn(states, ops, t, j + 1), if persist then 0 else states[j].topics[t].head, t, n,
                    QueueMultiPop(states[j + 1], key, k, now).1)
  {
    LivingStep(states, ops, t, persist, i, j);
    LastReplays(states[j], t, n, recycle, states[j + 1], key, now, k);
  }
}
