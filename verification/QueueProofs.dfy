/**
 * Runs of the whole queue: topics do not disturb one another, the index stays exact, and what
 * a queue saves is enough to bring it back.
 */
module QueueProofs {
  import opened Base
  import opened StoreKeys
  import opened Wire
  import opened TopicSpec
  import opened TopicProofs
  import opened Snapshots
  import opened Recovery
  import opened Faultless
  import opened Names
  import opened QueueSpec

  // ----- Every run keeps the invariant -----

  lemma NextGood(s: Sys, op: Op, s': Sys)
    requires TopicGood(s) && Next(s, op, s')
    ensures TopicGood(s')
  {
    NextInv(s, op, s');
    NextSnap(s, op, s');
  }

  lemma GoodElsewhere(t: TopicState, recs: Records, recs': Records)
    requires TopicGood(Sys(t, recs)) && SameOwned(t.name, recs, recs')
    ensures TopicGood(Sys(t, recs'))
  {
    NextGood(Sys(t, recs), DoElsewhere, Sys(t, recs'));
  }

  lemma NewTopicGood(t: Bytes, persist: bool, recs: Records)
    requires TailRec(t) in recs && recs[TailRec(t)] == PutUint64(0)
    ensures TopicGood(Sys(NewTopic(t, persist), recs))
  {
  }

  /** A step on a topic neither writes the index nor anything another topic owns. */
  lemma IndexUntouched(s: Sys, op: Op, s': Sys)
    requires Next(s, op, s') && !op.DoElsewhere?
    ensures QueueIndex in s.recs <==> QueueIndex in s'.recs
    ensures QueueIndex in s.recs ==> s.recs[QueueIndex] == s'.recs[QueueIndex]
  {
    match op
    case DoMPush(datas) => MPushIndex(s, datas, s');
    case DoEmptyTopic => EmptyTopicIndex(s, s');
    case DoCreateLine(n, recycle) => CreateIndex(s, n, recycle, s');
    case _ =>
  }

  lemma MPushIndex(s: Sys, datas: seq<Bytes>, s': Sys)
    requires MPushNext(s, datas, s')
    ensures QueueIndex in s.recs <==> QueueIndex in s'.recs
    ensures QueueIndex in s.recs ==> s.recs[QueueIndex] == s'.recs[QueueIndex]
  {
    WriteMsgsExact(s.recs, s.t.name, s.t.tail, datas);
    if MPushFailed(s, datas, s') {
      var k: nat :| MPushStopped(s, datas, k, s');
      WriteMsgsExact(s.recs, s.t.name, s.t.tail, datas[..k]);
    }
  }

  lemma EmptyTopicIndex(s: Sys, s': Sys)
    requires EmptyTopicNext(s, s')
    ensures QueueIndex in s.recs <==> QueueIndex in s'.recs
    ensures QueueIndex in s.recs ==> s.recs[QueueIndex] == s'.recs[QueueIndex]
  {
  }

  lemma CreateIndex(s: Sys, n: Bytes, recycle: int, s': Sys)
    requires CreateLineNext(s, n, recycle, s')
    ensures QueueIndex in s.recs <==> QueueIndex in s'.recs
    ensures QueueIndex in s.recs ==> s.recs[QueueIndex] == s'.recs[QueueIndex]
  {
  }

  lemma KeepsName(s: Sys, op: Op, s': Sys)
    requires Next(s, op, s')
    ensures s'.t.name == s.t.name
  {
    if !op.DoElsewhere? {
      NextIsLocal(s, op, s', s.t.name + [0]);
    }
  }

  lemma TopicNextInv(u: QueueState, t: Bytes, op: Op, s': Sys, u': QueueState)
    requires QueueInv(u) && t in u.topics && !op.DoElsewhere? && TopicNext(u, t, op, s', u')
    ensures QueueInv(u')
  {
    NextGood(SysOf(u, t), op, s');
    IndexUntouched(SysOf(u, t), op, s');
    assert u'.topics.Keys == u.topics.Keys;
    forall o | o in u'.topics
      ensures u'.topics[o].name == o && TopicGood(SysOf(u', o))
    {
      if o == t {
        KeepsName(SysOf(u, t), op, s');
      } else {
        NextIsLocal(SysOf(u, t), op, s', o);
        GoodElsewhere(u.topics[o], u.recs, u'.recs);
      }
    }
  }

  lemma CreateTopicInv(u: QueueState, t: Bytes, persist: bool, u': QueueState)
    requires QueueInv(u) && (CreateTopicOk(u, t, persist, u') || CreateTopicFailed(u, t, u'))
    ensures QueueInv(u')
  {
    forall o | o in u'.topics
      ensures u'.topics[o].name == o && TopicGood(SysOf(u', o))
    {
      if o in u.topics {
        GoodElsewhere(u.topics[o], u.recs, u'.recs);
      } else {
        NewTopicGood(t, persist, u'.recs);
      }
    }
  }

  lemma RemoveTopicInv(u: QueueState, t: Bytes, gone: iset<Key>, u': QueueState)
    requires QueueInv(u) && RemoveTopicOk(u, t, gone, u')
    ensures QueueInv(u')
  {
    forall o | o in u'.topics
      ensures u'.topics[o].name == o && TopicGood(SysOf(u', o))
    {
      GoodElsewhere(u.topics[o], u.recs, u'.recs);
    }
  }

  lemma QueueNextInv(u: QueueState, op: QueueOp, u': QueueState)
    requires QueueInv(u) && QueueNext(u, op, u')
    ensures QueueInv(u')
  {
    match op
    case OnTopic(t, o) =>
      if t in u.topics {
        var s' :| TopicNext(u, t, o, s', u');
        TopicNextInv(u, t, o, s', u');
      }
    case DoCreateTopic(t, persist) => CreateTopicInv(u, t, persist, u');
    case DoRemoveTopic(t) =>
      if u' != u {
        var gone :| RemoveTopicOk(u, t, gone, u');
        RemoveTopicInv(u, t, gone, u');
      }
  }

  /** In every run of the queue, whichever writes fail, every topic stays in good order. */
  lemma {:induction false} QueueRunInv(states: seq<QueueState>, ops: seq<QueueOp>, i: nat)
    requires IsQueueRun(states, ops) && i < |states|
    ensures QueueInv(states[i])
  {
    if i > 0 {
      QueueRunInv(states, ops, i - 1);
      QueueNextInv(states[i - 1], ops[i - 1], states[i]);
    }
  }

  /** Requests by key are steps of the run: what is proved of runs holds of what clients do. */
  lemma RequestsAreSteps(u: QueueState, key: Bytes, k: int, now: int, t: Bytes, n: Bytes)
    requires PopKey(key) == Ok((t, n)) && t in u.topics && n in u.topics[t].lines
    requires Enabled(u.topics[t], DoPop(n, now))
    ensures QueueNext(u, OnTopic(t, DoPop(n, now)), QueuePop(u, key, now).0)
    ensures QueueNext(u, OnTopic(t, DoMPop(n, k, now)), QueueMultiPop(u, key, k, now).0)
  {
    var s := SysOf(u, t);
    assert TopicNext(u, t, DoPop(n, now), PopStep(s, n, now), QueuePop(u, key, now).0);
    assert TopicNext(u, t, DoMPop(n, k, now), MPopStep(s, n, k, now), QueueMultiPop(u, key, k, now).0);
  }

  lemma ConfirmIsStep(u: QueueState, key: Bytes, t: Bytes, n: Bytes, id: nat)
    requires ConfirmKey(key) == Ok((t, n, id)) && t in u.topics && n in u.topics[t].lines
    ensures QueueNext(u, OnTopic(t, DoConfirm(n, id)), QueueConfirm(u, key).0)
  {
    assert TopicNext(u, t, DoConfirm(n, id), ConfirmStep(SysOf(u, t), n, id), QueueConfirm(u, key).0);
  }

  // ----- Without failures the records follow every topic -----

  ghost predicate QueueRecordsOk(u: QueueState) {
    forall t :: t in u.topics ==> RecordsOk(SysOf(u, t))
  }

  lemma RecordsElsewhere(t: TopicState, recs: Records, recs': Records)
    requires RecordsOk(Sys(t, recs)) && SameOwned(t.name, recs, recs')
    ensures RecordsOk(Sys(t, recs'))
  {
    ClosedIsLocal(t, recs, recs');
  }

  lemma TopicRecords(u: QueueState, t: Bytes, op: Op, s': Sys, u': QueueState)
    requires QueueInv(u) && QueueRecordsOk(u) && t in u.topics && !op.DoElsewhere?
    requires TopicNext(u, t, op, s', u') && FaultFree(SysOf(u, t), op, s')
    ensures QueueRecordsOk(u')
  {
    FaultFreeRecords(SysOf(u, t), op, s');
    forall o | o in u'.topics && o != t
      ensures RecordsOk(SysOf(u', o))
    {
      NextIsLocal(SysOf(u, t), op, s', o);
      RecordsElsewhere(u.topics[o], u.recs, u'.recs);
    }
  }

  lemma CreateTopicRecords(u: QueueState, t: Bytes, persist: bool, u': QueueState)
    requires QueueInv(u) && QueueRecordsOk(u) && CreateTopicOk(u, t, persist, u')
    ensures QueueRecordsOk(u')
  {
    NewTopicRecords(u, t, persist, u');
    forall o | o in u'.topics && o != t
      ensures RecordsOk(SysOf(u', o))
    {
      RecordsElsewhere(u.topics[o], u.recs, u'.recs);
    }
  }

  lemma NewTopicRecords(u: QueueState, t: Bytes, persist: bool, u': QueueState)
    requires CreateTopicOk(u, t, persist, u')
    ensures RecordsOk(SysOf(u', t))
  {
  }

  lemma RemoveTopicRecords(u: QueueState, t: Bytes, gone: iset<Key>, u': QueueState)
    requires QueueInv(u) && QueueRecordsOk(u) && RemoveTopicOk(u, t, gone, u')
    ensures QueueRecordsOk(u')
  {
    forall o | o in u'.topics
      ensures RecordsOk(SysOf(u', o))
    {
      RecordsElsewhere(u.topics[o], u.recs, u'.recs);
    }
  }

  lemma QueueRecordsNext(u: QueueState, op: QueueOp, u': QueueState)
    requires QueueInv(u) && QueueRecordsOk(u) && QueueFaultFree(u, op, u')
    ensures QueueRecordsOk(u')
  {
    match op
    case OnTopic(t, o) =>
      if t in u.topics {
        var s' :| TopicNext(u, t, o, s', u') && FaultFree(SysOf(u, t), o, s');
        TopicRecords(u, t, o, s', u');
      }
    case DoCreateTopic(t, persist) => if t !in u.topics { CreateTopicRecords(u, t, persist, u'); }
    case DoRemoveTopic(t) => if t in u.topics { RemoveTopicRecords(u, t, RemovedKeys(u.topics[t]), u'); }
  }

  ghost predicate QueueRecorded(u: QueueState) {
    QueueInv(u) && QueueRecordsOk(u)
  }

  ghost predicate RecordedNext(u: QueueState, op: QueueOp, u': QueueState) {
    QueueNext(u, op, u') && QueueFaultFree(u, op, u')
  }

  lemma RecordedStep(u: QueueState, op: QueueOp, u': QueueState)
    requires QueueRecorded(u) && RecordedNext(u, op, u')
    ensures QueueRecorded(u')
  {
    QueueNextInv(u, op, u');
    QueueRecordsNext(u, op, u');
  }

  lemma RunRecords(states: seq<QueueState>, ops: seq<QueueOp>, i: nat)
    requires IsFaultFreeRun(states, ops) && i < |states|
    ensures QueueRecordsOk(states[i])
  {
    forall u, op, u' | QueueRecorded(u) && RecordedNext(u, op, u')
      ensures QueueRecorded(u')
    {
      RecordedStep(u, op, u');
    }
    QueueRunInv(states, ops, 0);
    RunKeeps(QueueRecorded, RecordedNext, states, ops, i);
  }

  // ----- Run, close, load -----

  lemma ExportedCloses(u: QueueState, recs: Records, t: Bytes)
    requires t in u.topics && u.topics[t].name == t
    requires RecordsOk(SysOf(u, t)) && Exported(u, u.topics.Keys, recs)
    ensures ClosedFor(u.topics[t], recs)
  {
    assert TopicExported(u.topics[t], t, recs);
  }

  /** Ids and name lengths fit the 64-bit types they have in the source. */
  ghost predicate AllRepresentable(u: QueueState) {
    forall t :: t in u.topics ==> |t| < I64 && Representable(u.topics[t])
  }

  /** Loading succeeds and gives back every topic and every line as it was. */
  ghost predicate LoadsBack(topics: map<Bytes, TopicState>, recs: Records) {
    && LoadQueue(recs).Some? && LoadQueue(recs).value.Keys == topics.Keys
    && forall t :: t in topics ==> Restores(topics[t], LoadQueue(recs).value[t])
  }

  lemma StateCloseLoad(u: QueueState, recs: Records)
    requires QueueInv(u) && QueueRecordsOk(u) && AllRepresentable(u) && Exported(u, u.topics.Keys, recs)
    ensures LoadsBack(u.topics, recs)
  {
    forall t | t in u.topics
      ensures TopicClosed(u.topics[t], recs)
    {
      ExportedCloses(u, recs, t);
    }
    ExportKeepsIndex(u, u.topics.Keys, recs);
    NamedClosed(u, recs);
    CloseThenLoad(u.topics, recs);
  }

  lemma ExportKeepsIndex(u: QueueState, done: set<Bytes>, recs: Records)
    requires IndexOk(u.topics.Keys, u.recs) && Exported(u, done, recs)
    ensures IndexOk(u.topics.Keys, recs)
  {
  }

  lemma NamedClosed(u: QueueState, recs: Records)
    requires AllRepresentable(u)
    requires forall t :: t in u.topics ==> u.topics[t].name == t && TopicClosed(u.topics[t], recs)
    ensures TopicsClosed(u.topics, recs)
  {
  }

  /**
   * After any run without failures, closing the queue and loading it again gives back every
   * topic and every line as it was.
   */
  lemma RunCloseLoad(states: seq<QueueState>, ops: seq<QueueOp>, u: QueueState, recs: Records)
    requires IsFaultFreeRun(states, ops) && u == states[|ops|]
    requires AllRepresentable(u) && Exported(u, u.topics.Keys, recs)
    ensures LoadsBack(u.topics, recs)
  {
    QueueRunInv(states, ops, |ops|);
    RunRecords(states, ops, |ops|);
    StateCloseLoad(u, recs);
  }
}
