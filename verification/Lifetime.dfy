/**
 * Lives of a queue: runs without failures that are interrupted by restarts, each a Close and a
 * load. Messages and the laws of their delivery span the restarts.
 */
module Lifetime {
  import opened Base
  import opened StoreKeys
  import opened LineSpec
  import opened LineHistory
  import opened TopicSpec
  import opened TopicProofs
  import opened Snapshots
  import opened Recovery
  import opened QueueSpec
  import opened QueueProofs
  import opened Guarantees

  // ----- A restart -----

  /** The topic a load gives, with the history of the one that was closed. */
  function Resumed(t: TopicState, lt: LoadedTopic): TopicState
    requires lt.lines.Keys <= t.lines.Keys
  {
    t.(head := lt.head, tail := lt.tail, pass := None,
       lines := map n | n in lt.lines :: Tracked(lt.lines[n], t.lines[n].hist))
  }

  /** The load gave these topics; what it cannot know of them is their history. */
  ghost predicate ResumesAs(u: QueueState, loaded: map<Bytes, LoadedTopic>, topics: map<Bytes, TopicState>) {
    && topics.Keys == loaded.Keys
    && forall t :: t in loaded ==>
         t in u.topics && loaded[t].lines.Keys <= u.topics[t].lines.Keys && topics[t] == Resumed(u.topics[t], loaded[t])
  }

  /** Close writes `recs`, and the queue is loaded from them. */
  ghost predicate Restarts(u: QueueState, recs: Records, u': QueueState) {
    && AllRepresentable(u) && Exported(u, u.topics.Keys, recs)
    && LoadQueue(recs).Some? && u'.recs == recs && ResumesAs(u, LoadQueue(recs).value, u'.topics)
  }

  datatype LifeOp = Act(op: QueueOp) | Restart

  ghost predicate LifeNext(u: QueueState, op: LifeOp, u': QueueState) {
    match op
    case Act(o) => QueueNext(u, o, u') && QueueFaultFree(u, o, u')
    case Restart => exists recs :: Restarts(u, recs, u')
  }

  ghost predicate IsLife(states: seq<QueueState>, ops: seq<LifeOp>) {
    && |states| == |ops| + 1
    && QueueInit(states[0])
    && forall i :: 0 <= i < |ops| ==> LifeNext(states[i], ops[i], states[i + 1])
  }

  // ----- One line -----

  lemma SameTracked(x: Tracked, l: LineState, tail: nat, clock: int)
    requires TrackedInv(x, tail, clock) && SameLine(x.line, l)
    ensures TrackedInv(Tracked(l, x.hist), tail, clock) && LowMark(l) == LowMark(x.line)
  {
    OpenRecorded(x);
    CloseRecorded(Tracked(l, x.hist));
  }

  lemma ResumedLine(t: TopicState, lt: LoadedTopic, n: Bytes)
    requires Restores(t, lt) && n in t.lines && LineOk(t, t.lines[n])
    ensures LineOk(Resumed(t, lt), Resumed(t, lt).lines[n])
  {
    SameTracked(t.lines[n], lt.lines[n], t.tail, t.clock);
  }

  lemma ResumedLines(t: TopicState, lt: LoadedTopic)
    requires LinesOk(t) && Restores(t, lt)
    ensures LinesOk(Resumed(t, lt))
  {
    forall n | n in lt.lines
      ensures LineOk(Resumed(t, lt), Resumed(t, lt).lines[n])
    {
      ResumedLine(t, lt, n);
    }
  }

  lemma SameSnapshot(l: LineState, l': LineState, tail: nat, clock: int)
    requires LineInv(l', tail, clock) && SameLine(l, l') && TimesFit(l)
    ensures SnapOf(l', l', tail, clock) && LineBytes(l') == LineBytes(l) && l'.recycle == l.recycle
  {
  }

  // ----- One topic -----

  lemma ResumedStored(t: TopicState, lt: LoadedTopic, recs: Records)
    requires Stored(Sys(t, recs)) && TailSaved(Sys(t, recs)) && Restores(t, lt)
    ensures Stored(Sys(Resumed(t, lt), recs)) && TailSaved(Sys(Resumed(t, lt), recs))
  {
  }

  /** The restored topic is again in good order, with the history it had. */
  lemma ResumedInv(t: TopicState, lt: LoadedTopic, recs: Records)
    requires Inv(Sys(t, recs)) && Restores(t, lt)
    ensures Inv(Sys(Resumed(t, lt), recs))
  {
    ResumedLines(t, lt);
    ResumedStored(t, lt, recs);
  }

  lemma ResumedSnap(t: TopicState, lt: LoadedTopic, recs: Records, n: Bytes)
    requires LinesOk(t) && TimesOk(t) && Restores(t, lt) && ClosedFor(t, recs) && n in t.lines
    ensures TimesFit(lt.lines[n]) && SnapSaved(Sys(Resumed(t, lt), recs), n)
  {
    assert LineOk(t, t.lines[n]);
    ResumedLine(t, lt, n);
    SameSnapshot(t.lines[n].line, lt.lines[n], t.tail, t.clock);
  }

  lemma ResumedGood(t: TopicState, lt: LoadedTopic, recs: Records)
    requires Inv(Sys(t, recs)) && TimesOk(t) && Restores(t, lt) && ClosedFor(t, recs)
    ensures TopicGood(Sys(Resumed(t, lt), recs))
  {
    ResumedInv(t, lt, recs);
    forall n | n in t.lines
      ensures TimesFit(lt.lines[n]) && SnapSaved(Sys(Resumed(t, lt), recs), n)
    {
      ResumedSnap(t, lt, recs, n);
    }
  }

  lemma ResumedRecords(t: TopicState, lt: LoadedTopic, recs: Records)
    requires Restores(t, lt) && RecordsOk(Sys(t, recs))
    ensures RecordsOk(Sys(Resumed(t, lt), recs))
  {
  }

  lemma ExportKeepsLog(u: QueueState, recs: Records, t: Bytes)
    requires t in u.topics && u.topics[t].name == t && Exported(u, u.topics.Keys, recs)
    ensures SameLog(t, u.topics[t].tail, u.recs, recs)
  {
  }

  lemma ExportKeepsInv(u: QueueState, recs: Records, t: Bytes)
    requires t in u.topics && u.topics[t].name == t && Inv(SysOf(u, t)) && Exported(u, u.topics.Keys, recs)
    ensures Inv(Sys(u.topics[t], recs))
  {
    ExportKeepsLog(u, recs, t);
    SameLogKeeps(SysOf(u, t), Sys(u.topics[t], recs));
  }

  // ----- The queue -----

  lemma TopicRestarts(u: QueueState, recs: Records, u': QueueState, t: Bytes)
    requires QueueInv(u) && QueueRecordsOk(u) && Restarts(u, recs, u') && LoadsBack(u.topics, recs) && t in u.topics
    ensures t in u'.topics && u'.topics[t].name == t && TopicGood(SysOf(u', t)) && RecordsOk(SysOf(u', t))
  {
    var lt := LoadQueue(recs).value[t];
    assert u'.topics[t] == Resumed(u.topics[t], lt);
    ExportKeepsInv(u, recs, t);
    ExportedCloses(u, recs, t);
    ResumedGood(u.topics[t], lt, recs);
    ResumedRecords(u.topics[t], lt, recs);
  }

  lemma RestartInv(u: QueueState, recs: Records, u': QueueState)
    requires QueueInv(u) && QueueRecordsOk(u) && Restarts(u, recs, u')
    ensures QueueInv(u') && QueueRecordsOk(u')
  {
    StateCloseLoad(u, recs);
    ExportKeepsIndex(u, u.topics.Keys, recs);
    assert u'.topics.Keys == u.topics.Keys;
    forall t | t in u'.topics
      ensures u'.topics[t].name == t && TopicGood(SysOf(u', t)) && RecordsOk(SysOf(u', t))
    {
      TopicRestarts(u, recs, u', t);
    }
  }

  /** Whatever Close has written, the queue can be loaded from it. */
  lemma RestartSucceeds(u: QueueState, recs: Records)
    requires QueueInv(u) && QueueRecordsOk(u) && AllRepresentable(u) && Exported(u, u.topics.Keys, recs)
    ensures exists u' :: Restarts(u, recs, u')
  {
    StateCloseLoad(u, recs);
    var topics := ResumedTopics(u.topics, LoadQueue(recs).value);
    assert Restarts(u, recs, QueueState(topics, recs));
  }

  lemma ResumedTopics(topics: map<Bytes, TopicState>, loaded: map<Bytes, LoadedTopic>)
    returns (resumed: map<Bytes, TopicState>)
    requires loaded.Keys == topics.Keys && forall t :: t in topics ==> Restores(topics[t], loaded[t])
    ensures resumed.Keys == loaded.Keys
    ensures forall t :: t in loaded ==>
              loaded[t].lines.Keys <= topics[t].lines.Keys && resumed[t] == Resumed(topics[t], loaded[t])
  {
    resumed := map t | t in loaded :: Resumed(topics[t], loaded[t]);
  }

  ghost predicate LifeOk(u: QueueState) {
    QueueInv(u) && QueueRecordsOk(u)
  }

  lemma LifeBegins(u: QueueState)
    requires QueueInit(u)
    ensures LifeOk(u)
  {
  }

  lemma LifeStep(u: QueueState, op: LifeOp, u': QueueState)
    requires LifeOk(u) && LifeNext(u, op, u')
    ensures LifeOk(u')
  {
    match op
    case Act(o) =>
      QueueNextInv(u, o, u');
      QueueRecordsNext(u, o, u');
    case Restart =>
      var recs :| Restarts(u, recs, u');
      RestartInv(u, recs, u');
  }

  /** Over a whole life every topic keeps its invariant and its history, and the index stays exact. */
  lemma LifeInv(states: seq<QueueState>, ops: seq<LifeOp>, i: nat)
    requires IsLife(states, ops) && i < |states|
    ensures LifeOk(states[i])
  {
    forall u, op, u' | LifeOk(u) && LifeNext(u, op, u')
      ensures LifeOk(u')
    {
      LifeStep(u, op, u');
    }
    LifeBegins(states[0]);
    RunKeeps(LifeOk, LifeNext, states, ops, i);
  }

  /**
   * So a message of a recycling line that was neither confirmed nor dropped is still owed and
   * stored as it was pushed, and the laws of delivery hold of the whole trace, however many
   * restarts there were.
   */
  lemma LifeKeepsPromises(states: seq<QueueState>, ops: seq<LifeOp>, s: Sys, t: Bytes, n: Bytes, id: nat)
    requires IsLife(states, ops) && t in states[|ops|].topics && s == SysOf(states[|ops|], t) && n in s.t.lines
    ensures var x := s.t.lines[n];
            && Laws(x)
            && (x.line.recycle > 0 && Unfinished(s.t, x, id) ==>
                  && id in Outstanding(x.line, s.t.tail)
                  && MsgRec(t, id) in s.recs && id < |s.t.log| && s.recs[MsgRec(t, id)] == s.t.log[id])
  {
    LifeInv(states, ops, |ops|);
    var x := s.t.lines[n];
    assert LineOk(s.t, x);
    OpenRecorded(x);
    if x.line.recycle > 0 && Unfinished(s.t, x, id) {
      SurvivesIn(s, n, id);
    }
  }
}
