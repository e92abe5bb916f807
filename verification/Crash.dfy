/**
 * What a crash leaves behind: the store as it stands after any step of any run, whichever
 * writes have failed. When the queue can be loaded from it, what it owes after that, and when
 * it can still deliver it.
 */
module Crash {
  import opened Base
  import opened StoreKeys
  import opened LineSpec
  import opened LineHistory
  import opened Wire
  import opened TopicSpec
  import opened TopicProofs
  import opened Snapshots
  import opened Recovery
  import opened Collector
  import opened QueueSpec
  import opened QueueProofs

  // ----- The records of one topic -----

  ghost predicate HeadSaved(s: Sys, h: nat) {
    h <= s.t.head && HeadRec(s.t.name) in s.recs && s.recs[HeadRec(s.t.name)] == PutUint64(h)
  }

  /** Some head has been saved, and it is not ahead. */
  ghost predicate HasHead(s: Sys) {
    exists h :: HeadSaved(s, h)
  }

  /** If the topic has been saved, its record lists exactly the lines. */
  ghost predicate RecordOk(s: Sys) {
    TopicRec(s.t.name) in s.recs ==> IsTopicBytes(s.recs[TopicRec(s.t.name)], s.t.lines.Keys, s.t.persist)
  }

  ghost predicate SameHead(s: Sys, s': Sys) {
    var h := HeadRec(s.t.name);
    s'.t.name == s.t.name && s.t.head <= s'.t.head && (h in s.recs ==> h in s'.recs && s'.recs[h] == s.recs[h])
  }

  ghost predicate SameRecord(s: Sys, s': Sys) {
    var r := TopicRec(s.t.name);
    && s'.t.name == s.t.name && s'.t.persist == s.t.persist && s'.t.lines.Keys == s.t.lines.Keys
    && (r in s.recs <==> r in s'.recs) && (r in s.recs ==> s'.recs[r] == s.recs[r])
  }

  lemma SameHeadKept(s: Sys, s': Sys)
    requires HasHead(s) && SameHead(s, s')
    ensures HasHead(s')
  {
    var h :| HeadSaved(s, h);
    assert HeadSaved(s', h);
  }

  lemma MPushSame(s: Sys, datas: seq<Bytes>, s': Sys)
    requires MPushNext(s, datas, s')
    ensures SameHead(s, s') && SameRecord(s, s')
  {
    WriteMsgsExact(s.recs, s.t.name, s.t.tail, datas);
    if MPushFailed(s, datas, s') {
      var k: nat :| MPushStopped(s, datas, k, s');
      WriteMsgsExact(s.recs, s.t.name, s.t.tail, datas[..k]);
    }
  }

  lemma SoFarSame(s: Sys, done: set<Bytes>)
    requires done <= s.t.lines.Keys
    ensures SameHead(s, EmptySoFar(s, done)) && SameRecord(s, EmptySoFar(s, done))
  {
  }

  lemma LastSame(s: Sys, n: Bytes, s': Sys)
    requires n in s.t.lines && s' == EmptyAndSave(s, n, false)
    ensures s'.recs == s.recs && s'.t.lines.Keys == s.t.lines.Keys && s'.t == s.t.(lines := s'.t.lines)
  {
  }

  lemma EmptyTopicSame(s: Sys, s': Sys)
    requires s.t.head <= s.t.tail && EmptyTopicNext(s, s')
    ensures SameRecord(s, s') && (SameHead(s, s') || HeadSaved(s', s.t.tail))
  {
    if done, last :| EmptyStopped(s, done, last, s') {
      SoFarSame(s, done);
      LastSame(EmptySoFar(s, done), last, s');
    } else {
      SoFarSame(s, s.t.lines.Keys);
    }
  }

  lemma EmptyHeadSame(s: Sys, s': Sys)
    requires s.t.head <= s.t.tail && (EmptyHeadNext(s, true, s') || EmptyHeadNext(s, false, s'))
    ensures SameRecord(s, s') && (SameHead(s, s') || HeadSaved(s', s.t.tail))
  {
  }

  lemma CleanSame(s: Sys, s': Sys)
    requires CleanStepNext(s, s')
    ensures SameRecord(s, s') && (SameHead(s, s') || HeadSaved(s', s'.t.head))
  {
  }

  lemma EmptyLineSame(s: Sys, n: Bytes, s': Sys)
    requires n in s.t.lines && EmptyLineNext(s, n, s')
    ensures SameHead(s, s') && SameRecord(s, s')
  {
  }

  lemma BackupSame(s: Sys, s': Sys)
    requires BackupNext(s, s')
    ensures SameHead(s, s') && SameRecord(s, s')
  {
  }

  lemma CreateSame(s: Sys, n: Bytes, recycle: int, s': Sys)
    requires CreateLineNext(s, n, recycle, s')
    ensures SameHead(s, s') && (RecordOk(s) ==> RecordOk(s'))
  {
  }

  lemma RemoveSame(s: Sys, n: Bytes, s': Sys)
    requires RemoveLineNext(s, n, s')
    ensures SameHead(s, s') && (RecordOk(s) ==> RecordOk(s'))
  {
  }

  lemma NextSame(s: Sys, op: Op, s': Sys)
    requires s.t.head <= s.t.tail && Next(s, op, s')
    ensures SameHead(s, s') || HasHead(s')
    ensures RecordOk(s) ==> RecordOk(s')
  {
    match op
    case DoMPush(datas) => MPushSame(s, datas, s');
    case DoEmptyTopic => EmptyTopicSame(s, s');
    case DoEmptyHead => EmptyHeadSame(s, s');
    case DoCreateLine(n, recycle) => CreateSame(s, n, recycle, s');
    case DoRemoveLine(n) => if n in s.t.lines { RemoveSame(s, n, s'); }
    case DoCleanStep => CleanSame(s, s');
    case DoEmptyLine(n) => if n in s.t.lines { EmptyLineSame(s, n, s'); }
    case DoBackup => BackupSame(s, s');
    case DoPush(data) => PushSame(s, data, s');
    case DoElsewhere =>
    case _ => assert s'.recs == s.recs;
  }

  lemma PushSame(s: Sys, data: Bytes, s': Sys)
    requires PushNext(s, data, s')
    ensures SameHead(s, s') && SameRecord(s, s')
  {
  }

  lemma NextSaved(s: Sys, op: Op, s': Sys)
    requires s.t.head <= s.t.tail && HasHead(s) && Next(s, op, s')
    ensures HasHead(s') && (RecordOk(s) ==> RecordOk(s'))
  {
    NextSame(s, op, s');
    if SameHead(s, s') {
      SameHeadKept(s, s');
    }
  }

  // ----- Loading one topic -----

  /** What a load makes of a topic after a crash: nothing owed is forgotten. */
  ghost predicate Keeps(t: TopicState, lt: LoadedTopic) {
    && lt.persist == t.persist && lt.tail == t.tail && lt.head <= t.head
    && lt.lines.Keys == t.lines.Keys
    && forall n :: n in t.lines ==> KeepsLine(t, t.lines[n].line, lt.lines[n])
  }

  ghost predicate KeepsLine(t: TopicState, l: LineState, l': LineState) {
    && l'.recycle == l.recycle && LineInv(l', t.tail, t.clock)
    && Outstanding(l, t.tail) <= Outstanding(l', t.tail)
  }

  ghost predicate LineLoads(s: Sys, n: Bytes)
    requires n in s.t.lines
  {
    && LoadLine(s.recs, s.t.name, n).Loaded?
    && KeepsLine(s.t, s.t.lines[n].line, LoadLine(s.recs, s.t.name, n).line)
  }

  /** The names live in the topic are all listed, and a listed name that is not live will be passed over. */
  ghost predicate ListsLines(s: Sys, names: seq<Bytes>) {
    && (forall n :: n in s.t.lines ==> n in names)
    && forall n :: n in names ==> n in s.t.lines || LoadLine(s.recs, s.t.name, n).Skipped?
  }

  /** The saved record of the topic is about the topic as it is now. */
  ghost predicate RecordIsLive(s: Sys) {
    var r := TopicRec(s.t.name);
    && r in s.recs && s.recs[r] != [] && UnmarshalTopic(s.recs[r]).Ok?
    && var ts := UnmarshalTopic(s.recs[r]).value;
       ts.persist == s.t.persist && ListsLines(s, ts.lines)
  }

  /** The lines a load finds are the live ones exactly when the list says so. */
  lemma LinesKeptExactly(s: Sys, names: seq<Bytes>)
    requires forall n :: n in s.t.lines ==> LineLoads(s, n)
    ensures (LoadLines(s.recs, s.t.name, names).Some? &&
             LoadLines(s.recs, s.t.name, names).value.Keys == s.t.lines.Keys) <==> ListsLines(s, names)
  {
    LoadLinesIff(s.recs, s.t.name, names);
    if ListsLines(s, names) {
      ListedNoneAborts(s, names);
      ListedKeys(s, names, LoadLines(s.recs, s.t.name, names).value);
    } else if LoadLines(s.recs, s.t.name, names).Some? {
      LoadedIsListed(s, names, LoadLines(s.recs, s.t.name, names).value);
    }
  }

  lemma ListedNoneAborts(s: Sys, names: seq<Bytes>)
    requires ListsLines(s, names) && forall n :: n in s.t.lines ==> LineLoads(s, n)
    ensures NoneAborts(s.recs, s.t.name, names)
  {
    forall i | 0 <= i < |names|
      ensures !LoadLine(s.recs, s.t.name, names[i]).Abort?
    {
      assert names[i] in names;
    }
  }

  lemma ListedKeys(s: Sys, names: seq<Bytes>, m: map<Bytes, LineState>)
    requires ListsLines(s, names) && LinesLoaded(s.recs, s.t.name, names, m)
    requires forall n :: n in s.t.lines ==> LineLoads(s, n)
    ensures m.Keys == s.t.lines.Keys
  {
    forall n
      ensures n in m <==> n in s.t.lines
    {
    }
  }

  lemma LoadedIsListed(s: Sys, names: seq<Bytes>, m: map<Bytes, LineState>)
    requires LinesLoaded(s.recs, s.t.name, names, m) && NoneAborts(s.recs, s.t.name, names)
    ensures m.Keys == s.t.lines.Keys ==> ListsLines(s, names)
  {
    if m.Keys == s.t.lines.Keys {
      forall n | n in names
        ensures n in s.t.lines || LoadLine(s.recs, s.t.name, n).Skipped?
      {
        var i :| 0 <= i < |names| && names[i] == n;
        assert !LoadLine(s.recs, s.t.name, names[i]).Abort?;
      }
      forall n | n in s.t.lines
        ensures n in names
      {
        assert n in m.Keys;
      }
    }
  }

  lemma LoadedTopicIs(s: Sys, h: nat)
    requires HeadSaved(s, h) && TailSaved(s) && s.t.head <= s.t.tail < U64
    requires TopicRec(s.t.name) in s.recs && s.recs[TopicRec(s.t.name)] != []
    requires UnmarshalTopic(s.recs[TopicRec(s.t.name)]).Ok?
    ensures var ts := UnmarshalTopic(s.recs[TopicRec(s.t.name)]).value;
            LoadTopic(s.recs, s.t.name) == LoadedFrom(s, ts.persist, h, ts.lines)
  {
    Uint64RoundTrip(h);
    Uint64RoundTrip(s.t.tail);
  }

  lemma AllLinesLoad(s: Sys)
    requires SnapInv(s) && s.t.tail < U64
    ensures forall n :: n in s.t.lines ==> LineLoads(s, n)
  {
    forall n | n in s.t.lines
      ensures LineLoads(s, n)
    {
      CrashForgetsNothing(s, n);
    }
  }

  ghost predicate TopicKept(s: Sys) {
    LoadTopic(s.recs, s.t.name).Some? && Keeps(s.t, LoadTopic(s.recs, s.t.name).value)
  }

  /** A topic loads with all it owes exactly when its saved record is about the topic as it is now. */
  lemma TopicKeptExactly(s: Sys)
    requires TopicGood(s) && HasHead(s) && s.t.tail < U64
    ensures TopicKept(s) <==> RecordIsLive(s)
  {
    var r := TopicRec(s.t.name);
    if r in s.recs && s.recs[r] != [] && UnmarshalTopic(s.recs[r]).Ok? {
      var h :| HeadSaved(s, h);
      LoadedTopicIs(s, h);
      AllLinesLoad(s);
      var ts := UnmarshalTopic(s.recs[r]).value;
      LoadedKeeps(s, ts.persist, h, ts.lines);
    }
  }

  ghost function LoadedFrom(s: Sys, persist: bool, h: nat, names: seq<Bytes>): Option<LoadedTopic> {
    match LoadLines(s.recs, s.t.name, names)
    case None => None
    case Some(m) => Some(LoadedTopic(persist, h, s.t.tail, m))
  }

  lemma LoadedKeeps(s: Sys, persist: bool, h: nat, names: seq<Bytes>)
    requires h <= s.t.head && forall n :: n in s.t.lines ==> LineLoads(s, n)
    ensures (LoadedFrom(s, persist, h, names).Some? && Keeps(s.t, LoadedFrom(s, persist, h, names).value)) <==>
              persist == s.t.persist && ListsLines(s, names)
  {
    LinesKeptExactly(s, names);
    LoadLinesIff(s.recs, s.t.name, names);
    if LoadLines(s.recs, s.t.name, names).Some? {
      var m := LoadLines(s.recs, s.t.name, names).value;
      KeptLines(s, names, m);
      KeepsLines(s.t, persist, h, m);
    }
  }

  lemma KeepsLines(t: TopicState, persist: bool, h: nat, m: map<Bytes, LineState>)
    requires h <= t.head && forall n :: n in t.lines && n in m ==> KeepsLine(t, t.lines[n].line, m[n])
    ensures Keeps(t, LoadedTopic(persist, h, t.tail, m)) <==> persist == t.persist && m.Keys == t.lines.Keys
  {
  }

  lemma KeptLines(s: Sys, names: seq<Bytes>, m: map<Bytes, LineState>)
    requires LinesLoaded(s.recs, s.t.name, names, m) && forall n :: n in s.t.lines ==> LineLoads(s, n)
    ensures forall n :: n in s.t.lines && n in m ==> KeepsLine(s.t, s.t.lines[n].line, m[n])
  {
  }

  /** A record that lists exactly the lines is about the topic as it is now. */
  lemma ListedIsLive(s: Sys)
    requires RecordOk(s) && TopicRec(s.t.name) in s.recs && Representable(s.t)
    ensures RecordIsLive(s)
  {
    var names :| Enumerates(names, s.t.lines.Keys)
              && s.recs[TopicRec(s.t.name)] == MarshalTopic(TopicStore(names, s.t.persist));
    forall i | 0 <= i < |names|
      ensures |names[i]| < I64
    {
      assert names[i] in names;
    }
    TopicRoundTrip(TopicStore(names, s.t.persist));
  }

  // ----- Loading the queue -----

  ghost predicate QueueHeads(u: QueueState) {
    forall t :: t in u.topics ==> HasHead(SysOf(u, t))
  }

  ghost predicate QueueRecords(u: QueueState) {
    forall t :: t in u.topics ==> RecordOk(SysOf(u, t))
  }

  ghost predicate AllLive(u: QueueState) {
    forall t :: t in u.topics ==> RecordIsLive(SysOf(u, t))
  }

  /** Every topic has a record. */
  ghost predicate AllWritten(u: QueueState) {
    forall t :: t in u.topics ==> TopicRec(t) in u.recs
  }

  ghost predicate QueueKeeps(u: QueueState, loaded: map<Bytes, LoadedTopic>) {
    loaded.Keys == u.topics.Keys && forall t :: t in u.topics ==> Keeps(u.topics[t], loaded[t])
  }

  /** The queue loads, with every topic and line, and every line owes at least what it owed. */
  ghost predicate QueueKept(u: QueueState) {
    LoadQueue(u.recs).Some? && QueueKeeps(u, LoadQueue(u.recs).value)
  }

  /** The index is read back as the topics on it, in some order. */
  lemma IndexLoads(u: QueueState) returns (names: seq<Bytes>)
    requires QueueInv(u) && AllRepresentable(u)
    ensures Enumerates(names, u.topics.Keys) && LoadQueue(u.recs) == LoadTopics(u.recs, names)
  {
    if QueueIndex in u.recs {
      names :| Enumerates(names, u.topics.Keys) && u.recs[QueueIndex] == MarshalQueue(QueueStore(names));
      forall i | 0 <= i < |names|
        ensures |names[i]| < I64
      {
        assert names[i] in names;
      }
      QueueRoundTrip(QueueStore(names));
      NoNames(names);
    } else {
      names := [];
    }
  }

  ghost predicate TopicKeptIn(u: QueueState, t: Bytes)
    requires t in u.topics
  {
    LoadTopic(u.recs, t).Some? && Keeps(u.topics[t], LoadTopic(u.recs, t).value)
  }

  lemma NamesKept(u: QueueState, names: seq<Bytes>)
    requires Enumerates(names, u.topics.Keys)
    ensures (LoadTopics(u.recs, names).Some? && QueueKeeps(u, LoadTopics(u.recs, names).value)) <==>
              forall t :: t in u.topics ==> TopicKeptIn(u, t)
  {
    LoadTopicsIff(u.recs, names);
    if forall t :: t in u.topics ==> TopicKeptIn(u, t) {
      KeptAllLoad(u, names);
      KeptKeeps(u, names, LoadTopics(u.recs, names).value);
    } else if LoadTopics(u.recs, names).Some? {
      KeepsKept(u, names, LoadTopics(u.recs, names).value);
    }
  }

  lemma KeptAllLoad(u: QueueState, names: seq<Bytes>)
    requires Enumerates(names, u.topics.Keys) && forall t :: t in u.topics ==> TopicKeptIn(u, t)
    ensures AllLoad(u.recs, names)
  {
    forall i | 0 <= i < |names|
      ensures LoadTopic(u.recs, names[i]).Some?
    {
      assert names[i] in names && TopicKeptIn(u, names[i]);
    }
  }

  lemma KeptKeeps(u: QueueState, names: seq<Bytes>, m: map<Bytes, LoadedTopic>)
    requires Enumerates(names, u.topics.Keys) && TopicsLoaded(u.recs, names, m)
    requires forall t :: t in u.topics ==> TopicKeptIn(u, t)
    ensures QueueKeeps(u, m)
  {
    forall t | t in u.topics
      ensures t in m && Keeps(u.topics[t], m[t])
    {
      assert TopicKeptIn(u, t);
    }
  }

  lemma KeepsKept(u: QueueState, names: seq<Bytes>, m: map<Bytes, LoadedTopic>)
    requires TopicsLoaded(u.recs, names, m)
    ensures QueueKeeps(u, m) ==> forall t :: t in u.topics ==> TopicKeptIn(u, t)
  {
    if QueueKeeps(u, m) {
      forall t | t in u.topics
        ensures TopicKeptIn(u, t)
      {
        assert t in m.Keys;
      }
    }
  }

  lemma StateKeptExactly(u: QueueState)
    requires QueueInv(u) && QueueHeads(u) && AllRepresentable(u)
    ensures QueueKept(u) <==> AllLive(u)
  {
    var names := IndexLoads(u);
    NamesKept(u, names);
    forall t | t in u.topics
      ensures TopicKeptIn(u, t) <==> RecordIsLive(SysOf(u, t))
    {
      TopicKeptExactly(SysOf(u, t));
    }
  }

  /** A topic on the index without a record of its own stops the load. */
  lemma MissingStopsLoad(u: QueueState, t: Bytes)
    requires QueueInv(u) && AllRepresentable(u) && t in u.topics && TopicRec(t) !in u.recs
    ensures LoadQueue(u.recs) == None
  {
    var names := IndexLoads(u);
    LoadTopicsIff(u.recs, names);
    assert t in names;
    var i :| 0 <= i < |names| && names[i] == t;
    assert !LoadTopic(u.recs, names[i]).Some?;
  }

  // ----- Runs -----

  lemma HeadElsewhere(t: TopicState, recs: Records, recs': Records)
    requires SameOwned(t.name, recs, recs')
    ensures HasHead(Sys(t, recs)) ==> HasHead(Sys(t, recs'))
    ensures RecordOk(Sys(t, recs)) ==> RecordOk(Sys(t, recs'))
  {
    if HasHead(Sys(t, recs)) {
      SameHeadKept(Sys(t, recs), Sys(t, recs'));
    }
  }

  /** What a step does to the records of each topic that was there before it. */
  ghost predicate StillSaved(u: QueueState, u': QueueState, t: Bytes) {
    t in u.topics && t in u'.topics ==>
      && (HasHead(SysOf(u, t)) ==> HasHead(SysOf(u', t)))
      && (HasHead(SysOf(u, t)) && RecordOk(SysOf(u, t)) ==> RecordOk(SysOf(u', t)))
  }

  lemma TopicNextSaved(u: QueueState, t: Bytes, op: Op, s': Sys, u': QueueState, o: Bytes)
    requires QueueInv(u) && t in u.topics && !op.DoElsewhere? && TopicNext(u, t, op, s', u') && o in u.topics
    ensures o in u'.topics && StillSaved(u, u', o)
  {
    if o == t {
      if HasHead(SysOf(u, t)) {
        NextSaved(SysOf(u, t), op, s');
      }
    } else {
      NextIsLocal(SysOf(u, t), op, s', o);
      HeadElsewhere(u.topics[o], u.recs, u'.recs);
    }
  }

  lemma CreateTopicSaved(u: QueueState, t: Bytes, persist: bool, u': QueueState, o: Bytes)
    requires QueueInv(u) && (CreateTopicOk(u, t, persist, u') || CreateTopicFailed(u, t, u')) && o in u'.topics
    ensures StillSaved(u, u', o)
    ensures o !in u.topics ==> o == t && HasHead(SysOf(u', o)) && (TopicRec(t) !in u.recs ==> RecordOk(SysOf(u', o)))
  {
    if o in u.topics {
      CreateElsewhere(u, t, persist, u', o);
      HeadElsewhere(u.topics[o], u.recs, u'.recs);
    } else {
      assert HeadSaved(SysOf(u', o), 0);
    }
  }

  lemma CreateElsewhere(u: QueueState, t: Bytes, persist: bool, u': QueueState, o: Bytes)
    requires QueueInv(u) && (CreateTopicOk(u, t, persist, u') || CreateTopicFailed(u, t, u')) && o in u.topics
    ensures o in u'.topics && u'.topics[o] == u.topics[o] && SameOwned(u.topics[o].name, u.recs, u'.recs)
  {
  }

  lemma RemoveTopicSaved(u: QueueState, t: Bytes, gone: iset<Key>, u': QueueState, o: Bytes)
    requires QueueInv(u) && RemoveTopicOk(u, t, gone, u') && o in u'.topics
    ensures o in u.topics && StillSaved(u, u', o)
  {
    HeadElsewhere(u.topics[o], u.recs, u'.recs);
  }

  /** No topic is created under a name for which an older topic left its record behind. */
  ghost predicate CleanName(u: QueueState, op: QueueOp) {
    op.DoCreateTopic? && op.topic !in u.topics ==> TopicRec(op.topic) !in u.recs
  }

  lemma QueueNextSaved(u: QueueState, op: QueueOp, u': QueueState, o: Bytes)
    requires QueueInv(u) && QueueNext(u, op, u') && o in u'.topics
    requires o in u.topics ==> HasHead(SysOf(u, o))
    ensures HasHead(SysOf(u', o))
    ensures CleanName(u, op) && (o in u.topics ==> RecordOk(SysOf(u, o))) ==> RecordOk(SysOf(u', o))
  {
    match op
    case OnTopic(t, d) =>
      if t in u.topics {
        var s' :| TopicNext(u, t, d, s', u');
        TopicNextSaved(u, t, d, s', u', o);
      }
    case DoCreateTopic(t, persist) => CreateTopicSaved(u, t, persist, u', o);
    case DoRemoveTopic(t) =>
      if u' != u {
        var gone :| RemoveTopicOk(u, t, gone, u');
        RemoveTopicSaved(u, t, gone, u', o);
      }
  }

  lemma {:induction false} RunHeads(states: seq<QueueState>, ops: seq<QueueOp>, i: nat)
    requires IsQueueRun(states, ops) && i < |states|
    ensures QueueHeads(states[i])
  {
    if i > 0 {
      RunHeads(states, ops, i - 1);
      QueueRunInv(states, ops, i - 1);
      HeadsStep(states[i - 1], ops[i - 1], states[i]);
    }
  }

  lemma HeadsStep(u: QueueState, op: QueueOp, u': QueueState)
    requires QueueInv(u) && QueueHeads(u) && QueueNext(u, op, u')
    ensures QueueHeads(u')
    ensures QueueRecords(u) && CleanName(u, op) ==> QueueRecords(u')
  {
    forall o | o in u'.topics
      ensures HasHead(SysOf(u', o))
      ensures QueueRecords(u) && CleanName(u, op) ==> RecordOk(SysOf(u', o))
    {
      QueueNextSaved(u, op, u', o);
    }
  }

  /**
   * A crash after any step of any run, whichever writes have failed: the queue loads with every
   * topic and line, each line owing at least what it owed, if and only if the saved record of
   * each topic is about the topic as it is now.
   */
  lemma CrashLoad(states: seq<QueueState>, ops: seq<QueueOp>, u: QueueState)
    requires IsQueueRun(states, ops) && u == states[|ops|] && AllRepresentable(u)
    ensures QueueKept(u) <==> AllLive(u)
  {
    QueueRunInv(states, ops, |ops|);
    RunHeads(states, ops, |ops|);
    StateKeptExactly(u);
  }

  // ----- Runs that do not reuse the name of a topic half removed -----

  /** A run in which no topic is created under a name with a record left over. */
  ghost predicate IsCleanRun(states: seq<QueueState>, ops: seq<QueueOp>) {
    IsQueueRun(states, ops) && forall j :: 0 <= j < |ops| ==> CleanName(states[j], ops[j])
  }

  lemma CleanRunStep(states: seq<QueueState>, ops: seq<QueueOp>, i: nat)
    requires IsCleanRun(states, ops) && i < |ops|
    ensures QueueInv(states[i]) && QueueHeads(states[i])
    ensures QueueNext(states[i], ops[i], states[i + 1]) && CleanName(states[i], ops[i])
  {
    QueueRunInv(states, ops, i);
    RunHeads(states, ops, i);
  }

  lemma {:induction false} RunSaved(states: seq<QueueState>, ops: seq<QueueOp>, i: nat)
    requires IsCleanRun(states, ops) && i < |states|
    ensures QueueRecords(states[i])
  {
    if i > 0 {
      RunSaved(states, ops, i - 1);
      CleanRunStep(states, ops, i - 1);
      HeadsStep(states[i - 1], ops[i - 1], states[i]);
    }
  }

  lemma WrittenIsLive(u: QueueState)
    requires QueueInv(u) && QueueRecords(u) && AllRepresentable(u)
    ensures AllLive(u) <==> AllWritten(u)
  {
    if AllWritten(u) {
      forall t | t in u.topics
        ensures RecordIsLive(SysOf(u, t))
      {
        ListedIsLive(SysOf(u, t));
      }
    } else {
      var t :| t in u.topics && TopicRec(t) !in u.recs;
      assert !RecordIsLive(SysOf(u, t));
    }
  }

  /**
   * In such a run the condition is that every topic has been saved at least once, which creating
   * a topic does not do and creating its first line does; otherwise the load fails.
   */
  lemma CleanCrashLoad(states: seq<QueueState>, ops: seq<QueueOp>, u: QueueState)
    requires IsCleanRun(states, ops) && u == states[|ops|] && AllRepresentable(u)
    ensures LoadQueue(u.recs).Some? <==> AllWritten(u)
    ensures LoadQueue(u.recs).Some? ==> QueueKept(u)
  {
    QueueRunInv(states, ops, |ops|);
    RunSaved(states, ops, |ops|);
    CrashLoad(states, ops, u);
    WrittenIsLive(u);
    if !AllWritten(u) {
      var t :| t in u.topics && TopicRec(t) !in u.recs;
      MissingStopsLoad(u, t);
    }
  }

  /** So, after any run, a crash right after `createTopic` leaves a store no queue can be loaded from. */
  lemma CrashAfterCreateTopic(states: seq<QueueState>, ops: seq<QueueOp>, u: QueueState, t: Bytes, persist: bool, u': QueueState)
    requires IsQueueRun(states, ops) && u == states[|ops|]
    requires CreateTopicOk(u, t, persist, u') && TopicRec(t) !in u.recs && AllRepresentable(u')
    ensures LoadQueue(u'.recs) == None
  {
    QueueRunInv(states, ops, |ops|);
    CreateStopsLoad(u, t, persist, u');
  }

  lemma CreateStopsLoad(u: QueueState, t: Bytes, persist: bool, u': QueueState)
    requires QueueInv(u) && CreateTopicOk(u, t, persist, u') && TopicRec(t) !in u.recs && AllRepresentable(u')
    ensures LoadQueue(u'.recs) == None
  {
    CreateTopicInv(u, t, persist, u');
    MissingStopsLoad(u', t);
  }

  // ----- What can still be read -----

  /**
   * After a crash at any point of any run, the loaded line can deliver all it owes exactly when
   * the topic is persistent or the collector has not passed it: the line is saved only now and
   * then, but messages are deleted as soon as every live line is done with them.
   */
  lemma CrashReads(states: seq<Sys>, ops: seq<Op>, s: Sys, n: Bytes)
    requires IsRun(states, ops) && s == states[|ops|] && n in s.t.lines && s.t.tail < U64
    ensures LoadLine(s.recs, s.t.name, n).Loaded?
    ensures var l := LoadLine(s.recs, s.t.name, n).line;
            Covers(Msgs(s), l, s.t.tail) <==> s.t.persist || s.t.floor <= LowMark(l)
  {
    RunInv(states, ops, |ops|);
    RunSnap(states, ops, |ops|);
    RunFloor(states, ops, |ops|);
    CrashForgetsNothing(s, n);
    ReadsExactly(s, LoadLine(s.recs, s.t.name, n).line);
  }

  lemma KeepsFloor(s: Sys, op: Op, s': Sys)
    requires Next(s, op, s') && !Empties(op) && s.t.floor == s.t.head
    ensures s'.t.floor == s'.t.head
  {
  }

  /** Unless the topic is emptied, the floor is the head. */
  lemma {:induction false} FloorIsHead(states: seq<Sys>, ops: seq<Op>, i: nat)
    requires IsRun(states, ops) && i < |states|
    requires forall j :: 0 <= j < |ops| ==> !Empties(ops[j])
    ensures states[i].t.floor == states[i].t.head
  {
    if i > 0 {
      FloorIsHead(states, ops, i - 1);
      KeepsFloor(states[i - 1], ops[i - 1], states[i]);
    }
  }
}
