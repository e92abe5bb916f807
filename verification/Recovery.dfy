/**
 * Loading a queue from the store (queue/uQueue.go, queue/uTopic.go): after an orderly Close it
 * restores every topic and line; after a crash it forgets nothing a line still owed.
 */
module Recovery {
  import opened Base
  import opened Decimal
  import opened StoreKeys
  import opened LineSpec
  import opened LineHistory
  import opened Wire
  import opened TopicSpec
  import opened Snapshots

  // ----- Loading -----

  /** The flags `loadLine` derives: false from `ihead` to `head`, then true for what is in flight. */
  function RebuiltFlags(ls: LineStore): map<nat, bool> {
    map id | id in IdRange(ls.ihead, ls.head) + IdSet(ls.inflights) :: id in IdSet(ls.inflights)
  }

  function LoadedLine(ls: LineStore, recycle: int): LineState {
    LineState(recycle, ls.head, ls.inflights, ls.ihead, RebuiltFlags(ls))
  }

  /** A line without a readable recycle time is skipped; one without a readable store stops the load. */
  datatype LineLoad = Abort | Skipped | Loaded(line: LineState)

  ghost function LoadLine(recs: Records, t: Bytes, n: Bytes): LineLoad {
    if LineRec(t, n) !in recs || recs[LineRec(t, n)] == [] then Abort
    else
      match UnmarshalLine(recs[LineRec(t, n)])
      case Err(_) => Abort
      case Ok(ls) =>
        if RecycleRec(t, n) !in recs || !Atoi(recs[RecycleRec(t, n)]).ok then Skipped
        else Loaded(LoadedLine(ls, Atoi(recs[RecycleRec(t, n)]).value))
  }

  ghost function LoadLines(recs: Records, t: Bytes, names: seq<Bytes>): Option<map<Bytes, LineState>> {
    if names == [] then Some(map[])
    else
      var n := |names| - 1;
      match LoadLines(recs, t, names[..n])
      case None => None
      case Some(m) =>
        match LoadLine(recs, t, names[n])
        case Abort => None
        case Skipped => Some(m)
        case Loaded(l) => Some(m[names[n] := l])
  }

  datatype LoadedTopic = LoadedTopic(persist: bool, head: nat, tail: nat, lines: map<Bytes, LineState>)

  ghost function LoadTopic(recs: Records, t: Bytes): Option<LoadedTopic> {
    if TopicRec(t) !in recs || recs[TopicRec(t)] == [] then None
    else
      match UnmarshalTopic(recs[TopicRec(t)])
      case Err(_) => None
      case Ok(ts) =>
        if HeadRec(t) !in recs || TailRec(t) !in recs then None
        else
          match (Uint64(recs[HeadRec(t)]), Uint64(recs[TailRec(t)]), LoadLines(recs, t, ts.lines))
          case (Some(head), Some(tail), Some(m)) => Some(LoadedTopic(ts.persist, head, tail, m))
          case _ => None
  }

  ghost function LoadTopics(recs: Records, names: seq<Bytes>): Option<map<Bytes, LoadedTopic>> {
    if names == [] then Some(map[])
    else
      var n := |names| - 1;
      match LoadTopics(recs, names[..n])
      case None => None
      case Some(m) =>
        match LoadTopic(recs, names[n])
        case None => None
        case Some(t) => Some(m[names[n] := t])
  }

  /** A store that has never held a queue loads as an empty one. */
  ghost function LoadQueue(recs: Records): Option<map<Bytes, LoadedTopic>> {
    if QueueIndex !in recs || recs[QueueIndex] == [] then Some(map[])
    else
      match UnmarshalQueue(recs[QueueIndex])
      case Err(_) => None
      case Ok(qs) => LoadTopics(recs, qs.topics)
  }

  // ----- What is restored -----

  /** Ids and name lengths fit the 64-bit types they have in the source. */
  ghost predicate Representable(t: TopicState) {
    t.tail < U64 && forall n :: n in t.lines ==> |n| < I64
  }

  /** The same line, up to the flags of a line that does not recycle, which it never reads. */
  predicate SameLine(l: LineState, l': LineState) {
    l' == l || (l.recycle <= 0 && l' == l.(flags := l'.flags))
  }

  ghost predicate Restores(t: TopicState, lt: LoadedTopic) {
    && lt.persist == t.persist && lt.head == t.head && lt.tail == t.tail
    && lt.lines.Keys == t.lines.Keys
    && forall n :: n in t.lines ==> SameLine(t.lines[n].line, lt.lines[n])
  }

  /** The flags are derived data: on a recycling line rebuilding them gives back the live ones. */
  lemma FlagsRebuilt(l: LineState, tail: nat, clock: int)
    requires LineInv(l, tail, clock)
    ensures SameLine(l, LoadedLine(StoreOf(l), l.recycle))
  {
    if l.recycle > 0 {
      forall id: nat
        ensures id in IdSet(l.inflight) <==> InFlight(l, id)
      {
        InIdSet(l, id);
      }
      FlagsFrom(l, IdSet(l.inflight));
    }
  }

  lemma FlagsFrom(l: LineState, ids: set<nat>)
    requires Indexed(l) && ids == IdSet(l.inflight) && forall id: nat :: id in ids <==> InFlight(l, id)
    ensures RebuiltFlags(StoreOf(l)) == l.flags
  {
    var m := RebuiltFlags(StoreOf(l));
    forall id: nat
      ensures (id in m <==> id in l.flags) && (id in m ==> m[id] == l.flags[id])
    {
      FlagAt(l, ids, m, id);
    }
    SameMap(m, l.flags);
  }

  lemma FlagAt(l: LineState, ids: set<nat>, m: map<nat, bool>, id: nat)
    requires Indexed(l) && ids == IdSet(l.inflight) && (id in ids <==> InFlight(l, id)) && m == RebuiltFlags(StoreOf(l))
    ensures (id in m <==> id in l.flags) && (id in m ==> m[id] == l.flags[id])
  {
    assert InFlight(l, id) ==> l.ihead <= id < l.head;
  }

  lemma SameMap(a: map<nat, bool>, b: map<nat, bool>)
    requires forall id: nat :: (id in a <==> id in b) && (id in a ==> a[id] == b[id])
    ensures a == b
  {
  }

  lemma LoadsSaved(recs: Records, t: Bytes, n: Bytes, l: LineState, tail: nat, clock: int)
    requires LineInv(l, tail, clock) && tail < U64 && TimesFit(l)
    requires LineRec(t, n) in recs && recs[LineRec(t, n)] == LineBytes(l)
    requires RecycleRec(t, n) in recs && recs[RecycleRec(t, n)] == DurationText(l.recycle)
    ensures LoadLine(recs, t, n) == Loaded(LoadedLine(StoreOf(l), l.recycle))
  {
    Bounds(l, tail, clock);
    LineRoundTrip(StoreOf(l));
    AtoiItoa(l.recycle);
  }

  // ----- Close, then load -----

  /** The records every successful step of a topic keeps up to date. */
  ghost predicate RecordsOk(s: Sys) {
    && HeadRec(s.t.name) in s.recs && s.recs[HeadRec(s.t.name)] == PutUint64(s.t.head)
    && TailRec(s.t.name) in s.recs && s.recs[TailRec(s.t.name)] == PutUint64(s.t.tail)
    && forall n :: n in s.t.lines ==>
         RecycleRec(s.t.name, n) in s.recs && s.recs[RecycleRec(s.t.name, n)] == DurationText(s.t.lines[n].line.recycle)
  }

  /** `exportTopics` wrote the topic and all its lines and left its other records alone. */
  ghost predicate ClosedFor(t: TopicState, recs: Records) {
    && RecordsOk(Sys(t, recs))
    && TopicRec(t.name) in recs && IsTopicBytes(recs[TopicRec(t.name)], t.lines.Keys, t.persist)
    && forall n :: n in t.lines ==>
         LineRec(t.name, n) in recs && recs[LineRec(t.name, n)] == LineBytes(t.lines[n].line)
  }

  ghost predicate LoadsSame(t: TopicState, recs: Records, n: Bytes) {
    && n in t.lines
    && LoadLine(recs, t.name, n).Loaded? && SameLine(t.lines[n].line, LoadLine(recs, t.name, n).line)
  }

  lemma LineLoadsSame(t: TopicState, recs: Records, n: Bytes)
    requires LinesOk(t) && TimesOk(t) && t.tail < U64 && ClosedFor(t, recs) && n in t.lines
    ensures LoadsSame(t, recs, n)
  {
    assert LineOk(t, t.lines[n]);
    LoadsSaved(recs, t.name, n, t.lines[n].line, t.tail, t.clock);
    FlagsRebuilt(t.lines[n].line, t.tail, t.clock);
  }

  /** `m` holds exactly the lines in `names` that load, each as it loads. */
  ghost predicate LinesLoaded(recs: Records, t: Bytes, names: seq<Bytes>, m: map<Bytes, LineState>) {
    && (forall n :: n in m <==> n in names && LoadLine(recs, t, n).Loaded?)
    && forall n :: n in m ==> LoadLine(recs, t, n) == Loaded(m[n])
  }

  lemma LinesLoadedMore(recs: Records, t: Bytes, names: seq<Bytes>, n: Bytes, m: map<Bytes, LineState>)
    requires LinesLoaded(recs, t, names, m)
    ensures var l := LoadLine(recs, t, n);
            LinesLoaded(recs, t, names + [n], if l.Loaded? then m[n := l.line] else m)
  {
  }

  ghost predicate NoneAborts(recs: Records, t: Bytes, names: seq<Bytes>) {
    All(names, n => !LoadLine(recs, t, n).Abort?)
  }

  /** The loop over the names stops at a line without a readable store, and passes over one without a recycle time. */
  lemma {:induction false} LoadLinesIff(recs: Records, t: Bytes, names: seq<Bytes>)
    ensures LoadLines(recs, t, names).Some? <==> NoneAborts(recs, t, names)
    ensures LoadLines(recs, t, names).Some? ==> LinesLoaded(recs, t, names, LoadLines(recs, t, names).value)
  {
    if names != [] {
      var k := |names| - 1;
      LoadLinesIff(recs, t, names[..k]);
      AllMore(names, n => !LoadLine(recs, t, n).Abort?);
      assert names == names[..k] + [names[k]];
      if NoneAborts(recs, t, names) {
        LinesLoadedMore(recs, t, names[..k], names[k], LoadLines(recs, t, names[..k]).value);
      }
    }
  }

  lemma LoadTopicRestores(t: TopicState, recs: Records)
    requires Bounded(t) && LinesOk(t) && TimesOk(t) && Representable(t) && ClosedFor(t, recs)
    ensures LoadTopic(recs, t.name).Some? && Restores(t, LoadTopic(recs, t.name).value)
  {
    var names :| Enumerates(names, t.lines.Keys) && recs[TopicRec(t.name)] == MarshalTopic(TopicStore(names, t.persist));
    forall i | 0 <= i < |names|
      ensures LoadsSame(t, recs, names[i]) && |names[i]| < I64
    {
      assert names[i] in names;
      LineLoadsSame(t, recs, names[i]);
    }
    LoadsNamed(t, recs, names);
  }

  lemma LoadsNamed(t: TopicState, recs: Records, names: seq<Bytes>)
    requires t.head <= t.tail < U64 && RecordsOk(Sys(t, recs)) && TopicRec(t.name) in recs
    requires Enumerates(names, t.lines.Keys) && recs[TopicRec(t.name)] == MarshalTopic(TopicStore(names, t.persist))
    requires forall i :: 0 <= i < |names| ==> LoadsSame(t, recs, names[i]) && |names[i]| < I64
    ensures LoadTopic(recs, t.name).Some? && Restores(t, LoadTopic(recs, t.name).value)
  {
    Uint64RoundTrip(t.head);
    Uint64RoundTrip(t.tail);
    LoadsTopic(recs, t.name, names, t.persist, t.head, t.tail);
    var m := LoadLines(recs, t.name, names).value;
    forall n | n in t.lines
      ensures n in m && SameLine(t.lines[n].line, m[n])
    {
      assert n in names && LoadsSame(t, recs, n);
    }
  }

  /** A topic loads from its records when each of its lines does. */
  lemma LoadsTopic(recs: Records, t: Bytes, names: seq<Bytes>, persist: bool, head: nat, tail: nat)
    requires HeadRec(t) in recs && Uint64(recs[HeadRec(t)]) == Some(head)
    requires TailRec(t) in recs && Uint64(recs[TailRec(t)]) == Some(tail)
    requires TopicRec(t) in recs && recs[TopicRec(t)] == MarshalTopic(TopicStore(names, persist))
    requires forall i :: 0 <= i < |names| ==> |names[i]| < I64 && LoadLine(recs, t, names[i]).Loaded?
    ensures LoadLines(recs, t, names).Some? && LinesLoaded(recs, t, names, LoadLines(recs, t, names).value)
    ensures LoadTopic(recs, t) == Some(LoadedTopic(persist, head, tail, LoadLines(recs, t, names).value))
  {
    TopicRoundTrip(TopicStore(names, persist));
    LoadLinesIff(recs, t, names);
  }

  /** The queue index lists the topics in whatever order the map is iterated. */
  ghost predicate IndexOk(topics: set<Bytes>, recs: Records) {
    if QueueIndex in recs then
      exists names :: Enumerates(names, topics) && recs[QueueIndex] == MarshalQueue(QueueStore(names))
    else topics == {}
  }

  /** A topic in good order whose records Close has just written. */
  ghost predicate TopicClosed(t: TopicState, recs: Records) {
    Bounded(t) && LinesOk(t) && TimesOk(t) && Representable(t) && ClosedFor(t, recs)
  }

  ghost predicate TopicsClosed(topics: map<Bytes, TopicState>, recs: Records) {
    forall t :: t in topics ==> |t| < I64 && topics[t].name == t && TopicClosed(topics[t], recs)
  }

  ghost predicate TopicLoads(topics: map<Bytes, TopicState>, recs: Records, t: Bytes) {
    t in topics && LoadTopic(recs, t).Some? && Restores(topics[t], LoadTopic(recs, t).value)
  }

  /** `m` holds exactly the topics in `names`, each as it loads. */
  ghost predicate TopicsLoaded(recs: Records, names: seq<Bytes>, m: map<Bytes, LoadedTopic>) {
    && (forall t :: t in m <==> t in names)
    && forall t :: t in m ==> LoadTopic(recs, t) == Some(m[t])
  }

  lemma TopicsLoadedMore(recs: Records, names: seq<Bytes>, t: Bytes, lt: LoadedTopic, m: map<Bytes, LoadedTopic>)
    requires TopicsLoaded(recs, names, m) && LoadTopic(recs, t) == Some(lt)
    ensures TopicsLoaded(recs, names + [t], m[t := lt])
  {
  }

  ghost predicate AllLoad(recs: Records, names: seq<Bytes>) {
    All(names, n => LoadTopic(recs, n).Some?)
  }

  /** The topics load exactly when each of them does. */
  lemma {:induction false} LoadTopicsIff(recs: Records, names: seq<Bytes>)
    ensures LoadTopics(recs, names).Some? <==> AllLoad(recs, names)
    ensures LoadTopics(recs, names).Some? ==> TopicsLoaded(recs, names, LoadTopics(recs, names).value)
  {
    if names != [] {
      var k := |names| - 1;
      LoadTopicsIff(recs, names[..k]);
      AllMore(names, n => LoadTopic(recs, n).Some?);
      assert names == names[..k] + [names[k]];
      if AllLoad(recs, names) {
        TopicsLoadedMore(recs, names[..k], names[k], LoadTopic(recs, names[k]).value, LoadTopics(recs, names[..k]).value);
      }
    }
  }

  /** Loading after an orderly Close gives back every topic and every line. */
  lemma CloseThenLoad(topics: map<Bytes, TopicState>, recs: Records)
    requires TopicsClosed(topics, recs) && IndexOk(topics.Keys, recs)
    ensures LoadQueue(recs).Some?
    ensures LoadQueue(recs).value.Keys == topics.Keys
    ensures forall t :: t in topics ==> Restores(topics[t], LoadQueue(recs).value[t])
  {
    if QueueIndex in recs {
      var names :| Enumerates(names, topics.Keys) && recs[QueueIndex] == MarshalQueue(QueueStore(names));
      forall i | 0 <= i < |names|
        ensures |names[i]| < I64 && TopicLoads(topics, recs, names[i])
      {
        assert names[i] in names;
        LoadTopicRestores(topics[names[i]], recs);
      }
      LoadsIndex(topics, recs, names);
    }
  }

  lemma LoadsIndex(topics: map<Bytes, TopicState>, recs: Records, names: seq<Bytes>)
    requires QueueIndex in recs && recs[QueueIndex] == MarshalQueue(QueueStore(names))
    requires Enumerates(names, topics.Keys)
    requires forall i :: 0 <= i < |names| ==> |names[i]| < I64 && TopicLoads(topics, recs, names[i])
    ensures LoadQueue(recs).Some?
    ensures LoadQueue(recs).value.Keys == topics.Keys
    ensures forall t :: t in topics ==> Restores(topics[t], LoadQueue(recs).value[t])
  {
    QueueRoundTrip(QueueStore(names));
    LoadTopicsIff(recs, names);
    NoNames(names);
    assert LoadQueue(recs) == LoadTopics(recs, names);
    TopicsRestored(topics, recs, names, LoadTopics(recs, names).value);
  }

  lemma TopicsRestored(topics: map<Bytes, TopicState>, recs: Records, names: seq<Bytes>, m: map<Bytes, LoadedTopic>)
    requires Enumerates(names, topics.Keys) && TopicsLoaded(recs, names, m)
    requires forall i :: 0 <= i < |names| ==> TopicLoads(topics, recs, names[i])
    ensures m.Keys == topics.Keys
    ensures forall t :: t in topics ==> Restores(topics[t], m[t])
  {
    forall t | t in topics
      ensures Restores(topics[t], m[t])
    {
      assert t in names && TopicLoads(topics, recs, t);
    }
  }

  lemma NoNames(names: seq<Bytes>)
    ensures MarshalQueue(QueueStore(names)) == [] ==> names == []
  {
  }

  // ----- Lines that do not recycle never read their flags -----

  lemma {:induction false} TakeManyIgnoresFlags(l: LineState, f: map<nat, bool>, tail: nat, msgs: Messages, now: int, n: int)
    requires l.recycle <= 0
    ensures TakeMany(l.(flags := f), tail, msgs, now, n)
         == (TakeMany(l, tail, msgs, now, n).0.(flags := f), TakeMany(l, tail, msgs, now, n).1)
    decreases n
  {
    if n > 0 && l.head < tail && l.head in msgs {
      TakeManyIgnoresFlags(TakeHead(l, now), f, tail, msgs, now, n - 1);
    }
  }

  /** So a restored line that differs only there answers every operation as the original would. */
  lemma RestoredBehavesSame(l: LineState, l': LineState, tail: nat, msgs: Messages, now: int, n: int, id: nat)
    requires SameLine(l, l') && (l.recycle <= 0 ==> l.inflight == [])
    ensures Pop(l', tail, msgs, now).1 == Pop(l, tail, msgs, now).1
    ensures SameLine(Pop(l, tail, msgs, now).0, Pop(l', tail, msgs, now).0)
    ensures MPop(l', tail, msgs, now, n).1 == MPop(l, tail, msgs, now, n).1
    ensures SameLine(MPop(l, tail, msgs, now, n).0, MPop(l', tail, msgs, now, n).0)
    ensures Confirm(l', id).1 == Confirm(l, id).1 && SameLine(Confirm(l, id).0, Confirm(l', id).0)
    ensures Empty(l', tail) == Empty(l, tail) && StoreOf(l') == StoreOf(l)
  {
    if l.recycle <= 0 {
      TakeManyIgnoresFlags(l, l'.flags, tail, msgs, now, n);
      TakeManyKeepsRecycle(l, tail, msgs, now, n);
    }
  }

  lemma {:induction false} TakeManyKeepsRecycle(l: LineState, tail: nat, msgs: Messages, now: int, n: int)
    ensures TakeMany(l, tail, msgs, now, n).0.recycle == l.recycle
    decreases n
  {
    if n > 0 && l.head < tail && l.head in msgs {
      TakeManyKeepsRecycle(TakeHead(l, now), tail, msgs, now, n - 1);
    }
  }

  // ----- A crash -----

  /**
   * Whatever snapshot a crash leaves, loading it gives a line in good order that still owes
   * every id the line owed at the crash.
   */
  lemma CrashForgetsNothing(s: Sys, n: Bytes)
    requires SnapInv(s) && n in s.t.lines && s.t.tail < U64
    ensures LoadLine(s.recs, s.t.name, n).Loaded?
    ensures var l, l' := s.t.lines[n].line, LoadLine(s.recs, s.t.name, n).line;
            && l'.recycle == l.recycle && LineInv(l', s.t.tail, s.t.clock)
            && Outstanding(l, s.t.tail) <= Outstanding(l', s.t.tail)
  {
    assert SnapSaved(s, n);
    var l := s.t.lines[n].line;
    var l0 :| SnapOf(l0, l, s.t.tail, s.t.clock) && s.recs[LineRec(s.t.name, n)] == LineBytes(l0);
    LoadsSaved(s.recs, s.t.name, n, l0, s.t.tail, s.t.clock);
    FlagsRebuilt(l0, s.t.tail, s.t.clock);
    SameLineSameDebt(l0, LoadedLine(StoreOf(l0), l0.recycle), s.t.tail, s.t.clock);
  }

  lemma SameLineSameDebt(l: LineState, l': LineState, tail: nat, clock: int)
    requires SameLine(l, l') && LineInv(l, tail, clock)
    ensures l'.recycle == l.recycle && LineInv(l', tail, clock) && Outstanding(l', tail) == Outstanding(l, tail)
  {
  }
}
