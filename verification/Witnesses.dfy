/** Short runs that exhibit what the code does not promise. */
module Witnesses {
  import opened Base
  import opened StoreKeys
  import opened LineSpec
  import opened LineHistory
  import opened Wire
  import opened TopicSpec
  import opened Recovery
  import opened QueueSpec
  import opened HeadRace
  import opened Crash

  const TOPIC: Bytes := [116]
  const LINE: Bytes := [108]

  // ----- The collector passes a saved line: a line is created, a message pushed, popped and collected -----

  ghost function Fresh(): Sys {
    Sys(NewTopic(TOPIC, false), imap[HeadRec(TOPIC) := PutUint64(0), TailRec(TOPIC) := PutUint64(0)])
  }

  ghost function Created(): Sys {
    Sys(WithNewLine(Fresh().t, LINE, 0),
        NewLineRecs(Fresh(), LINE, 0, 2)[TopicRec(TOPIC) := MarshalTopic(TopicStore([LINE], false))])
  }

  ghost function Pushed(): Sys {
    PushOk(Created(), [1])
  }

  ghost function Consumed(): Sys {
    PopStep(Pushed(), LINE, 0)
  }

  ghost function Begun(): Sys {
    Consumed().(t := Consumed().t.(pass := Some(1)))
  }

  ghost function Swept(): Sys {
    Sys(Begun().t.(head := 1, floor := 1), (Begun().recs - {MsgRec(TOPIC, 0)})[HeadRec(TOPIC) := PutUint64(1)])
  }

  lemma CreatedNext()
    ensures CreateLineOk(Fresh(), LINE, 0, Created())
  {
    var b := MarshalTopic(TopicStore([LINE], false));
    assert Enumerates([LINE], Created().t.lines.Keys);
    assert IsTopicBytes(b, Created().t.lines.Keys, false);
  }

  lemma ConsumedShape()
    ensures Consumed().t.lines.Keys == {LINE} && Consumed().t.lines[LINE].line.head == 1
    ensures Consumed().t.lines[LINE].line.recycle == 0 && Consumed().t.tail == 1 && Consumed().t.head == 0
    ensures !Consumed().t.persist && Consumed().t.pass == None && Consumed().t.name == TOPIC
  {
    assert MsgRec(TOPIC, 0) in Pushed().recs && 0 in Msgs(Pushed());
  }

  lemma SweptNext()
    ensures CleanBeginNext(Consumed(), Begun()) && CleanStepNext(Begun(), Swept())
  {
    ConsumedShape();
    assert IsEnd(Consumed().t, 1);
  }

  /** The store of the line still says that it has not delivered message 0. */
  lemma SweptLoads()
    ensures LoadLine(Swept().recs, TOPIC, LINE) == Loaded(NewLine(0, 0))
  {
    var l := NewLine(0, 0);
    SweptRecords();
    LoadsSaved(Swept().recs, TOPIC, LINE, l, 0, 0);
    assert LoadedLine(StoreOf(l), 0) == l;
  }

  lemma SweptRecords()
    ensures LineRec(TOPIC, LINE) in Swept().recs && Swept().recs[LineRec(TOPIC, LINE)] == LineBytes(NewLine(0, 0))
    ensures RecycleRec(TOPIC, LINE) in Swept().recs && Swept().recs[RecycleRec(TOPIC, LINE)] == DurationText(0)
  {
  }

  lemma SweptSteps()
    ensures Init(Fresh()) && Next(Fresh(), DoCreateLine(LINE, 0), Created())
    ensures Next(Created(), DoPush([1]), Pushed()) && Next(Pushed(), DoPop(LINE, 0), Consumed())
  {
    CreatedNext();
  }

  lemma SweptPop(now: int)
    ensures Pop(NewLine(0, 0), Swept().t.tail, Msgs(Swept()), now).1 == Err(ErrInternal)
  {
    ConsumedShape();
    assert 0 !in Msgs(Swept());
  }

  /** A run of one step, and one step more. */
  lemma RunOne(a: Sys)
    requires Init(a)
    ensures IsRun([a], [])
  {
  }

  lemma RunMore(states: seq<Sys>, ops: seq<Op>, op: Op, s: Sys)
    requires IsRun(states, ops) && Next(states[|ops|], op, s)
    ensures IsRun(states + [s], ops + [op])
  {
  }

  ghost function SweptStates(): seq<Sys> {
    [Fresh()] + [Created()] + [Pushed()] + [Consumed()] + [Begun()] + [Swept()]
  }

  function SweptOps(): seq<Op> {
    [] + [DoCreateLine(LINE, 0)] + [DoPush([1])] + [DoPop(LINE, 0)] + [DoCleanBegin] + [DoCleanStep]
  }

  lemma SweptRun()
    ensures IsRun(SweptStates(), SweptOps())
  {
    SweptSteps();
    SweptNext();
    RunOne(Fresh());
    var s1, o1 := [Fresh()] + [Created()], [] + [DoCreateLine(LINE, 0)];
    RunMore([Fresh()], [], DoCreateLine(LINE, 0), Created());
    RunMore(s1, o1, DoPush([1]), Pushed());
    var s2, o2 := s1 + [Pushed()], o1 + [DoPush([1])];
    RunMore(s2, o2, DoPop(LINE, 0), Consumed());
    var s3, o3 := s2 + [Consumed()], o2 + [DoPop(LINE, 0)];
    RunMore(s3, o3, DoCleanBegin, Begun());
    RunMore(s3 + [Begun()], o3 + [DoCleanBegin], DoCleanStep, Swept());
  }

  /** After a crash at the end of this run, the loaded line fails to read on every pop. */
  lemma CrashStopsLine(now: int)
    ensures IsRun(SweptStates(), SweptOps()) && SweptStates()[|SweptOps()|] == Swept()
    ensures LoadLine(Swept().recs, TOPIC, LINE).Loaded?
    ensures Pop(LoadLine(Swept().recs, TOPIC, LINE).line, Swept().t.tail, Msgs(Swept()), now).1 == Err(ErrInternal)
  {
    SweptRun();
    SweptLoads();
    SweptPop(now);
  }

  // ----- A push overtakes `empty`: the line is emptied, a message pushed, then the head moves -----

  ghost function Emptied(): Sys {
    var t := SetLine(Created().t, LINE, EmptyTracked(Created().t.lines[LINE], 0));
    Sys(t, ExportLines(Created().recs, t, {LINE}))
  }

  ghost function Overtaking(): Sys {
    PushOk(Emptied(), [1])
  }

  ghost function Overtaken(): Sys {
    Sys(Overtaking().t.(head := 1), Overtaking().recs[HeadRec(TOPIC) := PutUint64(1)])
  }

  lemma OvertakenSteps()
    ensures Init(Fresh()) && Next(Fresh(), DoCreateLine(LINE, 0), Created())
    ensures Next(Created(), DoEmptyLine(LINE), Emptied()) && Next(Emptied(), DoPush([1]), Overtaking())
    ensures Next(Overtaking(), DoEmptyHead, Overtaken())
  {
    CreatedNext();
    assert Overtaking().t.tail == 1 && Overtaking().t.name == TOPIC;
  }

  ghost function OvertakenStates(): seq<Sys> {
    [Fresh()] + [Created()] + [Emptied()] + [Overtaking()] + [Overtaken()]
  }

  function OvertakenOps(): seq<Op> {
    [] + [DoCreateLine(LINE, 0)] + [DoEmptyLine(LINE)] + [DoPush([1])] + [DoEmptyHead]
  }

  lemma OvertakenRun()
    ensures IsRun(OvertakenStates(), OvertakenOps())
  {
    OvertakenSteps();
    RunOne(Fresh());
    var s1, o1 := [Fresh()] + [Created()], [] + [DoCreateLine(LINE, 0)];
    RunMore([Fresh()], [], DoCreateLine(LINE, 0), Created());
    RunMore(s1, o1, DoEmptyLine(LINE), Emptied());
    var s2, o2 := s1 + [Emptied()], o1 + [DoEmptyLine(LINE)];
    RunMore(s2, o2, DoPush([1]), Overtaking());
    RunMore(s2 + [Overtaking()], o2 + [DoPush([1])], DoEmptyHead, Overtaken());
  }

  /** At the end of this run the head is above message 0, which the line has yet to deliver. */
  lemma HeadPassesLine()
    ensures IsRun(OvertakenStates(), OvertakenOps()) && OvertakenStates()[|OvertakenOps()|] == Overtaken()
    ensures !HeadOk(Overtaken().t)
  {
    OvertakenRun();
    var t := Overtaken().t;
    assert LINE in t.lines && LowMark(t.lines[LINE].line) == 0 && t.head == 1;
  }

  // ----- A record left over: a topic with a line is removed, its own record is not, and it is created again -----

  const INDEX: Bytes := MarshalQueue(QueueStore([TOPIC]))
  const NO_INDEX: Bytes := MarshalQueue(QueueStore([]))

  ghost function NewRecs(recs: Records): Records {
    recs[HeadRec(TOPIC) := PutUint64(0)][TailRec(TOPIC) := PutUint64(0)][QueueIndex := INDEX]
  }

  ghost function First(): QueueState {
    QueueState(map[TOPIC := NewTopic(TOPIC, false)], NewRecs(imap[]))
  }

  ghost function FirstLine(): Sys {
    var s := SysOf(First(), TOPIC);
    Sys(WithNewLine(s.t, LINE, 0), NewLineRecs(s, LINE, 0, 2)[TopicRec(TOPIC) := MarshalTopic(TopicStore([LINE], false))])
  }

  ghost function WithLine(): QueueState {
    QueueState(map[TOPIC := FirstLine().t], FirstLine().recs)
  }

  ghost function HalfRemoved(): QueueState {
    QueueState(map[], Minus(WithLine().recs[QueueIndex := NO_INDEX], iset{LineRec(TOPIC, LINE), RecycleRec(TOPIC, LINE)}))
  }

  ghost function Again(): QueueState {
    QueueState(map[TOPIC := NewTopic(TOPIC, false)], NewRecs(HalfRemoved().recs))
  }

  lemma Indexes()
    ensures IsIndex(INDEX, {TOPIC}) && IsIndex(NO_INDEX, {})
  {
    assert Enumerates([TOPIC], {TOPIC});
    assert Enumerates([], {});
  }

  lemma FirstStep()
    ensures QueueInit(QueueState(map[], imap[]))
    ensures QueueNext(QueueState(map[], imap[]), DoCreateTopic(TOPIC, false), First())
  {
    Indexes();
    var u := QueueState(map[], imap[]);
    assert First().topics == u.topics[TOPIC := NewTopic(TOPIC, false)] && First().topics.Keys == {TOPIC};
    assert CreateTopicOk(u, TOPIC, false, First());
  }

  lemma LineStepNext()
    ensures QueueNext(First(), OnTopic(TOPIC, DoCreateLine(LINE, 0)), WithLine())
  {
    FirstLineCreated();
    assert WithLine().topics == First().topics[TOPIC := FirstLine().t];
    assert Next(SysOf(First(), TOPIC), DoCreateLine(LINE, 0), FirstLine());
    assert TopicNext(First(), TOPIC, DoCreateLine(LINE, 0), FirstLine(), WithLine());
  }

  lemma FirstLineCreated()
    ensures CreateLineOk(SysOf(First(), TOPIC), LINE, 0, FirstLine())
  {
    LineListed();
    assert SysOf(First(), TOPIC).t == NewTopic(TOPIC, false);
  }

  lemma LineListed()
    ensures IsTopicBytes(MarshalTopic(TopicStore([LINE], false)), FirstLine().t.lines.Keys, false)
  {
    assert FirstLine().t.lines.Keys == {LINE};
    assert Enumerates([LINE], {LINE});
  }

  lemma HalfRemovedNext()
    ensures QueueNext(WithLine(), DoRemoveTopic(TOPIC), HalfRemoved())
  {
    Indexes();
    var gone := iset{LineRec(TOPIC, LINE), RecycleRec(TOPIC, LINE)};
    assert LINE in FirstLine().t.lines && FirstLine().t.name == TOPIC;
    assert HalfRemoved().topics == WithLine().topics - {TOPIC} && HalfRemoved().topics.Keys == {};
    assert RemoveTopicOk(WithLine(), TOPIC, gone, HalfRemoved());
  }

  lemma AgainNext()
    ensures QueueNext(HalfRemoved(), DoCreateTopic(TOPIC, false), Again())
  {
    Indexes();
    assert Again().topics == HalfRemoved().topics[TOPIC := NewTopic(TOPIC, false)] && Again().topics.Keys == {TOPIC};
    assert CreateTopicOk(HalfRemoved(), TOPIC, false, Again());
  }

  lemma AgainRecords()
    ensures TopicRec(TOPIC) in Again().recs
    ensures Again().recs[TopicRec(TOPIC)] == MarshalTopic(TopicStore([LINE], false))
    ensures LineRec(TOPIC, LINE) !in Again().recs
    ensures QueueIndex in Again().recs && Again().recs[QueueIndex] == INDEX
  {
  }

  lemma AgainDoesNotLoad()
    ensures LoadQueue(Again().recs) == None
  {
    AgainRecords();
    var recs := Again().recs;
    TopicRoundTrip(TopicStore([LINE], false));
    LoadLinesIff(recs, TOPIC, [LINE]);
    assert LoadLine(recs, TOPIC, [LINE][0]).Abort?;
    assert LoadTopic(recs, TOPIC) == None;
    OneTopicLoads(recs);
  }

  lemma OneTopicLoads(recs: Records)
    requires QueueIndex in recs && recs[QueueIndex] == INDEX && LoadTopic(recs, TOPIC) == None
    ensures LoadQueue(recs) == None
  {
    QueueRoundTrip(QueueStore([TOPIC]));
    NoNames([TOPIC]);
    LoadTopicsIff(recs, [TOPIC]);
    assert !LoadTopic(recs, [TOPIC][0]).Some?;
  }

  lemma QueueRunMore(states: seq<QueueState>, ops: seq<QueueOp>, op: QueueOp, u: QueueState)
    requires IsQueueRun(states, ops) && QueueNext(states[|ops|], op, u)
    ensures IsQueueRun(states + [u], ops + [op])
  {
  }

  ghost function LeftoverStates(): seq<QueueState> {
    [QueueState(map[], imap[])] + [First()] + [WithLine()] + [HalfRemoved()] + [Again()]
  }

  function LeftoverOps(): seq<QueueOp> {
    [] + [DoCreateTopic(TOPIC, false)] + [OnTopic(TOPIC, DoCreateLine(LINE, 0))] + [DoRemoveTopic(TOPIC)]
       + [DoCreateTopic(TOPIC, false)]
  }

  lemma LeftoverRun()
    ensures IsQueueRun(LeftoverStates(), LeftoverOps())
  {
    FirstStep();
    LineStepNext();
    HalfRemovedNext();
    AgainNext();
    var u := QueueState(map[], imap[]);
    assert IsQueueRun([u], []);
    var s1, o1 := [u] + [First()], [] + [DoCreateTopic(TOPIC, false)];
    QueueRunMore([u], [], DoCreateTopic(TOPIC, false), First());
    QueueRunMore(s1, o1, OnTopic(TOPIC, DoCreateLine(LINE, 0)), WithLine());
    var s2, o2 := s1 + [WithLine()], o1 + [OnTopic(TOPIC, DoCreateLine(LINE, 0))];
    QueueRunMore(s2, o2, DoRemoveTopic(TOPIC), HalfRemoved());
    QueueRunMore(s2 + [HalfRemoved()], o2 + [DoRemoveTopic(TOPIC)], DoCreateTopic(TOPIC, false), Again());
  }

  /** At the end of this run every topic has a record, and the queue cannot be loaded. */
  lemma LeftoverStopsLoad()
    ensures IsQueueRun(LeftoverStates(), LeftoverOps()) && LeftoverStates()[|LeftoverOps()|] == Again()
    ensures AllWritten(Again()) && LoadQueue(Again().recs) == None
  {
    LeftoverRun();
    AgainRecords();
    AgainDoesNotLoad();
  }
}
