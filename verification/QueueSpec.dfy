/**
 * The whole queue (queue/uQueue.go): topics that share one store, and the index that names them.
 */
module QueueSpec {
  import opened Base
  import opened StoreKeys
  import opened LineSpec
  import opened Wire
  import opened TopicSpec
  import opened Names
  import opened Snapshots
  import opened Recovery
  import opened Faultless

  datatype QueueState = QueueState(topics: map<Bytes, TopicState>, recs: Records)

  function SysOf(u: QueueState, t: Bytes): Sys
    requires t in u.topics
  {
    Sys(u.topics[t], u.recs)
  }

  datatype QueueOp =
    | OnTopic(topic: Bytes, op: Op)
    | DoCreateTopic(topic: Bytes, persist: bool)
    | DoRemoveTopic(topic: Bytes)

  ghost predicate IsIndex(b: Bytes, topics: set<Bytes>) {
    exists names :: Enumerates(names, topics) && b == MarshalQueue(QueueStore(names))
  }

  function NewTopic(t: Bytes, persist: bool): TopicState {
    TopicState(t, persist, 0, 0, map[], [], 0, None, 0)
  }

  ghost predicate TopicNext(u: QueueState, t: Bytes, op: Op, s': Sys, u': QueueState)
    requires t in u.topics
  {
    Next(SysOf(u, t), op, s') && u' == QueueState(u.topics[t := s'.t], s'.recs)
  }

  /** The head and the tail are saved, then the index with the new name in it. */
  ghost predicate CreateTopicOk(u: QueueState, t: Bytes, persist: bool, u': QueueState) {
    && t !in u.topics && u'.topics == u.topics[t := NewTopic(t, persist)]
    && exists b :: IsIndex(b, u'.topics.Keys) &&
         u'.recs == u.recs[HeadRec(t) := PutUint64(0)][TailRec(t) := PutUint64(0)][QueueIndex := b]
  }

  /** Nothing changed but the three records a topic has of its own. */
  ghost predicate SameBut(recs: Records, recs': Records, t: Bytes) {
    forall k: Key :: k !in {HeadRec(t), TailRec(t), TopicRec(t)} ==>
      (k in recs <==> k in recs') && (k in recs ==> recs[k] == recs'[k])
  }

  /** The topic exists already, or a write failed: only the three records of the new topic may differ. */
  ghost predicate CreateTopicFailed(u: QueueState, t: Bytes, u': QueueState) {
    u'.topics == u.topics && (t in u.topics ==> u' == u) && SameBut(u.recs, u'.recs, t)
  }

  /** The index is saved without the name; then the topic's records go, as far as the store allows. */
  ghost predicate RemoveTopicOk(u: QueueState, t: Bytes, gone: iset<Key>, u': QueueState) {
    && t in u.topics && u'.topics == u.topics - {t}
    && (forall k :: k in gone ==> Removes(u.topics[t], k))
    && exists b :: IsIndex(b, u'.topics.Keys) && u'.recs == Minus(u.recs[QueueIndex := b], gone)
  }

  ghost predicate RemoveTopicNext(u: QueueState, t: Bytes, u': QueueState) {
    u' == u || exists gone :: RemoveTopicOk(u, t, gone, u')
  }

  ghost predicate QueueNext(u: QueueState, op: QueueOp, u': QueueState) {
    match op
    case OnTopic(t, o) => if t in u.topics then !o.DoElsewhere? && exists s' :: TopicNext(u, t, o, s', u') else u' == u
    case DoCreateTopic(t, persist) => CreateTopicOk(u, t, persist, u') || CreateTopicFailed(u, t, u')
    case DoRemoveTopic(t) => RemoveTopicNext(u, t, u')
  }

  /** A store that has never held a queue, or holds one without topics. */
  ghost predicate QueueInit(u: QueueState) {
    u.topics == map[] && IndexOk({}, u.recs)
  }

  ghost predicate IsQueueRun(states: seq<QueueState>, ops: seq<QueueOp>) {
    && |states| == |ops| + 1
    && QueueInit(states[0])
    && forall i :: 0 <= i < |ops| ==> QueueNext(states[i], ops[i], states[i + 1])
  }

  // ----- Requests by key -----

  /** One topic after a step. */
  function WithTopic(u: QueueState, t: Bytes, s: Sys): QueueState {
    QueueState(u.topics[t := s.t], s.recs)
  }

  /** Push: the trimmed key is the name of the topic; a message without content is refused. */
  ghost predicate QueuePush(u: QueueState, key: Bytes, data: Bytes, r: Result<(), Error>, u': QueueState) {
    var t := Trim(key);
    if data == [] then r == Err(ErrBadRequest) && u' == u
    else if t !in u.topics then r == Err(ErrTopicNotExisted) && u' == u
    else if r.Ok? then u' == WithTopic(u, t, PushOk(SysOf(u, t), data))
    else
      && r == Err(ErrInternal) && t in u'.topics && PushFailed(SysOf(u, t), data, SysOf(u', t))
      && u' == WithTopic(u, t, SysOf(u', t))
  }

  /** MultiPush: refused as a whole if one of the messages has no content. */
  ghost predicate QueueMultiPush(u: QueueState, key: Bytes, datas: seq<Bytes>, r: Result<(), Error>, u': QueueState) {
    var t := Trim(key);
    if [] in datas then r == Err(ErrBadRequest) && u' == u
    else if t !in u.topics then r == Err(ErrTopicNotExisted) && u' == u
    else if r.Ok? then u' == WithTopic(u, t, MPushOk(SysOf(u, t), datas))
    else
      && r == Err(ErrInternal) && t in u'.topics && MPushFailed(SysOf(u, t), datas, SysOf(u', t))
      && u' == WithTopic(u, t, SysOf(u', t))
  }

  /** Pop: the id handed to the client is the trimmed key, a slash and the number of the message. */
  ghost function QueuePop(u: QueueState, key: Bytes, now: int): (QueueState, Result<(Bytes, Bytes), Error>) {
    match PopKey(key)
    case Err(e) => (u, Err(e))
    case Ok((t, n)) =>
      if t !in u.topics then (u, Err(ErrTopicNotExisted))
      else if n !in u.topics[t].lines then (u, Err(ErrLineNotExisted))
      else
        var s := SysOf(u, t);
        (u.(topics := u.topics[t := PopStep(s, n, now).t]),
         match Pop(s.t.lines[n].line, s.t.tail, Msgs(s), now).1
         case Err(e) => Err(e)
         case Ok(p) => Ok((IdOf(key, p.id), p.data)))
  }

  ghost function QueueMultiPop(u: QueueState, key: Bytes, k: int, now: int):
    (QueueState, Result<(seq<Bytes>, seq<Bytes>), Error>)
  {
    match PopKey(key)
    case Err(e) => (u, Err(e))
    case Ok((t, n)) =>
      if t !in u.topics then (u, Err(ErrTopicNotExisted))
      else if n !in u.topics[t].lines then (u, Err(ErrLineNotExisted))
      else
        var s := SysOf(u, t);
        (u.(topics := u.topics[t := MPopStep(s, n, k, now).t]),
         match MPop(s.t.lines[n].line, s.t.tail, Msgs(s), now, k).1
         case Err(e) => Err(e)
         case Ok(b) => Ok((IdsOf(key, b.ids), b.datas)))
  }

  function QueueConfirm(u: QueueState, key: Bytes): (QueueState, Result<(), Error>) {
    match ConfirmKey(key)
    case Err(e) => (u, Err(e))
    case Ok((t, n, id)) =>
      if t !in u.topics then (u, Err(ErrTopicNotExisted))
      else if n !in u.topics[t].lines then (u, Err(ErrLineNotExisted))
      else
        var s := SysOf(u, t);
        (u.(topics := u.topics[t := ConfirmStep(s, n, id).t]), Confirm(s.t.lines[n].line, id).1)
  }

  /** MultiConfirm: the keys one after the other, each with its own answer. */
  function QueueMultiConfirm(u: QueueState, keys: seq<Bytes>): (QueueState, seq<Result<(), Error>>) {
    OneByOne(QueueConfirm, u, keys)
  }

  // ----- Runs in which no write or delete fails -----

  ghost predicate QueueFaultFree(u: QueueState, op: QueueOp, u': QueueState) {
    match op
    case OnTopic(t, o) =>
      if t in u.topics then !o.DoElsewhere? && exists s' :: TopicNext(u, t, o, s', u') && FaultFree(SysOf(u, t), o, s')
      else u' == u
    case DoCreateTopic(t, persist) => if t in u.topics then u' == u else CreateTopicOk(u, t, persist, u')
    case DoRemoveTopic(t) =>
      if t in u.topics then RemoveTopicOk(u, t, RemovedKeys(u.topics[t]), u') else u' == u
  }

  ghost predicate IsFaultFreeRun(states: seq<QueueState>, ops: seq<QueueOp>) {
    && IsQueueRun(states, ops)
    && forall i :: 0 <= i < |ops| ==> QueueFaultFree(states[i], ops[i], states[i + 1])
  }

  // ----- Closing -----

  /** The topics in `done` and all their lines have been exported; nothing else was written. */
  ghost predicate Exported(u: QueueState, done: set<Bytes>, recs: Records) {
    && (forall t :: t in done ==> t in u.topics && TopicExported(u.topics[t], t, recs))
    && forall k: Key :: !(IsExportOf(k, u) && k.topic in done) ==>
         (k in u.recs <==> k in recs) && (k in u.recs ==> u.recs[k] == recs[k])
  }

  ghost predicate TopicExported(s: TopicState, t: Bytes, recs: Records) {
    && TopicRec(t) in recs && IsTopicBytes(recs[TopicRec(t)], s.lines.Keys, s.persist)
    && forall n :: n in s.lines ==> LineRec(t, n) in recs && recs[LineRec(t, n)] == LineBytes(s.lines[n].line)
  }

  ghost predicate IsExportOf(k: Key, u: QueueState) {
    (k.TopicRec? && k.topic in u.topics) || (k.LineRec? && k.topic in u.topics && k.line in u.topics[k.topic].lines)
  }

  // ----- The invariant -----

  /** Each topic is in good order, and the saved index names exactly the live topics. */
  ghost predicate QueueInv(u: QueueState) {
    && (forall t :: t in u.topics ==> u.topics[t].name == t && TopicGood(SysOf(u, t)))
    && IndexOk(u.topics.Keys, u.recs)
  }

  ghost predicate TopicGood(s: Sys) {
    Inv(s) && TimesOk(s.t) && SnapInv(s)
  }
}
