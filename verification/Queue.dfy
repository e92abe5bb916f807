/** The queue as the source runs it: a map of topics that share one store (queue/uQueue.go). */
module Queue {
  import opened Base
  import opened StoreKeys
  import LineSpec
  import opened LineSpecTypes = LineSpec
  import opened Wire
  import WireBuffers
  import opened TopicSpec
  import opened TopicProofs
  import opened Names
  import opened QueueSpec
  import opened Store
  import opened Engine

  lemma ExportTouches(recs: Records, s: TopicState, b: Bytes, recs': Records)
    requires IsTopicBytes(b, s.lines.Keys, s.persist)
    requires recs' == ExportLines(recs, s, s.lines.Keys)[TopicRec(s.name) := b]
    ensures TopicExported(s, s.name, recs')
    ensures forall k: Key :: k != TopicRec(s.name) && !IsLineOf(k, s.name, s.lines.Keys) ==>
              (k in recs <==> k in recs') && (k in recs ==> recs[k] == recs'[k])
  {
  }

  lemma OthersExported(u: QueueState, done: set<Bytes>, t: Bytes, recs: Records, recs': Records)
    requires t !in done && forall o :: o in done ==> o in u.topics && TopicExported(u.topics[o], o, recs)
    requires forall k: Key :: !Owned(k, t) ==> (k in recs <==> k in recs') && (k in recs ==> recs[k] == recs'[k])
    ensures forall o :: o in done ==> TopicExported(u.topics[o], o, recs')
  {
  }

  lemma ExportedMore(u: QueueState, done: set<Bytes>, t: Bytes, recs: Records, b: Bytes, recs': Records)
    requires Exported(u, done, recs) && t in u.topics && t !in done && u.topics[t].name == t
    requires IsTopicBytes(b, u.topics[t].lines.Keys, u.topics[t].persist)
    requires recs' == ExportLines(recs, u.topics[t], u.topics[t].lines.Keys)[TopicRec(t) := b]
    ensures Exported(u, done + {t}, recs')
  {
    ExportTouches(recs, u.topics[t], b, recs');
    OthersExported(u, done, t, recs, recs');
  }

  /** Writing the head and the tail, then dropping them again, touches no record but those of the topic. */
  lemma Undone(recs: Records, t: Bytes, persist: bool, recs1: Records, gone: iset<Key>, recs2: Records)
    requires SameBut(recs, recs1, t) && recs2 == Minus(recs1, gone)
    requires forall k :: k in gone ==> Removes(NewTopic(t, persist), k)
    ensures SameBut(recs, recs2, t)
  {
  }

  /** One topic has changed and the others have not. */
  lemma OneChanged(before: map<Bytes, TopicState>, after: map<Bytes, TopicState>, t: Bytes, s: TopicState)
    requires t in before && after.Keys == before.Keys && after[t] == s
    requires forall o :: o in after && o != t ==> after[o] == before[o]
    ensures after == before[t := s] && (s == before[t] ==> after == before)
  {
  }

  class UnitedQueue {
    const storage: Storage
    var topics: map<Bytes, Topic>

    constructor (storage: Storage)
      requires storage.Valid()
      ensures this.storage == storage && topics == map[] && Shape()
    {
      this.storage := storage;
      topics := map[];
    }

    /** Each topic knows its name and the store, so no two names share a topic. */
    ghost predicate Shape()
      reads this, storage, topics.Values
    {
      storage.Valid() && forall t :: t in topics ==> TopicShape(t, topics[t])
    }

    ghost predicate TopicShape(t: Bytes, x: Topic)
      reads x`lines
    {
      OwnTopic(t) && x.name == t && x.q == storage && x.LinesShaped()
    }

    ghost function Topics(): (r: map<Bytes, TopicState>)
      reads this, topics.Values, set x, l | x in topics.Values && l in x.lines.Values :: l
      ensures r.Keys == topics.Keys
    {
      map t | t in topics :: topics[t].State()
    }

    ghost function State(): QueueState
      reads this, storage, topics.Values, set x, l | x in topics.Values && l in x.lines.Values :: l
    {
      QueueState(Topics(), storage.recs)
    }

    lemma TopicsAre(ts: map<Bytes, TopicState>)
      requires ts.Keys == topics.Keys && forall n :: n in topics ==> topics[n].State() == ts[n]
      ensures Topics() == ts
    {
    }

    method TopicNames() returns (names: seq<Bytes>)
      ensures Enumerates(names, topics.Keys)
    {
      names := [];
      var todo := topics.Keys;
      while todo != {}
        invariant todo <= topics.Keys && Enumerates(names, topics.Keys - todo)
        decreases todo
      {
        var n :| n in todo;
        todo := todo - {n};
        names := names + [n];
      }
    }

    /** `genQueueStore`, marshalled. */
    method IndexBytes() returns (buf: Bytes)
      ensures IsIndex(buf, topics.Keys)
    {
      var names := TopicNames();
      buf := WireBuffers.QueueMarshal(QueueStore(names));
    }

    method ExportQueue() returns (ok: bool)
      requires storage.Valid()
      modifies storage
      ensures storage.Valid() && (storage.reliable ==> ok)
      ensures ok ==> exists b :: IsIndex(b, topics.Keys) && storage.recs == old(storage.recs)[QueueIndex := b]
      ensures !ok ==> storage.recs == old(storage.recs)
    {
      var buf := IndexBytes();
      ok := storage.SetRecord(QueueIndex, buf);
    }

    /** One round of `exportTopics`: the lines of a topic, then the topic. */
    method ExportOne(t: Bytes, ghost u: QueueState, ghost done: set<Bytes>)
      requires Shape() && t in topics && Topics() == u.topics && t !in done
      requires storage.reliable ==> Exported(u, done, storage.recs)
      modifies storage
      ensures storage.Valid() && (storage.reliable ==> Exported(u, done + {t}, storage.recs))
    {
      var x := topics[t];
      ghost var recs0 := storage.recs;
      ghost var s := x.State();
      assert u.topics[t] == s;
      ghost var saved := x.SaveLines();
      var ok := x.ExportTopic();
      if storage.reliable {
        ghost var b :| IsTopicBytes(b, x.lines.Keys, x.persist)
                    && storage.recs == ExportLines(recs0, s, saved)[TopicRec(t) := b];
        ExportedMore(u, done, t, recs0, b, storage.recs);
      }
    }

    /** `exportTopics`, which `Close` ends with. */
    method Close()
      requires Shape()
      modifies storage
      ensures Shape() && Topics() == old(Topics())
      ensures storage.reliable ==> Exported(old(State()), old(State()).topics.Keys, storage.recs)
    {
      ghost var u := State();
      var todo := topics.Keys;
      while todo != {}
        invariant todo <= topics.Keys && Shape() && Topics() == u.topics
        invariant storage.reliable ==> Exported(u, topics.Keys - todo, storage.recs)
        decreases todo
      {
        var t :| t in todo;
        ExportOne(t, u, topics.Keys - todo);
        assert topics.Keys - (todo - {t}) == topics.Keys - todo + {t};
        todo := todo - {t};
      }
      assert topics.Keys - todo == u.topics.Keys;
    }
  
    /** `newTopic`: an empty topic whose head and tail have been saved. */
    method NewTopic(name: Bytes, persist: bool) returns (t: Topic, ok: bool)
      requires storage.Valid() && OwnTopic(name)
      modifies storage
      ensures fresh(t) && TopicShape(name, t) && t.State() == QueueSpec.NewTopic(name, persist) && t.lines == map[]
      ensures storage.Valid() && (storage.reliable ==> ok)
      ensures ok ==> storage.recs == old(storage.recs)[HeadRec(name) := PutUint64(0)][TailRec(name) := PutUint64(0)]
      ensures SameBut(old(storage.recs), storage.recs, name)
    {
      t := new Topic(storage, name, persist);
      ok := t.ExportHead();
      if ok {
        ok := t.ExportTail();
      }
    }

    /** The name joins the map and the index, or leaves the map again. */
    method Enlist(name: Bytes, t: Topic) returns (ok: bool)
      requires Shape() && name !in topics && TopicShape(name, t)
      modifies this`topics, storage
      ensures Shape() && (storage.reliable ==> ok)
      ensures topics == if ok then old(topics)[name := t] else old(topics)
      ensures ok ==> exists b :: IsIndex(b, topics.Keys) && storage.recs == old(storage.recs)[QueueIndex := b]
      ensures !ok ==> storage.recs == old(storage.recs)
    {
      PutThenDelete(topics, name, t);
      topics := topics[name := t];
      ok := ExportQueue();
      if !ok {
        topics := topics - {name};
      }
    }

    method Register(name: Bytes, t: Topic) returns (ok: bool)
      requires Shape() && name !in topics && TopicShape(name, t)
      modifies this`topics, storage
      ensures Shape() && (storage.reliable ==> ok) && topics == if ok then old(topics)[name := t] else old(topics)
      ensures Topics() == if ok then old(Topics())[name := old(t.State())] else old(Topics())
      ensures ok ==> exists b :: IsIndex(b, Topics().Keys) && storage.recs == old(storage.recs)[QueueIndex := b]
      ensures !ok ==> storage.recs == old(storage.recs)
    {
      ghost var s, ts, ts0 := t.State(), Topics(), topics;
      ok := Enlist(name, t);
      assert t.State() == s;
      assert forall n :: n in ts ==> ts0[n].State() == ts[n];
      TopicsAre(if ok then ts[name := s] else ts);
    }

    /** The second half of `createTopic`: a topic that cannot be put on the index is removed again. */
    method AddTopic(name: Bytes, t: Topic) returns (ok: bool)
      requires Shape() && name !in topics && TopicShape(name, t) && t.lines == map[]
      requires t.State() == QueueSpec.NewTopic(name, t.persist)
      modifies this`topics, storage, t`lines
      ensures Shape() && (storage.reliable ==> ok)
      ensures Topics() == if ok then old(Topics())[name := old(t.State())] else old(Topics())
      ensures ok ==> exists b :: IsIndex(b, Topics().Keys) && storage.recs == old(storage.recs)[QueueIndex := b]
      ensures !ok ==> SameBut(old(storage.recs), storage.recs, name)
    {
      ok := Register(name, t);
      if !ok {
        Discard(t);
      }
    }

    /** A topic without lines that is in no map: removing it leaves the queue alone. */
    method Discard(t: Topic)
      requires Shape() && TopicShape(t.name, t) && t.lines == map[] && t.name !in topics
      requires t.State() == QueueSpec.NewTopic(t.name, t.persist)
      modifies storage, t`lines
      ensures Shape() && Topics() == old(Topics()) && SameBut(old(storage.recs), storage.recs, t.name)
    {
      ghost var gone := t.Remove();
      Undone(old(storage.recs), t.name, t.persist, old(storage.recs), gone, storage.recs);
    }

    method MakeTopic(name: Bytes, persist: bool) returns (ok: bool)
      requires Shape() && OwnTopic(name) && name !in topics
      modifies this`topics, storage
      ensures Shape() && (storage.reliable ==> ok)
      ensures if ok then CreateTopicOk(old(State()), name, persist, State()) else CreateTopicFailed(old(State()), name, State())
    {
      ghost var ts := Topics();
      var t;
      t, ok := NewTopic(name, persist);
      assert Topics() == ts;
      if ok {
        ok := AddTopic(name, t);
      }
    }

    method CreateTopic(name: Bytes, persist: bool) returns (r: Result<(), Error>)
      requires Shape() && PlainTopic(name)
      modifies this`topics, storage
      ensures Shape()
      ensures r.Ok? ==> CreateTopicOk(old(State()), name, persist, State())
      ensures r.Err? ==> CreateTopicFailed(old(State()), name, State())
      ensures name in old(topics) ==> r == Err(ErrTopicExisted)
      ensures storage.reliable && name !in old(topics) ==> r.Ok?
    {
      if name in topics { return Err(ErrTopicExisted); }
      OwnNames(name);
      var ok := MakeTopic(name, persist);
      r := if ok then Ok(()) else Err(ErrInternal);
    }
  
    /** `removeTopic` after the index has been saved without the topic. */
    method Destroy(t: Topic) returns (ghost gone: iset<Key>)
      requires Shape() && TopicShape(t.name, t) && t.name !in topics
      modifies storage, t`lines
      ensures Shape() && Topics() == old(Topics())
      ensures storage.recs == Minus(old(storage.recs), gone) && Within(gone, old(t.State()))
      ensures storage.reliable ==> storage.recs == Minus(old(storage.recs), RemovedKeys(old(t.State())))
    {
      gone := t.Remove();
    }

    /** The first half of `removeTopic`: the name leaves the map and the index, or comes back. */
    method Unlist(name: Bytes) returns (ok: bool)
      requires Shape() && name in topics
      modifies this`topics, storage
      ensures Shape() && (storage.reliable ==> ok)
      ensures topics == if ok then old(topics) - {name} else old(topics)
      ensures ok ==> exists b :: IsIndex(b, topics.Keys) && storage.recs == old(storage.recs)[QueueIndex := b]
      ensures !ok ==> storage.recs == old(storage.recs)
    {
      var t := topics[name];
      PutThenDelete(topics, name, t);
      topics := topics - {name};
      ok := ExportQueue();
      if !ok {
        topics := topics[name := t];
      }
    }

    method Deregister(name: Bytes) returns (ok: bool)
      requires Shape() && name in topics
      modifies this`topics, storage
      ensures Shape() && (storage.reliable ==> ok) && topics == if ok then old(topics) - {name} else old(topics)
      ensures Topics() == if ok then old(Topics()) - {name} else old(Topics())
      ensures ok ==> exists b :: IsIndex(b, Topics().Keys) && storage.recs == old(storage.recs)[QueueIndex := b]
      ensures !ok ==> storage.recs == old(storage.recs)
      ensures old(topics)[name].State() == old(Topics())[name]
    {
      ghost var ts, ts0 := Topics(), topics;
      ok := Unlist(name);
      assert forall n :: n in ts ==> ts0[n].State() == ts[n];
      TopicsAre(if ok then ts - {name} else ts);
    }

    method RemoveTopic(name: Bytes) returns (r: Result<(), Error>, ghost gone: iset<Key>)
      requires Shape()
      modifies this`topics, storage, topics.Values
      ensures Shape()
      ensures r.Ok? ==> RemoveTopicOk(old(State()), name, gone, State())
      ensures r.Err? ==> State() == old(State())
      ensures name !in old(topics) ==> r == Err(ErrTopicNotExisted)
      ensures storage.reliable && name in old(topics) ==>
                r.Ok? && RemoveTopicOk(old(State()), name, RemovedKeys(old(State()).topics[name]), State())
    {
      gone := iset{};
      if name !in topics { return Err(ErrTopicNotExisted), gone; }
      var t := topics[name];
      var ok := Deregister(name);
      if ok {
        gone := Destroy(t);
      }
      r := if ok then Ok(()) else Err(ErrInternal);
    }

    // ----- Requests by key -----

    /** Topics share no line. */
    lemma TopicsApart(t: Bytes)
      requires Shape() && t in topics
      ensures forall o :: o in topics && o != t ==>
                topics[o] != topics[t] && topics[o].lines.Values !! topics[t].lines.Values
    {
    }

    method PushAt(t: Bytes, x: Topic, data: Bytes) returns (r: Result<(), Error>)
      requires Shape() && t in topics && topics[t] == x
      modifies x`tail, x`log, storage
      ensures Shape() && Topics() == old(Topics())[t := x.State()] && (storage.reliable ==> r.Ok?)
      ensures if r.Ok? then x.Whole() == PushOk(old(x.Whole()), data)
              else r == Err(ErrInternal) && PushFailed(old(x.Whole()), data, x.Whole())
    {
      TopicsApart(t);
      r := x.Push(data);
      assert forall o :: o in topics ==> TopicShape(o, topics[o]);
      assert forall o :: o in topics && o != t ==> topics[o].State() == old(topics[o].State());
      OneChanged(old(Topics()), Topics(), t, x.State());
    }

    method Push(key: Bytes, data: Bytes) returns (r: Result<(), Error>)
      requires Shape()
      modifies topics.Values, storage
      ensures Shape() && QueuePush(old(State()), key, data, r, State())
      ensures storage.reliable && data != [] && Trim(key) in topics ==> r.Ok?
    {
      if data == [] { return Err(ErrBadRequest); }
      var t := Trim(key);
      if t !in topics { return Err(ErrTopicNotExisted); }
      r := PushAt(t, topics[t], data);
    }

    method MPushAt(t: Bytes, x: Topic, datas: seq<Bytes>) returns (r: Result<(), Error>)
      requires Shape() && t in topics && topics[t] == x
      modifies x`tail, x`log, storage
      ensures Shape() && Topics() == old(Topics())[t := x.State()] && (storage.reliable ==> r.Ok?)
      ensures if r.Ok? then x.Whole() == MPushOk(old(x.Whole()), datas)
              else r == Err(ErrInternal) && MPushFailed(old(x.Whole()), datas, x.Whole())
    {
      TopicsApart(t);
      r := x.MPush(datas);
      assert forall o :: o in topics ==> TopicShape(o, topics[o]);
      assert forall o :: o in topics && o != t ==> topics[o].State() == old(topics[o].State());
      OneChanged(old(Topics()), Topics(), t, x.State());
    }

    method MultiPush(key: Bytes, datas: seq<Bytes>) returns (r: Result<(), Error>)
      requires Shape()
      modifies topics.Values, storage
      ensures Shape() && QueueMultiPush(old(State()), key, datas, r, State())
      ensures storage.reliable && [] !in datas && Trim(key) in topics ==> r.Ok?
    {
      for i := 0 to |datas|
        invariant [] !in datas[..i]
      {
        if datas[i] == [] { return Err(ErrBadRequest); }
      }
      var t := Trim(key);
      if t !in topics { return Err(ErrTopicNotExisted); }
      r := MPushAt(t, topics[t], datas);
    }

    method PopAt(t: Bytes, x: Topic, n: Bytes, now: int) returns (p: Result<Popped, Error>)
      requires Shape() && t in topics && topics[t] == x
      modifies x`clock, x.lines.Values
      ensures Shape() && Topics() == old(Topics())[t := x.State()]
      ensures x.State() == old(x.State()) ==> Topics() == old(Topics())
      ensures if n in x.lines then
                && x.Whole() == PopStep(old(x.Whole()), n, now)
                && p == LineSpec.Pop(old(x.State()).lines[n].line, x.tail, Msgs(old(x.Whole())), now).1
              else x.State() == old(x.State()) && p == Err(ErrLineNotExisted)
    {
      TopicsApart(t);
      p := x.Pop(n, now);
      assert forall o :: o in topics && o != t ==> topics[o].State() == old(topics[o].State());
      OneChanged(old(Topics()), Topics(), t, x.State());
    }

    method Pop(key: Bytes, now: int) returns (r: Result<(Bytes, Bytes), Error>)
      requires Shape()
      modifies topics.Values, set x, l | x in topics.Values && l in x.lines.Values :: l
      ensures Shape() && (State(), r) == QueuePop(old(State()), key, now)
    {
      var k := PopKey(key);
      if k.Err? { return Err(k.error); }
      var (t, n) := k.value;
      if t !in topics { return Err(ErrTopicNotExisted); }
      var p := PopAt(t, topics[t], n, now);
      r := if p.Ok? then Ok((IdOf(key, p.value.id), p.value.data)) else Err(p.error);
    }
  
    method MPopAt(t: Bytes, x: Topic, n: Bytes, k: int, now: int) returns (p: Result<Batch, Error>)
      requires Shape() && t in topics && topics[t] == x
      modifies x`clock, x.lines.Values
      ensures Shape() && Topics() == old(Topics())[t := x.State()]
      ensures x.State() == old(x.State()) ==> Topics() == old(Topics())
      ensures if n in x.lines then
                && x.Whole() == MPopStep(old(x.Whole()), n, k, now)
                && p == LineSpec.MPop(old(x.State()).lines[n].line, x.tail, Msgs(old(x.Whole())), now, k).1
              else x.State() == old(x.State()) && p == Err(ErrLineNotExisted)
    {
      TopicsApart(t);
      p := x.MPop(n, k, now);
      assert forall o :: o in topics && o != t ==> topics[o].State() == old(topics[o].State());
      OneChanged(old(Topics()), Topics(), t, x.State());
    }

    /** The batch as the client sees it. */
    method ClientBatch(key: Bytes, p: Result<Batch, Error>) returns (r: Result<(seq<Bytes>, seq<Bytes>), Error>)
      requires Shape()
      ensures Shape() && State() == old(State())
      ensures r == if p.Ok? then Ok((IdsOf(key, p.value.ids), p.value.datas)) else Err(p.error)
    {
      if p.Err? { return Err(p.error); }
      var keys := MakeIds(key, p.value.ids);
      r := Ok((keys, p.value.datas));
    }

    method MultiPop(key: Bytes, n: int, now: int) returns (r: Result<(seq<Bytes>, seq<Bytes>), Error>)
      requires Shape()
      modifies topics.Values, set x, l | x in topics.Values && l in x.lines.Values :: l
      ensures Shape() && (State(), r) == QueueMultiPop(old(State()), key, n, now)
    {
      var k := PopKey(key);
      if k.Err? { return Err(k.error); }
      var (t, l) := k.value;
      if t !in topics { return Err(ErrTopicNotExisted); }
      var p := MPopAt(t, topics[t], l, n, now);
      r := ClientBatch(key, p);
    }

    method ConfirmAt(t: Bytes, x: Topic, n: Bytes, id: nat) returns (r: Result<(), Error>)
      requires Shape() && t in topics && topics[t] == x
      modifies x.lines.Values
      ensures Shape() && Topics() == old(Topics())[t := x.State()]
      ensures x.State() == old(x.State()) ==> Topics() == old(Topics())
      ensures if n in x.lines then
                && x.Whole() == ConfirmStep(old(x.Whole()), n, id)
                && r == LineSpec.Confirm(old(x.State()).lines[n].line, id).1
              else x.State() == old(x.State()) && r == Err(ErrLineNotExisted)
    {
      TopicsApart(t);
      r := x.Confirm(n, id);
      assert forall o :: o in topics && o != t ==> topics[o].State() == old(topics[o].State());
      OneChanged(old(Topics()), Topics(), t, x.State());
    }

    method Confirm(key: Bytes) returns (r: Result<(), Error>)
      requires Shape()
      modifies set x, l | x in topics.Values && l in x.lines.Values :: l
      ensures Shape() && (State(), r) == QueueConfirm(old(State()), key)
    {
      var k := ConfirmKey(key);
      if k.Err? { return Err(k.error); }
      var (t, n, id) := k.value;
      if t !in topics { return Err(ErrTopicNotExisted); }
      r := ConfirmAt(t, topics[t], n, id);
    }

    /** One round of the loop: the answers to one key more. */
    method ConfirmNext(keys: seq<Bytes>, i: nat, ghost u: QueueState, errs: seq<Result<(), Error>>)
      returns (errs': seq<Result<(), Error>>)
      requires Shape() && i < |keys| && (State(), errs) == OneByOne(QueueConfirm, u, keys[..i])
      modifies set x, l | x in topics.Values && l in x.lines.Values :: l
      ensures Shape() && (State(), errs') == OneByOne(QueueConfirm, u, keys[..i + 1])
    {
      OneMore(QueueConfirm, u, keys, i);
      var r := Confirm(keys[i]);
      errs' := errs + [r];
    }

    method MultiConfirm(keys: seq<Bytes>) returns (errs: seq<Result<(), Error>>)
      requires Shape()
      modifies set x, l | x in topics.Values && l in x.lines.Values :: l
      ensures Shape() && (State(), errs) == QueueMultiConfirm(old(State()), keys)
    {
      ghost var u := State();
      errs := [];
      var i := 0;
      while i < |keys|
        invariant i <= |keys| && Shape() && (State(), errs) == OneByOne(QueueConfirm, u, keys[..i])
      {
        errs := ConfirmNext(keys, i, u, errs);
        i := i + 1;
      }
      assert keys[..i] == keys;
    }
  }
}
