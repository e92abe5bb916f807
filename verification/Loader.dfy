/** Loading as the source does it, reading the store step by step (queue/uQueue.go, queue/uTopic.go). */
module Loader {
  import opened Base
  import opened Decimal
  import opened StoreKeys
  import opened LineSpec
  import opened LineHistory
  import opened Wire
  import WireBuffers
  import Recovery
  import opened RecoveryTypes = Recovery
  import opened Store

  /** The flags derived from the first `k` in-flight messages. */
  function FlagsUpTo(ls: LineStore, k: nat): map<nat, bool>
    requires k <= |ls.inflights|
  {
    RebuiltFlags(ls.(inflights := ls.inflights[..k]))
  }

  lemma FlagsMore(ls: LineStore, k: nat)
    requires k < |ls.inflights|
    ensures FlagsUpTo(ls, k)[ls.inflights[k].tid := true] == FlagsUpTo(ls, k + 1)
  {
    var s := ls.inflights;
    assert s[..k + 1] == s[..k] + [s[k]];
    assert IdSet(s[..k + 1]) == IdSet(s[..k]) + {s[k].tid};
  }

  lemma FlagsAll(ls: LineStore)
    ensures FlagsUpTo(ls, |ls.inflights|) == RebuiltFlags(ls)
  {
    assert ls.inflights[..|ls.inflights|] == ls.inflights;
  }

  function NoFlags(lo: nat, hi: nat): map<nat, bool> {
    map id | id in IdRange(lo, hi) :: false
  }

  lemma NoFlagsMore(lo: nat, i: nat)
    requires lo <= i
    ensures NoFlags(lo, i)[i := false] == NoFlags(lo, i + 1)
  {
  }

  lemma NoFlagsAll(ls: LineStore, i: nat)
    requires i == if ls.ihead <= ls.head then ls.head else ls.ihead
    ensures NoFlags(ls.ihead, i) == FlagsUpTo(ls, 0)
  {
    assert IdSet(ls.inflights[..0]) == {};
  }

  /** The first loop of `loadLine`: false from `ihead` to `head`. */
  method ClearFlags(ls: LineStore) returns (flags: map<nat, bool>)
    ensures flags == FlagsUpTo(ls, 0)
  {
    var i := ls.ihead;
    flags := map[];
    while i < ls.head
      invariant ls.ihead <= i && (i <= ls.head || i == ls.ihead)
      invariant flags == NoFlags(ls.ihead, i)
    {
      NoFlagsMore(ls.ihead, i);
      flags := flags[i := false];
      i := i + 1;
    }
    NoFlagsAll(ls, i);
  }

  /** The second loop: true for what is in flight. */
  method RebuildFlags(ls: LineStore) returns (flags: map<nat, bool>)
    ensures flags == RebuiltFlags(ls)
  {
    flags := ClearFlags(ls);
    var k := 0;
    while k < |ls.inflights|
      invariant k <= |ls.inflights| && flags == FlagsUpTo(ls, k)
    {
      FlagsMore(ls, k);
      flags := flags[ls.inflights[k].tid := true];
      k := k + 1;
    }
    FlagsAll(ls);
  }

  method Lookup(q: Storage, k: Key) returns (r: Option<Bytes>)
    ensures r == if k in Raw(q.db) then Some(Raw(q.db)[k]) else None
  {
    r := q.GetData(Render(k));
  }

  /** The store of the line, then its recycle time. */
  method LoadLine(q: Storage, t: Bytes, n: Bytes) returns (r: LineLoad)
    ensures r == Recovery.LoadLine(Raw(q.db), t, n)
  {
    var data := Lookup(q, LineRec(t, n));
    if data == None || data.value == [] { return Abort; }
    var ls := WireBuffers.LineUnmarshal(data.value);
    if ls.Err? { return Abort; }
    var recycle := Lookup(q, RecycleRec(t, n));
    if recycle == None || !Atoi(recycle.value).ok { return Skipped; }
    var flags := RebuildFlags(ls.value);
    return Loaded(LineState(Atoi(recycle.value).value, ls.value.head, ls.value.inflights, ls.value.ihead, flags));
  }

  /** One more name, after names that all loaded or were skipped. */
  lemma LoadLinesMore(recs: Records, t: Bytes, names: seq<Bytes>, i: nat, m: map<Bytes, LineState>)
    requires i < |names| && Recovery.LoadLines(recs, t, names[..i]) == Some(m)
    ensures Recovery.LoadLines(recs, t, names[..i + 1]) ==
              match Recovery.LoadLine(recs, t, names[i])
              case Abort => None
              case Skipped => Some(m)
              case Loaded(l) => Some(m[names[i] := l])
  {
    assert names[..i + 1][..i] == names[..i];
  }

  method LoadLines(q: Storage, t: Bytes, names: seq<Bytes>) returns (r: Option<map<Bytes, LineState>>)
    ensures r == Recovery.LoadLines(Raw(q.db), t, names)
  {
    var m := map[];
    var i := 0;
    while i < |names|
      invariant i <= |names| && Recovery.LoadLines(Raw(q.db), t, names[..i]) == Some(m)
    {
      LoadLinesMore(Raw(q.db), t, names, i, m);
      var l := LoadLine(q, t, names[i]);
      if l.Abort? {
        LoadLinesStops(Raw(q.db), t, names, i + 1);
        return None;
      }
      if l.Loaded? {
        m := m[names[i] := l.line];
      }
      i := i + 1;
    }
    assert names[..i] == names;
    return Some(m);
  }

  lemma {:induction false} LoadLinesStops(recs: Records, t: Bytes, names: seq<Bytes>, i: nat)
    requires i <= |names| && Recovery.LoadLines(recs, t, names[..i]) == None
    ensures Recovery.LoadLines(recs, t, names) == None
    decreases |names|
  {
    if i < |names| {
      assert names[..|names| - 1][..i] == names[..i];
      LoadLinesStops(recs, t, names[..|names| - 1], i);
    } else {
      assert names[..i] == names;
    }
  }

  /** The saved head and tail. */
  method LoadBounds(q: Storage, t: Bytes) returns (head: Option<nat>, tail: Option<nat>)
    ensures head == if HeadRec(t) in Raw(q.db) then Uint64(Raw(q.db)[HeadRec(t)]) else None
    ensures tail == if TailRec(t) in Raw(q.db) then Uint64(Raw(q.db)[TailRec(t)]) else None
  {
    var h := Lookup(q, HeadRec(t));
    head := if h == None then None else Uint64(h.value);
    var d := Lookup(q, TailRec(t));
    tail := if d == None then None else Uint64(d.value);
  }

  method LoadTopic(q: Storage, t: Bytes) returns (r: Option<LoadedTopic>)
    ensures r == Recovery.LoadTopic(Raw(q.db), t)
  {
    var data := Lookup(q, TopicRec(t));
    if data == None || data.value == [] { return None; }
    var ts := WireBuffers.TopicUnmarshal(data.value);
    if ts.Err? { return None; }
    var head, tail := LoadBounds(q, t);
    if head == None || tail == None { return None; }
    var lines := LoadLines(q, t, ts.value.lines);
    if lines == None { return None; }
    return Some(LoadedTopic(ts.value.persist, head.value, tail.value, lines.value));
  }

  lemma LoadTopicsMore(recs: Records, names: seq<Bytes>, i: nat, m: map<Bytes, LoadedTopic>)
    requires i < |names| && Recovery.LoadTopics(recs, names[..i]) == Some(m)
    ensures Recovery.LoadTopics(recs, names[..i + 1]) ==
              match Recovery.LoadTopic(recs, names[i])
              case None => None
              case Some(t) => Some(m[names[i] := t])
  {
    assert names[..i + 1][..i] == names[..i];
  }

  method LoadTopics(q: Storage, names: seq<Bytes>) returns (r: Option<map<Bytes, LoadedTopic>>)
    ensures r == Recovery.LoadTopics(Raw(q.db), names)
  {
    var m := map[];
    var i := 0;
    while i < |names|
      invariant i <= |names| && Recovery.LoadTopics(Raw(q.db), names[..i]) == Some(m)
    {
      LoadTopicsMore(Raw(q.db), names, i, m);
      var t := LoadTopic(q, names[i]);
      if t == None {
        LoadTopicsStops(Raw(q.db), names, i + 1);
        return None;
      }
      m := m[names[i] := t.value];
      i := i + 1;
    }
    assert names[..i] == names;
    return Some(m);
  }

  lemma {:induction false} LoadTopicsStops(recs: Records, names: seq<Bytes>, i: nat)
    requires i <= |names| && Recovery.LoadTopics(recs, names[..i]) == None
    ensures Recovery.LoadTopics(recs, names) == None
    decreases |names|
  {
    if i < |names| {
      assert names[..|names| - 1][..i] == names[..i];
      LoadTopicsStops(recs, names[..|names| - 1], i);
    } else {
      assert names[..i] == names;
    }
  }

  method LoadQueue(q: Storage) returns (r: Option<map<Bytes, LoadedTopic>>)
    ensures r == Recovery.LoadQueue(Raw(q.db))
  {
    var data := Lookup(q, QueueIndex);
    if data == None || data.value == [] { return Some(map[]); }
    var qs := WireBuffers.QueueUnmarshal(data.value);
    if qs.Err? { return None; }
    r := LoadTopics(q, qs.value.topics);
  }

  // ----- Under plain names this is loading from the records -----

  lemma RawAt(db: map<Bytes, Bytes>, k: Key)
    requires Plain(k)
    ensures k in Raw(db) <==> k in View(db)
    ensures k in Raw(db) ==> Raw(db)[k] == View(db)[k]
  {
  }

  lemma RawLine(db: map<Bytes, Bytes>, t: Bytes, n: Bytes)
    requires PlainTopic(t) && PlainLine(n)
    ensures Recovery.LoadLine(Raw(db), t, n) == Recovery.LoadLine(View(db), t, n)
  {
    RawAt(db, LineRec(t, n));
    RawAt(db, RecycleRec(t, n));
  }

  lemma {:induction false} RawLines(db: map<Bytes, Bytes>, t: Bytes, names: seq<Bytes>)
    requires PlainTopic(t) && forall i :: 0 <= i < |names| ==> PlainLine(names[i])
    ensures Recovery.LoadLines(Raw(db), t, names) == Recovery.LoadLines(View(db), t, names)
    decreases |names|
  {
    if names != [] {
      RawLines(db, t, names[..|names| - 1]);
      RawLine(db, t, names[|names| - 1]);
    }
  }

  /** The names listed in a saved topic are plain. */
  ghost predicate PlainTopicRecord(recs: Records, t: Bytes) {
    PlainTopic(t) &&
    (TopicRec(t) in recs && UnmarshalTopic(recs[TopicRec(t)]).Ok? ==>
       forall n :: n in UnmarshalTopic(recs[TopicRec(t)]).value.lines ==> PlainLine(n))
  }

  lemma RawTopic(db: map<Bytes, Bytes>, t: Bytes)
    requires PlainTopicRecord(View(db), t)
    ensures Recovery.LoadTopic(Raw(db), t) == Recovery.LoadTopic(View(db), t)
  {
    RawAt(db, TopicRec(t));
    RawAt(db, HeadRec(t));
    RawAt(db, TailRec(t));
    if TopicRec(t) in View(db) && UnmarshalTopic(View(db)[TopicRec(t)]).Ok? {
      RawLines(db, t, UnmarshalTopic(View(db)[TopicRec(t)]).value.lines);
    }
  }

  lemma {:induction false} RawTopics(db: map<Bytes, Bytes>, names: seq<Bytes>)
    requires forall i :: 0 <= i < |names| ==> PlainTopicRecord(View(db), names[i])
    ensures Recovery.LoadTopics(Raw(db), names) == Recovery.LoadTopics(View(db), names)
    decreases |names|
  {
    if names != [] {
      RawTopics(db, names[..|names| - 1]);
      RawTopic(db, names[|names| - 1]);
    }
  }

  ghost predicate PlainQueueRecord(recs: Records) {
    QueueIndex in recs && UnmarshalQueue(recs[QueueIndex]).Ok? ==>
      forall t :: t in UnmarshalQueue(recs[QueueIndex]).value.topics ==> PlainTopicRecord(recs, t)
  }

  /** So what is proved of loading from the records holds of loading from the store. */
  lemma RawQueue(db: map<Bytes, Bytes>)
    requires PlainQueueRecord(View(db))
    ensures Recovery.LoadQueue(Raw(db)) == Recovery.LoadQueue(View(db))
  {
    RawAt(db, QueueIndex);
    if QueueIndex in View(db) && UnmarshalQueue(View(db)[QueueIndex]).Ok? {
      RawTopics(db, UnmarshalQueue(View(db)[QueueIndex]).value.topics);
    }
  }
}
