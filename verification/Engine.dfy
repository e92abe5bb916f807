/** Lines and topics as the source runs them: objects whose methods update their fields in place. */
module Engine {
  import opened Base
  import opened StoreKeys
  import LineSpec
  import opened LineSpecTypes = LineSpec
  import opened LineProofs
  import opened LineHistory
  import opened Wire
  import WireBuffers
  import opened TopicSpec
  import opened TopicProofs
  import opened Sweep
  import opened Store

  class Line {
    const name: Bytes
    const recycle: int
    const t: Topic
    var head: nat
    var inflight: seq<InflightMessage>
    var ihead: nat
    var flags: map<nat, bool>
    ghost var hist: History

    ghost function State(): LineState
      reads this
    {
      LineState(recycle, head, inflight, ihead, flags)
    }

    ghost function View(): Tracked
      reads this
    {
      Tracked(State(), hist)
    }

    constructor (t: Topic, name: Bytes, recycle: int, start: nat)
      ensures this.t == t && this.name == name && View() == NewTracked(recycle, start)
    {
      this.t, this.name, this.recycle := t, name, recycle;
      head, ihead := start, start;
      inflight, flags := [], map[];
      hist := History(start, {}, {}, []);
    }

    /** `updateiHead`: the index moves up over confirmed ids and forgets them. */
    method UpdateIhead()
      modifies this`ihead, this`flags
      ensures (ihead, flags) == LineSpec.UpdateIhead(old(ihead), head, old(flags))
    {
      while ihead < head
        invariant LineSpec.UpdateIhead(ihead, head, flags) == LineSpec.UpdateIhead(old(ihead), head, old(flags))
      {
        var id := ihead;
        if id !in flags {
          ihead := ihead + 1;
        } else {
          if flags[id] { return; }
          flags := flags - {id};
          ihead := ihead + 1;
        }
      }
    }

    /** The first half of `pop`: the front of the in-flight list has expired and goes out again. */
    method Redeliver(now: int) returns (r: Result<Popped, Error>)
      requires t.q.Valid() && OwnTopic(t.name) && inflight != []
      modifies this`inflight, this`hist
      ensures var m := InflightMessage(old(inflight)[0].tid, now + recycle);
              var k := MsgRec(t.name, m.tid);
              if k in t.q.recs then
                && inflight == old(inflight)[1..] + [m] && hist == Deliver(old(hist), [m.tid], now)
                && r == Ok(Popped(m.tid, t.q.recs[k]))
              else inflight == old(inflight)[0 := m] && hist == old(hist) && r == Err(ErrInternal)
    {
      var msg := InflightMessage(inflight[0].tid, now + recycle);
      inflight := inflight[0 := msg];
      var data := t.q.GetRecord(MsgRec(t.name, msg.tid));
      if data == None { return Err(ErrInternal); }
      assert inflight[1..] == old(inflight)[1..];
      inflight := inflight[1..] + [msg];
      hist := Deliver(hist, [msg.tid], now);
      return Ok(Popped(msg.tid, data.value));
    }

    /** The cursor moves over its message, which becomes in flight if the line recycles. */
    method MoveHead(now: int)
      modifies this`head, this`inflight, this`flags
      ensures State() == TakeHead(old(State()), now)
    {
      var tid := head;
      head := head + 1;
      if recycle > 0 {
        inflight := inflight + [InflightMessage(tid, now + recycle)];
        flags := flags[tid := true];
      }
    }

    /** The second half of `pop`: the message at the cursor, if there is one. */
    method Advance(now: int) returns (r: Result<Popped, Error>)
      requires t.q.Valid() && OwnTopic(t.name)
      modifies this
      ensures var k := MsgRec(t.name, old(head));
              if old(head) < t.tail && k in t.q.recs then
                && State() == TakeHead(old(State()), now) && hist == Deliver(old(hist), [old(head)], now)
                && r == Ok(Popped(old(head), t.q.recs[k]))
              else View() == old(View()) && r == Err(if old(head) >= t.tail then ErrNone else ErrInternal)
    {
      var tid := head;
      if head >= t.tail { return Err(ErrNone); }
      var data := t.q.GetRecord(MsgRec(t.name, tid));
      if data == None { return Err(ErrInternal); }
      MoveHead(now);
      hist := Deliver(hist, [tid], now);
      return Ok(Popped(tid, data.value));
    }

    method Pop(now: int) returns (r: Result<Popped, Error>)
      requires t.q.Valid() && OwnTopic(t.name)
      modifies this
      ensures (State(), r) == LineSpec.Pop(old(State()), t.tail, MsgsOf(t.name, t.q.recs), now)
      ensures hist == if r.Ok? then Deliver(old(hist), [r.value.id], now) else old(hist)
    {
      if recycle > 0 && inflight != [] && Expired(inflight[0], now) {
        r := Redeliver(now);
      } else {
        r := Advance(now);
      }
    }

    method Confirm(id: nat) returns (r: Result<(), Error>)
      modifies this
      ensures View() == ConfirmTracked(old(View()), id)
      ensures r == LineSpec.Confirm(old(State()), id).1
    {
      if recycle == 0 { return Err(ErrNotDelivered); }
      if id >= head { return Err(ErrNotDelivered); }
      var k := 0;
      while k < |inflight|
        invariant k <= |inflight| && Find(inflight, id) >= k
      {
        if inflight[k].tid == id {
          inflight := inflight[..k] + inflight[k + 1..];
          flags := flags[id := false];
          UpdateIhead();
          hist := hist.(confirmed := hist.confirmed + {id}, trace := hist.trace + [Confirmed(id)]);
          return Ok(());
        }
        k := k + 1;
      }
      return Err(ErrNotDelivered);
    }

    // ----- mPop, in the order of its loops -----

    /** `getData` of the topic. */
    method Read(id: nat) returns (data: Option<Bytes>)
      requires t.q.Valid() && OwnTopic(t.name)
      ensures var msgs := MsgsOf(t.name, t.q.recs); data == if id in msgs then Some(msgs[id]) else None
    {
      data := t.q.GetRecord(MsgRec(t.name, id));
    }

    /** Collects the expired messages at the front, at most `n`, without moving them. */
    method ScanExpired(n: int, now: int) returns (ok: bool, fc: nat, datas: seq<Bytes>)
      requires t.q.Valid() && OwnTopic(t.name)
      ensures fc <= |inflight|
      ensures var msgs := MsgsOf(t.name, t.q.recs);
              var again := Tids(inflight[..ExpiredFront(inflight, now, n)]);
              && (ok <==> AllStored(again, msgs))
              && (ok ==> fc == ExpiredFront(inflight, now, n) && datas == Fetch(again, msgs))
    {
      ghost var msgs := MsgsOf(t.name, t.q.recs);
      fc, datas, ok := 0, [], true;
      while fc < |inflight| && fc < n && Expired(inflight[fc], now)
        invariant (fc == 0 || fc <= n) && Scanned(inflight, msgs, now, fc, datas)
      {
        var data := Read(inflight[fc].tid);
        if data == None {
          ScanFails(inflight, msgs, now, n, fc, datas);
          return false, fc, datas;
        }
        ScannedMore(inflight, msgs, now, fc, datas);
        datas := datas + [data.value];
        fc := fc + 1;
      }
      ScanDone(inflight, msgs, now, n, fc, datas);
    }

    /** Restamps the first `fc` in-flight messages and moves them to the back, one by one. */
    method RotateFront(fc: nat, exptime: int)
      requires fc <= |inflight|
      modifies this`inflight
      ensures inflight == Rotated(old(inflight), fc, exptime)
    {
      assert Rotated(inflight, 0, exptime) == inflight;
      for i := 0 to fc
        invariant inflight == Rotated(old(inflight), i, exptime)
      {
        RotatedStep(old(inflight), i, exptime);
        var msg := InflightMessage(inflight[0].tid, exptime);
        inflight := inflight[1..] + [msg];
      }
    }

    /** Moves the cursor over at most `n` messages. */
    method TakeMany(n: int, now: int) returns (ids: seq<nat>, datas: seq<Bytes>)
      requires t.q.Valid() && OwnTopic(t.name)
      modifies this`head, this`inflight, this`flags
      ensures (State(), ids) == LineSpec.TakeMany(old(State()), t.tail, MsgsOf(t.name, t.q.recs), now, n)
      ensures datas == Fetch(ids, MsgsOf(t.name, t.q.recs))
    {
      ghost var msgs := MsgsOf(t.name, t.q.recs);
      ghost var all := LineSpec.TakeMany(State(), t.tail, msgs, now, n);
      ids, datas := [], [];
      var fc := 0;
      while fc < n
        invariant fc == 0 || fc <= n
        invariant |datas| == |ids| && forall i :: 0 <= i < |ids| ==> ids[i] in msgs && datas[i] == msgs[ids[i]]
        invariant all.0 == LineSpec.TakeMany(State(), t.tail, msgs, now, n - fc).0
        invariant all.1 == ids + LineSpec.TakeMany(State(), t.tail, msgs, now, n - fc).1
      {
        var tid := head;
        if head >= t.tail { break; }
        var data := Read(tid);
        if data == None { break; }
        TakeManyPeels(State(), t.tail, msgs, now, n - fc, ids);
        MoveHead(now);
        ids := ids + [tid];
        datas := datas + [data.value];
        fc := fc + 1;
      }
      assert LineSpec.TakeMany(State(), t.tail, msgs, now, n - fc) == (State(), []);
      assert ids + [] == ids;
    }

    /** The first half of `mPop`: on a recycling line the expired messages go out again. */
    method RedeliverMany(n: int, now: int) returns (ok: bool, fc: nat, ids: seq<nat>, datas: seq<Bytes>)
      requires t.q.Valid() && OwnTopic(t.name)
      modifies this`inflight
      ensures var e := ExpiredFront(old(inflight), now, n);
              var again := Tids(old(inflight)[..e]);
              var msgs := MsgsOf(t.name, t.q.recs);
              && (ok <==> AllStored(again, msgs))
              && (ok ==> fc == e && ids == again && datas == Fetch(again, msgs))
      ensures ok ==> fc <= |old(inflight)|
      ensures State() == if ok then Rotate(old(State()), fc, now) else old(State())
    {
      ids := [];
      ok, fc, datas := ScanExpired(n, now);
      if ok {
        ids := Tids(inflight[..fc]);
        RotateFront(fc, now + recycle);
      }
    }

    /** The second half of `mPop`: what is still wanted comes from the cursor. */
    method AdvanceMany(n: int, ids: seq<nat>, datas: seq<Bytes>, now: int) returns (r: Result<Batch, Error>)
      requires t.q.Valid() && OwnTopic(t.name)
      requires AllStored(ids, MsgsOf(t.name, t.q.recs)) && datas == Fetch(ids, MsgsOf(t.name, t.q.recs))
      modifies this`head, this`inflight, this`flags
      ensures var msgs := MsgsOf(t.name, t.q.recs);
              var (l, more) := LineSpec.TakeMany(old(State()), t.tail, msgs, now, n);
              && State() == l && AllStored(ids + more, msgs)
              && r == if ids + more == [] then Err(ErrNone) else Ok(Batch(ids + more, Fetch(ids + more, msgs)))
    {
      var ids', datas' := TakeMany(n, now);
      FetchBoth(ids, ids', MsgsOf(t.name, t.q.recs));
      r := if ids + ids' == [] then Err(ErrNone) else Ok(Batch(ids + ids', datas + datas'));
    }

    method MPop(n: int, now: int) returns (r: Result<Batch, Error>)
      requires t.q.Valid() && OwnTopic(t.name)
      modifies this
      ensures (State(), r) == LineSpec.MPop(old(State()), t.tail, MsgsOf(t.name, t.q.recs), now, n)
      ensures hist == if r.Ok? then Deliver(old(hist), r.value.ids, now) else old(hist)
    {
      var fc, ids, datas := 0, [], [];
      if recycle > 0 {
        var ok;
        ok, fc, ids, datas := RedeliverMany(n, now);
        if !ok { return Err(ErrInternal); }
      }
      assert recycle <= 0 ==> Tids(inflight[..0]) == [];
      if recycle > 0 && fc >= n {
        r := Ok(Batch(ids, datas));
      } else {
        r := AdvanceMany(n - fc, ids, datas, now);
      }
      if r.Ok? {
        hist := Deliver(hist, r.value.ids, now);
      }
    }

    /**
     * `Count` of `stat`, in the unsigned arithmetic of the source: on a line in good order the
     * number of messages it owes.
     */
    method StatCount(ghost clock: int) returns (c: int)
      ensures 0 <= c < U64
      ensures LineInv(State(), t.tail, clock) && t.tail < U64 ==> c == |Outstanding(State(), t.tail)|
    {
      c := ((|inflight| + t.tail) % U64 - head) % U64;
      StatIs(State(), t.tail, clock, c);
    }

    /** The parts of `empty` and `exportLine`. */
    method ExportLine() returns (ok: bool)
      requires t.q.Valid() && OwnTopic(t.name) && OwnLine(name)
      modifies t.q
      ensures t.q.Valid() && (t.q.reliable ==> ok)
      ensures t.q.recs == if ok then old(t.q.recs)[LineRec(t.name, name) := LineBytes(State())] else old(t.q.recs)
    {
      var buf := WireBuffers.LineMarshal(LineStore(head, ihead, inflight));
      ok := t.q.SetRecord(LineRec(t.name, name), buf);
    }

    method Empty() returns (ok: bool)
      requires t.q.Valid() && OwnTopic(t.name) && OwnLine(name)
      modifies this, t.q
      ensures View() == EmptyTracked(old(View()), t.tail)
      ensures t.q.Valid() && (t.q.reliable ==> ok)
      ensures t.q.recs == if ok then old(t.q.recs)[LineRec(t.name, name) := LineBytes(State())] else old(t.q.recs)
    {
      ghost var gone := IdSet(inflight) + IdRange(head, t.tail);
      hist := hist.(dropped := hist.dropped + gone, trace := hist.trace + [Emptied(t.tail)]);
      inflight := [];
      flags := map[];
      ihead := t.tail;
      head := t.tail;
      ok := ExportLine();
    }
  }

  class Topic {
    const name: Bytes
    const persist: bool
    const q: Storage
    var lines: map<Bytes, Line>
    var head: nat
    var tail: nat
    ghost var log: seq<Bytes>       // every message pushed
    ghost var clock: int            // the time of the latest step
    ghost var pass: Option<nat>     // the `ending` of a clean pass in progress
    ghost var floor: nat            // one past the last message deleted

    constructor (q: Storage, name: Bytes, persist: bool)
      ensures this.q == q && this.name == name && this.persist == persist
      ensures State() == TopicState(name, persist, 0, 0, map[], [], 0, None, 0)
      ensures lines == map[]
    {
      this.q, this.name, this.persist := q, name, persist;
      lines, head, tail := map[], 0, 0;
      log, clock, pass, floor := [], 0, None, 0;
    }

    /** Each line knows its name and its topic, so no two names share a line. */
    ghost predicate LinesShaped()
      reads this`lines
    {
      forall n :: n in lines ==> OwnLine(n) && lines[n].name == n && lines[n].t == this
    }

    ghost predicate Shape()
      reads this`lines, q
    {
      q.Valid() && OwnTopic(name) && LinesShaped()
    }

    ghost function Lines(): (r: map<Bytes, Tracked>)
      reads this`lines, lines.Values
      ensures r.Keys == lines.Keys
    {
      map n | n in lines :: lines[n].View()
    }

    ghost function State(): TopicState
      reads this, lines.Values
    {
      TopicState(name, persist, head, tail, Lines(), log, clock, pass, floor)
    }

    ghost function Whole(): Sys
      reads this, lines.Values, q
    {
      Sys(State(), q.recs)
    }

    // ----- Pushing -----

    method ExportTail() returns (ok: bool)
      requires q.Valid() && OwnTopic(name)
      modifies q
      ensures q.Valid() && (q.reliable ==> ok)
      ensures q.recs == if ok then old(q.recs)[TailRec(name) := PutUint64(tail)] else old(q.recs)
    {
      ok := q.SetRecord(TailRec(name), PutUint64(tail));
    }

    method ExportHead() returns (ok: bool)
      requires q.Valid() && OwnTopic(name)
      modifies q
      ensures q.Valid() && (q.reliable ==> ok)
      ensures q.recs == if ok then old(q.recs)[HeadRec(name) := PutUint64(head)] else old(q.recs)
    {
      ok := q.SetRecord(HeadRec(name), PutUint64(head));
    }

    /** The new tail is saved and the messages below it become visible, or the tail goes back. */
    method Commit(oldTail: nat, ghost datas: seq<Bytes>) returns (ok: bool)
      requires q.Valid() && OwnTopic(name)
      modifies this`tail, this`log, q
      ensures q.Valid() && (q.reliable ==> ok)
      ensures q.recs == if ok then old(q.recs)[TailRec(name) := PutUint64(old(tail))] else old(q.recs)
      ensures tail == if ok then old(tail) else oldTail
      ensures log == if ok then old(log) + datas else old(log)
    {
      ok := ExportTail();
      if ok {
        log := log + datas;
      } else {
        tail := oldTail;
      }
    }

    method Push(data: Bytes) returns (r: Result<(), Error>)
      requires Shape()
      modifies this`tail, this`log, q
      ensures q.Valid() && (q.reliable ==> r.Ok?)
      ensures if r.Ok? then Whole() == PushOk(old(Whole()), data)
              else r == Err(ErrInternal) && PushFailed(old(Whole()), data, Whole())
    {
      ghost var s0 := Whole();
      var ok := q.SetRecord(MsgRec(name, tail), data);
      if ok {
        tail := tail + 1;
        ok := Commit(tail - 1, [data]);
      }
      assert Lines() == s0.t.lines;
      assert State() == if ok then PushOk(s0, data).t else s0.t;
      r := if ok then Ok(()) else Err(ErrInternal);
    }

    /** Writes messages from the tail on, as far as the store lets it. */
    method WriteAll(datas: seq<Bytes>) returns (k: nat)
      requires q.Valid() && OwnTopic(name)
      modifies this`tail, q
      ensures k <= |datas| && tail == old(tail) + k && q.Valid() && (q.reliable ==> k == |datas|)
      ensures q.recs == WriteMsgs(old(q.recs), name, old(tail), datas[..k])
    {
      k := 0;
      while k < |datas|
        invariant k <= |datas| && tail == old(tail) + k && q.Valid()
        invariant q.recs == WriteMsgs(old(q.recs), name, old(tail), datas[..k])
      {
        var ok := q.SetRecord(MsgRec(name, tail), datas[k]);
        if !ok { return; }
        assert datas[..k + 1][..k] == datas[..k];
        tail := tail + 1;
        k := k + 1;
      }
    }

    /** The messages, then the tail; if either cannot be written the tail goes back. */
    method WriteAndCommit(datas: seq<Bytes>) returns (ok: bool, ghost k: nat)
      requires q.Valid() && OwnTopic(name)
      modifies this`tail, this`log, q
      ensures q.Valid() && (q.reliable ==> ok) && k <= |datas|
      ensures tail == if ok then old(tail) + |datas| else old(tail)
      ensures log == if ok then old(log) + datas else old(log)
      ensures q.recs == if ok then WriteMsgs(old(q.recs), name, old(tail), datas)[TailRec(name) := PutUint64(tail)]
                        else WriteMsgs(old(q.recs), name, old(tail), datas[..k])
    {
      var oldTail := tail;
      var n := WriteAll(datas);
      k := n;
      ok := false;
      assert n == |datas| ==> datas[..n] == datas;
      if n == |datas| {
        ok := Commit(oldTail, datas);
      } else {
        tail := oldTail;
      }
    }

    method MPush(datas: seq<Bytes>) returns (r: Result<(), Error>)
      requires Shape()
      modifies this`tail, this`log, q
      ensures q.Valid() && (q.reliable ==> r.Ok?)
      ensures if r.Ok? then Whole() == MPushOk(old(Whole()), datas)
              else r == Err(ErrInternal) && MPushFailed(old(Whole()), datas, Whole())
    {
      ghost var s0 := Whole();
      ghost var k;
      var ok;
      ok, k := WriteAndCommit(datas);
      assert Lines() == s0.t.lines;
      assert if ok then Whole() == MPushOk(s0, datas) else MPushStopped(s0, datas, k, Whole());
      r := if ok then Ok(()) else Err(ErrInternal);
    }

    // ----- Consuming -----

    /** What a change to one line does to the map. */
    method PopLine(n: Bytes, now: int) returns (r: Result<Popped, Error>)
      requires Shape() && n in lines
      modifies lines.Values
      ensures Lines() == old(Lines())[n := PopTracked(old(Lines())[n], tail, MsgsOf(name, q.recs), now)]
      ensures r == LineSpec.Pop(old(Lines())[n].line, tail, MsgsOf(name, q.recs), now).1
    {
      var l := lines[n];
      ghost var ls := Lines();
      r := l.Pop(now);
      assert forall m :: m in lines && m != n ==> lines[m].View() == ls[m];
      assert l.View() == PopTracked(ls[n], tail, MsgsOf(name, q.recs), now);
      assert Lines() == ls[n := l.View()];
    }

    method Pop(n: Bytes, now: int) returns (r: Result<Popped, Error>)
      requires Shape()
      modifies this`clock, lines.Values
      ensures n !in lines ==> r == Err(ErrLineNotExisted) && Whole() == old(Whole())
      ensures n in lines ==>
                && Whole() == PopStep(old(Whole()), n, now)
                && r == LineSpec.Pop(old(State()).lines[n].line, tail, Msgs(old(Whole())), now).1
    {
      if n !in lines { return Err(ErrLineNotExisted); }
      r := PopLine(n, now);
      ghost var ls := Lines();
      clock := now;
      assert Lines() == ls;
    }

    method MPopLine(n: Bytes, k: int, now: int) returns (r: Result<Batch, Error>)
      requires Shape() && n in lines
      modifies lines.Values
      ensures Lines() == old(Lines())[n := MPopTracked(old(Lines())[n], tail, MsgsOf(name, q.recs), now, k)]
      ensures r == LineSpec.MPop(old(Lines())[n].line, tail, MsgsOf(name, q.recs), now, k).1
    {
      var l := lines[n];
      ghost var ls := Lines();
      r := l.MPop(k, now);
      assert forall m :: m in lines && m != n ==> lines[m].View() == ls[m];
      assert l.View() == MPopTracked(ls[n], tail, MsgsOf(name, q.recs), now, k);
      assert Lines() == ls[n := l.View()];
    }

    method MPop(n: Bytes, k: int, now: int) returns (r: Result<Batch, Error>)
      requires Shape()
      modifies this`clock, lines.Values
      ensures n !in lines ==> r == Err(ErrLineNotExisted) && Whole() == old(Whole())
      ensures n in lines ==>
                && Whole() == MPopStep(old(Whole()), n, k, now)
                && r == LineSpec.MPop(old(State()).lines[n].line, tail, Msgs(old(Whole())), now, k).1
    {
      if n !in lines { return Err(ErrLineNotExisted); }
      r := MPopLine(n, k, now);
      ghost var ls := Lines();
      clock := now;
      assert Lines() == ls;
    }

    method Confirm(n: Bytes, id: nat) returns (r: Result<(), Error>)
      requires Shape()
      modifies lines.Values
      ensures n !in lines ==> r == Err(ErrLineNotExisted) && Whole() == old(Whole())
      ensures n in lines ==>
                && Whole() == ConfirmStep(old(Whole()), n, id)
                && r == LineSpec.Confirm(old(State()).lines[n].line, id).1
    {
      if n !in lines { return Err(ErrLineNotExisted); }
      r := lines[n].Confirm(id);
    }

    // ----- Lines -----

    /** The names of the lines, in the order the map happens to be iterated. */
    method LineNames() returns (names: seq<Bytes>)
      ensures Enumerates(names, lines.Keys)
    {
      names := [];
      var todo := lines.Keys;
      while todo != {}
        invariant todo <= lines.Keys && Enumerates(names, lines.Keys - todo)
        decreases todo
      {
        var n :| n in todo;
        todo := todo - {n};
        names := names + [n];
      }
    }

    method ExportTopic() returns (ok: bool)
      requires q.Valid() && OwnTopic(name)
      modifies q
      ensures q.Valid() && (q.reliable ==> ok)
      ensures ok ==> exists b :: IsTopicBytes(b, lines.Keys, persist) && q.recs == old(q.recs)[TopicRec(name) := b]
      ensures !ok ==> q.recs == old(q.recs)
    {
      var names := LineNames();
      var buf := WireBuffers.TopicMarshal(TopicStore(names, persist));
      assert IsTopicBytes(buf, lines.Keys, persist);
      ok := q.SetRecord(TopicRec(name), buf);
    }

    /** `newLine`: the line starts at the head, or at zero on a persistent topic, and is saved. */
    method NewLine(n: Bytes, recycle: int) returns (l: Line, ok: bool)
      requires q.Valid() && OwnTopic(name) && OwnLine(n)
      modifies q
      ensures q.Valid() && (q.reliable ==> ok)
      ensures fresh(l) && l.t == this && l.name == n && l.View() == NewTracked(recycle, StartOf(State()))
      ensures ok ==> q.recs == NewLineRecs(old(Whole()), n, recycle, 2)
      ensures !ok ==> exists upTo :: 0 <= upTo <= 2 && q.recs == NewLineRecs(old(Whole()), n, recycle, upTo)
    {
      ghost var s0 := Whole();
      var start := if persist then 0 else head;
      l := new Line(this, n, recycle, start);
      ok := l.ExportLine();
      ExportOne(s0.recs, WithNewLine(s0.t, n, recycle), n);
      assert q.recs == NewLineRecs(s0, n, recycle, if ok then 1 else 0);
      if ok {
        ok := q.SetRecord(RecycleRec(name, n), DurationText(recycle));
        assert q.recs == NewLineRecs(s0, n, recycle, if ok then 2 else 1);
      }
    }

    /** The line joins the map and the topic is saved, or the line leaves again. */
    method Enlist(n: Bytes, l: Line) returns (ok: bool)
      requires q.Valid() && OwnTopic(name) && n !in lines
      modifies this`lines, q
      ensures q.Valid() && (q.reliable ==> ok) && lines == if ok then old(lines)[n := l] else old(lines)
      ensures ok ==> exists b :: IsTopicBytes(b, lines.Keys, persist) && q.recs == old(q.recs)[TopicRec(name) := b]
      ensures !ok ==> q.recs == old(q.recs)
    {
      PutThenDelete(lines, n, l);
      lines := lines[n := l];
      ok := ExportTopic();
      if !ok {
        lines := lines - {n};
      }
    }

    method Attach(n: Bytes, l: Line) returns (ok: bool)
      requires Shape() && n !in lines && OwnLine(n) && l.name == n && l.t == this
      modifies this`lines, q
      ensures Shape() && (q.reliable ==> ok)
      ensures Lines() == if ok then old(Lines())[n := l.View()] else old(Lines())
      ensures ok ==> exists b :: IsTopicBytes(b, Lines().Keys, persist) && q.recs == old(q.recs)[TopicRec(name) := b]
      ensures !ok ==> q.recs == old(q.recs)
    {
      ghost var ls, ls0 := Lines(), lines;
      ok := Enlist(n, l);
      assert forall m :: m in ls ==> ls0[m].View() == ls[m];
      if ok {
        assert Lines() == ls[n := l.View()];
      } else {
        assert Lines() == ls;
      }
    }

    method AddLine(n: Bytes, recycle: int) returns (ok: bool)
      requires Shape() && OwnLine(n) && n !in lines
      modifies this`lines, q
      ensures Shape() && (q.reliable ==> ok)
      ensures ok ==> CreateLineOk(old(Whole()), n, recycle, Whole())
      ensures !ok ==> CreateLineFailed(old(Whole()), n, recycle, Whole())
    {
      var l;
      l, ok := NewLine(n, recycle);
      assert Lines() == old(Lines());
      if ok {
        ok := Attach(n, l);
      }
    }

    method CreateLine(n: Bytes, recycle: int) returns (r: Result<(), Error>)
      requires Shape() && OwnLine(n)
      modifies this`lines, q
      ensures Shape()
      ensures if r.Ok? then CreateLineOk(old(Whole()), n, recycle, Whole())
              else CreateLineFailed(old(Whole()), n, recycle, Whole())
      ensures n in old(lines) ==> r == Err(ErrLineExisted)
      ensures n !in old(lines) && q.reliable ==> r.Ok?
    {
      if n in lines { return Err(ErrLineExisted); }
      var ok := AddLine(n, recycle);
      return if ok then Ok(()) else Err(ErrInternal);
    }

    /** The line leaves the map and the topic is saved, or the line comes back. */
    method Unlist(n: Bytes) returns (ok: bool)
      requires q.Valid() && OwnTopic(name) && n in lines
      modifies this`lines, q
      ensures q.Valid() && (q.reliable ==> ok) && lines == if ok then old(lines) - {n} else old(lines)
      ensures ok ==> exists b :: IsTopicBytes(b, lines.Keys, persist) && q.recs == old(q.recs)[TopicRec(name) := b]
      ensures !ok ==> q.recs == old(q.recs)
    {
      var l := lines[n];
      PutThenDelete(lines, n, l);
      lines := lines - {n};
      ok := ExportTopic();
      if !ok {
        lines := lines[n := l];
      }
    }

    method Detach(n: Bytes) returns (ok: bool)
      requires Shape() && n in lines
      modifies this`lines, q
      ensures Shape() && (q.reliable ==> ok)
      ensures Lines() == if ok then old(Lines()) - {n} else old(Lines())
      ensures ok ==> exists b :: IsTopicBytes(b, Lines().Keys, persist) && q.recs == old(q.recs)[TopicRec(name) := b]
      ensures !ok ==> q.recs == old(q.recs)
    {
      ok := Unlist(n);
    }

    /** `line.remove`: both records are deleted, or what could not be is left. */
    method RemoveLineData(n: Bytes) returns (ghost gone: set<Key>)
      requires q.Valid() && OwnTopic(name) && OwnLine(n)
      modifies q
      ensures q.Valid() && gone <= {LineRec(name, n), RecycleRec(name, n)} && q.recs == old(q.recs) - gone
      ensures q.reliable ==> gone == {LineRec(name, n), RecycleRec(name, n)}
    {
      ghost var r0 := q.recs;
      var a := q.DelRecord(LineRec(name, n));
      ghost var g1: set<Key> := if a || q.reliable then {LineRec(name, n)} else {};
      assert q.recs == r0 - g1;
      var b := q.DelRecord(RecycleRec(name, n));
      ghost var g2: set<Key> := if b || q.reliable then {RecycleRec(name, n)} else {};
      gone := g1 + g2;
      assert q.recs == r0 - gone;
    }

    /** The line leaves and its records go, as far as the store allows. */
    method TakeOut(n: Bytes) returns (ok: bool, ghost gone: set<Key>)
      requires Shape() && n in lines
      modifies this`lines, q
      ensures Shape() && (q.reliable ==> ok)
      ensures Lines() == if ok then old(Lines()) - {n} else old(Lines())
      ensures gone <= {LineRec(name, n), RecycleRec(name, n)}
      ensures q.reliable ==> gone == {LineRec(name, n), RecycleRec(name, n)}
      ensures ok ==> exists b :: IsTopicBytes(b, Lines().Keys, persist) && q.recs == old(q.recs)[TopicRec(name) := b] - gone
      ensures !ok ==> q.recs == old(q.recs)
    {
      assert OwnLine(n);
      gone := {};
      ok := Detach(n);
      if ok {
        gone := RemoveLineData(n);
      }
    }

    method RemoveLine(n: Bytes) returns (r: Result<(), Error>)
      requires Shape()
      modifies this`lines, q
      ensures Shape()
      ensures n !in old(lines) ==> r == Err(ErrLineNotExisted) && Whole() == old(Whole())
      ensures n in old(lines) ==>
                if r.Ok? then RemoveLineOk(old(Whole()), n, Whole()) else Whole() == old(Whole())
      ensures n in old(lines) && q.reliable ==>
                r.Ok? && LineRec(name, n) !in q.recs && RecycleRec(name, n) !in q.recs
    {
      if n !in lines { return Err(ErrLineNotExisted); }
      ghost var s, gone := Whole(), {};
      var ok;
      ok, gone := TakeOut(n);
      if ok {
        LineTakenOut(s, n, gone, Whole());
      }
      r := if ok then Ok(()) else Err(ErrInternal);
    }

    /** Empties and saves the line `n`. */
    method EmptyOne(n: Bytes) returns (ok: bool)
      requires Shape() && n in lines
      modifies lines.Values, q
      ensures q.Valid() && (q.reliable ==> ok)
      ensures Whole() == EmptyAndSave(old(Whole()), n, ok)
    {
      ok := lines[n].Empty();
      assert Lines() == old(Lines())[n := lines[n].View()];
    }

    method EmptyLine(n: Bytes) returns (r: Result<(), Error>)
      requires Shape()
      modifies lines.Values, q
      ensures q.Valid()
      ensures n !in lines ==> r == Err(ErrLineNotExisted) && Whole() == old(Whole())
      ensures n in lines ==> EmptyLineNext(old(Whole()), n, Whole())
      ensures n in lines && r.Ok? ==> q.recs == ExportLines(old(q.recs), State(), {n})
      ensures n in lines && q.reliable ==> r.Ok?
    {
      if n !in lines { return Err(ErrLineNotExisted); }
      var ok := EmptyOne(n);
      ExportOne(old(q.recs), State(), n);
      r := if ok then Ok(()) else Err(ErrInternal);
    }

    /** Saves the line `n`. */
    method SaveOne(n: Bytes) returns (ok: bool)
      requires Shape() && n in lines
      modifies q
      ensures q.Valid() && (q.reliable ==> ok) && Lines() == old(Lines())
      ensures q.recs == if ok then old(q.recs)[LineRec(name, n) := LineBytes(Lines()[n].line)] else old(q.recs)
    {
      ok := lines[n].ExportLine();
    }

    /** Saves every line; one that cannot be saved is passed over. */
    method SaveLines() returns (ghost saved: set<Bytes>)
      requires Shape()
      modifies q
      ensures q.Valid() && saved <= State().lines.Keys && q.recs == ExportLines(old(q.recs), State(), saved)
      ensures q.reliable ==> saved == State().lines.Keys
    {
      ghost var s0 := Whole();
      assert s0.t.lines.Keys == lines.Keys;
      var todo := lines.Keys;
      saved := {};
      ExportNone(q.recs, s0.t);
      while todo != {}
        invariant q.Valid() && todo <= s0.t.lines.Keys && saved <= s0.t.lines.Keys - todo
        invariant q.reliable ==> saved == s0.t.lines.Keys - todo
        invariant Lines() == s0.t.lines && q.recs == ExportLines(s0.recs, s0.t, saved)
        decreases todo
      {
        var n :| n in todo;
        todo := todo - {n};
        ExportMore(s0.recs, s0.t, saved, n);
        var ok := SaveOne(n);
        if ok {
          saved := saved + {n};
        }
      }
    }

    /** One round of the loop: the line `names[k]`. */
    method EmptyNext(names: seq<Bytes>, k: nat, ghost s0: Sys) returns (ok: bool)
      requires Shape() && k < |names| && names[k] in lines && EmptiedFirst(s0, names, k, Whole())
      modifies lines.Values, q
      ensures q.Valid() && (q.reliable ==> ok)
      ensures ok ==> EmptiedFirst(s0, names, k + 1, Whole())
      ensures !ok ==> Whole() == EmptyAndSave(old(Whole()), names[k], false)
    {
      ghost var m := Whole();
      ok := EmptyOne(names[k]);
      if ok {
        EmptiedFirstMore(s0, names, k, m, Whole());
      }
    }

    /** Empties and saves the lines one by one, and stops after the first that cannot be saved. */
    method EmptyLines() returns (ok: bool, names: seq<Bytes>, k: nat)
      requires Shape()
      modifies lines.Values, q
      ensures q.Valid() && (q.reliable ==> ok) && Enumerates(names, old(State()).lines.Keys)
      ensures ok ==> Whole() == EmptyEach(old(Whole()), names)
      ensures !ok ==> k < |names| && Whole() == EmptyAndSave(EmptyEach(old(Whole()), names[..k]), names[k], false)
    {
      ghost var s0 := Whole();
      names := LineNames();
      EmptiedFirstNone(s0, names);
      ghost var m := s0;
      k := 0;
      ok := true;
      while ok && k < |names|
        invariant k <= |names| && q.Valid() && (q.reliable ==> ok)
        invariant EmptiedFirst(s0, names, k, m)
        invariant if ok then Whole() == m
                  else k < |names| && names[k] in m.t.lines && Whole() == EmptyAndSave(m, names[k], false)
        decreases |names| - k, ok
      {
        m := Whole();
        ok := EmptyNext(names, k, s0);
        if ok {
          k := k + 1;
          m := Whole();
        }
      }
      OpenEmptiedFirst(s0, names, k, m);
    }

    /** The head moves to the tail and is saved. */
    method SkipAll() returns (ok: bool)
      requires q.Valid() && OwnTopic(name)
      modifies this`head, q
      ensures q.Valid() && (q.reliable ==> ok) && State() == old(State()).(head := tail)
      ensures q.recs == if ok then old(q.recs)[HeadRec(name) := PutUint64(tail)] else old(q.recs)
    {
      head := tail;
      ok := ExportHead();
      assert Lines() == old(Lines());
    }

    method Empty() returns (r: Result<(), Error>)
      requires Shape()
      modifies lines.Values, this`head, q
      ensures q.Valid() && (q.reliable ==> r.Ok?)
      ensures if r.Ok? then EmptyTopicOk(old(Whole()), Whole()) else EmptyTopicNext(old(Whole()), Whole())
    {
      ghost var s0 := Whole();
      var ok, names, k := EmptyLines();
      if ok {
        AllEmptied(s0, names);
        ok := SkipAll();
        assert EmptyDone(s0, ok, Whole());
      } else {
        EmptyEachIs(s0, names, k);
        assert EmptyStopped(s0, NameSet(names[..k]), names[k], Whole());
      }
      r := if ok then Ok(()) else Err(ErrInternal);
    }

    // ----- The garbage collector -----

    /** `getEnd`: the first id some line may still need. */
    method GetEnd() returns (end: nat)
      ensures IsEnd(State(), end)
    {
      if lines == map[] {
        assert Lines() == map[];
        return head;
      }
      end := tail;
      var todo := lines.Keys;
      while todo != {}
        invariant todo <= lines.Keys && end <= tail
        invariant forall n :: n in lines.Keys - todo ==> end <= LowMark(Lines()[n].line)
        invariant end == tail || exists n :: n in lines && end == LowMark(Lines()[n].line)
        decreases todo
      {
        var n :| n in todo;
        todo := todo - {n};
        var l := lines[n];
        assert Lines()[n].line == l.State();
        if l.recycle > 0 {
          if l.ihead < end { end := l.ihead; }
        } else {
          if l.head < end { end := l.head; }
        }
      }
    }

    /** Deletes the message at the head, moves the head over it and saves the head. */
    method DeleteHead() returns (ok: bool, ghost deleted: bool)
      requires q.Valid() && OwnTopic(name)
      modifies this`head, this`floor, q
      ensures q.Valid() && (ok ==> deleted) && (q.reliable ==> ok || MsgRec(name, old(head)) !in old(q.recs))
      ensures head == if deleted then old(head) + 1 else old(head)
      ensures floor == if deleted then old(head) + 1 else old(floor)
      ensures q.recs == if ok then (old(q.recs) - {MsgRec(name, old(head))})[HeadRec(name) := PutUint64(head)]
                        else if deleted then old(q.recs) - {MsgRec(name, old(head))} else old(q.recs)
    {
      ok := q.DelRecord(MsgRec(name, head));
      deleted := ok;
      if ok {
        head := head + 1;
        floor := head;
        ok := ExportHead();
      }
    }

    /** One round of `clean`; a failure ends the pass. */
    method CleanOne() returns (ok: bool)
      requires q.Valid() && OwnTopic(name) && pass.Some? && head < pass.value
      modifies this`head, this`pass, this`floor, q
      ensures q.Valid() && CleanStepNext(old(Whole()), Whole())
      ensures pass == if ok then old(pass) else None
      ensures q.reliable ==> ok || MsgRec(name, old(head)) !in old(q.recs)
    {
      ghost var s := Whole();
      ghost var deleted;
      ok, deleted := DeleteHead();
      if !ok {
        pass := None;
      }
      assert Lines() == s.t.lines;
    }

    ghost method SetPass(p: Option<nat>)
      modifies this`pass
      ensures Whole() == old(Whole()).(t := old(State()).(pass := p))
    {
      pass := p;
      assert Lines() == old(Lines());
    }

    /** One round after the checks: `k` becomes `k + 1`. */
    method CleanNext(ending: nat, ghost s1: Sys, ghost k: nat) returns (ok: bool)
      requires q.Valid() && OwnTopic(name) && pass == Some(ending) && head < ending && PassSteps(s1, k, Whole(), q.reliable)
      modifies this`head, this`pass, this`floor, q
      ensures q.Valid() && PassSteps(s1, k + 1, Whole(), q.reliable)
      ensures pass == if ok then Some(ending) else None
      ensures ok ==> head == old(head) + 1
    {
      ghost var m := Whole();
      ok := CleanOne();
      PassStepsMore(s1, k, m, Whole(), q.reliable);
    }

    /**
     * Deletes message after message up to `ending`, until a failure, the quit signal or the end of the time. What
     * the rounds see of the signal and the clock is `w`.
     */
    method CleanUpTo(ending: nat, w: Watch) returns (quit: bool, ghost k: nat)
      requires q.Valid() && OwnTopic(name) && pass == Some(ending)
      modifies this`head, this`pass, this`floor, q
      ensures q.Valid() && PassSteps(old(Whole()), k, Whole(), q.reliable)
      ensures StoppedBy(w, k, quit, Whole(), ending)
    {
      ghost var s1 := Whole();
      NoSteps(s1, q.reliable);
      quit := false;
      k := 0;
      var i := 0;
      var going := true;
      while going && head < ending
        invariant q.Valid() && i == k && pass == if going then Some(ending) else None
        invariant PassSteps(s1, k, Whole(), q.reliable)
        invariant NoStop(w, k)
        invariant !quit
        decreases going, ending - head
      {
        quit := Signalled(w, i);
        if quit || TimeUp(w, i) { break; }
        NoStopMore(w, k);
        going := CleanNext(ending, s1, k);
        i, k := i + 1, k + 1;
      }
      Stopping(w, k, quit, Whole(), ending);
    }

    method FindEnd() returns (end: nat)
      ensures EndIs(State(), end)
    {
      end := GetEnd();
    }

    /** A whole pass of `clean`. */
    method Clean(w: Watch) returns (quit: bool, ghost end: nat, ghost k: nat, ghost failed: bool)
      requires q.Valid() && OwnTopic(name) && !persist && pass == None
      modifies this`head, this`pass, this`floor, q
      ensures q.Valid() && Cleaned(old(Whole()), end, w, k, quit, failed, Whole(), q.reliable)
    {
      ghost var s0 := Whole();
      var ending := FindEnd();
      SetPass(Some(ending));
      ghost var s1 := Whole();
      quit, k := CleanUpTo(ending, w);
      ghost var s2 := Whole();
      end, failed := ending, pass == None;
      SetPass(None);
      WholePass(s0, ending, w, s1, k, quit, s2, Whole(), q.reliable);
    }

    // ----- Removing the topic -----

    /** Deletes one record; `gone'` is `gone` and that record, unless the store failed. */
    method Drop(k: Key, ghost t: TopicState, ghost recs0: Records, ghost gone: iset<Key>) returns (ghost gone': iset<Key>)
      requires q.Valid() && Own(k) && q.recs == Minus(recs0, gone) && Removes(t, k) && Within(gone, t)
      modifies q
      ensures q.Valid() && q.recs == Minus(recs0, gone') && Within(gone', t)
      ensures gone <= gone' && (q.reliable ==> k in gone')
    {
      MinusMore(recs0, gone, k);
      WithinMore(gone, t, k);
      var ok := q.DelRecord(k);
      gone' := if ok || q.reliable then gone + iset{k} else gone;
    }

    /** `removeMsgData`: every message from the head to the tail. */
    method DropMessages(ghost t: TopicState, ghost recs0: Records, ghost gone: iset<Key>) returns (ghost gone': iset<Key>)
      requires q.Valid() && OwnTopic(name) && q.recs == Minus(recs0, gone) && Within(gone, t)
      requires t.name == name && t.head == head && t.tail == tail
      modifies q
      ensures q.Valid() && q.recs == Minus(recs0, gone') && gone <= gone' && Within(gone', t)
      ensures q.reliable ==> MsgsGone(gone', name, head, tail)
    {
      gone' := gone;
      var i := head;
      while i < tail
        invariant head <= i && (i <= tail || i == head)
        invariant q.Valid() && q.recs == Minus(recs0, gone') && gone <= gone' && Within(gone', t)
        invariant q.reliable ==> MsgsGone(gone', name, head, i)
      {
        ghost var before := gone';
        gone' := Drop(MsgRec(name, i), t, recs0, gone');
        if q.reliable {
          MsgsGoneMore(before, gone', name, head, i);
        }
        i := i + 1;
      }
    }

    /** `remove` of a line: its two records. */
    method DropLine(n: Bytes, ghost t: TopicState, ghost recs0: Records, ghost gone: iset<Key>) returns (ghost gone': iset<Key>)
      requires q.Valid() && OwnTopic(name) && OwnLine(n) && q.recs == Minus(recs0, gone) && Within(gone, t)
      requires t.name == name && n in t.lines
      modifies q
      ensures q.Valid() && q.recs == Minus(recs0, gone') && gone <= gone' && Within(gone', t)
      ensures q.reliable ==> LineRec(name, n) in gone' && RecycleRec(name, n) in gone'
    {
      gone' := Drop(LineRec(name, n), t, recs0, gone);
      gone' := Drop(RecycleRec(name, n), t, recs0, gone');
    }

    /** `removeLines`: both records of every line; the lines are gone whatever the store does. */
    method DropLines(ghost t: TopicState, ghost recs0: Records) returns (ghost gone: iset<Key>)
      requires Shape() && q.recs == recs0 && t.name == name && t.lines.Keys == lines.Keys
      modifies this`lines, q
      ensures q.Valid() && q.recs == Minus(recs0, gone) && Within(gone, t) && lines == map[]
      ensures q.reliable ==> LinesGone(gone, name, t.lines.Keys)
    {
      gone := iset{};
      MinusMore(recs0, gone, QueueIndex);
      ghost var done := {};
      while lines.Keys != {}
        invariant q.Valid() && q.recs == Minus(recs0, gone) && Within(gone, t)
        invariant lines.Keys + done == t.lines.Keys
        invariant forall n :: n in lines ==> OwnLine(n)
        invariant q.reliable ==> LinesGone(gone, name, done)
        decreases lines.Keys
      {
        var n :| n in lines.Keys;
        ghost var before := gone;
        gone := DropLine(n, t, recs0, gone);
        if q.reliable {
          LinesGoneMore(before, gone, name, done, n);
        }
        lines := lines - {n};
        done := done + {n};
      }
    }

    /** The head, the tail and the topic's own record. */
    method DropTopic(ghost t: TopicState, ghost recs0: Records, ghost gone: iset<Key>) returns (ghost gone': iset<Key>)
      requires q.Valid() && OwnTopic(name) && q.recs == Minus(recs0, gone) && Within(gone, t) && t.name == name
      modifies q
      ensures q.Valid() && q.recs == Minus(recs0, gone') && gone <= gone' && Within(gone', t)
      ensures q.reliable ==> HeadRec(name) in gone' && TailRec(name) in gone' && TopicRec(name) in gone'
    {
      gone' := Drop(HeadRec(name), t, recs0, gone);
      gone' := Drop(TailRec(name), t, recs0, gone');
      gone' := Drop(TopicRec(name), t, recs0, gone');
    }

    /** After `remove` the topic has no lines, and with a reliable store none of the records it deletes. */
    method Remove() returns (ghost gone: iset<Key>)
      requires Shape()
      modifies this`lines, q
      ensures q.Valid() && lines == map[]
      ensures q.recs == Minus(old(q.recs), gone) && Within(gone, old(State()))
      ensures q.reliable ==> q.recs == Removed(old(Whole()))
    {
      ghost var s0 := Whole();
      ghost var gone1 := DropLines(s0.t, s0.recs);
      ghost var gone2 := DropTopic(s0.t, s0.recs, gone1);
      gone := DropMessages(s0.t, s0.recs, gone2);
      if q.reliable {
        RemovesAll(s0.t, gone1, gone2, gone);
      }
    }
  }
}
