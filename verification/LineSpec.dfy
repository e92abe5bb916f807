/**
 * A line is one independent consumer of a topic's log (queue/uLine.go). This module gives
 * its operations as functions on values; class `Line` refines them in place.
 *
 * Message bodies are read through `msgs`, the messages the store currently holds for the
 * topic, so that a read can miss and the error paths are the ones of the source.
 */
module LineSpec {
  import opened Base

  /** A delivered, unconfirmed message and the time after which it may be delivered again. */
  datatype InflightMessage = InflightMessage(tid: nat, exptime: int)

  datatype LineState = LineState(
    recycle: int,
    head: nat,
    inflight: seq<InflightMessage>,
    ihead: nat,
    flags: map<nat, bool>)

  type Messages = imap<nat, Bytes>

  datatype Popped = Popped(id: nat, data: Bytes)

  datatype Batch = Batch(ids: seq<nat>, datas: seq<Bytes>)

  // ----- Deliveries -----

  predicate Expired(m: InflightMessage, now: int) {
    now > m.exptime
  }

  /** The message stamped with the deadline of a delivery made at `now`. */
  function Stamp(m: InflightMessage, l: LineState, now: int): InflightMessage {
    m.(exptime := now + l.recycle)
  }

  /** The cursor moves over its message, which becomes in flight on a recycling line. */
  function TakeHead(l: LineState, now: int): LineState {
    if l.recycle > 0 then
      l.(head := l.head + 1,
         inflight := l.inflight + [InflightMessage(l.head, now + l.recycle)],
         flags := l.flags[l.head := true])
    else
      l.(head := l.head + 1)
  }

  predicate Redelivers(l: LineState, now: int) {
    l.recycle > 0 && l.inflight != [] && Expired(l.inflight[0], now)
  }

  ghost function Pop(l: LineState, tail: nat, msgs: Messages, now: int): (LineState, Result<Popped, Error>) {
    if Redelivers(l, now) then
      var m := Stamp(l.inflight[0], l, now);
      if m.tid in msgs then
        (l.(inflight := l.inflight[1..] + [m]), Ok(Popped(m.tid, msgs[m.tid])))
      else
        (l.(inflight := l.inflight[0 := m]), Err(ErrInternal))
    else if l.head >= tail then
      (l, Err(ErrNone))
    else if l.head !in msgs then
      (l, Err(ErrInternal))
    else
      (TakeHead(l, now), Ok(Popped(l.head, msgs[l.head])))
  }

  // ----- Batched deliveries -----

  /** How many messages at the front have expired, looking at no more than `n`. */
  function ExpiredFront(s: seq<InflightMessage>, now: int, n: int): (e: nat)
    ensures e <= |s| && (n >= 0 ==> e <= n)
    ensures forall i :: 0 <= i < e ==> Expired(s[i], now)
    ensures e < |s| && e < n ==> !Expired(s[e], now)
  {
    if n <= 0 || s == [] || !Expired(s[0], now) then 0 else 1 + ExpiredFront(s[1..], now, n - 1)
  }

  /** The first `e` messages move to the back with a new deadline. */
  function Rotated(s: seq<InflightMessage>, e: nat, exptime: int): (r: seq<InflightMessage>)
    requires e <= |s|
    ensures |r| == |s|
    ensures forall i :: 0 <= i < |s| - e ==> r[i] == s[i + e]
    ensures forall i :: |s| - e <= i < |s| ==> r[i] == InflightMessage(s[i + e - |s|].tid, exptime)
  {
    s[e..] + seq(e, i requires 0 <= i < e => s[i].(exptime := exptime))
  }

  function Rotate(l: LineState, e: nat, now: int): LineState
    requires e <= |l.inflight|
  {
    l.(inflight := Rotated(l.inflight, e, now + l.recycle))
  }

  function Tids(s: seq<InflightMessage>): (r: seq<nat>)
    ensures |r| == |s|
    ensures forall i :: 0 <= i < |s| ==> r[i] == s[i].tid
  {
    seq(|s|, i requires 0 <= i < |s| => s[i].tid)
  }

  ghost predicate AllStored(ids: seq<nat>, msgs: Messages) {
    forall i :: 0 <= i < |ids| ==> ids[i] in msgs
  }

  ghost function Fetch(ids: seq<nat>, msgs: Messages): (r: seq<Bytes>)
    requires AllStored(ids, msgs)
    ensures |r| == |ids|
    ensures forall i :: 0 <= i < |ids| ==> r[i] == msgs[ids[i]]
  {
    seq(|ids|, i requires 0 <= i < |ids| => msgs[ids[i]])
  }

  /** Takes up to `n` messages at the cursor, stopping at the tail or at a failed read. */
  ghost function TakeMany(l: LineState, tail: nat, msgs: Messages, now: int, n: int): (r: (LineState, seq<nat>))
    ensures AllStored(r.1, msgs)
    decreases n
  {
    if n <= 0 || l.head >= tail || l.head !in msgs then
      (l, [])
    else
      var (l', ids) := TakeMany(TakeHead(l, now), tail, msgs, now, n - 1);
      (l', [l.head] + ids)
  }

  ghost function MPop(l: LineState, tail: nat, msgs: Messages, now: int, n: int): (LineState, Result<Batch, Error>) {
    var e := if l.recycle > 0 then ExpiredFront(l.inflight, now, n) else 0;
    var again := Tids(l.inflight[..e]);
    if !AllStored(again, msgs) then
      (l, Err(ErrInternal))
    else if l.recycle > 0 && e >= n then
      (Rotate(l, e, now), Ok(Batch(again, Fetch(again, msgs))))
    else
      var (l', taken) := TakeMany(if l.recycle > 0 then Rotate(l, e, now) else l, tail, msgs, now, n - e);
      var ids := again + taken;
      if ids == [] then (l', Err(ErrNone)) else (l', Ok(Batch(ids, Fetch(ids, msgs))))
  }

  /** The reference for `MPop`: pop up to `n` times at one instant, stopping when nothing comes. */
  ghost function PopRepeatedly(l: LineState, tail: nat, msgs: Messages, now: int, n: nat): (r: (LineState, Batch))
    ensures AllStored(r.1.ids, msgs) && r.1.datas == Fetch(r.1.ids, msgs)
    decreases n
  {
    if n == 0 then (l, Batch([], []))
    else
      match Pop(l, tail, msgs, now)
      case (_, Err(_)) => (l, Batch([], []))
      case (l1, Ok(p)) =>
        var (l', b) := PopRepeatedly(l1, tail, msgs, now, n - 1);
        (l', Batch([p.id] + b.ids, [p.data] + b.datas))
  }

  // ----- Confirmation -----

  /** The position of the first in-flight message with this id, or the length if there is none. */
  function Find(s: seq<InflightMessage>, id: nat): (k: nat)
    ensures k <= |s|
    ensures k < |s| ==> s[k].tid == id
    ensures forall i :: 0 <= i < k ==> s[i].tid != id
  {
    if s == [] || s[0].tid == id then 0 else 1 + Find(s[1..], id)
  }

  /** The low-water index moves up to the first id still marked in flight. */
  function UpdateIhead(ihead: nat, head: nat, flags: map<nat, bool>): (nat, map<nat, bool>)
    decreases head - ihead
  {
    if ihead >= head then (ihead, flags)
    else if ihead !in flags then UpdateIhead(ihead + 1, head, flags)
    else if flags[ihead] then (ihead, flags)
    else UpdateIhead(ihead + 1, head, flags - {ihead})
  }

  function Remove(l: LineState, k: nat): LineState
    requires k < |l.inflight|
  {
    var (i, m) := UpdateIhead(l.ihead, l.head, l.flags[l.inflight[k].tid := false]);
    l.(inflight := l.inflight[..k] + l.inflight[k + 1..], ihead := i, flags := m)
  }

  function Confirm(l: LineState, id: nat): (LineState, Result<(), Error>) {
    if l.recycle == 0 || id >= l.head || Find(l.inflight, id) == |l.inflight| then
      (l, Err(ErrNotDelivered))
    else
      (Remove(l, Find(l.inflight, id)), Ok(()))
  }

  // ----- Creation and emptying -----

  function NewLine(recycle: int, start: nat): LineState {
    LineState(recycle, start, [], start, map[])
  }

  function Empty(l: LineState, tail: nat): LineState {
    NewLine(l.recycle, tail)
  }

  // ----- The invariant of a line -----

  ghost predicate InFlight(l: LineState, id: nat) {
    exists i :: 0 <= i < |l.inflight| && l.inflight[i].tid == id
  }

  ghost predicate Distinct(s: seq<InflightMessage>) {
    forall i, j :: 0 <= i < j < |s| ==> s[i].tid != s[j].tid
  }

  ghost predicate Sorted(s: seq<InflightMessage>) {
    forall i, j :: 0 <= i < j < |s| ==> s[i].exptime <= s[j].exptime
  }

  /** `ihead` is the smallest in-flight id, or `head`; `flags` mirrors `inflight` on `[ihead, head)`. */
  ghost predicate Indexed(l: LineState) {
    && l.ihead <= l.head
    && (forall id: nat :: id in l.flags <==> l.ihead <= id < l.head)
    && (forall id: nat :: id in l.flags ==> (l.flags[id] <==> InFlight(l, id)))
    && (forall i :: 0 <= i < |l.inflight| ==> l.ihead <= l.inflight[i].tid < l.head)
    && (l.ihead < l.head ==> InFlight(l, l.ihead))
  }

  ghost predicate LineInv(l: LineState, tail: nat, clock: int) {
    && l.head <= tail
    && (l.recycle > 0 ==>
          && Indexed(l)
          && Distinct(l.inflight)
          && Sorted(l.inflight)
          && (forall i :: 0 <= i < |l.inflight| ==> l.inflight[i].exptime <= clock + l.recycle))
    && (l.recycle <= 0 ==> l.inflight == [] && l.ihead <= l.head)
  }

  /** No message with a smaller id can be delivered on this line any more. */
  function LowMark(l: LineState): nat {
    if l.recycle > 0 then l.ihead else l.head
  }

  /** The store holds every message the line can still deliver. */
  ghost predicate Covers(msgs: Messages, l: LineState, tail: nat) {
    forall id: nat :: LowMark(l) <= id < tail ==> id in msgs
  }
}
