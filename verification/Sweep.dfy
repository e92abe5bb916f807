/** A pass of the collector as a whole: when it stops, and what it comes to if no failure ends it. */
module Sweep {
  import opened Base
  import opened StoreKeys
  import opened Wire
  import opened TopicSpec
  import opened TopicProofs

  /** `bgCleanTimeout`, in nanoseconds. */
  const CLEAN_TIMEOUT: int := 5_000_000_000

  /** What a round of a pass sees: whether the quit signal is there, and the time. */
  datatype Reading = Reading(signal: bool, time: int)

  /** When a pass began, and what its rounds see, in order; past the end they see no signal and time left. */
  datatype Watch = Watch(began: int, seen: seq<Reading>)

  predicate Signalled(w: Watch, i: nat) {
    i < |w.seen| && w.seen[i].signal
  }

  predicate TimeUp(w: Watch, i: nat) {
    i < |w.seen| && w.seen[i].time > w.began + CLEAN_TIMEOUT
  }

  /** Round `i` finds the quit signal, or that the time is up. */
  predicate Stops(w: Watch, i: nat) {
    Signalled(w, i) || TimeUp(w, i)
  }

  /** How many messages a pass up to `end` has to delete. */
  function Gap(t: TopicState, end: nat): nat {
    if t.head < end then end - t.head else 0
  }

  /** The records without the messages of `[lo, hi)`. */
  ghost function DropMsgs(recs: Records, t: Bytes, lo: nat, hi: nat): Records {
    imap k: Key | k in recs && !IsMsgIn(k, t, lo, hi) :: recs[k]
  }

  /** The first `k` messages from the head on deleted, and the head moved over them and saved. */
  ghost function Swept(s: Sys, k: nat): Sys {
    if k == 0 then s
    else
      var head := s.t.head + k;
      Sys(s.t.(head := head, floor := head),
          DropMsgs(s.recs, s.t.name, s.t.head, head)[HeadRec(s.t.name) := PutUint64(head)])
  }

  /** A pass that no failure ended: it deletes until it is stopped or reaches `end`. */
  ghost predicate PassDone(s: Sys, end: nat, w: Watch, k: nat, quit: bool, s': Sys) {
    && IsEnd(s.t, end) && s' == Swept(s, k) && k <= Gap(s.t, end)
    && (forall i :: 0 <= i < k ==> !Stops(w, i))
    && (k < Gap(s.t, end) ==> Stops(w, k))
    && (quit <==> k < Gap(s.t, end) && Signalled(w, k))
  }

  // ----- The steps of a pass are a sweep -----

  lemma DropMore(recs: Records, t: Bytes, lo: nat, hi: nat, b: Bytes, c: Bytes)
    requires lo <= hi
    ensures (DropMsgs(recs, t, lo, hi)[HeadRec(t) := b] - {MsgRec(t, hi)})[HeadRec(t) := c]
         == DropMsgs(recs, t, lo, hi + 1)[HeadRec(t) := c]
  {
  }

  lemma DropFirst(recs: Records, t: Bytes, lo: nat, c: Bytes)
    ensures (recs - {MsgRec(t, lo)})[HeadRec(t) := c] == DropMsgs(recs, t, lo, lo + 1)[HeadRec(t) := c]
  {
  }

  lemma SweptMore(s: Sys, k: nat, s': Sys)
    requires CleanStepNext(Swept(s, k), s') && s'.t.pass == s.t.pass
    ensures s' == Swept(s, k + 1)
  {
    var head := s.t.head + k;
    if k == 0 {
      DropFirst(s.recs, s.t.name, head, PutUint64(head + 1));
    } else {
      DropMore(s.recs, s.t.name, s.t.head, head, PutUint64(head), PutUint64(head + 1));
    }
  }

  lemma StepPass(s: Sys, s': Sys)
    requires CleanStepNext(s, s')
    ensures Sweeping(s.t) && (s'.t.pass == s.t.pass || s'.t.pass == None)
  {
  }

  /** A pass up to `end` has deleted `k` messages. */
  ghost predicate Sweeps(s: Sys, k: nat, s': Sys) {
    s.t.pass.Some? && s' == Swept(s, k) && (k > 0 ==> s.t.head + k <= s.t.pass.value)
  }

  lemma SweepsOn(s: Sys, k: nat, m: Sys, s': Sys)
    requires Sweeps(s, k, m) && CleanStepNext(m, s') && s'.t.pass == s.t.pass
    ensures Sweeps(s, k + 1, s')
  {
    SweptMore(s, k, s');
  }

  lemma SweptPass(s: Sys, p: Option<nat>, k: nat)
    ensures Swept(s.(t := s.t.(pass := p)), k) == Swept(s, k).(t := Swept(s, k).t.(pass := p))
  {
  }

  /** Every message from `lo` up to `hi` is stored. */
  ghost predicate MsgsStored(recs: Records, t: Bytes, lo: nat, hi: nat) {
    forall id: nat :: lo <= id < hi ==> MsgRec(t, id) in recs
  }

  lemma StepStored(s: Sys, s': Sys, end: nat)
    requires CleanStepNext(s, s') && s.t.pass == s'.t.pass && MsgsStored(s.recs, s.t.name, s.t.head, end)
    ensures MsgsStored(s'.recs, s.t.name, s'.t.head, end) && s'.t.head == s.t.head + 1
  {
  }

  /** `k` steps of a pass come to a sweep of `k` messages, or a failure has ended it. */
  ghost predicate SweepsOrFails(s: Sys, k: nat, s': Sys) {
    s'.t.pass == None || (s'.t.pass == s.t.pass && Sweeps(s, k, s'))
  }

  /** As long as what the pass deletes is stored, no failure ends it. */
  ghost predicate Unhindered(s: Sys, s': Sys) {
    s.t.pass.Some? && MsgsStored(s.recs, s.t.name, s.t.head, s.t.pass.value) ==>
      s'.t.pass == s.t.pass && s'.t.name == s.t.name && MsgsStored(s'.recs, s.t.name, s'.t.head, s.t.pass.value)
  }

  /** `k` steps of a pass. */
  ghost predicate PassSteps(s: Sys, k: nat, s': Sys, reliable: bool) {
    forall mark: bool {:trigger Opened(mark)} :: Opened(mark) ==>
      CleanRun(s, k, s') && SweepsOrFails(s, k, s') && (reliable ==> Unhindered(s, s'))
  }

  lemma NoSteps(s: Sys, reliable: bool)
    requires s.t.pass.Some?
    ensures PassSteps(s, 0, s, reliable)
  {
  }

  lemma OpenPassSteps(s: Sys, k: nat, s': Sys, reliable: bool)
    requires PassSteps(s, k, s', reliable)
    ensures CleanRun(s, k, s') && SweepsOrFails(s, k, s') && (reliable ==> Unhindered(s, s'))
  {
    assert Opened(true);
  }

  lemma UnhinderedOn(s: Sys, m: Sys, s': Sys)
    requires Unhindered(s, m) && CleanStepNext(m, s')
    requires s'.t.pass == m.t.pass || MsgRec(m.t.name, m.t.head) !in m.recs
    ensures Unhindered(s, s')
  {
    if m.t.pass == s'.t.pass && MsgsStored(m.recs, m.t.name, m.t.head, m.t.pass.value) {
      StepStored(m, s', m.t.pass.value);
    }
  }

  lemma SweepsOrFailsOn(s: Sys, k: nat, m: Sys, s': Sys)
    requires SweepsOrFails(s, k, m) && CleanStepNext(m, s')
    ensures SweepsOrFails(s, k + 1, s')
  {
    StepPass(m, s');
    if s'.t.pass == s.t.pass {
      SweepsOn(s, k, m, s');
    }
  }

  lemma PassStepsMore(s: Sys, k: nat, m: Sys, s': Sys, reliable: bool)
    requires PassSteps(s, k, m, reliable) && CleanStepNext(m, s')
    requires reliable ==> s'.t.pass == m.t.pass || MsgRec(m.t.name, m.t.head) !in m.recs
    ensures PassSteps(s, k + 1, s', reliable)
  {
    OpenPassSteps(s, k, m, reliable);
    SweepsOrFailsOn(s, k, m, s');
    assert CleanRun(s, k + 1, s');
    if reliable {
      UnhinderedOn(s, m, s');
    }
  }

  /** In good order, every message a pass is to delete is stored. */
  lemma EndStored(s: Sys, end: nat)
    requires Inv(s) && IsEnd(s.t, end)
    ensures MsgsStored(s.recs, s.t.name, s.t.head, end)
  {
  }

  lemma PassEnds(s0: Sys, end: nat, s1: Sys, k: nat, s2: Sys, s': Sys)
    requires s1 == s0.(t := s0.t.(pass := Some(end))) && s0.t.pass == None
    requires SweepsOrFails(s1, k, s2) && s' == s2.(t := s2.t.(pass := None))
    ensures s2.t.pass == Some(end) ==> s' == Swept(s0, k) && k <= Gap(s0.t, end) && s2.t.head == s0.t.head + k
    ensures s2.t.pass == Some(end) || s2.t.pass == None
  {
    SweptPass(s0, Some(end), k);
  }

  ghost predicate NoStop(w: Watch, k: nat) {
    forall mark: bool {:trigger Opened(mark)} :: Opened(mark) ==> forall i :: 0 <= i < k ==> !Stops(w, i)
  }

  lemma NoStopMore(w: Watch, k: nat)
    requires NoStop(w, k) && !Signalled(w, k) && !TimeUp(w, k)
    ensures NoStop(w, k + 1)
  {
    assert Opened(true);
  }

  /** After `k` rounds the pass was stopped, or has nothing left; `quit` tells whether it was by the signal. */
  ghost predicate StoppedBy(w: Watch, k: nat, quit: bool, s: Sys, end: nat) {
    forall mark: bool {:trigger Opened(mark)} :: Opened(mark) ==>
      && NoStop(w, k)
      && (s.t.pass == Some(end) && s.t.head < end ==> Stops(w, k))
      && (quit <==> s.t.pass == Some(end) && s.t.head < end && Signalled(w, k))
  }

  lemma Stopping(w: Watch, k: nat, quit: bool, s: Sys, end: nat)
    requires NoStop(w, k)
    requires s.t.pass == Some(end) && s.t.head < end ==> Stops(w, k)
    requires quit <==> s.t.pass == Some(end) && s.t.head < end && Signalled(w, k)
    ensures StoppedBy(w, k, quit, s, end)
  {
  }

  /** `IsEnd`, guarded. */
  ghost predicate EndIs(t: TopicState, end: nat) {
    forall mark: bool {:trigger Opened(mark)} :: Opened(mark) ==> IsEnd(t, end)
  }

  /**
   * What a call of `clean` comes to: a pass up to `end`, the least of the tail and all low marks; if no failure ended
   * it, exactly the first `k` messages from the head on are gone, `k` being where it was stopped or had nothing left;
   * and on a reliable store, for a topic in good order, no failure ends it.
   */
  ghost predicate Cleaned(s: Sys, end: nat, w: Watch, k: nat, quit: bool, failed: bool, s': Sys, reliable: bool) {
    forall mark: bool {:trigger Opened(mark)} :: Opened(mark) ==>
      && IsEnd(s.t, end) && CleanPass(s, s')
      && (!failed ==> PassDone(s, end, w, k, quit, s'))
      && (reliable && Inv(s) ==> !failed)
  }

  /** The steps of a pass, put between its beginning and its end. */
  lemma WholePass(s0: Sys, end: nat, w: Watch, s1: Sys, k: nat, quit: bool, s2: Sys, s': Sys, reliable: bool)
    requires s1 == s0.(t := s0.t.(pass := Some(end))) && s0.t.pass == None && !s0.t.persist && EndIs(s0.t, end)
    requires PassSteps(s1, k, s2, reliable) && StoppedBy(w, k, quit, s2, end) && s' == s2.(t := s2.t.(pass := None))
    ensures Cleaned(s0, end, w, k, quit, s2.t.pass == None, s', reliable)
  {
    assert Opened(true);
    OpenPassSteps(s1, k, s2, reliable);
    assert CleanBeginNext(s0, s1);
    IsPass(s0, s1, k, s2, s');
    PassEnds(s0, end, s1, k, s2, s');
    if Inv(s0) {
      EndStored(s0, end);
    }
  }

  lemma OpenCleaned(s: Sys, end: nat, w: Watch, k: nat, quit: bool, failed: bool, s': Sys, reliable: bool)
    requires Cleaned(s, end, w, k, quit, failed, s', reliable)
    ensures IsEnd(s.t, end) && CleanPass(s, s')
    ensures !failed ==> PassDone(s, end, w, k, quit, s')
    ensures reliable && Inv(s) ==> !failed
  {
    assert Opened(true);
  }
}
