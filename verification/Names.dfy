/**
 * The keys of requests (queue/uQueue.go): one slash trimmed at either end, then split at the
 * slashes. Pop names a topic and a line; the id it returns is its key, a slash and a number.
 */
module Names {
  import opened Base
  import opened Decimal
  import opened StoreKeys

  function TrimPrefix(s: Bytes): Bytes {
    if s != [] && s[0] == SLASH then s[1..] else s
  }

  function TrimSuffix(s: Bytes): Bytes {
    if s != [] && s[|s| - 1] == SLASH then s[..|s| - 1] else s
  }

  function Trim(s: Bytes): Bytes {
    TrimSuffix(TrimPrefix(s))
  }

  /** `strings.Split(s, "/")`. */
  function Split(s: Bytes): (parts: seq<Bytes>)
    ensures parts != []
    ensures forall i :: 0 <= i < |parts| ==> SLASH !in parts[i]
    decreases |s|
  {
    var i := IndexOf(s, SLASH);
    if i == |s| then [s] else [s[..i]] + Split(s[i + 1..])
  }

  function Join(parts: seq<Bytes>): Bytes
    requires parts != []
  {
    if |parts| == 1 then parts[0] else parts[0] + [SLASH] + Join(parts[1..])
  }

  lemma {:induction false} JoinSplit(s: Bytes)
    ensures Join(Split(s)) == s
    decreases |s|
  {
    var i := IndexOf(s, SLASH);
    if i < |s| {
      JoinSplit(s[i + 1..]);
      JoinMore(s[..i], Split(s[i + 1..]));
      AtSlash(s, i);
    }
  }

  lemma JoinMore(a: Bytes, parts: seq<Bytes>)
    requires parts != []
    ensures Join([a] + parts) == a + [SLASH] + Join(parts)
  {
    assert ([a] + parts)[1..] == parts;
  }

  lemma AtSlash(s: Bytes, i: nat)
    requires i < |s| && s[i] == SLASH
    ensures s == s[..i] + [SLASH] + s[i + 1..]
  {
  }

  lemma FirstSlash(a: Bytes, b: Bytes)
    requires SLASH !in a
    ensures Split(a + [SLASH] + b) == [a] + Split(b)
  {
    var s := a + [SLASH] + b;
    assert s[|a|] == SLASH && forall i :: 0 <= i < |a| ==> s[i] == a[i];
    assert IndexOf(s, SLASH) == |a|;
    assert s[..|a|] == a && s[|a| + 1..] == b;
  }

  lemma NoSlash(a: Bytes)
    requires SLASH !in a
    ensures Split(a) == [a]
  {
    assert IndexOf(a, SLASH) == |a|;
  }

  /** Split undoes Join on parts without slashes. */
  lemma {:induction false} SplitJoin(parts: seq<Bytes>)
    requires parts != [] && forall i :: 0 <= i < |parts| ==> SLASH !in parts[i]
    ensures Split(Join(parts)) == parts
  {
    if |parts| == 1 {
      NoSlash(parts[0]);
    } else {
      SplitJoin(parts[1..]);
      FirstSlash(parts[0], Join(parts[1..]));
    }
  }

  /** What Pop and MultiPop make of a key: a topic and a line, or an error. */
  function PopKey(key: Bytes): Result<(Bytes, Bytes), Error> {
    var parts := Split(Trim(key));
    if |parts| != 2 then Err(ErrBadKey) else Ok((parts[0], parts[1]))
  }

  /** Trimming takes at most one slash from either end. */
  lemma TrimmedFrom(key: Bytes)
    ensures key in [Trim(key), [SLASH] + Trim(key), Trim(key) + [SLASH], [SLASH] + Trim(key) + [SLASH]]
  {
    var s := TrimPrefix(key);
    assert key == s || key == [SLASH] + s;
    assert s == Trim(key) || s == Trim(key) + [SLASH];
    assert [SLASH] + (Trim(key) + [SLASH]) == [SLASH] + Trim(key) + [SLASH];
  }

  /** A text with no slash at either end is what is left of it with or without one added. */
  lemma TrimsTo(s: Bytes)
    requires s != [] && s[0] != SLASH && s[|s| - 1] != SLASH
    ensures Trim(s) == s && Trim([SLASH] + s) == s && Trim(s + [SLASH]) == s && Trim([SLASH] + s + [SLASH]) == s
  {
    assert ([SLASH] + s)[1..] == s;
    assert (s + [SLASH])[..|s|] == s;
    assert ([SLASH] + s + [SLASH])[1..] == s + [SLASH];
  }

  /** The trimmed key is a topic and a line, with a slash between. */
  predicate IsPair(key: Bytes, t: Bytes, l: Bytes) {
    SLASH !in t && SLASH !in l && Trim(key) == t + [SLASH] + l
  }

  /** Pop reads a topic and a line from a key exactly when the trimmed key is the two with a slash between. */
  lemma PopKeyExactly(key: Bytes, t: Bytes, l: Bytes)
    ensures PopKey(key) == Ok((t, l)) <==> IsPair(key, t, l)
    ensures PopKey(key).Err? ==> PopKey(key) == Err(ErrBadKey)
  {
    var parts := Split(Trim(key));
    JoinSplit(Trim(key));
    if PopKey(key) == Ok((t, l)) {
      assert parts == [t, l] && Join(parts) == t + [SLASH] + l;
      assert SLASH !in parts[0] && SLASH !in parts[1];
    } else if IsPair(key, t, l) {
      SplitsInTwo(t, l);
    }
  }

  /** Names that are not empty are read from exactly four keys: a slash at either end makes no difference. */
  lemma PopKeyForms(key: Bytes, t: Bytes, l: Bytes)
    requires t != [] && l != [] && SLASH !in t && SLASH !in l
    ensures var s := t + [SLASH] + l;
            PopKey(key) == Ok((t, l)) <==> key in [s, [SLASH] + s, s + [SLASH], [SLASH] + s + [SLASH]]
  {
    var s := t + [SLASH] + l;
    assert s[0] == t[0] && s[|s| - 1] == l[|l| - 1];
    TrimsTo(s);
    TrimmedFrom(key);
    PopKeyExactly(key, t, l);
  }

  /** The id Pop returns for message `id`. */
  function IdOf(key: Bytes, id: nat): Bytes {
    Acatui(Trim(key), [SLASH], id)
  }

  /** What Confirm makes of an id. */
  function ConfirmKey(key: Bytes): Result<(Bytes, Bytes, nat), Error> {
    var parts := Split(Trim(key));
    if |parts| != 3 then Err(ErrBadKey)
    else
      match ParseUint(parts[2])
      case None => Err(ErrBadKey)
      case Some(id) => Ok((parts[0], parts[1], id))
  }

  /** The trimmed key is a topic, a line and a text, with slashes between. */
  predicate IsTriple(key: Bytes, t: Bytes, l: Bytes, d: Bytes) {
    SLASH !in t && SLASH !in l && SLASH !in d && Trim(key) == t + [SLASH] + l + [SLASH] + d
  }

  lemma TripleSplits(key: Bytes, t: Bytes, l: Bytes, d: Bytes)
    ensures IsTriple(key, t, l, d) <==> Split(Trim(key)) == [t, l, d]
  {
    var parts := Split(Trim(key));
    if parts == [t, l, d] {
      JoinSplit(Trim(key));
      assert parts[1..] == [l, d] && Join([l, d]) == l + [SLASH] + d;
      assert SLASH !in parts[0] && SLASH !in parts[1] && SLASH !in parts[2];
      assert Join(parts) == t + [SLASH] + (l + [SLASH] + d);
      Slashed(t, l, d);
    } else if IsTriple(key, t, l, d) {
      SplitsInThree(t, l, d);
    }
  }

  lemma Slashed(t: Bytes, l: Bytes, d: Bytes)
    ensures t + [SLASH] + (l + [SLASH] + d) == t + [SLASH] + l + [SLASH] + d
  {
  }

  /** Confirm reads a topic, a line and a number exactly when the trimmed key is the three with slashes between. */
  lemma ConfirmKeyExactly(key: Bytes, t: Bytes, l: Bytes, id: nat)
    ensures ConfirmKey(key) == Ok((t, l, id)) <==> exists d :: IsTriple(key, t, l, d) && ParseUint(d) == Some(id)
    ensures ConfirmKey(key).Err? ==> ConfirmKey(key) == Err(ErrBadKey)
  {
    var parts := Split(Trim(key));
    if ConfirmKey(key) == Ok((t, l, id)) {
      assert parts == [t, l, parts[2]];
      TripleSplits(key, t, l, parts[2]);
    }
    forall d | IsTriple(key, t, l, d) && ParseUint(d) == Some(id)
      ensures ConfirmKey(key) == Ok((t, l, id))
    {
      TripleSplits(key, t, l, d);
    }
  }

  function IdsOf(key: Bytes, ids: seq<nat>): seq<Bytes> {
    seq(|ids|, i requires 0 <= i < |ids| => IdOf(key, ids[i]))
  }

  /** The loop of MultiPop that turns ids into keys: the key of each message, in the order of the messages. */
  method MakeIds(key: Bytes, ids: seq<nat>) returns (keys: seq<Bytes>)
    ensures keys == IdsOf(key, ids)
    ensures |keys| == |ids| && forall i :: 0 <= i < |ids| ==> keys[i] == Trim(key) + [SLASH] + FormatUint(ids[i])
  {
    keys := [];
    for i := 0 to |ids|
      invariant |keys| == i && forall k :: 0 <= k < i ==> keys[k] == IdOf(key, ids[k])
    {
      keys := keys + [Acatui(Trim(key), [SLASH], ids[i])];
    }
  }

  /** The id of a message as clients see it. */
  function IdText(t: Bytes, l: Bytes, id: nat): Bytes {
    t + [SLASH] + l + [SLASH] + FormatUint(id)
  }

  lemma IdIsJoined(key: Bytes, t: Bytes, l: Bytes, id: nat)
    requires PopKey(key) == Ok((t, l))
    ensures IdOf(key, id) == IdText(t, l, id)
    ensures SLASH !in t && SLASH !in l && SLASH !in FormatUint(id)
  {
    JoinSplit(Trim(key));
    var parts := Split(Trim(key));
    assert parts == [t, l] && Join(parts) == t + [SLASH] + l;
    assert SLASH !in parts[0] && SLASH !in parts[1];
    var d := FormatUint(id);
    assert forall i :: 0 <= i < |d| ==> IsDigit(d[i]);
  }

  lemma SplitsInThree(t: Bytes, l: Bytes, d: Bytes)
    requires SLASH !in t && SLASH !in l && SLASH !in d
    ensures Split(t + [SLASH] + l + [SLASH] + d) == [t, l, d]
  {
    var parts := [t, l, d];
    assert Join(parts[1..]) == l + [SLASH] + d;
    assert Join(parts) == t + [SLASH] + l + [SLASH] + d;
    SplitJoin(parts);
  }

  lemma SplitsInTwo(l: Bytes, d: Bytes)
    requires SLASH !in l && SLASH !in d
    ensures Split(l + [SLASH] + d) == [l, d]
  {
    assert Join([l, d]) == l + [SLASH] + d;
    SplitJoin([l, d]);
  }

  lemma NotTrimmed(t: Bytes, l: Bytes, d: Bytes)
    requires SLASH !in t && d != [] && SLASH !in d
    ensures t != [] ==> Trim(t + [SLASH] + l + [SLASH] + d) == t + [SLASH] + l + [SLASH] + d
    ensures t == [] ==> Trim(t + [SLASH] + l + [SLASH] + d) == l + [SLASH] + d
  {
    var s := t + [SLASH] + l + [SLASH] + d;
    assert s[|s| - 1] == d[|d| - 1];
    assert s[0] == if t != [] then t[0] else SLASH;
    if t == [] {
      assert s[1..] == l + [SLASH] + d;
    }
  }

  /**
   * The id that Pop returns leads Confirm back to the same topic, line and number, for every
   * key Pop accepts and every uint64 number, if and only if the topic part is not empty.
   */
  lemma ConfirmFindsPopped(key: Bytes, t: Bytes, l: Bytes, id: nat)
    requires PopKey(key) == Ok((t, l)) && id < U64
    ensures ConfirmKey(IdOf(key, id)) == Ok((t, l, id)) <==> t != []
    ensures t == [] ==> ConfirmKey(IdOf(key, id)) == Err(ErrBadKey)
  {
    var d := FormatUint(id);
    IdIsJoined(key, t, l, id);
    NotTrimmed(t, l, d);
    SplitsInThree(t, l, d);
    SplitsInTwo(l, d);
    ParseFormat(id);
  }

  /** A key whose topic part is empty. */
  lemma EmptyTopicPart(id: nat)
    requires id < U64
    ensures var key := [SLASH, SLASH, 98];
            PopKey(key) == Ok(([], [98])) && ConfirmKey(IdOf(key, id)) == Err(ErrBadKey)
  {
    var key: Bytes := [SLASH, SLASH, 98];
    assert Trim(key) == [] + [SLASH] + [98];
    SplitsInTwo([], [98]);
    ConfirmFindsPopped(key, [], [98], id);
  }
}
