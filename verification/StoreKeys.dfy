/**
 * The keys under which the queue keeps its records in the store (queue/uQueue.go,
 * queue/uTopic.go), when two of them are the same string, and the typed view of a store that
 * the rest of the model works with.
 */
module StoreKeys {
  import opened Base
  import opened Decimal

  const COLON: byte := 58
  const SLASH: byte := 47
  const QUEUE_KEY: Bytes := [85, 110, 105, 116, 101, 100, 81, 117, 101, 117, 101, 75, 101, 121]  // "UnitedQueueKey"
  const HEAD_SUFFIX: Bytes := [58, 104, 101, 97, 100]                    // ":head"
  const TAIL_SUFFIX: Bytes := [58, 116, 97, 105, 108]                    // ":tail"
  const RECYCLE_SUFFIX: Bytes := [58, 114, 101, 99, 121, 99, 108, 101]   // ":recycle"

  datatype Key =
    | QueueIndex
    | TopicRec(topic: Bytes)
    | HeadRec(topic: Bytes)
    | TailRec(topic: Bytes)
    | LineRec(topic: Bytes, line: Bytes)
    | RecycleRec(topic: Bytes, line: Bytes)
    | MsgRec(topic: Bytes, id: nat)

  function Render(k: Key): Bytes {
    match k
    case QueueIndex => QUEUE_KEY
    case TopicRec(t) => t
    case HeadRec(t) => t + HEAD_SUFFIX
    case TailRec(t) => t + TAIL_SUFFIX
    case LineRec(t, l) => t + [SLASH] + l
    case RecycleRec(t, l) => t + [SLASH] + l + RECYCLE_SUFFIX
    case MsgRec(t, id) => Acatui(t, [COLON], id)
  }

  /** The names `create` lets through: no slash, and a topic name is not empty. */
  predicate Accepted(k: Key) {
    k.QueueIndex? || (k.topic != [] && SLASH !in k.topic && (k.LineRec? || k.RecycleRec? ==> SLASH !in k.line))
  }

  // ----- Names that look like another record's key -----

  /** Where `c` first occurs, or the length. */
  function IndexOf(s: Bytes, c: byte): (k: nat)
    ensures k <= |s| && (k < |s| ==> s[k] == c)
    ensures forall i :: 0 <= i < k ==> s[i] != c
  {
    if s == [] || s[0] == c then 0 else 1 + IndexOf(s[1..], c)
  }

  /** One past where `c` last occurs, or zero. */
  function AfterLast(s: Bytes, c: byte): (k: nat)
    ensures k <= |s| && (k > 0 ==> s[k - 1] == c)
    ensures forall i :: k <= i < |s| ==> s[i] != c
  {
    if s == [] || s[|s| - 1] == c then |s| else AfterLast(s[..|s| - 1], c)
  }

  lemma {:induction false} IndexOfFirst(c: byte, a: Bytes, x: Bytes)
    requires c !in a
    ensures IndexOf(a + [c] + x, c) == |a|
  {
    if a != [] {
      assert (a + [c] + x)[1..] == a[1..] + [c] + x;
      IndexOfFirst(c, a[1..], x);
    }
  }

  lemma {:induction false} AfterLastOne(c: byte, a: Bytes, x: Bytes)
    requires c !in x
    ensures AfterLast(a + [c] + x, c) == |a| + 1
  {
    if x != [] {
      var s := a + [c] + x;
      assert s[|s| - 1] == x[|x| - 1];
      assert s[..|s| - 1] == a + [c] + x[..|x| - 1];
      AfterLastOne(c, a, x[..|x| - 1]);
    }
  }

  lemma SplitAtFirst(c: byte, a: Bytes, x: Bytes, b: Bytes, y: Bytes)
    requires c !in a && c !in b
    ensures a + [c] + x == b + [c] + y <==> a == b && x == y
  {
    IndexOfFirst(c, a, x);
    IndexOfFirst(c, b, y);
    SameParts(c, a, x, b, y);
  }

  lemma SplitAtLast(c: byte, a: Bytes, x: Bytes, b: Bytes, y: Bytes)
    requires c !in x && c !in y
    ensures a + [c] + x == b + [c] + y <==> a == b && x == y
  {
    AfterLastOne(c, a, x);
    AfterLastOne(c, b, y);
    SameParts(c, a, x, b, y);
  }

  lemma SameParts(c: byte, a: Bytes, x: Bytes, b: Bytes, y: Bytes)
    ensures a + [c] + x == b + [c] + y && |a| == |b| ==> a == b && x == y
  {
    var s := a + [c] + x;
    assert a == s[..|a|] && x == s[|a| + 1..];
    var r := b + [c] + y;
    assert b == r[..|b|] && y == r[|b| + 1..];
  }

  /** A key of the form `topic:word` ends in a word without a colon. */
  function Word(k: Key): (w: Bytes)
    requires k.HeadRec? || k.TailRec? || k.MsgRec?
    ensures COLON !in w && SLASH !in w && w != []
    ensures Render(k) == k.topic + [COLON] + w
  {
    match k
    case HeadRec(t) => assert HEAD_SUFFIX == [COLON] + HEAD_SUFFIX[1..]; HEAD_SUFFIX[1..]
    case TailRec(t) => assert TAIL_SUFFIX == [COLON] + TAIL_SUFFIX[1..]; TAIL_SUFFIX[1..]
    case MsgRec(t, id) => FormatUint(id)
  }

  predicate HasWord(k: Key) {
    k.HeadRec? || k.TailRec? || k.MsgRec?
  }

  predicate HasSlash(k: Key) {
    k.LineRec? || k.RecycleRec?
  }

  /** The record whose key has this last part, if there is one. */
  function KeyOfWord(topic: Bytes, w: Bytes): Option<Key> {
    if w == HEAD_SUFFIX[1..] then Some(HeadRec(topic))
    else if w == TAIL_SUFFIX[1..] then Some(TailRec(topic))
    else if IsCanonical(w) then Some(MsgRec(topic, Value(w)))
    else None
  }

  /**
   * The record that a topic of this name would share its key with: the index, or, if the name is
   * a nonempty prefix, a colon and one of `head`, `tail` or a decimal number, the record so named.
   */
  function MimickedBy(name: Bytes): Option<Key> {
    var i := AfterLast(name, COLON);
    if name == QUEUE_KEY then Some(QueueIndex)
    else if i <= 1 then None
    else KeyOfWord(name[..i - 1], name[i..])
  }

  predicate ReservedTopic(t: Bytes) {
    MimickedBy(t).Some?
  }

  predicate ReservedLine(l: Bytes) {
    |l| >= |RECYCLE_SUFFIX| && l[|l| - |RECYCLE_SUFFIX|..] == RECYCLE_SUFFIX
  }

  /** `a` is the record of a topic or line whose name mimics the key `b`. */
  predicate Mimics(a: Key, b: Key) {
    || (a.TopicRec? && MimickedBy(a.topic) == Some(b))
    || (a.LineRec? && b.RecycleRec? && a.topic == b.topic && ReservedLine(a.line)
        && b.line == a.line[..|a.line| - |RECYCLE_SUFFIX|])
  }

  lemma WordIsOf(k: Key)
    requires HasWord(k)
    ensures KeyOfWord(k.topic, Word(k)) == Some(k)
  {
    if k.MsgRec? {
      FormatIsCanonical(k.id);
      FormatValue(k.id);
      assert IsDigit(Word(k)[0]);
    }
  }

  lemma WordOf(topic: Bytes, w: Bytes)
    requires KeyOfWord(topic, w).Some?
    ensures var k := KeyOfWord(topic, w).value; HasWord(k) && k.topic == topic && Word(k) == w
  {
    if IsCanonical(w) {
      ValueFormat(w);
    }
  }

  lemma NameParts(name: Bytes, i: nat)
    requires 0 < i <= |name| && name[i - 1] == COLON
    ensures name == name[..i - 1] + [COLON] + name[i..]
  {
  }

  lemma MimickedRenders(name: Bytes)
    requires ReservedTopic(name)
    ensures var k := MimickedBy(name).value;
            && (k.QueueIndex? || (HasWord(k) && k.topic != [])) && Render(k) == name
            && (SLASH !in name ==> Accepted(k))
  {
    if name != QUEUE_KEY {
      var i := AfterLast(name, COLON);
      NameParts(name, i);
      WordRenders(name, name[..i - 1], name[i..]);
    }
  }

  lemma WordRenders(name: Bytes, p: Bytes, w: Bytes)
    requires name == p + [COLON] + w && KeyOfWord(p, w).Some?
    ensures var k := KeyOfWord(p, w).value; HasWord(k) && k.topic == p && Render(k) == name
    ensures SLASH !in name ==> SLASH !in p
  {
    WordOf(p, w);
    assert forall i :: 0 <= i < |p| ==> name[i] == p[i];
  }

  lemma IndexHasNoColon(k: Key)
    requires HasWord(k)
    ensures Render(k) != QUEUE_KEY
  {
    assert Render(k)[|k.topic|] == COLON && COLON !in QUEUE_KEY;
  }

  lemma MimickedParts(name: Bytes, p: Bytes, w: Bytes)
    requires name == p + [COLON] + w && p != [] && COLON !in w && name != QUEUE_KEY
    ensures MimickedBy(name) == KeyOfWord(p, w)
  {
    AfterLastOne(COLON, p, w);
    var i := AfterLast(name, COLON);
    assert i == |p| + 1;
    assert name[..i - 1] == p;
    assert name[i..] == w;
  }

  lemma RenderedMimics(k: Key)
    requires HasWord(k) && k.topic != []
    ensures MimickedBy(Render(k)) == Some(k)
  {
    IndexHasNoColon(k);
    WordIsOf(k);
    MimickedParts(Render(k), k.topic, Word(k));
  }

  /** The reading of a name is exact: it is the one record with that key. */
  lemma MimickedExactly(name: Bytes, k: Key)
    requires Accepted(TopicRec(name)) && Accepted(k)
    ensures MimickedBy(name) == Some(k) <==> (k.QueueIndex? || HasWord(k)) && Render(k) == name
  {
    if MimickedBy(name) == Some(k) {
      MimickedRenders(name);
    } else if HasWord(k) && Render(k) == name {
      RenderedMimics(k);
    }
  }

  // ----- When two keys are the same string -----

  lemma WordKeys(a: Key, b: Key)
    requires HasWord(a) && HasWord(b)
    ensures Render(a) == Render(b) <==> a == b
  {
    SplitAtLast(COLON, a.topic, Word(a), b.topic, Word(b));
    if a.MsgRec? && b.MsgRec? && Word(a) == Word(b) {
      FormatInjective(a.id, b.id);
    }
    if a.MsgRec? != b.MsgRec? {
      assert IsDigit(Word(if a.MsgRec? then a else b)[0]);
    }
  }

  lemma SlashKeys(a: Key, b: Key)
    requires HasSlash(a) && HasSlash(b) && Accepted(a) && Accepted(b)
    ensures Render(a) == Render(b) <==> a == b || Mimics(a, b) || Mimics(b, a)
  {
    var x := if a.LineRec? then a.line else a.line + RECYCLE_SUFFIX;
    var y := if b.LineRec? then b.line else b.line + RECYCLE_SUFFIX;
    assert Render(a) == a.topic + [SLASH] + x;
    assert Render(b) == b.topic + [SLASH] + y;
    SplitAtFirst(SLASH, a.topic, x, b.topic, y);
    LineNames(a.line, b.line);
  }

  lemma LineNames(x: Bytes, y: Bytes)
    ensures x + RECYCLE_SUFFIX == y + RECYCLE_SUFFIX ==> x == y
    ensures x == y + RECYCLE_SUFFIX <==> ReservedLine(x) && y == x[..|x| - |RECYCLE_SUFFIX|]
    ensures y == x + RECYCLE_SUFFIX <==> ReservedLine(y) && x == y[..|y| - |RECYCLE_SUFFIX|]
  {
    var n := |RECYCLE_SUFFIX|;
    assert x == (x + RECYCLE_SUFFIX)[..|x|] && (x + RECYCLE_SUFFIX)[|x|..] == RECYCLE_SUFFIX;
    assert y == (y + RECYCLE_SUFFIX)[..|y|] && (y + RECYCLE_SUFFIX)[|y|..] == RECYCLE_SUFFIX;
    assert |x| >= n ==> x == x[..|x| - n] + x[|x| - n..];
    assert |y| >= n ==> y == y[..|y| - n] + y[|y| - n..];
  }

  lemma SlashOrNot(k: Key)
    requires Accepted(k)
    ensures SLASH in Render(k) <==> HasSlash(k)
    ensures HasWord(k) ==> COLON in Render(k)
  {
    if HasSlash(k) {
      assert Render(k)[|k.topic|] == SLASH;
    } else if HasWord(k) {
      assert Render(k) == k.topic + [COLON] + Word(k);
    }
  }

  /**
   * Two different keys are the same string exactly when the name of a topic or line, read as
   * above, mimics the other.
   */
  lemma KeysCollideExactly(a: Key, b: Key)
    requires Accepted(a) && Accepted(b) && a != b
    ensures Render(a) == Render(b) <==> Mimics(a, b) || Mimics(b, a)
  {
    SlashOrNot(a);
    SlashOrNot(b);
    if HasSlash(a) && HasSlash(b) {
      SlashKeys(a, b);
    } else if HasWord(a) && HasWord(b) {
      WordKeys(a, b);
    } else if a.TopicRec? {
      MimickedExactly(a.topic, b);
    } else if b.TopicRec? {
      MimickedExactly(b.topic, a);
    }
  }

  // ----- Names that mimic nothing -----

  predicate PlainTopic(t: Bytes) {
    t != [] && SLASH !in t && !ReservedTopic(t)
  }

  predicate PlainLine(l: Bytes) {
    SLASH !in l && !ReservedLine(l)
  }

  predicate Plain(k: Key) {
    k.QueueIndex? || (PlainTopic(k.topic) && (HasSlash(k) ==> PlainLine(k.line)))
  }

  lemma ReservedLines(x: Bytes, l: Bytes)
    ensures ReservedLine(x + RECYCLE_SUFFIX)
    ensures ReservedLine(l) ==> COLON in l
  {
    var s := x + RECYCLE_SUFFIX;
    assert s[|s| - |RECYCLE_SUFFIX|..] == RECYCLE_SUFFIX;
    if ReservedLine(l) {
      assert l[|l| - |RECYCLE_SUFFIX|] == COLON;
    }
  }

  lemma PlainMimicsNothing(a: Key, b: Key)
    requires Plain(a) && Plain(b)
    ensures Accepted(a) && Accepted(b) && !Mimics(a, b)
  {
    if b.RecycleRec? {
      ReservedLines(b.line, b.line);
    }
  }

  /** Under plain names every record has a key of its own. */
  lemma PlainKeysDistinct(a: Key, b: Key)
    requires Plain(a) && Plain(b)
    ensures Render(a) == Render(b) ==> a == b
  {
    PlainMimicsNothing(a, b);
    PlainMimicsNothing(b, a);
    if a != b {
      KeysCollideExactly(a, b);
    }
  }

  /** A name without a colon, other than the index key, is plain. */
  lemma NoColonIsPlain(name: Bytes)
    requires COLON !in name && SLASH !in name
    ensures name != [] && name != QUEUE_KEY ==> PlainTopic(name)
    ensures PlainLine(name)
  {
    ReservedLines([], name);
  }

  /** A topic name is reserved exactly when some other record has it for its key. */
  lemma ReservedExactly(t: Bytes)
    requires Accepted(TopicRec(t))
    ensures ReservedTopic(t) <==> exists k: Key :: Accepted(k) && k != TopicRec(t) && Render(k) == t
  {
    if ReservedTopic(t) {
      MimickedRenders(t);
    }
    if k: Key :| Accepted(k) && k != TopicRec(t) && Render(k) == t {
      SlashOrNot(k);
      MimickedExactly(t, k);
    }
  }

  /** `create` also accepts names that are not plain: message 1 of topic `a` is the record of topic `a:1`. */
  lemma ColonNamesCollide()
    ensures var a, b := MsgRec([97], 1), TopicRec([97, 58, 49]);
            Accepted(a) && Accepted(b) && a != b && Render(a) == Render(b)
  {
    assert FormatUint(1) == [49];
  }

  /** A name whose keys are no other record's. */
  ghost predicate OwnTopic(t: Bytes) {
    forall mark: bool {:trigger Opened(mark)} :: Opened(mark) ==> PlainTopic(t)
  }

  ghost predicate OwnLine(l: Bytes) {
    forall mark: bool {:trigger Opened(mark)} :: Opened(mark) ==> PlainLine(l)
  }

  ghost predicate Own(k: Key) {
    k.QueueIndex? || (OwnTopic(k.topic) && (HasSlash(k) ==> OwnLine(k.line)))
  }

  lemma OwnIsPlain(k: Key)
    ensures Own(k) <==> Plain(k)
  {
    assert Opened(true);
  }

  lemma OwnNames(n: Bytes)
    ensures OwnTopic(n) <==> PlainTopic(n)
    ensures OwnLine(n) <==> PlainLine(n)
  {
    assert Opened(true);
  }

  // ----- A store seen through its keys -----

  type Records = imap<Key, Bytes>

  /** The records under the keys that `p` lets through, where `text` is how a key is written. */
  ghost function ViewBy(p: Key -> bool, text: Key -> Bytes, db: map<Bytes, Bytes>): Records {
    imap k: Key | p(k) && text(k) in db :: db[text(k)]
  }

  ghost predicate Alone(p: Key -> bool, text: Key -> Bytes, k: Key) {
    p(k) && forall j: Key :: p(j) && text(j) == text(k) ==> j == k
  }

  lemma ViewBySet(p: Key -> bool, text: Key -> Bytes, db: map<Bytes, Bytes>, k: Key, v: Bytes)
    requires Alone(p, text, k)
    ensures ViewBy(p, text, db[text(k) := v]) == ViewBy(p, text, db)[k := v]
  {
  }

  lemma ViewByDel(p: Key -> bool, text: Key -> Bytes, db: map<Bytes, Bytes>, k: Key)
    requires Alone(p, text, k)
    ensures ViewBy(p, text, db - {text(k)}) == ViewBy(p, text, db) - {k}
  {
  }

  ghost function View(db: map<Bytes, Bytes>): Records {
    ViewBy(Plain, Render, db)
  }

  lemma OwnIsAlone(k: Key)
    requires Own(k)
    ensures Plain(k) && Alone(Plain, Render, k)
  {
    OwnIsPlain(k);
    forall j: Key | Plain(j) && Render(j) == Render(k)
      ensures j == k
    {
      PlainKeysDistinct(j, k);
    }
  }

  /** Writing one record changes that record and no other. */
  lemma ViewSet(db: map<Bytes, Bytes>, k: Key, v: Bytes)
    requires Own(k)
    ensures View(db[Render(k) := v]) == View(db)[k := v]
  {
    OwnIsAlone(k);
    ViewBySet(Plain, Render, db, k, v);
  }

  /** Deleting one record deletes that record and no other. */
  lemma ViewDel(db: map<Bytes, Bytes>, k: Key)
    requires Own(k)
    ensures View(db - {Render(k)}) == View(db) - {k}
  {
    OwnIsAlone(k);
    ViewByDel(Plain, Render, db, k);
  }

  lemma ViewAt(db: map<Bytes, Bytes>, k: Key)
    requires Own(k)
    ensures k in View(db) <==> Render(k) in db
    ensures k in View(db) ==> View(db)[k] == db[Render(k)]
  {
    OwnIsAlone(k);
  }

  /** Every record there could be, names that are not plain included. */
  ghost function Raw(db: map<Bytes, Bytes>): Records {
    imap k: Key | Render(k) in db :: db[Render(k)]
  }
}
