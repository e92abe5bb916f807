/**
 * The encoding of the store messages (queue/uq.pb.go) as functions on byte sequences, and the
 * round trips. Module `WireBuffers` proves the buffer-writing and index-advancing code equal to
 * these functions.
 */
module Wire {
  import opened Base
  import opened LineSpec

  datatype LineStore = LineStore(head: nat, ihead: nat, inflights: seq<InflightMessage>)

  datatype TopicStore = TopicStore(lines: seq<Bytes>, persist: bool)

  datatype QueueStore = QueueStore(topics: seq<Bytes>)

  datatype WireError = UnexpectedEOF | WrongWireType | InvalidLength | RequiredNotSet | UnknownField

  // ----- Base 128 varints -----

  function Varint(v: nat): (s: Bytes)
    ensures s != []
  {
    if v < 128 then [v] else [v % 128 + 128] + Varint(v / 128)
  }

  /** A varint before it is cut to 64 bits: its value and how many bytes it takes. */
  function ReadRaw(data: Bytes): (r: Option<(nat, nat)>)
    ensures r.Some? ==> 0 < r.value.1 <= |data|
  {
    if data == [] then None
    else if data[0] < 128 then Some((data[0], 1))
    else
      match ReadRaw(data[1..])
      case None => None
      case Some((v, n)) => Some((data[0] - 128 + 128 * v, n + 1))
  }

  /** What the decoding loops accumulate: shifts past bit 63 fall off a uint64. */
  function ReadVarint(data: Bytes): (r: Option<(nat, nat)>)
    ensures r.Some? ==> 0 < r.value.1 <= |data| && r.value.0 < U64
  {
    match ReadRaw(data)
    case None => None
    case Some((v, n)) => Some((v % U64, n))
  }

  /** Reading back a uint64, whatever follows it. */
  lemma ReadBack(v: nat, rest: Bytes)
    requires v < U64
    ensures ReadVarint(Varint(v) + rest) == Some((v, |Varint(v)|))
  {
    VarintRoundTrip(v, rest);
  }

  lemma {:induction false} VarintRoundTrip(v: nat, rest: Bytes)
    ensures ReadRaw(Varint(v) + rest) == Some((v, |Varint(v)|))
  {
    if v >= 128 {
      VarintRoundTrip(v / 128, rest);
      assert (Varint(v) + rest)[1..] == Varint(v / 128) + rest;
    }
  }

  /** Every uint64 takes between one and ten bytes. */
  lemma VarintLength(v: nat)
    requires v < U64
    ensures 1 <= |Varint(v)| <= 10
  {
    VarintBound(v, 10);
  }

  function Pow128(k: nat): nat {
    if k == 0 then 1 else 128 * Pow128(k - 1)
  }

  lemma {:induction false} VarintBound(v: nat, k: nat)
    requires 1 <= k && v < Pow128(k)
    ensures |Varint(v)| <= k
  {
    if v >= 128 {
      assert k > 1 by {
        assert Pow128(1) == 128;
      }
      assert v / 128 < Pow128(k - 1);
      VarintBound(v / 128, k - 1);
    }
  }

  // ----- Two's complement -----

  /** The conversion `uint64(x)` of a signed integer. */
  function Unsigned(x: int): (v: nat)
    ensures v < U64
  {
    x % U64
  }

  function Signed(v: nat): int
    requires v < U64
  {
    if v >= I64 then v - U64 else v
  }

  lemma SignedUnsigned(x: int)
    requires -I64 <= x < I64
    ensures Signed(Unsigned(x)) == x
  {
  }

  // ----- Marshal -----

  predicate InflightFits(m: InflightMessage) {
    m.tid < U64 && -I64 <= m.exptime < I64
  }

  predicate LineFits(ls: LineStore) {
    ls.head < U64 && ls.ihead < U64 && forall i :: 0 <= i < |ls.inflights| ==> InflightFits(ls.inflights[i])
  }

  function MarshalInflight(m: InflightMessage): Bytes {
    [0x08] + Varint(m.tid) + [0x10] + Varint(Unsigned(m.exptime))
  }

  /** A length-delimited record: its tag, its length, its bytes. */
  function Delimited(tag: byte, s: Bytes): Bytes {
    [tag] + Varint(|s|) + s
  }

  function MarshalInflights(ms: seq<InflightMessage>): Bytes {
    if ms == [] then [] else Delimited(0x1a, MarshalInflight(ms[0])) + MarshalInflights(ms[1..])
  }

  function MarshalLine(ls: LineStore): Bytes {
    [0x08] + Varint(ls.head) + [0x10] + Varint(ls.ihead) + MarshalInflights(ls.inflights)
  }

  function MarshalNames(names: seq<Bytes>): Bytes {
    if names == [] then [] else Delimited(0x0a, names[0]) + MarshalNames(names[1..])
  }

  function MarshalTopic(ts: TopicStore): Bytes {
    MarshalNames(ts.lines) + [0x10, if ts.persist then 1 else 0]
  }

  function MarshalQueue(qs: QueueStore): Bytes {
    MarshalNames(qs.topics)
  }

  // ----- Unmarshal -----

  /** The field number the code switches on: `int32(wire >> 3)`. */
  function FieldNum(wire: nat): nat {
    (wire / 8) % 0x1_0000_0000
  }

  function WireType(wire: nat): nat {
    wire % 8
  }

  /** A length-delimited body: the bytes and what follows them. */
  function ReadChunk(data: Bytes): (r: Result<(Bytes, Bytes), WireError>)
    ensures r.Ok? ==> |r.value.1| < |data|
  {
    match ReadVarint(data)
    case None => Err(UnexpectedEOF)
    case Some((v, n)) =>
      if Signed(v) < 0 then Err(InvalidLength)
      else if v > |data| - n then Err(UnexpectedEOF)
      else Ok((data[n..n + v], data[n + v..]))
  }

  /** One tagged varint: the field number, the value, and what follows. */
  function ReadVarintField(data: Bytes, n: nat, wire: nat): (r: Result<(nat, Bytes), WireError>)
    requires n <= |data|
    ensures r.Ok? ==> |r.value.1| < |data| && r.value.0 < U64
  {
    if WireType(wire) != 0 then Err(WrongWireType)
    else
      match ReadVarint(data[n..])
      case None => Err(UnexpectedEOF)
      case Some((v, k)) => Ok((v, data[n + k..]))
  }

  function ReadChunkField(data: Bytes, n: nat, wire: nat): (r: Result<(Bytes, Bytes), WireError>)
    requires n <= |data|
    ensures r.Ok? ==> |r.value.1| < |data|
  {
    if WireType(wire) != 2 then Err(WrongWireType) else ReadChunk(data[n..])
  }

  datatype InflightFields = InflightFields(tid: Option<nat>, exptime: Option<int>)

  /** One turn of the decoding loop: a field is read and stored. */
  function InflightField(data: Bytes, m: InflightFields): (r: Result<(InflightFields, Bytes), WireError>)
    ensures r.Ok? ==> |r.value.1| < |data|
  {
    match ReadVarint(data)
    case None => Err(UnexpectedEOF)
    case Some((wire, n)) =>
      if FieldNum(wire) == 1 || FieldNum(wire) == 2 then
        match ReadVarintField(data, n, wire)
        case Err(e) => Err(e)
        case Ok((v, rest)) =>
          Ok((if FieldNum(wire) == 1 then m.(tid := Some(v)) else m.(exptime := Some(Signed(v))), rest))
      else Err(UnknownField)
  }

  function UnmarshalInflightFrom(data: Bytes, m: InflightFields): Result<InflightMessage, WireError>
    decreases |data|
  {
    if data == [] then
      if m.tid.Some? && m.exptime.Some? then Ok(InflightMessage(m.tid.value, m.exptime.value)) else Err(RequiredNotSet)
    else
      match InflightField(data, m)
      case Err(e) => Err(e)
      case Ok((m', rest)) => UnmarshalInflightFrom(rest, m')
  }

  function UnmarshalInflight(data: Bytes): Result<InflightMessage, WireError> {
    UnmarshalInflightFrom(data, InflightFields(None, None))
  }

  datatype LineFields = LineFields(head: Option<nat>, ihead: Option<nat>, inflights: seq<InflightMessage>)

  function LineField(data: Bytes, m: LineFields): (r: Result<(LineFields, Bytes), WireError>)
    ensures r.Ok? ==> |r.value.1| < |data|
  {
    match ReadVarint(data)
    case None => Err(UnexpectedEOF)
    case Some((wire, n)) =>
      if FieldNum(wire) == 1 || FieldNum(wire) == 2 then
        match ReadVarintField(data, n, wire)
        case Err(e) => Err(e)
        case Ok((v, rest)) => Ok((if FieldNum(wire) == 1 then m.(head := Some(v)) else m.(ihead := Some(v)), rest))
      else if FieldNum(wire) == 3 then
        match ReadChunkField(data, n, wire)
        case Err(e) => Err(e)
        case Ok((body, rest)) =>
          match UnmarshalInflight(body)
          case Err(e) => Err(e)
          case Ok(msg) => Ok((m.(inflights := m.inflights + [msg]), rest))
      else Err(UnknownField)
  }

  function UnmarshalLineFrom(data: Bytes, m: LineFields): Result<LineStore, WireError>
    decreases |data|
  {
    if data == [] then
      if m.head.Some? && m.ihead.Some? then Ok(LineStore(m.head.value, m.ihead.value, m.inflights))
      else Err(RequiredNotSet)
    else
      match LineField(data, m)
      case Err(e) => Err(e)
      case Ok((m', rest)) => UnmarshalLineFrom(rest, m')
  }

  function UnmarshalLine(data: Bytes): Result<LineStore, WireError> {
    UnmarshalLineFrom(data, LineFields(None, None, []))
  }

  datatype NameFields = NameFields(names: seq<Bytes>, persist: Option<bool>)

  /** The queue and topic messages share field 1; `topic` says whether field 2 is known. */
  function NameField(data: Bytes, m: NameFields, topic: bool): (r: Result<(NameFields, Bytes), WireError>)
    ensures r.Ok? ==> |r.value.1| < |data|
  {
    match ReadVarint(data)
    case None => Err(UnexpectedEOF)
    case Some((wire, n)) =>
      if FieldNum(wire) == 1 then
        match ReadChunkField(data, n, wire)
        case Err(e) => Err(e)
        case Ok((body, rest)) => Ok((m.(names := m.names + [body]), rest))
      else if topic && FieldNum(wire) == 2 then
        match ReadVarintField(data, n, wire)
        case Err(e) => Err(e)
        case Ok((v, rest)) => Ok((m.(persist := Some(v != 0)), rest))
      else Err(UnknownField)
  }

  function UnmarshalNamesFrom(data: Bytes, m: NameFields, topic: bool): Result<NameFields, WireError>
    decreases |data|
  {
    if data == [] then Ok(m)
    else
      match NameField(data, m, topic)
      case Err(e) => Err(e)
      case Ok((m', rest)) => UnmarshalNamesFrom(rest, m', topic)
  }

  function UnmarshalTopic(data: Bytes): Result<TopicStore, WireError> {
    match UnmarshalNamesFrom(data, NameFields([], None), true)
    case Err(e) => Err(e)
    case Ok(m) => if m.persist.Some? then Ok(TopicStore(m.names, m.persist.value)) else Err(RequiredNotSet)
  }

  function UnmarshalQueue(data: Bytes): Result<QueueStore, WireError> {
    match UnmarshalNamesFrom(data, NameFields([], None), false)
    case Err(e) => Err(e)
    case Ok(m) => Ok(QueueStore(m.names))
  }

  // ----- Round trips -----

  /** One varint field at the front of a message. */
  lemma ReadField(tag: byte, v: nat, rest: Bytes)
    requires tag < 128 && WireType(tag) == 0 && v < U64
    ensures var data := [tag] + Varint(v) + rest;
            ReadVarint(data) == Some((tag, 1)) && ReadVarintField(data, 1, tag) == Ok((v, rest))
  {
    Slices([tag], Varint(v), rest);
    ReadBack(v, rest);
  }

  lemma Slices(a: Bytes, b: Bytes, c: Bytes)
    ensures (a + b + c)[|a|..|a| + |b|] == b && (a + b + c)[|a| + |b|..] == c && (a + b + c)[|a|..] == b + c
  {
  }

  lemma Grouped(a: Bytes, b: Bytes, c: Bytes)
    ensures a + b + c == a + (b + c)
  {
  }

  lemma ChunkIs(data: Bytes, n: nat, s: Bytes, rest: Bytes)
    requires |s| < I64 && ReadVarint(data) == Some((|s|, n)) && n <= |data| && data[n..] == s + rest
    ensures ReadChunk(data) == Ok((s, rest))
  {
    ChunkSlices(data, n, s, rest);
  }

  lemma ChunkSlices(data: Bytes, n: nat, s: Bytes, rest: Bytes)
    requires n <= |data| && data[n..] == s + rest
    ensures |data| == n + |s| + |rest| && data[n..n + |s|] == s && data[n + |s|..] == rest
  {
    assert data[n..n + |s|] == data[n..][..|s|] && data[n + |s|..] == data[n..][|s|..];
  }

  lemma ReadBody(s: Bytes, rest: Bytes)
    requires |s| < I64
    ensures ReadChunk(Varint(|s|) + s + rest) == Ok((s, rest))
  {
    var len := Varint(|s|);
    ReadBack(|s|, s + rest);
    Grouped(len, s, rest);
    assert (len + (s + rest))[|len|..] == s + rest;
    ChunkIs(len + (s + rest), |len|, s, rest);
  }

  /** One length-delimited field at the front of a message. */
  lemma ReadDelimited(tag: byte, s: Bytes, rest: Bytes)
    requires tag < 128 && WireType(tag) == 2 && |s| < I64
    ensures var data := Delimited(tag, s) + rest;
            ReadVarint(data) == Some((tag, 1)) && ReadChunkField(data, 1, tag) == Ok((s, rest))
  {
    var data := Delimited(tag, s) + rest;
    assert data[1..] == Varint(|s|) + s + rest;
    ReadBody(s, rest);
  }

  lemma InflightRoundTrip(m: InflightMessage)
    requires InflightFits(m)
    ensures UnmarshalInflight(MarshalInflight(m)) == Ok(m)
  {
    var x := Unsigned(m.exptime);
    SignedUnsigned(m.exptime);
    var rest := [0x10] + Varint(x) + [];
    var f0 := InflightFields(None, None);
    var f1 := f0.(tid := Some(m.tid));
    var f2 := f1.(exptime := Some(m.exptime));
    ReadField(0x08, m.tid, rest);
    ReadField(0x10, x, []);
    InflightParts(m, x, rest);
    assert InflightField(MarshalInflight(m), f0) == Ok((f1, rest));
    assert InflightField(rest, f1) == Ok((f2, []));
    InflightSteps(MarshalInflight(m), f0, f1, rest);
    InflightSteps(rest, f1, f2, []);
  }

  lemma InflightParts(m: InflightMessage, x: nat, rest: Bytes)
    requires x == Unsigned(m.exptime) && rest == [0x10] + Varint(x) + []
    ensures MarshalInflight(m) == [0x08] + Varint(m.tid) + rest
  {
  }

  lemma InflightSteps(s: Bytes, f: InflightFields, f': InflightFields, rest: Bytes)
    requires s != [] && InflightField(s, f) == Ok((f', rest)) && |rest| < |s|
    ensures UnmarshalInflightFrom(s, f) == UnmarshalInflightFrom(rest, f')
  {
  }

  /** An in-flight message takes at most 22 bytes. */
  lemma InflightLength(m: InflightMessage)
    requires InflightFits(m)
    ensures |MarshalInflight(m)| <= 22
  {
    VarintLength(m.tid);
    VarintLength(Unsigned(m.exptime));
  }

  lemma ReadsInflight(msg: InflightMessage, rest: Bytes, m: LineFields)
    requires InflightFits(msg)
    ensures LineField(Delimited(0x1a, MarshalInflight(msg)) + rest, m) == Ok((m.(inflights := m.inflights + [msg]), rest))
  {
    InflightRoundTrip(msg);
    InflightLength(msg);
    ReadDelimited(0x1a, MarshalInflight(msg), rest);
  }

  lemma TakesInflight(msg: InflightMessage, rest: Bytes, m: LineFields)
    requires InflightFits(msg)
    ensures UnmarshalLineFrom(Delimited(0x1a, MarshalInflight(msg)) + rest, m)
         == UnmarshalLineFrom(rest, m.(inflights := m.inflights + [msg]))
  {
    ReadsInflight(msg, rest, m);
  }

  lemma FirstThenRest<T>(a: seq<T>, s: seq<T>)
    requires s != []
    ensures (a + [s[0]]) + s[1..] == a + s
  {
  }

  lemma ReadsHead(v: nat, rest: Bytes, m: LineFields)
    requires v < U64
    ensures LineField([0x08] + Varint(v) + rest, m) == Ok((m.(head := Some(v)), rest))
    ensures LineField([0x10] + Varint(v) + rest, m) == Ok((m.(ihead := Some(v)), rest))
  {
    ReadField(0x08, v, rest);
    ReadField(0x10, v, rest);
  }

  lemma {:induction false} InflightsRoundTrip(ms: seq<InflightMessage>, m: LineFields)
    requires forall i :: 0 <= i < |ms| ==> InflightFits(ms[i])
    requires m.head.Some? && m.ihead.Some?
    ensures UnmarshalLineFrom(MarshalInflights(ms), m) == Ok(LineStore(m.head.value, m.ihead.value, m.inflights + ms))
    decreases |ms|
  {
    if ms == [] {
      assert m.inflights + ms == m.inflights;
    } else {
      TakesInflight(ms[0], MarshalInflights(ms[1..]), m);
      InflightsRoundTrip(ms[1..], m.(inflights := m.inflights + [ms[0]]));
      FirstThenRest(m.inflights, ms);
    }
  }

  /** Unmarshalling what was marshalled returns the line store, whatever its 64-bit contents. */
  lemma LineRoundTrip(ls: LineStore)
    requires LineFits(ls)
    ensures UnmarshalLine(MarshalLine(ls)) == Ok(ls)
  {
    var tail := MarshalInflights(ls.inflights);
    var rest := [0x10] + Varint(ls.ihead) + tail;
    var m0 := LineFields(None, None, []);
    var m1 := m0.(head := Some(ls.head));
    var m2 := m1.(ihead := Some(ls.ihead));
    assert MarshalLine(ls) == [0x08] + Varint(ls.head) + rest;
    ReadsHead(ls.head, rest, m0);
    assert UnmarshalLine(MarshalLine(ls)) == UnmarshalLineFrom(rest, m1);
    ReadsHead(ls.ihead, tail, m1);
    assert UnmarshalLineFrom(rest, m1) == UnmarshalLineFrom(tail, m2);
    InflightsRoundTrip(ls.inflights, m2);
    assert [] + ls.inflights == ls.inflights;
  }

  predicate NamesFit(names: seq<Bytes>) {
    forall i :: 0 <= i < |names| ==> |names[i]| < I64
  }

  lemma ReadsName(name: Bytes, rest: Bytes, m: NameFields, topic: bool)
    requires |name| < I64
    ensures NameField(Delimited(0x0a, name) + rest, m, topic) == Ok((m.(names := m.names + [name]), rest))
  {
    ReadDelimited(0x0a, name, rest);
  }

  lemma TakesName(name: Bytes, rest: Bytes, m: NameFields, topic: bool)
    requires |name| < I64
    ensures UnmarshalNamesFrom(Delimited(0x0a, name) + rest, m, topic)
         == UnmarshalNamesFrom(rest, m.(names := m.names + [name]), topic)
  {
    ReadsName(name, rest, m, topic);
  }

  lemma TakesPersist(p: bool, m: NameFields)
    ensures UnmarshalNamesFrom([0x10, if p then 1 else 0], m, true) == Ok(m.(persist := Some(p)))
  {
    var v := if p then 1 else 0;
    ReadField(0x10, v, []);
    assert [0x10, v] == [0x10] + Varint(v) + [];
    assert NameField([0x10, v], m, true) == Ok((m.(persist := Some(p)), []));
  }

  lemma {:induction false} NamesRoundTrip(names: seq<Bytes>, rest: Bytes, m: NameFields, topic: bool)
    requires NamesFit(names)
    ensures UnmarshalNamesFrom(MarshalNames(names) + rest, m, topic)
         == UnmarshalNamesFrom(rest, m.(names := m.names + names), topic)
    decreases |names|
  {
    if names == [] {
      assert MarshalNames(names) + rest == rest && m.names + names == m.names;
    } else {
      var more := MarshalNames(names[1..]) + rest;
      assert MarshalNames(names) + rest == Delimited(0x0a, names[0]) + more;
      TakesName(names[0], more, m, topic);
      NamesRoundTrip(names[1..], rest, m.(names := m.names + [names[0]]), topic);
      FirstThenRest(m.names, names);
    }
  }

  lemma TopicRoundTrip(ts: TopicStore)
    requires NamesFit(ts.lines)
    ensures UnmarshalTopic(MarshalTopic(ts)) == Ok(ts)
    ensures MarshalTopic(ts) != []
  {
    NamesRoundTrip(ts.lines, [0x10, if ts.persist then 1 else 0], NameFields([], None), true);
    assert [] + ts.lines == ts.lines;
    TakesPersist(ts.persist, NameFields(ts.lines, None));
  }

  lemma QueueRoundTrip(qs: QueueStore)
    requires NamesFit(qs.topics)
    ensures UnmarshalQueue(MarshalQueue(qs)) == Ok(qs)
  {
    NamesRoundTrip(qs.topics, [], NameFields([], None), false);
    assert MarshalNames(qs.topics) + [] == MarshalNames(qs.topics);
    assert [] + qs.topics == qs.topics;
  }

  // ----- Fixed 64-bit records (the stored head and tail of a topic) -----

  function LittleEndian(v: nat, n: nat): (s: Bytes)
    ensures |s| == n
  {
    if n == 0 then [] else [v % 256] + LittleEndian(v / 256, n - 1)
  }

  function PutUint64(v: nat): Bytes {
    LittleEndian(v, 8)
  }

  function FromLittleEndian(s: Bytes): nat {
    if s == [] then 0 else s[0] + 256 * FromLittleEndian(s[1..])
  }

  /** The source panics on fewer than eight bytes and ignores any more. */
  function Uint64(s: Bytes): Option<nat> {
    if |s| < 8 then None else Some(FromLittleEndian(s[..8]))
  }

  function Pow256(n: nat): nat {
    if n == 0 then 1 else 256 * Pow256(n - 1)
  }

  lemma {:induction false} LittleEndianRoundTrip(v: nat, n: nat)
    requires v < Pow256(n)
    ensures FromLittleEndian(LittleEndian(v, n)) == v
  {
    if n > 0 {
      LittleEndianRoundTrip(v / 256, n - 1);
    }
  }

  lemma Uint64RoundTrip(v: nat)
    requires v < U64
    ensures Uint64(PutUint64(v)) == Some(v)
  {
    assert PutUint64(v)[..8] == PutUint64(v);
    assert Pow256(8) == U64 by {
      assert Pow256(4) == 0x1_0000_0000;
    }
    LittleEndianRoundTrip(v, 8);
  }
}
