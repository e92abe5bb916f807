/**
 * The generated code of queue/uq.pb.go as it works: sizes are accumulated, a buffer of exactly
 * that size is written by index, and decoding advances an index over the input.
 */
module WireBuffers {
  import opened Base
  import opened LineSpec
  import opened Wire

  // ----- Sizes -----

  /** `sovUq`: the number of bytes `EncodeVarint` writes. */
  method Sov(x: nat) returns (n: nat)
    ensures n == |Varint(x)|
  {
    var y := x;
    n := 0;
    while true
      invariant n + |Varint(y)| == |Varint(x)|
      decreases y
    {
      n := n + 1;
      y := y / 128;
      if y == 0 { break; }
    }
  }

  method InflightSize(m: InflightMessage) returns (n: nat)
    ensures n == |MarshalInflight(m)|
  {
    var a := Sov(m.tid);
    var b := Sov(Unsigned(m.exptime));
    n := 1 + a + (1 + b);
  }

  method LineSize(ls: LineStore) returns (n: nat)
    ensures n == |MarshalLine(ls)|
  {
    var a := Sov(ls.head);
    var b := Sov(ls.ihead);
    n := 1 + a + (1 + b);
    for i := 0 to |ls.inflights|
      invariant n + |MarshalInflights(ls.inflights[i..])| == |MarshalLine(ls)|
    {
      var l := InflightSize(ls.inflights[i]);
      var s := Sov(l);
      n := n + (1 + l + s);
      assert ls.inflights[i..][1..] == ls.inflights[i + 1..];
    }
  }

  method NamesSize(names: seq<Bytes>) returns (n: nat)
    ensures n == |MarshalNames(names)|
  {
    n := 0;
    for i := 0 to |names|
      invariant n + |MarshalNames(names[i..])| == |MarshalNames(names)|
    {
      var s := Sov(|names[i]|);
      n := n + (1 + |names[i]| + s);
      assert names[i..][1..] == names[i + 1..];
    }
  }

  // ----- Writing -----

  method EncodeVarint(data: array<byte>, offset: nat, v: nat) returns (n: nat)
    requires offset + |Varint(v)| <= data.Length
    modifies data
    ensures n == offset + |Varint(v)|
    ensures data[..offset] == old(data[..offset]) && data[offset..n] == Varint(v) && data[n..] == old(data[n..])
  {
    var x := v;
    n := offset;
    while x >= 128
      invariant offset <= n && n + |Varint(x)| == offset + |Varint(v)|
      invariant data[..][..offset] == old(data[..])[..offset] && data[..][n..] == old(data[..])[n..]
      invariant data[..][offset..n] + Varint(x) == Varint(v)
    {
      ghost var was := data[..];
      data[n] := x % 128 + 128;
      ByteSet(was, data[..], offset, n, x % 128 + 128);
      SameSuffix(was, old(data[..]), n, n + 1);
      FirstThenRest(was[offset..n], x % 128 + 128, Varint(x / 128));
      n := n + 1;
      x := x / 128;
    }
    ghost var was := data[..];
    data[n] := x;
    ByteSet(was, data[..], offset, n, x);
    SameSuffix(was, old(data[..]), n, n + 1);
    n := n + 1;
    Slices(data, offset, n);
  }

  lemma ByteSet(s: Bytes, s': Bytes, offset: nat, n: nat, b: byte)
    requires offset <= n < |s| && s' == s[n := b]
    ensures s'[..offset] == s[..offset] && s'[offset..n + 1] == s[offset..n] + [b] && s'[n + 1..] == s[n + 1..]
  {
  }

  lemma FirstThenRest(a: Bytes, b: byte, c: Bytes)
    ensures a + ([b] + c) == a + [b] + c
  {
  }

  lemma Slices(data: array<byte>, i: nat, j: nat)
    requires i <= j <= data.Length
    ensures data[..i] == data[..][..i] && data[i..j] == data[..][i..j] && data[j..] == data[..][j..]
  {
  }

  /** `data[base..i]` already holds `done`; writing `s` at `i` extends it. */
  lemma Extended(data: seq<byte>, base: nat, i: nat, n: nat, done: Bytes, s: Bytes)
    requires base <= i <= n <= |data| && data[base..i] == done && data[i..n] == s
    ensures data[base..n] == done + s
  {
    assert data[base..n] == data[base..i] + data[i..n];
  }

  /** A tag and a varint at `base`. */
  method PutField(data: array<byte>, base: nat, tag: byte, v: nat) returns (i: nat)
    requires base + 1 + |Varint(v)| <= data.Length
    modifies data
    ensures i == base + 1 + |Varint(v)|
    ensures data[..base] == old(data[..base]) && data[base..i] == [tag] + Varint(v) && data[i..] == old(data[i..])
  {
    data[base] := tag;
    i := EncodeVarint(data, base + 1, v);
    assert data[..base] == data[..base + 1][..base];
    assert data[base] == data[..base + 1][base];
    assert data[base..base + 1] == [tag];
    Extended(data[..], base, base + 1, i, [tag], Varint(v));
  }

  method InflightMarshalTo(data: array<byte>, base: nat, m: InflightMessage) returns (i: nat)
    requires base + |MarshalInflight(m)| <= data.Length
    modifies data
    ensures i == base + |MarshalInflight(m)|
    ensures data[..base] == old(data[..base]) && data[base..i] == MarshalInflight(m) && data[i..] == old(data[i..])
  {
    var a := PutField(data, base, 0x8, m.tid);
    i := PutField(data, a, 0x10, Unsigned(m.exptime));
    assert data[..base] == data[..a][..base];
    assert data[base..a] == data[..a][base..];
    Extended(data[..], base, a, i, [0x8] + Varint(m.tid), [0x10] + Varint(Unsigned(m.exptime)));
    Regroup([0x8] + Varint(m.tid), [0x10], Varint(Unsigned(m.exptime)));
  }

  lemma Regroup(a: Bytes, b: Bytes, c: Bytes)
    ensures a + (b + c) == a + b + c
  {
  }

  /** One length-delimited in-flight message at `i`. */
  method PutInflight(data: array<byte>, base: nat, m: InflightMessage) returns (i: nat)
    requires base + |Delimited(0x1a, MarshalInflight(m))| <= data.Length
    modifies data
    ensures i == base + |Delimited(0x1a, MarshalInflight(m))|
    ensures data[..base] == old(data[..base]) && data[i..] == old(data[i..])
    ensures data[base..i] == Delimited(0x1a, MarshalInflight(m))
  {
    var size := InflightSize(m);
    var a := PutField(data, base, 0x1a, size);
    i := InflightMarshalTo(data, a, m);
    assert data[..base] == data[..a][..base];
    assert data[base..a] == data[..a][base..];
    Extended(data[..], base, a, i, [0x1a] + Varint(size), MarshalInflight(m));
  }

  method LineMarshalTo(data: array<byte>, ls: LineStore) returns (i: nat)
    requires data.Length == |MarshalLine(ls)|
    modifies data
    ensures i == data.Length && data[..] == MarshalLine(ls)
  {
    var a := PutField(data, 0, 0x8, ls.head);
    i := PutField(data, a, 0x10, ls.ihead);
    assert data[..i] == [0x8] + Varint(ls.head) + [0x10] + Varint(ls.ihead) by {
      assert data[..][0..a] == data[..a] && data[..][0..i] == data[..i];
      Extended(data[..], 0, a, i, [0x8] + Varint(ls.head), [0x10] + Varint(ls.ihead));
      Regroup([0x8] + Varint(ls.head), [0x10], Varint(ls.ihead));
    }
    for k := 0 to |ls.inflights|
      invariant i + |MarshalInflights(ls.inflights[k..])| == data.Length
      invariant data[..i] + MarshalInflights(ls.inflights[k..]) == MarshalLine(ls)
    {
      ghost var rest := ls.inflights[k..];
      assert rest[1..] == ls.inflights[k + 1..];
      ghost var was := data[..i];
      var j := PutInflight(data, i, ls.inflights[k]);
      Peel(data[..], i, j, was, Delimited(0x1a, MarshalInflight(ls.inflights[k])), MarshalInflights(rest[1..]));
      i := j;
    }
    assert data[..i] == data[..];
  }

  lemma Peel(data: seq<byte>, i: nat, j: nat, was: Bytes, s: Bytes, rest: Bytes)
    requires i <= j <= |data| && data[..i] == was && data[i..j] == s
    ensures data[..j] + rest == was + (s + rest)
  {
    assert data[..j] == data[..i] + data[i..j];
  }

  lemma SameSuffix(a: Bytes, b: Bytes, i: nat, j: nat)
    requires i <= j <= |a| == |b| && a[i..] == b[i..]
    ensures a[j..] == b[j..]
  {
    assert a[j..] == a[i..][j - i..] && b[j..] == b[i..][j - i..];
  }

  /** One length-delimited name at `base`. */
  method PutName(data: array<byte>, base: nat, s: Bytes) returns (i: nat)
    requires base + |Delimited(0x0a, s)| <= data.Length
    modifies data
    ensures i == base + |Delimited(0x0a, s)|
    ensures data[..base] == old(data[..base]) && data[i..] == old(data[i..])
    ensures data[base..i] == Delimited(0x0a, s)
  {
    ghost var before := data[..];
    var a := PutField(data, base, 0xa, |s|);
    ghost var tagged := data[..];
    assert tagged[a..] == before[a..];
    forall k | 0 <= k < |s| {
      data[a + k] := s[k];
    }
    i := a + |s|;
    assert data[a..i] == s;
    assert data[..][i..] == tagged[i..];
    SameSuffix(tagged, before, a, i);
    assert data[..a] == tagged[..a];
    assert data[..base] == data[..a][..base];
    assert data[base..a] == data[..a][base..];
    Extended(data[..], base, a, i, [0xa] + Varint(|s|), s);
  }

  method NamesMarshalTo(data: array<byte>, names: seq<Bytes>) returns (i: nat)
    requires |MarshalNames(names)| <= data.Length
    modifies data
    ensures i == |MarshalNames(names)| && data[..i] == MarshalNames(names)
  {
    i := 0;
    for k := 0 to |names|
      invariant i + |MarshalNames(names[k..])| == |MarshalNames(names)|
      invariant data[..i] + MarshalNames(names[k..]) == MarshalNames(names)
    {
      ghost var rest := names[k..];
      assert rest[1..] == names[k + 1..];
      ghost var was := data[..i];
      var j := PutName(data, i, names[k]);
      Peel(data[..], i, j, was, Delimited(0x0a, names[k]), MarshalNames(rest[1..]));
      i := j;
    }
    assert names[|names|..] == [] && data[..i] + [] == data[..i];
  }

  // ----- Marshal: the buffer is exactly as large as what is written -----

  method LineMarshal(ls: LineStore) returns (b: Bytes)
    ensures b == MarshalLine(ls)
  {
    var size := LineSize(ls);
    var data := new byte[size];
    var n := LineMarshalTo(data, ls);
    b := data[..n];
  }

  method TopicMarshal(ts: TopicStore) returns (b: Bytes)
    ensures b == MarshalTopic(ts)
  {
    var size := NamesSize(ts.lines);
    var data := new byte[size + 2];
    var i := NamesMarshalTo(data, ts.lines);
    ghost var names := data[..i];
    data[i] := 0x10;
    i := i + 1;
    data[i] := if ts.persist then 1 else 0;
    i := i + 1;
    b := data[..i];
    assert b == names + [0x10, if ts.persist then 1 else 0];
  }

  method QueueMarshal(qs: QueueStore) returns (b: Bytes)
    ensures b == MarshalQueue(qs)
  {
    var size := NamesSize(qs.topics);
    var data := new byte[size];
    var n := NamesMarshalTo(data, qs.topics);
    b := data[..n];
  }

  // ----- Reading -----

  lemma WrapAdd(full: nat, x: nat)
    ensures (full % U64 + x) % U64 == (full + x) % U64
  {
    var q := full / U64;
    assert full % U64 + x == full + x - U64 * q;
    WrapMultiple(full + x, q);
  }

  lemma WrapMultiple(a: int, q: int)
    ensures (a - U64 * q) % U64 == a % U64
  {
    var r := a / U64;
    assert a - U64 * q == U64 * (r - q) + a % U64;
  }

  /** One more group of seven bits: what is read so far, `full`, and what is still to come. */
  lemma Shifted(full: nat, power: nat, low: nat, high: nat)
    ensures low * power >= 0 && power * 128 >= 0
    ensures full + power * (low + 128 * high) == (full + low * power) + (power * 128) * high
    ensures (full % U64 + low * power) % U64 == (full + low * power) % U64
  {
    NonNegative(low, power);
    assert power * (low + 128 * high) == power * low + power * (128 * high);
    assert power * (128 * high) == (power * 128) * high;
    WrapAdd(full, low * power);
  }

  lemma NonNegative(a: nat, b: nat)
    ensures a * b >= 0
  {
  }

  lemma FirstGroup(data: Bytes, i: nat)
    requires i < |data|
    ensures data[i] < 128 ==> ReadRaw(data[i..]) == Some((data[i], 1))
    ensures data[i] >= 128 ==> (ReadRaw(data[i..]).Some? <==> ReadRaw(data[i + 1..]).Some?)
    ensures data[i] >= 128 && ReadRaw(data[i..]).Some? ==>
              && ReadRaw(data[i..]).value.0 == data[i] - 128 + 128 * ReadRaw(data[i + 1..]).value.0
              && ReadRaw(data[i..]).value.1 == ReadRaw(data[i + 1..]).value.1 + 1
  {
    assert data[i..][1..] == data[i + 1..];
  }

  /**
   * The loop that gathers seven bits a byte, with `power` for two to the current shift. The bits
   * of the operands do not overlap, so the disjunction is a sum; bits shifted past 63 are lost.
   */
  method DecodeVarint(data: Bytes, start: nat) returns (ok: bool, v: nat, i: nat)
    requires start <= |data|
    ensures ok <==> ReadVarint(data[start..]).Some?
    ensures ok ==> start < i <= |data| && ReadVarint(data[start..]) == Some((v, i - start))
  {
    var power: nat := 1;
    ghost var full: nat := 0;
    v, i, ok := 0, start, false;
    ghost var total := ReadRaw(data[start..]);
    while i < |data|
      invariant start <= i <= |data| && v == full % U64
      invariant total.Some? <==> ReadRaw(data[i..]).Some?
      invariant total.Some? ==> total.value.0 == full + power * ReadRaw(data[i..]).value.0
      invariant total.Some? ==> total.value.1 == (i - start) + ReadRaw(data[i..]).value.1
    {
      var b := data[i];
      FirstGroup(data, i);
      ghost var high := if total.Some? && b >= 128 then ReadRaw(data[i + 1..]).value.0 else 0;
      Shifted(full, power, b % 128, high);
      i := i + 1;
      v := (v + (b % 128) * power) % U64;
      if b < 0x80 {
        ok := true;
        return;
      }
      full := full + (b % 128) * power;
      power := power * 128;
    }
  }

  lemma Drop(data: Bytes, i: nat, n: nat)
    requires i + n <= |data|
    ensures data[i..][n..] == data[i + n..]
  {
  }

  /** The varint of a field whose tag ended at `j`. */
  method DecodeVarintField(data: Bytes, i: nat, j: nat, wire: nat) returns (r: Result<(nat, nat), WireError>)
    requires i <= j <= |data|
    ensures match ReadVarintField(data[i..], j - i, wire)
            case Err(e) => r == Err(e)
            case Ok((v, rest)) => r.Ok? && r.value.0 == v && j <= r.value.1 <= |data| && rest == data[r.value.1..]
  {
    Drop(data, i, j - i);
    if WireType(wire) != 0 { return Err(WrongWireType); }
    var ok, v, k := DecodeVarint(data, j);
    if !ok { return Err(UnexpectedEOF); }
    Drop(data, i, k - i);
    return Ok((v, k));
  }

  /** The bounds of the length-delimited body of a field whose tag ended at `j`. */
  method DecodeChunkField(data: Bytes, i: nat, j: nat, wire: nat) returns (r: Result<(nat, nat), WireError>)
    requires i <= j <= |data|
    ensures match ReadChunkField(data[i..], j - i, wire)
            case Err(e) => r == Err(e)
            case Ok((body, rest)) =>
              r.Ok? && j <= r.value.0 <= r.value.1 <= |data| &&
              body == data[r.value.0..r.value.1] && rest == data[r.value.1..]
  {
    Drop(data, i, j - i);
    if WireType(wire) != 2 { return Err(WrongWireType); }
    var ok, v, k := DecodeVarint(data, j);
    if !ok { return Err(UnexpectedEOF); }
    if Signed(v) < 0 { return Err(InvalidLength); }
    if v > |data| - k { return Err(UnexpectedEOF); }
    Drop(data, j, k - j + v);
    assert data[j..][k - j..k - j + v] == data[k..k + v];
    return Ok((k, k + v));
  }

  /** One turn of the loop: the field at `i` is stored and the index moves past it. */
  method ReadInflightField(data: Bytes, i: nat, m: InflightFields) returns (r: Result<(InflightFields, nat), WireError>)
    requires i < |data|
    ensures match InflightField(data[i..], m)
            case Err(e) => r == Err(e)
            case Ok((m', rest)) => r.Ok? && r.value.0 == m' && i < r.value.1 <= |data| && rest == data[r.value.1..]
  {
    var ok, wire, j := DecodeVarint(data, i);
    if !ok { return Err(UnexpectedEOF); }
    if FieldNum(wire) != 1 && FieldNum(wire) != 2 { return Err(UnknownField); }
    var f := DecodeVarintField(data, i, j, wire);
    if f.Err? { return Err(f.error); }
    return Ok((if FieldNum(wire) == 1 then m.(tid := Some(f.value.0)) else m.(exptime := Some(Signed(f.value.0))),
               f.value.1));
  }

  method InflightUnmarshal(data: Bytes) returns (r: Result<InflightMessage, WireError>)
    ensures r == UnmarshalInflight(data)
  {
    var m := InflightFields(None, None);
    var i := 0;
    assert data[0..] == data;
    while i < |data|
      invariant i <= |data| && UnmarshalInflightFrom(data[i..], m) == UnmarshalInflight(data)
    {
      var f := ReadInflightField(data, i, m);
      if f.Err? { return Err(f.error); }
      m, i := f.value.0, f.value.1;
    }
    assert data[i..] == [];
    return if m.tid.Some? && m.exptime.Some? then Ok(InflightMessage(m.tid.value, m.exptime.value)) else Err(RequiredNotSet);
  }

  method ReadLineField(data: Bytes, i: nat, m: LineFields) returns (r: Result<(LineFields, nat), WireError>)
    requires i < |data|
    ensures match LineField(data[i..], m)
            case Err(e) => r == Err(e)
            case Ok((m', rest)) => r.Ok? && r.value.0 == m' && i < r.value.1 <= |data| && rest == data[r.value.1..]
  {
    var ok, wire, j := DecodeVarint(data, i);
    if !ok { return Err(UnexpectedEOF); }
    if FieldNum(wire) == 1 || FieldNum(wire) == 2 {
      var f := DecodeVarintField(data, i, j, wire);
      if f.Err? { return Err(f.error); }
      return Ok((if FieldNum(wire) == 1 then m.(head := Some(f.value.0)) else m.(ihead := Some(f.value.0)), f.value.1));
    } else if FieldNum(wire) == 3 {
      var f := DecodeChunkField(data, i, j, wire);
      if f.Err? { return Err(f.error); }
      var msg := InflightUnmarshal(data[f.value.0..f.value.1]);
      if msg.Err? { return Err(msg.error); }
      return Ok((m.(inflights := m.inflights + [msg.value]), f.value.1));
    }
    return Err(UnknownField);
  }

  method LineUnmarshal(data: Bytes) returns (r: Result<LineStore, WireError>)
    ensures r == UnmarshalLine(data)
  {
    var m := LineFields(None, None, []);
    var i := 0;
    assert data[0..] == data;
    while i < |data|
      invariant i <= |data| && UnmarshalLineFrom(data[i..], m) == UnmarshalLine(data)
    {
      var f := ReadLineField(data, i, m);
      if f.Err? { return Err(f.error); }
      m, i := f.value.0, f.value.1;
    }
    assert data[i..] == [];
    return if m.head.Some? && m.ihead.Some? then Ok(LineStore(m.head.value, m.ihead.value, m.inflights))
           else Err(RequiredNotSet);
  }

  method ReadNameField(data: Bytes, i: nat, m: NameFields, topic: bool) returns (r: Result<(NameFields, nat), WireError>)
    requires i < |data|
    ensures match NameField(data[i..], m, topic)
            case Err(e) => r == Err(e)
            case Ok((m', rest)) => r.Ok? && r.value.0 == m' && i < r.value.1 <= |data| && rest == data[r.value.1..]
  {
    var ok, wire, j := DecodeVarint(data, i);
    if !ok { return Err(UnexpectedEOF); }
    if FieldNum(wire) == 1 {
      var f := DecodeChunkField(data, i, j, wire);
      if f.Err? { return Err(f.error); }
      return Ok((m.(names := m.names + [data[f.value.0..f.value.1]]), f.value.1));
    } else if topic && FieldNum(wire) == 2 {
      var f := DecodeVarintField(data, i, j, wire);
      if f.Err? { return Err(f.error); }
      return Ok((m.(persist := Some(f.value.0 != 0)), f.value.1));
    }
    return Err(UnknownField);
  }

  method NamesUnmarshal(data: Bytes, topic: bool) returns (r: Result<NameFields, WireError>)
    ensures r == UnmarshalNamesFrom(data, NameFields([], None), topic)
  {
    var m := NameFields([], None);
    var i := 0;
    assert data[0..] == data;
    while i < |data|
      invariant i <= |data| && UnmarshalNamesFrom(data[i..], m, topic) == UnmarshalNamesFrom(data, NameFields([], None), topic)
    {
      var f := ReadNameField(data, i, m, topic);
      if f.Err? { return Err(f.error); }
      m, i := f.value.0, f.value.1;
    }
    assert data[i..] == [];
    return Ok(m);
  }

  method TopicUnmarshal(data: Bytes) returns (r: Result<TopicStore, WireError>)
    ensures r == UnmarshalTopic(data)
  {
    var m := NamesUnmarshal(data, true);
    if m.Err? { return Err(m.error); }
    return if m.value.persist.Some? then Ok(TopicStore(m.value.names, m.value.persist.value)) else Err(RequiredNotSet);
  }

  method QueueUnmarshal(data: Bytes) returns (r: Result<QueueStore, WireError>)
    ensures r == UnmarshalQueue(data)
  {
    var m := NamesUnmarshal(data, false);
    return if m.Err? then Err(m.error) else Ok(QueueStore(m.value.names));
  }
}
