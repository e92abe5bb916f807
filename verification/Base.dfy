/** Vocabulary shared by every module: bytes, Go strings as byte sequences, results. */
module Base {

  type byte = x: int | 0 <= x < 256

  /** A Go `string` or `[]byte`: any sequence of bytes. */
  type Bytes = seq<byte>

  /** 2^64, one more than the largest uint64. */
  const U64: int := 0x1_0000_0000_0000_0000

  /** 2^63, one more than the largest int64 (`int` is 64 bits wide). */
  const I64: int := 0x8000_0000_0000_0000

  datatype Option<+T> = None | Some(value: T)

  datatype Result<+T, +E> = Ok(value: T) | Err(error: E)

  /** The error codes of utils/error.go that the modelled operations return. */
  datatype Error =
    | ErrNone
    | ErrTopicNotExisted
    | ErrLineNotExisted
    | ErrNotDelivered
    | ErrBadKey
    | ErrBadRequest
    | ErrTopicExisted
    | ErrLineExisted
    | ErrInternal

  /**
   * A mark that guards a definition, so that only the proofs that look inside pay for it:
   * `assert Opened(true)` opens what is guarded.
   */
  predicate Opened(mark: bool) {
    true
  }

  /** What holds at the start of a run and is kept by every step holds throughout. */
  lemma {:induction false} RunKeeps<S(!new), O(!new)>(
    p: S -> bool, next: (S, O, S) -> bool, states: seq<S>, ops: seq<O>, i: nat)
    requires i < |states| == |ops| + 1 && p(states[0])
    requires forall j :: 0 <= j < |ops| ==> next(states[j], ops[j], states[j + 1])
    requires forall s, o, s' {:trigger next(s, o, s')} :: p(s) && next(s, o, s') ==> p(s')
    ensures p(states[i])
  {
    if i > 0 {
      RunKeeps(p, next, states, ops, i - 1);
      assert next(states[i - 1], ops[i - 1], states[i]);
    }
  }

  ghost predicate All<T>(s: seq<T>, p: T -> bool) {
    forall i :: 0 <= i < |s| ==> p(s[i])
  }

  lemma AllMore<T>(s: seq<T>, p: T -> bool)
    requires s != []
    ensures All(s, p) <==> All(s[..|s| - 1], p) && p(s[|s| - 1])
  {
  }

  /** One request after the other, from one state to the next: the last state, and the answers in order. */
  function OneByOne<S, K, R>(f: (S, K) -> (S, R), s: S, ks: seq<K>): (r: (S, seq<R>))
    ensures |r.1| == |ks|
  {
    if ks == [] then (s, [])
    else
      var (s1, rs) := OneByOne(f, s, ks[..|ks| - 1]);
      var (s2, r) := f(s1, ks[|ks| - 1]);
      (s2, rs + [r])
  }

  lemma OneMore<S, K, R>(f: (S, K) -> (S, R), s: S, ks: seq<K>, i: nat)
    requires i < |ks|
    ensures var (s1, rs) := OneByOne(f, s, ks[..i]);
            OneByOne(f, s, ks[..i + 1]) == (f(s1, ks[i]).0, rs + [f(s1, ks[i]).1])
  {
    assert ks[..i + 1][..i] == ks[..i];
  }

  lemma {:induction false} AnswersOfPrefix<S, K, R>(f: (S, K) -> (S, R), s: S, ks: seq<K>, i: nat)
    requires i < |ks|
    ensures OneByOne(f, s, ks).1[i] == f(OneByOne(f, s, ks[..i]).0, ks[i]).1
    decreases |ks|
  {
    var k := |ks| - 1;
    if i < k {
      AnswersOfPrefix(f, s, ks[..k], i);
      assert ks[..k][..i] == ks[..i] && ks[..k][i] == ks[i];
    }
  }
}
