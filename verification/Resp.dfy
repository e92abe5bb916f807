/**
 * The Redis protocol of the entry (entry/redisCommand.go, entry/redisSession.go): how a command
 * is printed, how it is read back from a stream, and how it is parsed from a buffer.
 */
module Resp {
  import opened Base
  import opened Decimal
  import opened StoreKeys

  const CR: byte := 13
  const LF: byte := 10
  const STAR: byte := 42
  const DOLLAR: byte := 36
  const CRLF: Bytes := [CR, LF]
  const BUFFER_SIZE: nat := 4096  // of a bufio.Reader

  type Command = seq<Bytes>

  // ----- Printing -----

  function Number(n: nat): Bytes {
    Itoa(n) + CRLF
  }

  function PrintArg(arg: Bytes): Bytes {
    [DOLLAR] + Number(|arg|) + (arg + CRLF)
  }

  function PrintArgs(args: Command): Bytes {
    if args == [] then [] else PrintArg(args[0]) + PrintArgs(args[1..])
  }

  function Print(cmd: Command): Bytes {
    [STAR] + Number(|cmd|) + PrintArgs(cmd)
  }

  // ----- Reading from a stream -----

  datatype ReadError = EOF | UnexpectedEOF | IllegalByte | LineTooLong | BadNumber | Panic

  /** What a read yields and what it leaves. */
  datatype Read<T> = Read(value: Result<T, ReadError>, rest: Bytes)

  function SkipByte(s: Bytes, c: byte): Read<()> {
    if s == [] then Read(Err(EOF), [])
    else Read(if s[0] == c then Ok(()) else Err(IllegalByte), s[1..])
  }

  function SkipBytes(s: Bytes, bs: Bytes): Read<()>
    decreases |bs|
  {
    if bs == [] then Read(Ok(()), s)
    else
      var r := SkipByte(s, bs[0]);
      if r.value.Err? then r else SkipBytes(r.rest, bs[1..])
  }

  /**
   * The line without its last two bytes: the complaint about a bad terminator is built and then
   * dropped. A lone line feed makes the slice bound negative.
   */
  function ReadLine(s: Bytes): Read<Bytes> {
    var k := IndexOf(s, LF);
    if k >= BUFFER_SIZE then Read(Err(LineTooLong), s[BUFFER_SIZE..])
    else if k == |s| then Read(Err(EOF), [])
    else Read(if k == 0 then Err(Panic) else Ok(s[..k - 1]), s[k + 1..])
  }

  function ReadInt(s: Bytes): Read<int> {
    var r := ReadLine(s);
    match r.value
    case Err(e) => Read(Err(e), r.rest)
    case Ok(line) => Read(if Atoi(line).ok then Ok(Atoi(line).value) else Err(BadNumber), r.rest)
  }

  /** `make` of a negative length panics. */
  function ReadFull(s: Bytes, n: int): Read<Bytes> {
    if n < 0 then Read(Err(Panic), s)
    else if |s| < n then Read(Err(if s == [] then EOF else UnexpectedEOF), [])
    else Read(Ok(s[..n]), s[n..])
  }

  function ReadArg(s: Bytes): Read<Bytes> {
    var r1 := SkipByte(s, DOLLAR);
    if r1.value.Err? then Read(Err(r1.value.error), r1.rest)
    else
      var r2 := ReadInt(r1.rest);
      if r2.value.Err? then Read(Err(r2.value.error), r2.rest)
      else
        var r3 := ReadFull(r2.rest, r2.value.value);
        if r3.value.Err? then r3
        else
          var r4 := SkipBytes(r3.rest, CRLF);
          if r4.value.Err? then Read(Err(r4.value.error), r4.rest) else Read(r3.value, r4.rest)
  }

  /** Reads `n` more arguments after those in `args`. */
  function ReadArgs(s: Bytes, args: Command, n: nat): Read<Command>
    decreases n
  {
    if n == 0 then Read(Ok(args), s)
    else
      var r := ReadArg(s);
      if r.value.Err? then Read(Err(r.value.error), r.rest) else ReadArgs(r.rest, args + [r.value.value], n - 1)
  }

  function ReadCommand(s: Bytes): Read<Command> {
    var r1 := SkipByte(s, STAR);
    if r1.value.Err? then Read(Err(r1.value.error), r1.rest)
    else
      var r2 := ReadInt(r1.rest);
      if r2.value.Err? then Read(Err(r2.value.error), r2.rest)
      else if r2.value.value < 0 then Read(Err(Panic), r2.rest)
      else ReadArgs(r2.rest, [], r2.value.value)
  }

  // ----- Parsing from a buffer -----

  /** A wrong flag byte yields neither a command nor an error. */
  datatype ParseError = NoError | ParseEOF | TooShort | ParsePanic

  datatype Parse<T> = Parse(value: Result<T, ParseError>, rest: Bytes)

  function ParseFlag(s: Bytes, c: byte): Parse<()> {
    if s == [] then Parse(Err(ParseEOF), [])
    else Parse(if s[0] == c then Ok(()) else Err(NoError), s[1..])
  }

  function ReadBytes(s: Bytes): Parse<Bytes> {
    var k := IndexOf(s, LF);
    if k == |s| then Parse(Err(ParseEOF), []) else Parse(Ok(s[..k + 1]), s[k + 1..])
  }

  /** The error of Atoi is ignored: the length is then zero, or the nearest machine integer. */
  function ParseLength(s: Bytes): Parse<int> {
    var r := ReadBytes(s);
    match r.value
    case Err(e) => Parse(Err(e), r.rest)
    case Ok(line) =>
      Parse(if |line| < 2 then Err(ParsePanic) else Ok(Atoi(line[..|line| - 2]).value), r.rest)
  }

  function ParseBody(s: Bytes, n: int): Parse<Bytes> {
    if n < 0 then Parse(Err(ParsePanic), s)
    else if |s| < n then Parse(Err(TooShort), [])
    else
      var r := ReadBytes(s[n..]);
      Parse(if r.value.Err? then Err(r.value.error) else Ok(s[..n]), r.rest)
  }

  function ParseArg(s: Bytes): Parse<Bytes> {
    var r1 := ParseFlag(s, DOLLAR);
    if r1.value.Err? then Parse(Err(r1.value.error), r1.rest)
    else
      var r2 := ParseLength(r1.rest);
      if r2.value.Err? then Parse(Err(r2.value.error), r2.rest) else ParseBody(r2.rest, r2.value.value)
  }

  function ParseArgs(s: Bytes, args: Command, n: nat): Parse<Command>
    decreases n
  {
    if n == 0 then Parse(Ok(args), s)
    else
      var r := ParseArg(s);
      if r.value.Err? then Parse(Err(r.value.error), r.rest) else ParseArgs(r.rest, args + [r.value.value], n - 1)
  }

  function ParseCommand(s: Bytes): Parse<Command> {
    var r1 := ParseFlag(s, STAR);
    if r1.value.Err? then Parse(Err(r1.value.error), r1.rest)
    else
      var r2 := ParseLength(r1.rest);
      if r2.value.Err? then Parse(Err(r2.value.error), r2.rest)
      else if r2.value.value < 0 then Parse(Err(ParsePanic), r2.rest)
      else ParseArgs(r2.rest, [], r2.value.value)
  }

  // ----- Printed numbers read back -----

  function Pow10(n: nat): nat {
    if n == 0 then 1 else 10 * Pow10(n - 1)
  }

  lemma {:induction false} FormatLength(v: nat, n: nat)
    requires n >= 1 && v < Pow10(n)
    ensures |FormatUint(v)| <= n
  {
    if v >= 10 {
      FormatLength(v / 10, n - 1);
    }
  }

  lemma Int64Length(v: nat)
    requires v < I64
    ensures |Itoa(v)| <= 19
  {
    assert Pow10(19) == 10_000_000_000_000_000_000 by {
      assert Pow10(7) == 10_000_000;
      assert Pow10(13) == 10_000_000_000_000;
    }
    FormatLength(v, 19);
  }

  /** A printed number ends at its line feed. */
  lemma NumberEnds(n: nat, rest: Bytes)
    ensures var s := Number(n) + rest;
            && IndexOf(s, LF) == |Itoa(n)| + 1
            && s[..|Itoa(n)|] == Itoa(n) && s[..|Itoa(n)| + 2] == Number(n) && s[|Itoa(n)| + 2..] == rest
  {
    var d := Itoa(n);
    var s := Number(n) + rest;
    assert forall i :: 0 <= i < |d| ==> IsDigit(d[i]) && s[i] == d[i];
    assert s[|d|] == CR && s[|d| + 1] == LF;
  }

  lemma ReadNumber(n: nat, rest: Bytes)
    requires n < I64
    ensures ReadInt(Number(n) + rest) == Read(Ok(n), rest)
  {
    NumberEnds(n, rest);
    Int64Length(n);
    AtoiItoa(n);
  }

  lemma ParseNumber(n: nat, rest: Bytes)
    requires n < I64
    ensures ParseLength(Number(n) + rest) == Parse(Ok(n), rest)
  {
    NumberEnds(n, rest);
    AtoiItoa(n);
    assert Number(n)[..|Number(n)| - 2] == Itoa(n);
  }

  lemma SkipCRLF(rest: Bytes)
    ensures SkipBytes(CRLF + rest, CRLF) == Read(Ok(()), rest)
    ensures ReadBytes(CRLF + rest) == Parse(Ok(CRLF), rest)
  {
    var s := CRLF + rest;
    assert s[1..] == [LF] + rest && s[2..] == rest && s[..2] == CRLF;
    assert CRLF[1..] == [LF] && [LF][1..] == [];
    assert SkipBytes(s[1..], [LF]) == SkipBytes(s[1..][1..], []) && s[1..][1..] == rest;
    assert s[0] != LF && s[1] == LF;
  }

  // ----- Printed commands read back -----

  /** Counts and sizes fit a machine integer. */
  predicate Fits(cmd: Command) {
    |cmd| < I64 && forall i :: 0 <= i < |cmd| ==> |cmd[i]| < I64
  }

  lemma ArgParts(arg: Bytes, rest: Bytes)
    ensures var s := PrintArg(arg) + rest;
            && s != [] && s[0] == DOLLAR && s[1..] == Number(|arg|) + (arg + (CRLF + rest))
            && |arg| <= |arg + (CRLF + rest)|
            && (arg + (CRLF + rest))[..|arg|] == arg && (arg + (CRLF + rest))[|arg|..] == CRLF + rest
  {
  }

  lemma ReadPrintedArg(arg: Bytes, rest: Bytes)
    requires |arg| < I64
    ensures ReadArg(PrintArg(arg) + rest) == Read(Ok(arg), rest)
  {
    ArgParts(arg, rest);
    ReadNumber(|arg|, arg + (CRLF + rest));
    SkipCRLF(rest);
  }

  lemma ParsePrintedArg(arg: Bytes, rest: Bytes)
    requires |arg| < I64
    ensures ParseArg(PrintArg(arg) + rest) == Parse(Ok(arg), rest)
  {
    ArgParts(arg, rest);
    ParseNumber(|arg|, arg + (CRLF + rest));
    SkipCRLF(rest);
  }

  lemma Assoc<T>(a: seq<T>, b: seq<T>, c: seq<T>)
    ensures a + b + c == a + (b + c)
  {
  }

  lemma PrintArgsPeels(args: Command, rest: Bytes)
    requires args != []
    ensures PrintArgs(args) + rest == PrintArg(args[0]) + (PrintArgs(args[1..]) + rest)
  {
    Assoc(PrintArg(args[0]), PrintArgs(args[1..]), rest);
  }

  lemma AppendPeels<T>(done: seq<T>, args: seq<T>)
    requires args != []
    ensures done + [args[0]] + args[1..] == done + args
  {
  }

  lemma ReadPrintedNext(s: Bytes, done: Command, arg: Bytes, n: nat, rest: Bytes)
    requires |arg| < I64 && s == PrintArg(arg) + rest && n > 0
    ensures ReadArgs(s, done, n) == ReadArgs(rest, done + [arg], n - 1)
  {
    ReadPrintedArg(arg, rest);
  }

  lemma {:induction false} ReadPrintedArgs(s: Bytes, done: Command, args: Command, rest: Bytes, all: Command)
    requires forall i :: 0 <= i < |args| ==> |args[i]| < I64
    requires s == PrintArgs(args) + rest && all == done + args
    ensures ReadArgs(s, done, |args|) == Read(Ok(all), rest)
    decreases |args|
  {
    if args == [] {
      assert all == done && s == rest;
    } else {
      var s1 := PrintArgs(args[1..]) + rest;
      PrintArgsPeels(args, rest);
      ReadPrintedNext(s, done, args[0], |args|, s1);
      AppendPeels(done, args);
      ReadPrintedArgs(s1, done + [args[0]], args[1..], rest, all);
    }
  }

  lemma ParsePrintedNext(s: Bytes, done: Command, arg: Bytes, n: nat, rest: Bytes)
    requires |arg| < I64 && s == PrintArg(arg) + rest && n > 0
    ensures ParseArgs(s, done, n) == ParseArgs(rest, done + [arg], n - 1)
  {
    ParsePrintedArg(arg, rest);
  }

  lemma {:induction false} ParsePrintedArgs(s: Bytes, done: Command, args: Command, rest: Bytes, all: Command)
    requires forall i :: 0 <= i < |args| ==> |args[i]| < I64
    requires s == PrintArgs(args) + rest && all == done + args
    ensures ParseArgs(s, done, |args|) == Parse(Ok(all), rest)
    decreases |args|
  {
    if args == [] {
      assert all == done && s == rest;
    } else {
      var s1 := PrintArgs(args[1..]) + rest;
      PrintArgsPeels(args, rest);
      ParsePrintedNext(s, done, args[0], |args|, s1);
      AppendPeels(done, args);
      ParsePrintedArgs(s1, done + [args[0]], args[1..], rest, all);
    }
  }

  /**
   * A printed command, whatever its arguments hold and whatever follows it, reads back as
   * itself and leaves exactly what follows; parsing it from a buffer agrees.
   */
  lemma ReadPrinted(cmd: Command, rest: Bytes)
    requires Fits(cmd)
    ensures ReadCommand(Print(cmd) + rest) == Read(Ok(cmd), rest)
    ensures ParseCommand(Print(cmd) + rest) == Parse(Ok(cmd), rest)
  {
    var s := Print(cmd) + rest;
    var after := PrintArgs(cmd) + rest;
    assert s[0] == STAR && s[1..] == Number(|cmd|) + after;
    ReadNumber(|cmd|, after);
    ParseNumber(|cmd|, after);
    assert [] + cmd == cmd;
    ReadPrintedArgs(after, [], cmd, rest, cmd);
    ParsePrintedArgs(after, [], cmd, rest, cmd);
  }

  // ----- Pipelines -----

  function PrintAll(cmds: seq<Command>): Bytes {
    if cmds == [] then [] else Print(cmds[0]) + PrintAll(cmds[1..])
  }

  /** `n` commands read one after the other. */
  function ReadAll(s: Bytes, n: nat): Read<seq<Command>>
    decreases n
  {
    if n == 0 then Read(Ok([]), s)
    else
      var r := ReadCommand(s);
      match r.value
      case Err(e) => Read(Err(e), r.rest)
      case Ok(cmd) =>
        var more := ReadAll(r.rest, n - 1);
        if more.value.Err? then more else Read(Ok([cmd] + more.value.value), more.rest)
  }

  /** Any list of commands sent back to back is read as exactly those commands, and no byte more is consumed. */
  lemma {:induction false} PipelineRoundTrip(cmds: seq<Command>, suffix: Bytes)
    requires forall i :: 0 <= i < |cmds| ==> Fits(cmds[i])
    ensures ReadAll(PrintAll(cmds) + suffix, |cmds|) == Read(Ok(cmds), suffix)
  {
    if cmds == [] {
      assert PrintAll(cmds) + suffix == suffix;
    } else {
      Assoc(Print(cmds[0]), PrintAll(cmds[1..]), suffix);
      ReadPrinted(cmds[0], PrintAll(cmds[1..]) + suffix);
      PipelineRoundTrip(cmds[1..], suffix);
      assert [cmds[0]] + cmds[1..] == cmds;
    }
  }

  lemma {:induction false} PrintAllSplits(cmds: seq<Command>, k: nat)
    requires k <= |cmds|
    ensures PrintAll(cmds) == PrintAll(cmds[..k]) + PrintAll(cmds[k..])
  {
    if k == 0 {
      assert cmds[0..] == cmds && cmds[..0] == [];
    } else {
      PrintAllSplits(cmds[1..], k - 1);
      assert cmds[1..][..k - 1] == cmds[..k][1..] && cmds[1..][k - 1..] == cmds[k..];
      Assoc(Print(cmds[0]), PrintAll(cmds[..k][1..]), PrintAll(cmds[k..]));
    }
  }

  lemma PrintAllSpeaks(cmds: seq<Command>)
    ensures PrintAll(cmds) == [] <==> cmds == []
  {
    if cmds != [] {
      assert PrintAll(cmds)[0] == STAR;
    }
  }

  lemma PrintedPrefix(a: seq<Command>, b: seq<Command>)
    requires |a| <= |b| && PrintAll(a) == PrintAll(b)
    requires (forall i :: 0 <= i < |a| ==> Fits(a[i])) && forall i :: 0 <= i < |b| ==> Fits(b[i])
    ensures a == b
  {
    var k := |a|;
    PrintAllSplits(b, k);
    PipelineRoundTrip(a, []);
    assert PrintAll(a) + [] == PrintAll(a);
    PipelineRoundTrip(b[..k], PrintAll(b[k..]));
    PrintAllSpeaks(b[k..]);
    assert b == b[..k] + b[k..];
  }

  /** So different pipelines are never printed alike. */
  lemma PrintAllInjective(a: seq<Command>, b: seq<Command>)
    requires PrintAll(a) == PrintAll(b)
    requires (forall i :: 0 <= i < |a| ==> Fits(a[i])) && forall i :: 0 <= i < |b| ==> Fits(b[i])
    ensures a == b
  {
    if |a| <= |b| {
      PrintedPrefix(a, b);
    } else {
      PrintedPrefix(b, a);
    }
  }
}
