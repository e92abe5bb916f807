/** The reader, the parser and the printer of commands as the source runs them. */
module RespSession {
  import opened Base
  import opened Decimal
  import opened StoreKeys
  import Resp
  import opened RespTypes = Resp

  /** `more` is the printing of arguments, by another name: the loop of `PrintBytes` needs only its two cases. */
  ghost predicate IsPrintArgs(more: Command -> Bytes) {
    forall mark: bool {:trigger Opened(mark)} :: Opened(mark) ==> more == PrintArgs
  }

  lemma NoPrint(more: Command -> Bytes, cmd: Command, buf: Bytes)
    requires IsPrintArgs(more)
    ensures buf + more(cmd[|cmd|..]) == buf
  {
    assert Opened(true);
  }

  lemma OnePrint(more: Command -> Bytes, cmd: Command, i: nat, buf: Bytes)
    requires IsPrintArgs(more) && i < |cmd|
    ensures buf + more(cmd[i..]) == (buf + PrintArg(cmd[i])) + more(cmd[i + 1..])
  {
    assert Opened(true);
    assert cmd[i..][0] == cmd[i] && cmd[i..][1..] == cmd[i + 1..];
    Assoc(buf, PrintArg(cmd[i]), PrintArgs(cmd[i + 1..]));
  }

  method PrintNext(ghost more: Command -> Bytes, nums: seq<Bytes>, cmd: Command, i: nat, buf: Bytes)
    returns (buf': Bytes)
    requires IsTable(nums) && IsPrintArgs(more) && i < |cmd|
    ensures buf' + more(cmd[i + 1..]) == buf + more(cmd[i..])
  {
    var size := ItoaQuick(nums, |cmd[i]|);
    buf' := buf + ([DOLLAR] + (size + CRLF) + (cmd[i] + CRLF));
    OnePrint(more, cmd, i, buf);
  }

  method PrintRest(ghost more: Command -> Bytes, nums: seq<Bytes>, cmd: Command, head: Bytes)
    returns (buf: Bytes)
    requires IsTable(nums) && IsPrintArgs(more)
    ensures buf == head + more(cmd[0..])
  {
    buf := head;
    var i := 0;
    while i < |cmd|
      invariant i <= |cmd| && buf + more(cmd[i..]) == head + more(cmd[0..])
    {
      buf := PrintNext(more, nums, cmd, i, buf);
      i := i + 1;
    }
    NoPrint(more, cmd, buf);
  }

  /** `bytes()`: the command is written to a buffer piece by piece. */
  method PrintBytes(nums: seq<Bytes>, cmd: Command) returns (buf: Bytes)
    requires IsTable(nums)
    ensures buf == Resp.Print(cmd)
  {
    var count := ItoaQuick(nums, |cmd|);
    buf := PrintRest(PrintArgs, nums, cmd, [STAR] + (count + CRLF));
    assert cmd[0..] == cmd;
  }

  /** `more` is the reading of arguments, by another name: the loop of the method needs only its two cases. */
  ghost predicate IsReadArgs(more: (Bytes, Command, nat) -> Read<Command>) {
    forall mark: bool {:trigger Opened(mark)} :: Opened(mark) ==> more == Resp.ReadArgs
  }

  lemma NoRead(more: (Bytes, Command, nat) -> Read<Command>, s: Bytes, args: Command)
    requires IsReadArgs(more)
    ensures more(s, args, 0) == Read(Ok(args), s)
  {
    assert Opened(true);
  }

  /** A connection behind a buffered reader: `rest` is what is still to be read. */
  class Session {
    var rest: Bytes

    constructor (stream: Bytes)
      ensures rest == stream
    {
      rest := stream;
    }

    method SkipByte(c: byte) returns (r: Result<(), ReadError>)
      modifies this
      ensures Read(r, rest) == Resp.SkipByte(old(rest), c)
    {
      if rest == [] { return Err(EOF); }
      var tmp := rest[0];
      rest := rest[1..];
      return if tmp != c then Err(IllegalByte) else Ok(());
    }

    method SkipBytes(bs: Bytes) returns (r: Result<(), ReadError>)
      modifies this
      ensures Read(r, rest) == Resp.SkipBytes(old(rest), bs)
    {
      var i := 0;
      assert bs[0..] == bs;
      while i < |bs|
        invariant i <= |bs| && Resp.SkipBytes(rest, bs[i..]) == Resp.SkipBytes(old(rest), bs)
      {
        r := SkipByte(bs[i]);
        if r.Err? { return; }
        assert bs[i..][1..] == bs[i + 1..];
        i := i + 1;
      }
      return Ok(());
    }

    /** The scan of `ReadSlice`, up to the size of the buffer. */
    method ReadSlice() returns (r: Result<Bytes, ReadError>)
      modifies this
      ensures var k := IndexOf(old(rest), LF);
              if k >= BUFFER_SIZE then r == Err(LineTooLong) && rest == old(rest)[BUFFER_SIZE..]
              else if k == |old(rest)| then r == Err(EOF) && rest == []
              else r == Ok(old(rest)[..k + 1]) && rest == old(rest)[k + 1..]
    {
      var k := 0;
      while k < |rest| && k < BUFFER_SIZE && rest[k] != LF
        invariant k <= |rest| && k <= BUFFER_SIZE && rest == old(rest)
        invariant forall i :: 0 <= i < k ==> rest[i] != LF
      {
        k := k + 1;
      }
      if k == BUFFER_SIZE {
        rest := rest[BUFFER_SIZE..];
        return Err(LineTooLong);
      }
      if k == |rest| {
        rest := [];
        return Err(EOF);
      }
      assert IndexOf(rest, LF) == k;
      r := Ok(rest[..k + 1]);
      rest := rest[k + 1..];
    }

    method ReadLine() returns (r: Result<Bytes, ReadError>)
      modifies this
      ensures Read(r, rest) == Resp.ReadLine(old(rest))
    {
      r := ReadSlice();
      if r.Err? { return; }
      var i := |r.value| - 2;
      assert i >= 0 ==> r.value[..i] == old(rest)[..i];
      return if i < 0 then Err(Panic) else Ok(r.value[..i]);
    }

    method ReadInt() returns (r: Result<int, ReadError>)
      modifies this
      ensures Read(r, rest) == Resp.ReadInt(old(rest))
    {
      var line := ReadLine();
      if line.Err? { return Err(line.error); }
      var n := Atoi(line.value);
      return if n.ok then Ok(n.value) else Err(BadNumber);
    }

    method ReadFull(n: int) returns (r: Result<Bytes, ReadError>)
      modifies this
      ensures Read(r, rest) == Resp.ReadFull(old(rest), n)
    {
      if n < 0 { return Err(Panic); }
      if |rest| < n {
        r := Err(if rest == [] then EOF else UnexpectedEOF);
        rest := [];
        return;
      }
      r := Ok(rest[..n]);
      rest := rest[n..];
    }

    /** One round of the loop of `readCommand`. */
    method ReadArg() returns (r: Result<Bytes, ReadError>)
      modifies this
      ensures Read(r, rest) == Resp.ReadArg(old(rest))
    {
      var flag := SkipByte(DOLLAR);
      if flag.Err? { return Err(flag.error); }
      var size := ReadInt();
      if size.Err? { return Err(size.error); }
      r := ReadFull(size.value);
      if r.Err? { return; }
      var end := SkipBytes(CRLF);
      if end.Err? { return Err(end.error); }
    }

    /** One round of the loop: one argument less is left. */
    method Next(ghost more: (Bytes, Command, nat) -> Read<Command>, ghost args: Command, ghost k: nat)
      returns (r: Result<Bytes, ReadError>)
      requires IsReadArgs(more) && k > 0
      modifies this
      ensures more(old(rest), args, k) ==
              match r case Ok(arg) => more(rest, args + [arg], k - 1) case Err(e) => Read(Err(e), rest)
    {
      r := ReadArg();
      assert Opened(true);
    }

    method ReadArgs(ghost more: (Bytes, Command, nat) -> Read<Command>, n: nat)
      returns (r: Result<Command, ReadError>)
      requires IsReadArgs(more)
      modifies this
      ensures Read(r, rest) == more(old(rest), [], n)
    {
      var args: Command := [];
      var i := 0;
      while i < n
        invariant i <= n && more(rest, args, n - i) == more(old(rest), [], n)
      {
        var arg := Next(more, args, n - i);
        if arg.Err? { return Err(arg.error); }
        args := args + [arg.value];
        i := i + 1;
      }
      NoRead(more, rest, args);
      return Ok(args);
    }

    method ReadCommand() returns (r: Result<Command, ReadError>)
      modifies this
      ensures Read(r, rest) == Resp.ReadCommand(old(rest))
    {
      var flag := SkipByte(STAR);
      if flag.Err? { return Err(flag.error); }
      var count := ReadInt();
      if count.Err? { return Err(count.error); }
      if count.value < 0 { return Err(Panic); }
      r := ReadArgs(Resp.ReadArgs, count.value);
    }
  }

  /** `more` is the parsing of arguments, by another name: the loop of the method needs only its two cases. */
  ghost predicate IsParseArgs(more: (Bytes, Command, nat) -> Parse<Command>) {
    forall mark: bool {:trigger Opened(mark)} :: Opened(mark) ==> more == Resp.ParseArgs
  }

  lemma NoArg(more: (Bytes, Command, nat) -> Parse<Command>, s: Bytes, args: Command)
    requires IsParseArgs(more)
    ensures more(s, args, 0) == Parse(Ok(args), s)
  {
    assert Opened(true);
  }

  /** A `bytes.Buffer`: `rest` is its unread part. */
  class Buffer {
    var rest: Bytes

    constructor (data: Bytes)
      ensures rest == data
    {
      rest := data;
    }

    method Flag(c: byte) returns (r: Result<(), ParseError>)
      modifies this
      ensures Parse(r, rest) == Resp.ParseFlag(old(rest), c)
    {
      if rest == [] { return Err(ParseEOF); }
      r := if rest[0] == c then Ok(()) else Err(NoError);
      rest := rest[1..];
    }

    method ReadBytes() returns (r: Result<Bytes, ParseError>)
      modifies this
      ensures Parse(r, rest) == Resp.ReadBytes(old(rest))
    {
      var k := 0;
      while k < |rest| && rest[k] != LF
        invariant k <= |rest| && rest == old(rest) && forall i :: 0 <= i < k ==> rest[i] != LF
      {
        k := k + 1;
      }
      assert IndexOf(rest, LF) == k;
      if k == |rest| {
        rest := [];
        return Err(ParseEOF);
      }
      r := Ok(rest[..k + 1]);
      rest := rest[k + 1..];
    }

    method Length() returns (r: Result<int, ParseError>)
      modifies this
      ensures Parse(r, rest) == Resp.ParseLength(old(rest))
    {
      var line := ReadBytes();
      if line.Err? { return Err(line.error); }
      if |line.value| < 2 { return Err(ParsePanic); }
      return Ok(Atoi(line.value[..|line.value| - 2]).value);
    }

    method Arg() returns (r: Result<Bytes, ParseError>)
      modifies this
      ensures Parse(r, rest) == Resp.ParseArg(old(rest))
    {
      var flag := Flag(DOLLAR);
      if flag.Err? { return Err(flag.error); }
      var size := Length();
      if size.Err? { return Err(size.error); }
      var n := size.value;
      if n < 0 { return Err(ParsePanic); }
      if |rest| < n {
        rest := [];
        return Err(TooShort);
      }
      var body := rest[..n];
      rest := rest[n..];
      var end := ReadBytes();
      return if end.Err? then Err(end.error) else Ok(body);
    }

    /** One round of the loop: one argument less is left. */
    method Next(ghost more: (Bytes, Command, nat) -> Parse<Command>, ghost args: Command, ghost k: nat)
      returns (r: Result<Bytes, ParseError>)
      requires IsParseArgs(more) && k > 0
      modifies this
      ensures more(old(rest), args, k) ==
              match r case Ok(arg) => more(rest, args + [arg], k - 1) case Err(e) => Parse(Err(e), rest)
    {
      r := Arg();
      assert Opened(true);
    }

    method Args(ghost more: (Bytes, Command, nat) -> Parse<Command>, n: nat)
      returns (r: Result<Command, ParseError>)
      requires IsParseArgs(more)
      modifies this
      ensures Parse(r, rest) == more(old(rest), [], n)
    {
      var args: Command := [];
      var i := 0;
      while i < n
        invariant i <= n && more(rest, args, n - i) == more(old(rest), [], n)
      {
        var arg := Next(more, args, n - i);
        if arg.Err? { return Err(arg.error); }
        args := args + [arg.value];
        i := i + 1;
      }
      NoArg(more, rest, args);
      return Ok(args);
    }

    method ParseCommand() returns (r: Result<Command, ParseError>)
      modifies this
      ensures Parse(r, rest) == Resp.ParseCommand(old(rest))
    {
      var flag := Flag(STAR);
      if flag.Err? { return Err(flag.error); }
      var count := Length();
      if count.Err? { return Err(count.error); }
      var n := count.value;
      if n < 0 { return Err(ParsePanic); }
      r := Args(Resp.ParseArgs, n);
    }
  }
}
