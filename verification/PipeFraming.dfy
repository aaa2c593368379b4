/** Fixed-size records over a pipe (taxi-cli): reads and writes that may be cut short
    or interrupted anywhere, and the question-and-answer exchange built on them. */
module PipeFraming {

  type Byte = x: int | 0 <= x < 256
  type Int32 = x: int | -0x8000_0000 <= x < 0x8000_0000

  const EOF_REACHED := 0
  const FAILED := -1

  /** The writing end; `interruptions` bounds the signals still to come. */
  class WriteEnd {
    var content: seq<Byte>
    var interruptions: nat

    /** write(2): some of the bytes, or -1 with EINTR, or -1 with another error. */
    method Write(data: seq<Byte>) returns (written: int, eintr: bool)
      requires data != []
      modifies this
      ensures written == -1 || 1 <= written <= |data|
      ensures written == -1 ==> content == old(content)
      ensures written == -1 && eintr ==> interruptions < old(interruptions)
      ensures written != -1 ==> content == old(content) + data[..written] && interruptions == old(interruptions)
    {
      if * {
        eintr := interruptions > 0;
        interruptions := if interruptions > 0 then interruptions - 1 else 0;
        return -1, eintr;
      }
      written :| 1 <= written <= |data|;
      eintr := false;
      content := content + data[..written];
    }
  }

  /** All of the buffer goes in, in order, or the call fails part way through. */
  method WriteFull(fd: WriteEnd, buffer: seq<Byte>) returns (status: int)
    modifies fd
    ensures status == 0 || status == FAILED
    ensures status == 0 ==> fd.content == old(fd.content) + buffer
    ensures status == FAILED ==> old(fd.content) <= fd.content < old(fd.content) + buffer
  {
    var ptr, size := 0, |buffer|;
    while size > 0
      invariant 0 <= ptr && 0 <= size && ptr + size == |buffer|
      invariant fd.content == old(fd.content) + buffer[..ptr]
      decreases size, fd.interruptions
    {
      var written, eintr := fd.Write(buffer[ptr..]);
      if written == -1 {
        if eintr {
          continue;
        }
        return FAILED;
      }
      assert buffer[..ptr] + buffer[ptr..][..written] == buffer[..ptr + written];
      ptr := ptr + written;
      size := size - written;
    }
    return 0;
  }

  /** The reading end; `stream` is everything that will ever arrive before end of file. */
  class ReadEnd {
    var stream: seq<Byte>
    var interruptions: nat

    /** read(2) into `buffer` from `offset`: some bytes, 0 at end of file, or -1. */
    method Read(buffer: array<Byte>, offset: nat, size: nat) returns (count: int, eintr: bool)
      requires size > 0 && offset + size <= buffer.Length
      modifies this, buffer
      ensures -1 <= count <= size && (count == 0 ==> stream == [])
      ensures count <= 0 ==> stream == old(stream) && buffer[..] == old(buffer[..])
      ensures count == -1 && eintr ==> interruptions < old(interruptions)
      ensures count > 0 ==> interruptions == old(interruptions)
      ensures count > 0 ==> buffer[..offset] == old(buffer[..offset])
      ensures count > 0 ==> old(stream) == buffer[offset..offset + count] + stream
    {
      if * {
        eintr := interruptions > 0;
        interruptions := if interruptions > 0 then interruptions - 1 else 0;
        return -1, eintr;
      }
      eintr := false;
      if stream == [] {
        return 0, false;
      }
      count :| 1 <= count <= size && count <= |stream|;
      forall i | 0 <= i < count {
        buffer[offset + i] := stream[i];
      }
      stream := stream[count..];
    }
  }

  /** Exactly the next bytes of the stream and not one more, or end of file, or failure. */
  method ReadFull(fd: ReadEnd, buffer: array<Byte>) returns (status: int)
    modifies fd, buffer
    ensures status == 1 || status == EOF_REACHED || status == FAILED
    ensures status == 1 ==> old(fd.stream) == buffer[..] + fd.stream
    ensures status == EOF_REACHED ==> fd.stream == [] && |old(fd.stream)| < buffer.Length
    ensures status == FAILED ==>
              exists got | 0 <= got < buffer.Length :: old(fd.stream) == buffer[..got] + fd.stream
  {
    var ptr, size := 0, buffer.Length;
    while size > 0
      invariant 0 <= ptr && 0 <= size && ptr + size == buffer.Length
      invariant old(fd.stream) == buffer[..ptr] + fd.stream
      decreases size, fd.interruptions
    {
      ghost var before := buffer[..ptr];
      var count, eintr := fd.Read(buffer, ptr, size);
      if count == 0 {
        assert buffer[..ptr] == before;
        return EOF_REACHED;
      }
      if count == -1 {
        assert buffer[..ptr] == before;
        if eintr {
          continue;
        }
        return FAILED;
      }
      assert buffer[..ptr + count] == before + buffer[ptr..ptr + count];
      ptr := ptr + count;
      size := size - count;
    }
    assert buffer[..ptr] == buffer[..];
    return 1;
  }

  // ---- the records

  /** struct command and struct answer have the same layout: two 32-bit integers. */
  datatype Record = Record(kind: Int32, timer: Int32)

  function IntBytes(x: Int32): (r: seq<Byte>)
    ensures |r| == 4
  {
    var u: int := if x < 0 then x + 0x1_0000_0000 else x;
    [u % 0x100, u / 0x100 % 0x100, u / 0x1_0000 % 0x100, u / 0x100_0000]
  }

  function IntOf(b: seq<Byte>): Int32
    requires |b| == 4
  {
    var u: int := b[0] as int + 0x100 * b[1] as int + 0x1_0000 * b[2] as int + 0x100_0000 * b[3] as int;
    if u < 0x8000_0000 then u else u - 0x1_0000_0000
  }

  const RECORD_SIZE := 8

  function Encode(r: Record): (b: seq<Byte>)
    ensures |b| == RECORD_SIZE
  {
    IntBytes(r.kind) + IntBytes(r.timer)
  }

  function Decode(b: seq<Byte>): Record
    requires |b| == RECORD_SIZE
  {
    Record(IntOf(b[..4]), IntOf(b[4..]))
  }

  lemma IntRoundTrip(x: Int32)
    ensures IntOf(IntBytes(x)) == x
  {
    var u: int := if x < 0 then x + 0x1_0000_0000 else x;
    assert u / 0x1_0000 == u / 0x100 / 0x100;
    assert u / 0x100_0000 == u / 0x1_0000 / 0x100;
  }

  lemma RoundTrip(r: Record)
    ensures Decode(Encode(r)) == r
  {
    IntRoundTrip(r.kind);
    IntRoundTrip(r.timer);
    assert Encode(r)[..4] == IntBytes(r.kind) && Encode(r)[4..] == IntBytes(r.timer);
  }

  // ---- questions and answers

  datatype Asker =
    | Idle
    | Asking(rest: seq<Byte>)       // inside write_full of a command, an answer wanted
    | Awaiting(got: seq<Byte>)      // inside read_full of its answer
    | Telling(rest: seq<Byte>)      // inside write_full of a last command, no answer wanted
    | Gone

  datatype Answerer =
    | Listening(got: seq<Byte>)     // inside read_full of a command
    | Working                       // between the two
    | Replying(rest: seq<Byte>)     // inside write_full of an answer

  datatype Exchange = Exchange(
    asker: Asker,
    answerer: Answerer,
    toDriver: seq<Byte>,
    fromDriver: seq<Byte>,
    asked: seq<Record>,             // commands given to write_full
    taken: seq<Record>,             // what the driver read
    replied: seq<Record>,           // answers given to write_full
    answers: seq<Record>)           // what ask_driver read back

  datatype Action =
    | Ask(command: Record)
    | Tell(command: Record)
    | AskerWrites(n: nat)
    | DriverReads(n: nat)
    | Reply(answer: Record)
    | DriverWrites(n: nat)
    | AskerReads(n: nat)

  ghost predicate Init(s: Exchange) {
    s == Exchange(Idle, Listening([]), [], [], [], [], [], [])
  }

  ghost predicate Next(s: Exchange, a: Action, s': Exchange) {
    match a
    case Ask(command) =>
      s.asker.Idle? && s' == s.(asker := Asking(Encode(command)), asked := s.asked + [command])
    case Tell(command) =>
      s.asker.Idle? && s' == s.(asker := Telling(Encode(command)), asked := s.asked + [command])
    case AskerWrites(n) =>
      && 1 <= n <= |Unsent(s.asker)|
      && s' == s.(toDriver := s.toDriver + Unsent(s.asker)[..n], asker := Written(s.asker, n))
    case DriverReads(n) =>
      && s.answerer.Listening? && 1 <= n <= |s.toDriver| && n <= RECORD_SIZE - |s.answerer.got|
      && var got := s.answerer.got + s.toDriver[..n];
      && if |got| == RECORD_SIZE then
           s' == s.(toDriver := s.toDriver[n..], answerer := Working, taken := s.taken + [Decode(got)])
         else
           s' == s.(toDriver := s.toDriver[n..], answerer := Listening(got))
    case Reply(answer) =>
      && s.answerer.Working?
      && s' == s.(answerer := Replying(Encode(answer)), replied := s.replied + [answer])
    case DriverWrites(n) =>
      && s.answerer.Replying? && 1 <= n <= |s.answerer.rest|
      && var rest := s.answerer.rest[n..];
      && s' == s.(fromDriver := s.fromDriver + s.answerer.rest[..n],
                  answerer := if rest == [] then Listening([]) else Replying(rest))
    case AskerReads(n) =>
      && s.asker.Awaiting? && 1 <= n <= |s.fromDriver| && n <= RECORD_SIZE - |s.asker.got|
      && var got := s.asker.got + s.fromDriver[..n];
      && if |got| == RECORD_SIZE then
           s' == s.(fromDriver := s.fromDriver[n..], asker := Idle, answers := s.answers + [Decode(got)])
         else
           s' == s.(fromDriver := s.fromDriver[n..], asker := Awaiting(got))
  }

  function Unsent(asker: Asker): seq<Byte> {
    if asker.Asking? || asker.Telling? then asker.rest else []
  }

  function Written(asker: Asker, n: nat): Asker
    requires 1 <= n <= |Unsent(asker)|
  {
    var rest := asker.rest[n..];
    if asker.Asking? then if rest == [] then Awaiting([]) else Asking(rest)
    else if rest == [] then Gone else Telling(rest)
  }

  function Unreplied(answerer: Answerer): seq<Byte> {
    if answerer.Replying? then answerer.rest else []
  }

  /** The part of a command the driver has, and the part of an answer the asker has. */
  function CommandPart(answerer: Answerer): seq<Byte> {
    if answerer.Listening? then answerer.got else []
  }

  function AnswerPart(asker: Asker): seq<Byte> {
    if asker.Awaiting? then asker.got else []
  }

  /** Bytes of the current command, wherever they are, and of the current answer. */
  function CommandBytes(s: Exchange): seq<Byte> {
    CommandPart(s.answerer) + s.toDriver + Unsent(s.asker)
  }

  function AnswerBytes(s: Exchange): seq<Byte> {
    AnswerPart(s.asker) + s.fromDriver + Unreplied(s.answerer)
  }

  /** Commands and answers arrive as they were sent, position by position. */
  ghost predicate Paired(s: Exchange) {
    && |s.answers| <= |s.replied| <= |s.taken| <= |s.asked| <= |s.answers| + 1
    && (forall k | 0 <= k < |s.taken| :: s.taken[k] == s.asked[k])
    && (forall k | 0 <= k < |s.answers| :: s.answers[k] == s.replied[k])
  }

  ghost predicate InStep(s: Exchange) {
    && (s.asker.Idle? <==> |s.asked| == |s.answers|)
    && (s.asker.Asking? || s.asker.Telling? ==> s.asker.rest != [] && |s.taken| == |s.answers|)
    && (s.answerer.Working? <==> |s.taken| == |s.replied| + 1)
    && (s.answerer.Replying? ==> s.answerer.rest != [] && |s.replied| == |s.answers| + 1)
  }

  ghost predicate Inv(s: Exchange) {
    && Paired(s) && InStep(s)
    && CommandBytes(s) == (if |s.taken| < |s.asked| then Encode(s.asked[|s.taken|]) else [])
    && AnswerBytes(s) == (if |s.answers| < |s.replied| then Encode(s.replied[|s.answers|]) else [])
  }

  /** Bytes read, or written, only change places. */
  lemma ReadMoves(a: seq<Byte>, b: seq<Byte>, c: seq<Byte>, n: nat)
    requires n <= |b|
    ensures (a + b[..n]) + b[n..] + c == a + b + c
  {
  }

  lemma WriteMoves(a: seq<Byte>, b: seq<Byte>, c: seq<Byte>, n: nat)
    requires n <= |c|
    ensures a + (b + c[..n]) + c[n..] == a + b + c
  {
  }

  /** A complete record leaves nothing behind it. */
  lemma CompleteRecord(a: seq<Byte>, b: seq<Byte>, c: seq<Byte>, n: nat, r: Record)
    requires n <= |b| && a + b + c == Encode(r) && |a| + n == RECORD_SIZE
    ensures Decode(a + b[..n]) == r && b[n..] == [] && c == []
  {
    assert a + b[..n] == (a + b + c)[..RECORD_SIZE] == Encode(r);
    RoundTrip(r);
  }

  lemma CommandComplete(s: Exchange, n: nat, s': Exchange)
    requires Inv(s) && Next(s, DriverReads(n), s') && s'.answerer.Working?
    ensures |s.taken| < |s.asked| && s'.taken == s.taken + [s.asked[|s.taken|]]
    ensures s'.toDriver == [] && Unsent(s.asker) == []
  {
    assert CommandBytes(s) != [];
    CompleteRecord(s.answerer.got, s.toDriver, Unsent(s.asker), n, s.asked[|s.taken|]);
  }

  lemma CommandPartRead(s: Exchange, n: nat, s': Exchange)
    requires Next(s, DriverReads(n), s') && s'.answerer.Listening?
    ensures CommandBytes(s') == CommandBytes(s)
  {
    ReadMoves(s.answerer.got, s.toDriver, Unsent(s.asker), n);
  }

  lemma CommandCounts(s: Exchange)
    requires Paired(s) && InStep(s) && s.answerer.Listening? && |s.taken| < |s.asked|
    requires Unsent(s.asker) == []
    ensures var s' := s.(toDriver := [], answerer := Working, taken := s.taken + [s.asked[|s.taken|]]);
            Paired(s') && InStep(s') && |s'.taken| == |s'.asked|
  {
  }

  lemma CommandTaken(s: Exchange, n: nat, s': Exchange)
    requires Inv(s) && Next(s, DriverReads(n), s') && s'.answerer.Working?
    ensures CommandBytes(s') == [] && |s'.taken| == |s'.asked|
    ensures Paired(s') && InStep(s')
  {
    CommandComplete(s, n, s');
    CommandCounts(s);
  }

  lemma DriverReadsKeepsInv(s: Exchange, n: nat, s': Exchange)
    requires Inv(s) && Next(s, DriverReads(n), s')
    ensures Inv(s')
  {
    assert AnswerBytes(s') == AnswerBytes(s);
    if s'.answerer.Working? {
      CommandTaken(s, n, s');
    } else {
      CommandPartRead(s, n, s');
    }
  }

  lemma AnswerComplete(s: Exchange, n: nat, s': Exchange)
    requires Inv(s) && Next(s, AskerReads(n), s') && s'.asker.Idle?
    ensures |s.answers| < |s.replied| && s'.answers == s.answers + [s.replied[|s.answers|]]
    ensures s'.fromDriver == [] && Unreplied(s.answerer) == []
  {
    assert AnswerBytes(s) != [];
    CompleteRecord(s.asker.got, s.fromDriver, Unreplied(s.answerer), n, s.replied[|s.answers|]);
  }

  lemma AnswerPartRead(s: Exchange, n: nat, s': Exchange)
    requires Next(s, AskerReads(n), s') && s'.asker.Awaiting?
    ensures AnswerBytes(s') == AnswerBytes(s)
  {
    ReadMoves(s.asker.got, s.fromDriver, Unreplied(s.answerer), n);
  }

  lemma AnswerCounts(s: Exchange)
    requires Paired(s) && InStep(s) && s.asker.Awaiting? && |s.answers| < |s.replied|
    requires Unreplied(s.answerer) == []
    ensures var s' := s.(fromDriver := [], asker := Idle, answers := s.answers + [s.replied[|s.answers|]]);
            Paired(s') && InStep(s') && |s'.answers| == |s'.replied|
  {
  }

  lemma AnswerTaken(s: Exchange, n: nat, s': Exchange)
    requires Inv(s) && Next(s, AskerReads(n), s') && s'.asker.Idle?
    ensures AnswerBytes(s') == [] && |s'.answers| == |s'.replied|
    ensures Paired(s') && InStep(s')
  {
    AnswerComplete(s, n, s');
    AnswerCounts(s);
  }

  lemma AskerReadsKeepsInv(s: Exchange, n: nat, s': Exchange)
    requires Inv(s) && Next(s, AskerReads(n), s')
    ensures Inv(s')
  {
    assert CommandBytes(s') == CommandBytes(s);
    if s'.asker.Idle? {
      AnswerTaken(s, n, s');
    } else {
      AnswerPartRead(s, n, s');
    }
  }

  lemma AskerWritesKeepsInv(s: Exchange, n: nat, s': Exchange)
    requires Inv(s) && Next(s, AskerWrites(n), s')
    ensures Inv(s')
  {
    assert Unsent(s'.asker) == Unsent(s.asker)[n..];
    WriteMoves(CommandPart(s.answerer), s.toDriver, Unsent(s.asker), n);
    assert CommandBytes(s') == CommandBytes(s) && AnswerBytes(s') == AnswerBytes(s);
  }

  lemma DriverWritesKeepsInv(s: Exchange, n: nat, s': Exchange)
    requires Inv(s) && Next(s, DriverWrites(n), s')
    ensures Inv(s')
  {
    assert Unreplied(s'.answerer) == Unreplied(s.answerer)[n..];
    WriteMoves(AnswerPart(s.asker), s.fromDriver, Unreplied(s.answerer), n);
    assert CommandBytes(s') == CommandBytes(s) && AnswerBytes(s') == AnswerBytes(s);
  }

  lemma InvKept(s: Exchange, a: Action, s': Exchange)
    requires Inv(s) && Next(s, a, s')
    ensures Inv(s')
  {
    match a
    case AskerWrites(n) => AskerWritesKeepsInv(s, n, s');
    case DriverReads(n) => DriverReadsKeepsInv(s, n, s');
    case DriverWrites(n) => DriverWritesKeepsInv(s, n, s');
    case AskerReads(n) => AskerReadsKeepsInv(s, n, s');
    case Reply(answer) =>
      assert CommandBytes(s') == CommandBytes(s);
      assert AnswerBytes(s') == AnswerBytes(s) + Encode(answer);
    case _ =>
      assert CommandBytes(s') == CommandBytes(s) + Encode(a.command);
      assert AnswerBytes(s') == AnswerBytes(s);
  }
}
