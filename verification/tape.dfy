/** TapeServer.serve: numbered reads of a logical tape file, answered again on request and committed by the next number. */
module TapeServer {
  import opened Blocks
  import Crc
  import opened Xmodem

  const STX: Byte := 2
  const ACK: Byte := 6
  const NAK: Byte := 0x15
  const SPACE: Byte := 70
  const READ: Byte := 82

  datatype Option<T> = None | Some(value: T)

  /** A Python slice that may reach past the end. */
  function Slice(s: seq<Byte>, at: nat, n: nat): (r: seq<Byte>)
    requires at <= |s|
    ensures |r| <= n && at + |r| <= |s| && r == s[at..at + |r|] && (|r| < n ==> at + |r| == |s|)
  {
    if at + n <= |s| then s[at..at + n] else s[at..]
  }

  /** A numbered read session on one file: where the last answer began, its number, and the answer itself. */
  datatype Reading = Reading(position: nat, sequence: Option<nat>, count: nat, pending: seq<Byte>)

  const MODULUS := 0x1_0000_0000

  /** What a numbered request makes of the session, and the answer; None is a refusal. */
  function Asked(r: Reading, source: seq<Byte>, q: nat, n: nat): (o: (Reading, Option<seq<Byte>>))
    requires r.position + |r.pending| <= |source|
  {
    match r.sequence
    case None => var p := Slice(source, r.position, n); (Reading(r.position, Some(q), n, p), Some(p))
    case Some(last) =>
      if q == last then
        if n == r.count then (r, Some(r.pending)) else (r, None)
      else if q == (last + 1) % MODULUS then
        var p := Slice(source, r.position + |r.pending|, n);
        (Reading(r.position + |r.pending|, Some(q), n, p), Some(p))
      else (r, None)
  }

  /** The session is in order: the answer is the source from the position on. */
  ghost predicate InOrder(r: Reading, source: seq<Byte>) {
    && r.position + |r.pending| <= |source|
    && (r.sequence == None ==> r.pending == [])
    && (r.sequence.Some? ==> r.pending == Slice(source, r.position, r.count))
  }

  lemma AskedInOrder(r: Reading, source: seq<Byte>, q: nat, n: nat)
    requires InOrder(r, source)
    ensures InOrder(Asked(r, source, q, n).0, source)
  {
  }

  /** A reader who keeps each new answer and replaces it when it asks for the same number again. */
  datatype Reader = Reader(done: seq<Byte>, last: seq<Byte>, number: Option<nat>)

  function Heard(c: Reader, q: nat, answer: Option<seq<Byte>>): Reader {
    match answer
    case None => c
    case Some(p) => if c.number == Some(q) then Reader(c.done, p, c.number) else Reader(c.done + c.last, p, Some(q))
  }

  /** A run of requests: any numbers and counts, in any order. */
  function Served(r: Reading, c: Reader, source: seq<Byte>, asks: seq<(nat, nat)>): (o: (Reading, Reader))
    requires InOrder(r, source)
    ensures InOrder(o.0, source)
    decreases |asks|
  {
    if asks == [] then (r, c)
    else
      var (q, n) := asks[0];
      AskedInOrder(r, source, q, n);
      var (r', answer) := Asked(r, source, q, n);
      Served(r', Heard(c, q, answer), source, asks[1..])
  }

  ghost predicate InStep(r: Reading, c: Reader, source: seq<Byte>) {
    && InOrder(r, source) && c.number == r.sequence
    && c.done == source[..r.position] && c.last == r.pending
  }

  /**
   Whatever the reader asks, what it has put together is a prefix of the file: answers to repeated
   numbers replace themselves, and a new number goes on exactly where the answer before it ended.
   */
  lemma {:induction false} ReaderHasPrefix(r: Reading, c: Reader, source: seq<Byte>, asks: seq<(nat, nat)>)
    requires InStep(r, c, source)
    ensures var (r', c') := Served(r, c, source, asks);
      && InStep(r', c', source) && c'.done + c'.last == source[..r'.position + |r'.pending|]
      && r'.position + |r'.pending| >= r.position + |r.pending|
    decreases |asks|
  {
    hide InStep, InOrder, Asked, Heard;
    PrefixNow(r, c, source);
    if asks != [] {
      var (q, n) := asks[0];
      AskedInOrder(r, source, q, n);
      HeardInStep(r, c, source, q, n);
      var (r', answer) := Asked(r, source, q, n);
      ReaderHasPrefix(r', Heard(c, q, answer), source, asks[1..]);
    }
  }

  lemma PrefixNow(r: Reading, c: Reader, source: seq<Byte>)
    requires InStep(r, c, source)
    ensures InOrder(r, source) && r.position + |r.pending| <= |source| && c.done + c.last == source[..r.position + |r.pending|]
  {
  }

  lemma HeardInStep(r: Reading, c: Reader, source: seq<Byte>, q: nat, n: nat)
    requires InStep(r, c, source)
    ensures InOrder(r, source) && r.position + |r.pending| <= |source|
    ensures InStep(Asked(r, source, q, n).0, Heard(c, q, Asked(r, source, q, n).1), source)
    ensures var r' := Asked(r, source, q, n).0; r'.position + |r'.pending| >= r.position + |r.pending|
  {
    PrefixNow(r, c, source);
    AskedInOrder(r, source, q, n);
  }

  /** Asking again with the same number and count gives the same bytes and changes nothing. */
  lemma AskedAgain(r: Reading, source: seq<Byte>, q: nat, n: nat)
    requires InOrder(r, source) && Asked(r, source, q, n).1.Some?
    ensures InOrder(Asked(r, source, q, n).0, source)
    ensures Asked(Asked(r, source, q, n).0, source, q, n) == Asked(r, source, q, n)
  {
    AskedInOrder(r, source, q, n);
  }

  function BigEndian(b: seq<Byte>): nat {
    if b == [] then 0 else BigEndian(b[..|b| - 1]) * 256 + b[|b| - 1]
  }

  function Xor(a: Byte, b: Byte): Byte {
    ((a as Crc.Octet) ^ (b as Crc.Octet)) as Byte
  }

  function XorAll(b: seq<Byte>): Byte {
    if b == [] then 0 else if |b| == 1 then b[0] else Xor(XorAll(b[..|b| - 1]), b[|b| - 1])
  }

  /** The framed answer of protocol version 1. */
  function Frame(payload: seq<Byte>): (p: seq<Byte>)
    requires |payload| < 65536
    ensures |p| == |payload| + 5 && p[3..|p| - 2] == payload
  {
    var hi: Byte, lo: Byte := |payload| / 256, |payload| % 256;
    [STX, hi, lo] + payload + [XorAll([hi, lo] + payload), 3]
  }

  /** The framed answer byte by byte: STX, the length with the high byte first, the payload, a checksum and ETX. */
  lemma FrameBytes(payload: seq<Byte>)
    requires |payload| < 65536
    ensures var p := Frame(payload);
      && p[0] == 2 && p[1] as int * 256 + p[2] as int == |payload| && p[3..3 + |payload|] == payload
      && p[3 + |payload|] == XorAll([p[1], p[2]] + payload) && p[4 + |payload|] == 3
  {
    hide XorAll;
  }

  /** The same bytes so many times. */
  function Copies(b: seq<Byte>, n: nat): (c: seq<Byte>) {
    if n == 0 then [] else Copies(b, n - 1) + b
  }

  /** What a line gives the server that acknowledges after so many refusals. */
  function Replies(naks: nat): (c: seq<Byte>) {
    Copies([NAK], naks) + [ACK]
  }

  /** What the server hears when block k is refused naks[k] times and then acknowledged, and the end of transmission likewise. */
  function AllReplies(naks: seq<nat>): seq<Byte> {
    if naks == [] then [] else AllReplies(naks[..|naks| - 1]) + Replies(naks[|naks| - 1])
  }

  /** What it says then: each of the first n blocks naks[k] + 1 times. */
  function Said(payload: seq<Byte>, n: nat, naks: seq<nat>): seq<Byte>
    requires n <= |naks| && BLOCK * n <= |payload|
  {
    if n == 0 then [] else Said(payload, n - 1, naks) + Copies(Packet(n % 256, payload[BLOCK * (n - 1)..BLOCK * n]), naks[n - 1] + 1)
  }

  /** A whole XMODEM session for the payload, as it went over the line: every block acknowledged, and the end too. */
  ghost predicate Acknowledged(payload: seq<Byte>, heard: seq<Byte>, said: seq<Byte>) {
    |payload| % BLOCK == 0 && exists naks: seq<nat> :: AckedWith(payload, heard, said, naks)
  }

  ghost predicate AckedWith(payload: seq<Byte>, heard: seq<Byte>, said: seq<Byte>, naks: seq<nat>) {
    && |payload| % BLOCK == 0 && |naks| == |payload| / BLOCK + 1 && heard == AllReplies(naks)
    && said == Said(payload, |naks| - 1, naks) + Copies([EOT], naks[|naks| - 1] + 1)
  }

  /**
   The server's session and any receiver that answered as the server heard, the end included: it has returned the
   payload's length, and has the payload if its driver sets the destination again, or if it stored just so many bytes.
   fates says what the line did to each sending.
   */
  lemma SessionDelivers(rewinds: bool, payload: seq<Byte>, count: nat, heard: seq<Byte>, said: seq<Byte>, naks: seq<nat>, fates: seq<seq<Fate>>)
    requires AckedWith(payload, heard, said, naks) && Consistent(rewinds, payload, |naks| - 1, count, fates, naks)
    requires |fates| == |naks| && Fates(fates[|naks| - 1])
    requires HearAll(rewinds, HeardBlocks(rewinds, payload, |naks| - 1, count, fates), [EOT], fates[|naks| - 1]).1 == Pattern(naks[|naks| - 1])
    ensures var r := HearAll(rewinds, HeardBlocks(rewinds, payload, |naks| - 1, count, fates), [EOT], fates[|naks| - 1]).0;
      Arrived(rewinds, r, payload, count)
  {
    hide Consistent, HeardBlocks, Fates, Has;
    var n := |naks| - 1;
    var r, f := HeardBlocks(rewinds, payload, n, count, fates), fates[n];
    assert BLOCK * n == |payload|;
    PatternLast(naks[n]);
    if !r.phase.Listening? {
      GoneDeaf(rewinds, r, [EOT], f);
    }
    Delivered(rewinds, payload, n, count, fates, naks);
    EotHeard(rewinds, r, payload, count, f);
    EotAnswered(rewinds, r, f, naks[n]);
  }

  /** The end is acknowledged by a receiver that returns. */
  lemma EotAnswered(rewinds: bool, r: Receiver, f: seq<Fate>, naks: nat)
    requires |f| == naks + 1 && HearAll(rewinds, r, [EOT], f).1 == Pattern(naks) && Fates(f)
    ensures HearAll(rewinds, r, [EOT], f).0.phase.Returned?
  {
    hide Xmodem.Sound;
    var q := HearAll(rewinds, r, [EOT], f[..naks]).0;
    assert Hear(rewinds, q, [EOT], f[naks]).1 == Pattern(naks)[naks];
    if f[naks].Damaged? {
      BrokenNotSound(f[naks].bytes);
    }
  }

  /** "S8", a known version, and the checksum of all five bytes and the SOH before them. */
  predicate OpenOk(r: seq<Byte>)
    requires |r| == 5
  {
    r[0] == 83 && r[1] == 56 && (r[2] == 1 || r[2] == 3) && r[4] == XorAll([1] + r[..4])
  }

  predicate LegacyOk(r: seq<Byte>)
    requires |r| == 3
  {
    r[2] == XorAll([READ] + r[..2])
  }

  predicate NumberedOk(r: seq<Byte>)
    requires |r| == 7
  {
    r[6] == XorAll([READ] + r[..6])
  }

  predicate SpaceOk(r: seq<Byte>)
    requires |r| == 2
  {
    r[0] != 0 && r[1] == XorAll([SPACE, r[0]])
  }

  /** A read request, and the framed answer to it, refused so many times and then acknowledged. */
  ghost predicate AckedFrame(payload: seq<Byte>, before: seq<Byte>, after: seq<Byte>, out: seq<Byte>, out': seq<Byte>, naks: nat) {
    && |payload| < 65536 && |before| >= 3 && before == before[..3] + Replies(naks) + after
    && out' == out + Copies(Frame(payload), naks + 1)
  }

  lemma FrameAcked(payload: seq<Byte>, before: seq<Byte>, after: seq<Byte>, out: seq<Byte>, out': seq<Byte>, naks: nat)
    requires |payload| < 65536 && |before| >= 3 && before[3..] == Replies(naks) + after && out' == out + Copies(Frame(payload), naks + 1)
    ensures AckedFrame(payload, before, after, out, out', naks)
  {
    hide Copies, Replies, Frame;
    assert before == before[..3] + before[3..];
  }

  /** What becomes of a message: whether the line acknowledges it, what goes out for it, and what is left to come in. */
  datatype Sending = Sending(alive: bool, out: seq<Byte>, rest: seq<Byte>)

  function Sent(packet: seq<Byte>, line: seq<Byte>): (o: Sending)
    ensures |o.rest| <= |line|
  {
    if line == [] then Sending(false, packet, [])
    else if line[0] == ACK then Sending(true, packet, line[1..])
    else if line[0] == NAK then
      var o := Sent(packet, line[1..]);
      Sending(o.alive, packet + o.out, o.rest)
    else Sending(false, packet, line[1..])
  }

  /** The blocks of a payload from block k on, and the end of transmission. */
  function SentAll(payload: seq<Byte>, k: nat, line: seq<Byte>): (o: Sending)
    requires |payload| % BLOCK == 0 && BLOCK * k <= |payload|
    ensures |o.rest| <= |line|
    decreases |payload| - BLOCK * k
  {
    if BLOCK * k == |payload| then Sent([EOT], line)
    else
      var o := Sent(Packet((k + 1) % 256, Chunk(payload, k)), line);
      if !o.alive then o
      else
        var t := SentAll(payload, k + 1, o.rest);
        Sending(t.alive, o.out + t.out, t.rest)
  }

  /** What can be seen of the server: the file chosen, the session on it, and the line. */
  datatype Desk = Desk(file: Option<nat>, version: nat, reading: Reading, input: seq<Byte>, output: seq<Byte>)

  /** A command answered; alive says whether the service goes on. */
  datatype Turn = Turn(desk: Desk, alive: bool)

  /** One more message for the answer. */
  function Told(d: Desk, bytes: seq<Byte>): Desk {
    d.(output := d.output + bytes)
  }

  class Server {
    const files: seq<seq<Byte>>
    const special: map<nat, seq<Byte>>
    var file: Option<nat>
    var version: nat
    var position: nat
    var sequence: Option<nat>
    var count: nat
    var pending: Option<seq<Byte>>
    /** The serial line: what is still to come in, and what has gone out. */
    var input: seq<Byte>
    var output: seq<Byte>
    /** What came in and went out for the latest answer, and what has been committed of the current file. */
    ghost var heard: seq<Byte>
    ghost var said: seq<Byte>
    ghost var committed: seq<Byte>

    constructor (files: seq<seq<Byte>>, special: map<nat, seq<Byte>>, input: seq<Byte>)
      ensures Valid() && Settled()
    {
      this.files, this.special, this.input, this.output := files, special, input, [];
      file, version, position, sequence, count, pending := None, 0, 0, None, 0, None;
      heard, said, committed := [], [], [];
    }

    predicate Known(n: nat) {
      n < |files| || n in special
    }

    function Source(n: nat): seq<Byte>
      requires Known(n)
    {
      if n in special then special[n] else files[n]
    }

    /** Files 0 and 1, and all files of a version 1 session, are read without numbers. */
    predicate Legacy()
      reads this
      requires file.Some?
    {
      file.value < 2 || version == 1
    }

    ghost function Session(): Reading
      reads this
    {
      Reading(position, sequence, count, if pending.Some? then pending.value else [])
    }

    /** The position is in the file, the pending answer is the file's bytes there, and the bytes before it are committed. */
    ghost predicate Valid()
      reads this
    {
      && (sequence.Some? <==> pending.Some?) && (file.Some? && Legacy() ==> pending == None)
      && match file
         case None => position == 0 && sequence.None? && count == 0 && committed == []
         case Some(n) => Known(n) && InOrder(Session(), Source(n)) && committed == Source(n)[..position]
    }

    /** Every block of the pending answer has been acknowledged over the line. */
    ghost predicate Settled()
      reads this
    {
      pending.Some? ==> Acknowledged(pending.value, heard, said)
    }

    ghost function Here(): Desk
      reads this
    {
      Desk(file, version, Session(), input, output)
    }

    /** A file that the server has, with a session in order. */
    ghost predicate Fits(d: Desk) {
      && (d.file.None? ==> d.reading == Reading(0, None, 0, []))
      && (d.file.Some? ==> Known(d.file.value) && InOrder(d.reading, Source(d.file.value)))
      && (d.file.Some? && (d.file.value < 2 || d.version == 1) ==> d.reading.sequence == None)
    }

    /** An open request. */
    function OnOpen(d: Desk): Turn {
      if |d.input| < 5 then Turn(d.(input := []), false)
      else
        var r, rest := d.input[..5], d.input[5..];
        if OpenOk(r) && Known(r[3]) then Turn(Desk(Some(r[3]), r[2], Reading(0, None, 0, []), rest, d.output + [ACK]), true)
        else Turn(Told(d, [CAN]).(input := rest), true)
    }

    /** A read without a number. */
    ghost function OnLegacy(d: Desk): Turn
      requires Fits(d) && d.file.Some?
    {
      if |d.input| < 3 then Turn(d.(input := []), false)
      else
        var r, rest := d.input[..3], d.input[3..];
        var payload := Slice(Source(d.file.value), d.reading.position, BigEndian(r[..2]));
        ByteBound(r[..2]);
        if !LegacyOk(r) then Turn(Told(d, [CAN]).(input := rest), true)
        else if payload == [] && d.file.value < 5 then Turn(Told(d, [EOT]).(input := rest), true)
        else
          var o := Sent(Frame(payload), rest);
          var at := d.reading.position + if o.alive then |payload| else 0;
          Turn(Told(d, o.out).(input := o.rest, reading := d.reading.(position := at)), o.alive)
    }

    /** A read with a number. */
    ghost function OnNumbered(d: Desk): Turn
      requires Fits(d) && d.file.Some?
    {
      if |d.input| < 7 then Turn(d.(input := []), false)
      else
        var r, rest := d.input[..7], d.input[7..];
        if !NumberedOk(r) then Turn(Told(d, [CAN]).(input := rest), true)
        else
          var (reading, answer) := Asked(d.reading, Source(d.file.value), BigEndian(r[..4]), BigEndian(r[4..6]));
          match answer
          case None => Turn(Told(d, [CAN]).(input := rest, reading := reading), true)
          case Some(p) =>
            if |p| % BLOCK != 0 then Turn(d.(input := rest, reading := reading), false)
            else
              var o := SentAll(p, 0, rest);
              Turn(Told(d, o.out).(input := o.rest, reading := reading), o.alive)
    }

    /** The outcomes of a numbered read, by what was read. */
    lemma NumberedTurn(d: Desk, request: seq<Byte>, rest: seq<Byte>)
      requires Fits(d) && d.file.Some?
      ensures |d.input| < 7 ==> OnNumbered(d) == Turn(d.(input := []), false)
      ensures |request| == 7 && d.input == request + rest ==>
        var answer := Asked(d.reading, Source(d.file.value), BigEndian(request[..4]), BigEndian(request[4..6]));
        && (!NumberedOk(request) ==> OnNumbered(d) == Turn(Told(d, [CAN]).(input := rest), true))
        && (NumberedOk(request) && answer.1.None? ==> OnNumbered(d) == Turn(Told(d, [CAN]).(input := rest, reading := answer.0), true))
        && (NumberedOk(request) && answer.1.Some? && |answer.1.value| % BLOCK != 0 ==> OnNumbered(d) == Turn(d.(input := rest, reading := answer.0), false))
        && (NumberedOk(request) && answer.1.Some? && |answer.1.value| % BLOCK == 0 ==>
              var o := SentAll(answer.1.value, 0, rest);
              OnNumbered(d) == Turn(Told(d, o.out).(input := o.rest, reading := answer.0), o.alive))
    {
      hide BigEndian, NumberedOk, Asked, SentAll, InOrder;
      if |request| == 7 && d.input == request + rest {
        assert d.input[..7] == request && d.input[7..] == rest;
      }
    }

    /** The outcomes of a read without a number. */
    lemma LegacyTurn(d: Desk, request: seq<Byte>, rest: seq<Byte>)
      requires Fits(d) && d.file.Some?
      ensures |d.input| < 3 ==> OnLegacy(d) == Turn(d.(input := []), false)
      ensures |request| == 3 && d.input == request + rest ==>
        && BigEndian(request[..2]) < 65536
        && var payload := Slice(Source(d.file.value), d.reading.position, BigEndian(request[..2]));
        && (!LegacyOk(request) ==> OnLegacy(d) == Turn(Told(d, [CAN]).(input := rest), true))
        && (LegacyOk(request) && payload == [] && d.file.value < 5 ==> OnLegacy(d) == Turn(Told(d, [EOT]).(input := rest), true))
        && (LegacyOk(request) && !(payload == [] && d.file.value < 5) ==>
              var o := Sent(Frame(payload), rest);
              OnLegacy(d) == Turn(Told(d, o.out).(input := o.rest, reading := d.reading.(position := d.reading.position + if o.alive then |payload| else 0)), o.alive))
    {
      hide BigEndian, LegacyOk, Sent, Frame;
      if |request| == 3 && d.input == request + rest {
        assert d.input[..3] == request && d.input[3..] == rest;
        ByteBound(request[..2]);
      }
    }

    /** Space forward over files. */
    function OnSpace(d: Desk): Turn {
      if |d.input| < 2 then Turn(d.(input := []), false)
      else
        var r, rest := d.input[..2], d.input[2..];
        if d.file.Some? && SpaceOk(r) && Known(d.file.value + r[0])
        then Turn(Desk(Some(d.file.value + r[0]), d.version, Reading(0, None, 0, []), rest, d.output + [ACK]), true)
        else Turn(Told(d, [CAN]).(input := rest), true)
    }

    /** One command. */
    ghost function Answered(d: Desk): (t: Turn)
      requires Fits(d) && d.input != []
    {
      var c, e := d.input[0], d.(input := d.input[1..]);
      if c == SOH then OnOpen(e)
      else if c == READ && e.file.None? then Turn(Told(e, [CAN]), true)
      else if c == READ && (e.file.value < 2 || e.version == 1) then OnLegacy(e)
      else if c == READ then OnNumbered(e)
      else if c == SPACE then OnSpace(e)
      else if c == CAN then Turn(e.(file := None, reading := Reading(0, None, 0, [])), true)
      else Turn(e, true)
    }

    /** An answer takes some of the input, and leaves the session in order. */
    lemma AnsweredFits(d: Desk)
      requires Fits(d) && d.input != []
      ensures Fits(Answered(d).desk) && |Answered(d).desk.input| < |d.input|
    {
      hide OpenOk, SpaceOk, Server.OnLegacy, Server.OnNumbered, InOrder;
      var e := d.(input := d.input[1..]);
      if e.file.Some? {
        if e.file.value < 2 || e.version == 1 {
          LegacyFits(e);
        } else {
          NumberedFits(e);
        }
      }
      forall n: nat | Known(n)
        ensures InOrder(Reading(0, None, 0, []), Source(n))
      {
        StartsInOrder(Source(n));
      }
    }

    lemma LegacyFits(d: Desk)
      requires Fits(d) && d.file.Some? && (d.file.value < 2 || d.version == 1)
      ensures Fits(OnLegacy(d).desk) && |OnLegacy(d).desk.input| <= |d.input|
    {
      hide LegacyOk, BigEndian, Frame, Sent, Slice;
    }

    lemma NumberedFits(d: Desk)
      requires Fits(d) && d.file.Some? && !(d.file.value < 2 || d.version == 1)
      ensures Fits(OnNumbered(d).desk) && |OnNumbered(d).desk.input| <= |d.input|
    {
      hide NumberedOk, BigEndian, SentAll, Asked, InOrder;
      if |d.input| >= 7 {
        AskedInOrder(d.reading, Source(d.file.value), BigEndian(d.input[..7][..4]), BigEndian(d.input[..7][4..6]));
      }
    }

    /** All the commands there are. */
    ghost function Served(d: Desk): Desk
      requires Fits(d)
      decreases |d.input|
    {
      if d.input == [] then d
      else
        AnsweredFits(d);
        var t := Answered(d);
        if t.alive then Served(t.desk) else t.desk
    }

    /** An open request with the right checksum, for a file there is: the server acknowledges, and is at the start of that file. */
    lemma OpenLaw(d: Desk, version: Byte, n: Byte, sum: Byte, rest: seq<Byte>)
      requires Fits(d) && d.input == [1, 83, 56, version, n, sum] + rest
      ensures Answered(d) ==
        if (version == 1 || version == 3) && Known(n) && sum == Xor(Xor(Xor(Xor(1, 83), 56), version), n)
        then Turn(Desk(Some(n), version, Reading(0, None, 0, []), rest, d.output + [6]), true)
        else Turn(d.(input := rest, output := d.output + [0x18]), true)
    {
      hide OpenOk, Xor, Server.OnLegacy, Server.OnNumbered, Server.OnSpace, InOrder;
      var e := d.input[1..];
      assert e[..5] == [83, 56, version, n, sum] && e[5..] == rest;
      OpenSum(e[..5]);
    }

    /** A read without a number, acknowledged: one frame with the next bytes of the file goes out, and the position moves past them. */
    lemma LegacyLaw(d: Desk, hi: Byte, lo: Byte, sum: Byte, rest: seq<Byte>)
      requires Fits(d) && d.file.Some? && (d.file.value < 2 || d.version == 1) && d.input == [82, hi, lo, sum, 6] + rest
      ensures var p := Slice(Source(d.file.value), d.reading.position, hi as int * 256 + lo as int);
        Answered(d) ==
          if sum != Xor(Xor(82, hi), lo) then Turn(d.(input := [6] + rest, output := d.output + [0x18]), true)
          else if p == [] && d.file.value < 5 then Turn(d.(input := [6] + rest, output := d.output + [4]), true)
          else Turn(d.(input := rest, output := d.output + Frame(p), reading := d.reading.(position := d.reading.position + |p|)), true)
    {
      hide Xor, XorAll, Frame, Slice, Server.OnLegacy, Server.OnNumbered, Server.OnOpen, Server.OnSpace, BigEndian;
      var e := d.(input := d.input[1..]);
      var r := [hi, lo, sum];
      assert e.input == r + ([6] + rest);
      LegacyTurn(e, r, [6] + rest);
      assert [READ] + r[..2] == [82, hi, lo];
      XorThree(82, hi, lo);
      TwoBytes(r[..2]);
      SentIs(Frame(Slice(Source(d.file.value), d.reading.position, hi as int * 256 + lo as int)), [6] + rest);
    }

    /** Space forward: to the start of the file so many further on, if it is there. */
    lemma SpaceLaw(d: Desk, k: Byte, sum: Byte, rest: seq<Byte>)
      requires Fits(d) && d.input == [70, k, sum] + rest
      ensures Answered(d) ==
        if d.file.Some? && k > 0 && sum == Xor(70, k) && Known(d.file.value + k)
        then Turn(Desk(Some(d.file.value + k), d.version, Reading(0, None, 0, []), rest, d.output + [6]), true)
        else Turn(d.(input := rest, output := d.output + [0x18]), true)
    {
      hide Xor, XorAll, InOrder, Server.OnLegacy, Server.OnNumbered, Server.OnOpen;
      var e := d.input[1..];
      assert e[..2] == [k, sum] && e[2..] == rest;
      XorOne(70);
      XorMore([70], k);
      assert [70 as Byte] + [k] == [70, k];
    }

    /** A numbered read of what comes next, acknowledged throughout: its packets and the end go out, and the session goes on. */
    lemma ReadLaw(d: Desk, q: nat, n: nat, rest: seq<Byte>)
      requires Fits(d) && d.file.Some? && d.file.value >= 2 && d.version != 1 && q < MODULUS && n < 65536
      requires Next(d.reading, q) && d.reading.position + |d.reading.pending| <= |Source(d.file.value)|
      requires var p := Slice(Source(d.file.value), d.reading.position + |d.reading.pending|, n);
        |p| % BLOCK == 0 && d.input == Ask(q, n) + Acks(|p| / BLOCK + 1) + rest
      ensures var at := d.reading.position + |d.reading.pending|;
        var p := Slice(Source(d.file.value), at, n);
        Answered(d) == Turn(Desk(d.file, d.version, Reading(at, Some(q), n, p), rest, d.output + Packets(p, |p| / BLOCK) + [4]), true)
    {
      hide Slice, Packets, SentAll, BigEndian, NumberedOk, Asked, Acks, Ask, InOrder, Server.OnNumbered, Server.OnOpen, Server.OnLegacy, Server.OnSpace, Next;
      var at := d.reading.position + |d.reading.pending|;
      var p := Slice(Source(d.file.value), at, n);
      AskParts(q, n);
      var e := d.(input := d.input[1..]);
      var tail := Acks(|p| / BLOCK + 1) + rest;
      assert d.input == Ask(q, n) + tail;
      assert e.input == Ask(q, n)[1..] + tail && d.input[0] == READ;
      NumberedTurn(e, Ask(q, n)[1..], tail);
      AskedNext(d.reading, Source(d.file.value), q, n);
      AckedAll(p, 0, rest);
      NoPackets(p, SentAll(p, 0, tail).out);
      assert d.output + (Packets(p, |p| / BLOCK) + [EOT]) == d.output + Packets(p, |p| / BLOCK) + [4];
    }

    /**
     A reader that asks for one piece after another, with the numbers in turn and everything acknowledged, has sent to
     it exactly the packets of one slice of the file after another, from where the session stood.
     */
    lemma {:induction false} ReadThrough(d: Desk, q: nat, ns: seq<nat>, rest: seq<Byte>) returns (e: Desk)
      requires Asking(d, q, ns, rest)
      ensures var source, at := Source(d.file.value), d.reading.position + |d.reading.pending|;
        && e.file == d.file && e.version == d.version && e.input == rest && e.output == d.output + Answers(source, at, ns)
        && e.reading.position + |e.reading.pending| == at + |Pieces(source, at, ns)|
      ensures Fits(d) && Fits(e) && Served(d) == Served(e)
      decreases |ns|
    {
      hide Slice, Server.Answered, Asked, Server.Asking, Server.Fits, Server.Served, Answers, Pieces, Packets, Dialogue, Packet, InOrder;
      AskingFacts(d, q, ns, rest);
      var source, at := Source(d.file.value), d.reading.position + |d.reading.pending|;
      AnswersStep(source, at, ns, d.output);
      if ns == [] {
        e := d;
      } else {
        var t := AskedOnce(d, q, ns, rest);
        e := ReadThrough(t, (q + 1) % MODULUS, ns[1..], rest);
      }
    }

    /** From an open request on: everything that goes out is the acknowledgement and the packets of the file's beginning. */
    lemma Transfer(d: Desk, n: Byte, q: nat, ns: seq<nat>, sum: Byte) returns (e: Desk)
      requires Fits(d) && Known(n) && n >= 2 && q < MODULUS && Whole(Source(n), ns) && sum == Xor(Xor(Xor(Xor(1, 83), 56), 3), n)
      requires d.input == [1, 83, 56, 3, n, sum] + Dialogue(Source(n), 0, q, ns)
      ensures Served(d) == e && e.file == Some(n) && e.input == [] && e.output == d.output + [6] + Answers(Source(n), 0, ns)
      ensures e.reading.position + |e.reading.pending| == |Pieces(Source(n), 0, ns)| && Pieces(Source(n), 0, ns) <= Source(n)
    {
      hide Xor, Dialogue, Answers, Pieces, Server.Answered, InOrder;
      var rest := Dialogue(Source(n), 0, q, ns);
      OpenLaw(d, 3, n, sum, rest);
      AnsweredFits(d);
      var t := Answered(d).desk;
      assert rest + [] == rest;
      e := ReadThrough(t, q, ns, []);
      PiecesAre(Source(n), 0, ns);
    }

    /** The line holds a dialogue for pieces of the file, from where the session stands. */
    ghost predicate Asking(d: Desk, q: nat, ns: seq<nat>, rest: seq<Byte>) {
      && Fits(d) && d.file.Some? && d.file.value >= 2 && d.version != 1 && q < MODULUS && Next(d.reading, q)
      && Whole(Source(d.file.value), ns) && d.reading.position + |d.reading.pending| <= |Source(d.file.value)|
      && (d.reading.position + |d.reading.pending|) % BLOCK == 0
      && d.input == Dialogue(Source(d.file.value), d.reading.position + |d.reading.pending|, q, ns) + rest
    }

    lemma AskingFacts(d: Desk, q: nat, ns: seq<nat>, rest: seq<Byte>)
      requires Asking(d, q, ns, rest)
      ensures Fits(d) && d.file.Some? && Known(d.file.value) && d.reading.position + |d.reading.pending| <= |Source(d.file.value)|
      ensures ns == [] ==> d.input == rest
    {
      hide Slice, Ask, Acks, InOrder;
    }

    lemma AskedOnce(d: Desk, q: nat, ns: seq<nat>, rest: seq<Byte>) returns (t: Desk)
      requires Asking(d, q, ns, rest) && ns != []
      ensures var source, at := Source(d.file.value), d.reading.position + |d.reading.pending|;
        var p := Slice(source, at, ns[0]);
        && t.file == d.file && t.version == d.version && t.reading.position + |t.reading.pending| == at + |p|
        && t.output == d.output + Packets(p, |p| / BLOCK) + [4] && Asking(t, (q + 1) % MODULUS, ns[1..], rest)
        && Fits(d) && Served(d) == Served(t)
    {
      hide Slice, Ask, Acks, Packets, Server.Answered, Asked, InOrder;
      var source, at := Source(d.file.value), d.reading.position + |d.reading.pending|;
      var p := Slice(source, at, ns[0]);
      SliceWhole(source, at, ns[0]);
      var more := Dialogue(source, at + |p|, (q + 1) % MODULUS, ns[1..]);
      assert d.input == Ask(q, ns[0]) + Acks(|p| / BLOCK + 1) + (more + rest);
      ReadLaw(d, q, ns[0], more + rest);
      AskNotEmpty(q, ns[0]);
      AnsweredFits(d);
      t := Answered(d).desk;
    }

    lemma HereFits()
      requires Valid()
      ensures Fits(Here())
    {
      hide Slice;
    }

    method ReadExact(n: nat) returns (ok: bool, bytes: seq<Byte>)
      modifies this`input
      ensures ok <==> n <= |old(input)|
      ensures ok ==> bytes == old(input)[..n] && input == old(input)[n..]
      ensures !ok ==> input == []
    {
      ok := n <= |input|;
      bytes := if ok then input[..n] else input;
      input := if ok then input[n..] else [];
    }

    method Put(bytes: seq<Byte>)
      modifies this`output
      ensures output == old(output) + bytes
    {
      output := output + bytes;
    }

    /** The bytes of a request after its letter. */
    method Request(n: nat) returns (ok: bool, bytes: seq<Byte>)
      requires Valid() && Settled()
      modifies this`input
      ensures Valid() && Settled() && (ok <==> n <= |old(input)|)
      ensures if ok then bytes == old(input)[..n] && Here() == old(Here()).(input := old(input)[n..]) else Here() == old(Here()).(input := [])
    {
      hide Acknowledged, InOrder;
      ok, bytes := ReadExact(n);
    }

    method Refuse()
      requires Valid() && Settled()
      modifies this`output
      ensures Valid() && Settled() && Here() == Told(old(Here()), [CAN])
    {
      hide Acknowledged, InOrder;
      Put([CAN]);
    }

    /**
     Write a packet until it is acknowledged: the line gave so many NAKs and an ACK, and the packet went out once for
     each.  Any reply but ACK and NAK, or the end of the line, ends the service.
     */
    method Deliver(packet: seq<Byte>) returns (alive: bool, ghost naks: nat)
      modifies this`input, this`output
      ensures |input| <= |old(input)|
      ensures alive ==> old(input) == Replies(naks) + input && output == old(output) + Copies(packet, naks + 1)
      ensures var o := Sent(packet, old(input));
        alive == o.alive && input == o.rest && output == old(output) + o.out && (alive ==> o.out == Copies(packet, naks + 1))
    {
      hide Sent, Copies, Replies, Tried;
      naks := 0;
      FirstTry(packet, input, output);
      while true
        invariant |input| <= |old(input)| && Tried(packet, naks, old(input), input, old(output), output)
        decreases |input|
      {
        ghost var was, out := input, output;
        Put(packet);
        var ok, reply := ReadExact(1);
        TriedOnce(packet, naks, old(input), was, old(output), out);
        if !ok {
          return false, naks;
        }
        if reply[0] == ACK {
          return true, naks;
        }
        if reply[0] != NAK {
          return false, naks;
        }
        naks := naks + 1;
      }
    }

    /** The XMODEM session for one answer. */
    method SendBlocks(payload: seq<Byte>) returns (alive: bool)
      modifies this`input, this`output, this`heard, this`said
      ensures |input| <= |old(input)|
      ensures alive ==> Acknowledged(payload, heard, said) && old(input) == heard + input && output == old(output) + said
      ensures if |payload| % BLOCK != 0 then !alive && input == old(input) && output == old(output)
              else var o := SentAll(payload, 0, old(input)); alive == o.alive && input == o.rest && output == old(output) + o.out
    {
      hide Packet, Sent, SentAll, Chunk, Underway, Copies, Replies, Acknowledged;
      if |payload| % BLOCK != 0 {
        return false;
      }
      var index := 0;
      ghost var k, n, naks: seq<nat> := 0, |payload| / BLOCK, [];
      assert |payload| == BLOCK * n;
      heard, said := [], [];
      Setout(payload, input, output);
      while index < |payload|
        invariant 0 <= k <= n && index == BLOCK * k && |input| <= |old(input)|
        invariant Underway(payload, k, naks, heard, said, old(input), input, old(output), output)
      {
        WholeBlocks(payload, k);
        ChunkIs(payload, k);
        var response := Packet((index / BLOCK + 1) % 256, payload[index..index + BLOCK]);
        ghost var c, was, out := 0, input, output;
        alive, c := Deliver(response);
        Onward(payload, k, naks, heard, said, old(input), was, old(output), out, Sent(response, was), c);
        if !alive {
          return;
        }
        heard, said := heard + Replies(c), said + Copies(response, c + 1);
        naks := naks + [c];
        index := index + BLOCK;
        k := k + 1;
      }
      ghost var c, was, out := 0, input, output;
      alive, c := Deliver([EOT]);
      Arrive(payload, k, naks, heard, said, old(input), was, old(output), out, Sent([EOT], was), c);
      if alive {
        heard, said := heard + Replies(c), said + Copies([EOT], c + 1);
      }
    }

    /** Choose file n, or none, and begin at its start. */
    method Select(n: Option<nat>)
      requires n.Some? ==> Known(n.value)
      modifies this`file, this`position, this`sequence, this`count, this`pending, this`committed
      ensures Valid() && Settled() && file == n && position == 0 && sequence == None && count == 0 && pending == None && committed == []
    {
      hide Acknowledged;
      file, position, sequence, count, pending := n, 0, None, 0, None;
      committed := [];
      assert n.Some? ==> Source(n.value)[..0] == [];
    }

    /** An open request: SOH, "S8", a version, a file number and a checksum. */
    method Open() returns (alive: bool)
      requires Valid() && Settled()
      modifies this
      ensures |input| <= |old(input)| && Valid() && Settled() && (alive <==> |old(input)| >= 5)
      ensures if alive && OpenOk(old(input)[..5]) && Known(old(input)[3])
              then file == Some(old(input)[3]) && Session() == Reading(0, None, 0, []) && version == old(input)[2] && output == old(output) + [ACK]
              else file == old(file) && Session() == old(Session()) && version == old(version) && (alive ==> output == old(output) + [CAN])
      ensures Turn(Here(), alive) == OnOpen(old(Here()))
    {
      hide OpenOk, Acknowledged;
      var ok, request := ReadExact(5);
      if !ok {
        return false;
      }
      var n := request[3];
      if !OpenOk(request) || !Known(n) {
        Put([CAN]);
        return true;
      }
      Select(Some(n));
      version := request[2];
      Put([ACK]);
      return true;
    }

    /** The pending answer, acknowledged in full, becomes committed. */
    method Commit()
      requires Valid() && Settled() && file.Some? && pending.Some?
      modifies this`position, this`committed, this`pending, this`sequence
      ensures Valid() && position == old(position) + |old(pending).value| && sequence == None && pending == None
      ensures committed == old(committed) + old(pending).value
    {
      hide Acknowledged;
      ghost var src := Source(file.value);
      assert src[..position] + pending.value == src[..position + |pending.value|];
      committed := committed + pending.value;
      position := position + |pending.value|;
      sequence, pending := None, None;
    }

    /** A new answer at the position. */
    method Prepare(n: nat, q: nat)
      requires Valid() && file.Some? && !Legacy() && sequence == None
      modifies this`sequence, this`count, this`pending
      ensures Valid() && sequence == Some(q) && count == n && pending == Some(Slice(Source(file.value), position, n))
    {
      hide Acknowledged;
      sequence, count := Some(q), n;
      pending := Some(Slice(Source(file.value), position, n));
    }

    /** The session after a numbered request, as Asked has it; the payload to answer with, or a refusal. */
    method Numbered(q: nat, n: nat) returns (payload: Option<seq<Byte>>)
      requires Valid() && Settled() && file.Some? && !Legacy()
      modifies this`position, this`committed, this`sequence, this`count, this`pending
      ensures Valid() && (Session(), payload) == Asked(old(Session()), Source(file.value), q, n)
      ensures payload.Some? ==> pending == payload
      ensures payload.None? ==> pending == old(pending)
    {
      hide Acknowledged, Slice;
      if sequence == None {
        Prepare(n, q);
        return pending;
      }
      if q == sequence.value {
        return if n == count then pending else None;
      }
      if q == (sequence.value + 1) % MODULUS {
        Commit();
        Prepare(n, q);
        return pending;
      }
      return None;
    }

    /** The answer to a numbered request that was received whole. */
    method Reply(q: nat, n: nat) returns (alive: bool)
      requires Valid() && Settled() && file.Some? && !Legacy()
      modifies this
      ensures Valid() && file == old(file) && version == old(version) && (alive ==> Settled()) && |input| <= |old(input)|
      ensures var (reading, answer) := Asked(old(Session()), Source(file.value), q, n);
        && Session() == reading
        && (answer.None? ==> alive && output == old(output) + [CAN] && input == old(input))
        && (answer.Some? && |answer.value| % BLOCK != 0 ==> !alive && output == old(output) && input == old(input))
        && (answer.Some? && |answer.value| % BLOCK == 0 ==>
              var o := SentAll(answer.value, 0, old(input)); alive == o.alive && input == o.rest && output == old(output) + o.out)
        && (alive && answer.Some? ==> pending == answer && old(input) == heard + input && output == old(output) + said)
    {
      hide SentAll, Acknowledged, Asked, Slice, InOrder;
      var payload := Numbered(q, n);
      if payload == None {
        Put([CAN]);
        return true;
      }
      alive := SendBlocks(payload.value);
    }

    /** The answer to a request without a number that was received whole. */
    method ReplyLegacy(n: nat) returns (alive: bool, ghost naks: nat)
      requires Valid() && Settled() && file.Some? && Legacy() && n < 65536
      modifies this
      ensures Valid() && Settled() && file == old(file) && version == old(version) && |input| <= |old(input)|
      ensures sequence == old(sequence) && count == old(count) && pending == old(pending)
      ensures var payload := Slice(Source(file.value), old(position), n);
        if payload == [] && file.value < 5 then alive && input == old(input) && output == old(output) + [EOT] && position == old(position)
        else
          var o := Sent(Frame(payload), old(input));
          && alive == o.alive && input == o.rest && output == old(output) + o.out
          && position == old(position) + (if alive then |payload| else 0)
          && (alive ==> old(input) == Replies(naks) + input && output == old(output) + Copies(Frame(payload), naks + 1))
    {
      hide Sent, Frame, Acknowledged, Copies, Replies;
      naks := 0;
      ghost var src := Source(file.value);
      var payload := Slice(Source(file.value), position, n);
      if payload == [] && file.value < 5 {
        Put([EOT]);
        return true, 0;
      }
      var frame := Frame(payload);
      alive, naks := Deliver(frame);
      if alive {
        committed := committed + frame[3..|frame| - 2];
        assert src[..position] + payload == src[..position + |payload|];
        position := position + |payload|;
      }
    }

    /** A numbered read: refuse it, or answer it and have every block acknowledged. */
    method ReadNumbered() returns (alive: bool)
      requires Valid() && Settled() && file.Some? && !Legacy()
      modifies this
      ensures |input| <= |old(input)| && Valid() && file == old(file)
      ensures alive ==> Settled()
      ensures |old(input)| >= 7 && NumberedOk(old(input)[..7]) && alive ==>
        var answer := Asked(old(Session()), Source(file.value), BigEndian(old(input)[..7][..4]), BigEndian(old(input)[..7][4..6])).1;
        answer.Some? ==> pending == answer && old(input)[7..] == heard + input && output == old(output) + said
      ensures Fits(old(Here())) && Turn(Here(), alive) == OnNumbered(old(Here()))
    {
      HereFits();
      hide Server.OnNumbered, Server.Fits, SentAll, BigEndian, NumberedOk, Acknowledged, Asked, Slice, InOrder, Server.Valid, Server.Settled;
      ghost var d := Here();
      var ok, request := Request(7);
      NumberedTurn(d, request, input);
      if !ok {
        return false;
      }
      var q, n := BigEndian(request[..4]), BigEndian(request[4..6]);
      if !NumberedOk(request) {
        Refuse();
        return true;
      }
      alive := Reply(q, n);
    }

    /** A read of protocol version 1: an acknowledged answer is committed at once. */
    method ReadLegacy() returns (alive: bool, ghost naks: nat)
      requires Valid() && Settled() && file.Some? && Legacy()
      modifies this
      ensures |input| <= |old(input)| && Valid() && Settled() && file == old(file)
      ensures |old(input)| >= 3 ==>
        var payload := Slice(Source(file.value), old(position), BigEndian(old(input)[..2]));
        position == old(position) + if alive && LegacyOk(old(input)[..3]) && !(payload == [] && file.value < 5) then |payload| else 0
      ensures |old(input)| < 3 ==> position == old(position) && !alive
      ensures position > old(position) ==>
        AckedFrame(Slice(Source(file.value), old(position), position - old(position)), old(input), input, old(output), output, naks)
      ensures Fits(old(Here())) && Turn(Here(), alive) == OnLegacy(old(Here()))
    {
      HereFits();
      hide Server.OnLegacy, Server.Fits, Sent, LegacyOk, Frame, BigEndian, Acknowledged, AckedFrame, Copies, Replies, InOrder;
      naks := 0;
      ghost var d := Here();
      var ok, request := ReadExact(3);
      LegacyTurn(d, request, input);
      if !ok {
        return false, 0;
      }
      var n := BigEndian(request[..2]);
      assert request[..2] == old(input)[..2];
      if !LegacyOk(request) {
        Put([CAN]);
        return true, 0;
      }
      ByteBound(request[..2]);
      alive, naks := ReplyLegacy(n);
      if position > old(position) {
        FrameAcked(Slice(Source(file.value), old(position), n), old(input), input, old(output), output, naks);
      }
    }

    /** Space forward over files: commits what is pending. */
    method SpaceForward() returns (alive: bool)
      requires Valid() && Settled()
      modifies this
      ensures |input| <= |old(input)| && Valid() && Settled() && (alive <==> |old(input)| >= 2)
      ensures if alive && old(file).Some? && SpaceOk(old(input)[..2]) && Known(old(file).value + old(input)[0])
              then file == Some(old(file).value + old(input)[0]) && Session() == Reading(0, None, 0, []) && output == old(output) + [ACK]
              else file == old(file) && Session() == old(Session()) && (alive ==> output == old(output) + [CAN])
      ensures Turn(Here(), alive) == OnSpace(old(Here()))
    {
      hide SpaceOk, Acknowledged, Slice, InOrder;
      var ok, request := ReadExact(2);
      if !ok {
        return false;
      }
      var n := request[0];
      if file == None || !SpaceOk(request) || !Known(file.value + n) {
        Put([CAN]);
        return true;
      }
      if pending.Some? {
        Commit();
      }
      Select(Some(file.value + n));
      Put([ACK]);
      return true;
    }

    /** The command loop, until the line ends or an unexpected reply stops it. */
    method Serve()
      requires Valid() && Settled()
      modifies this
      ensures Valid() && Fits(old(Here())) && Here() == Served(old(Here()))
    {
      hide Acknowledged, Server.OnOpen, Server.OnLegacy, Server.OnNumbered, Server.OnSpace, Server.Fits, InOrder, Asked;
      HereFits();
      while true
        invariant Valid() && Settled() && Fits(Here()) && Served(Here()) == Served(old(Here()))
        decreases |input|
      {
        ghost var d := Here();
        var ok, command := ReadExact(1);
        if !ok {
          return;
        }
        var alive := true;
        if command[0] == SOH {
          alive := Open();
        } else if command[0] == READ && file == None {
          Put([CAN]);
        } else if command[0] == READ && Legacy() {
          ghost var naks;
          alive, naks := ReadLegacy();
        } else if command[0] == READ {
          alive := ReadNumbered();
        } else if command[0] == SPACE {
          alive := SpaceForward();
        } else if command[0] == CAN {
          Select(None);
        }
        HereFits();
        if !alive {
          return;
        }
      }
    }
  }

  /** k blocks of a session have gone over the line. */
  ghost predicate Underway(payload: seq<Byte>, k: nat, naks: seq<nat>, heard: seq<Byte>, said: seq<Byte>,
                           in0: seq<Byte>, input: seq<Byte>, out0: seq<Byte>, output: seq<Byte>) {
    && |payload| % BLOCK == 0 && BLOCK * k <= |payload| && |naks| == k && heard == AllReplies(naks) && said == Said(payload, k, naks)
    && in0 == heard + input && output == out0 + said && Ahead(SentAll(payload, 0, in0), said, SentAll(payload, k, input))
  }

  lemma Setout(payload: seq<Byte>, input: seq<Byte>, output: seq<Byte>)
    requires |payload| % BLOCK == 0
    ensures Underway(payload, 0, [], [], [], input, input, output, output)
  {
    NothingSaid(payload);
    AheadNone(SentAll(payload, 0, input));
  }

  /** One block more: it is acknowledged and the session goes on, or it is not and the session ends as it should. */
  lemma Onward(payload: seq<Byte>, k: nat, naks: seq<nat>, heard: seq<Byte>, said: seq<Byte>, in0: seq<Byte>, input: seq<Byte>, out0: seq<Byte>, output: seq<Byte>, o: Sending, c: nat)
    requires Underway(payload, k, naks, heard, said, in0, input, out0, output) && BLOCK * (k + 1) <= |payload|
    requires o == Sent(Packet((k + 1) % 256, Chunk(payload, k)), input)
    requires o.alive ==> input == Replies(c) + o.rest && o.out == Copies(Packet((k + 1) % 256, Chunk(payload, k)), c + 1)
    ensures o.alive ==> Underway(payload, k + 1, naks + [c], heard + Replies(c), said + o.out, in0, o.rest, out0, output + o.out)
    ensures !o.alive ==> var w := SentAll(payload, 0, in0); !w.alive && w.rest == o.rest && output + o.out == out0 + w.out
  {
    hide Sent, Packet, Copies, Replies, Said, AllReplies, SentAll;
    NextBlock(payload, k, input);
    AheadEnd(SentAll(payload, 0, in0), said, SentAll(payload, k, input));
    if o.alive {
      ChunkIs(payload, k);
      SaidMore(payload, k, naks, c);
      AheadMore(SentAll(payload, 0, in0), said, SentAll(payload, k, input), o.out, SentAll(payload, k + 1, o.rest));
      assert heard + (Replies(c) + o.rest) == (heard + Replies(c)) + o.rest;
      assert (out0 + said) + o.out == out0 + (said + o.out);
    } else {
      assert (out0 + said) + o.out == out0 + (said + o.out);
    }
  }

  /** The end of transmission. */
  lemma Arrive(payload: seq<Byte>, k: nat, naks: seq<nat>, heard: seq<Byte>, said: seq<Byte>, in0: seq<Byte>, input: seq<Byte>, out0: seq<Byte>, output: seq<Byte>, o: Sending, c: nat)
    requires Underway(payload, k, naks, heard, said, in0, input, out0, output) && BLOCK * k == |payload| && o == Sent([EOT], input)
    requires o.alive ==> input == Replies(c) + o.rest && o.out == Copies([EOT], c + 1)
    ensures var w := SentAll(payload, 0, in0); w.alive == o.alive && w.rest == o.rest && output + o.out == out0 + w.out
    ensures o.alive ==> Acknowledged(payload, heard + Replies(c), said + o.out) && in0 == (heard + Replies(c)) + o.rest && output + o.out == out0 + (said + o.out)
  {
    hide Sent, Packet, Copies, Replies, Said, AllReplies, SentAll, Acknowledged;
    LastBlock(payload, k, input);
    AheadEnd(SentAll(payload, 0, in0), said, SentAll(payload, k, input));
    assert (out0 + said) + o.out == out0 + (said + o.out);
    if o.alive {
      SaidSame(payload, k, naks, c);
      SaidWith(payload, heard + Replies(c), said + o.out, naks + [c]);
      AllAcked(payload, heard + Replies(c), said + o.out, naks + [c]);
      assert heard + (Replies(c) + o.rest) == (heard + Replies(c)) + o.rest;
    }
  }

  /** The number is the one the session takes for what comes next. */
  predicate Next(r: Reading, q: nat) {
    match r.sequence case None => r.pending == [] case Some(last) => q == (last + 1) % MODULUS && q != last
  }

  lemma AskedNext(r: Reading, source: seq<Byte>, q: nat, n: nat)
    requires Next(r, q) && r.position + |r.pending| <= |source|
    ensures var at := r.position + |r.pending|;
      Asked(r, source, q, n) == (Reading(at, Some(q), n, Slice(source, at, n)), Some(Slice(source, at, n)))
  {
    hide Slice;
  }

  /** A numbered read request: the letter R, the number and the count, most significant byte first, and their checksum. */
  function Ask(q: nat, n: nat): (b: seq<Byte>)
    requires q < MODULUS && n < 65536
    ensures |b| == 8 && b[0] == 82 && b[1] as int * 0x100_0000 + b[2] as int * 0x1_0000 + b[3] as int * 256 + b[4] as int == q && b[5] as int * 256 + b[6] as int == n
  {
    var r: seq<Byte> := [82, q / 0x100_0000, q / 0x1_0000 % 256, q / 256 % 256, q % 256, n / 256, n % 256];
    assert q / 0x1_0000 == q / 256 / 256 && q / 0x100_0000 == q / 0x1_0000 / 256;
    r + [XorAll(r)]
  }

  lemma AskNotEmpty(q: nat, n: nat)
    requires q < MODULUS && n < 65536
    ensures Ask(q, n) != []
  {
    hide Ask;
  }

  lemma AskParts(q: nat, n: nat)
    requires q < MODULUS && n < 65536
    ensures var r := Ask(q, n)[1..]; |r| == 7 && NumberedOk(r) && BigEndian(r[..4]) == q && BigEndian(r[4..6]) == n
  {
    hide XorAll;
    var a := Ask(q, n);
    var r := a[1..];
    assert [READ] + r[..6] == a[..7];
    FourBytes(r[..4]);
    TwoBytes(r[4..6]);
  }

  lemma FourBytes(b: seq<Byte>)
    requires |b| == 4
    ensures BigEndian(b) == b[0] as int * 0x100_0000 + b[1] as int * 0x1_0000 + b[2] as int * 256 + b[3] as int
  {
    TwoBytes(b[..2]);
    assert b[..3][..2] == b[..2];
  }

  lemma TwoBytes(b: seq<Byte>)
    requires |b| == 2
    ensures BigEndian(b) == b[0] as int * 256 + b[1] as int
  {
    var a := b[..1];
    assert a[..0] == [] && a[0] == b[0];
    assert BigEndian(a) == b[0];
  }

  lemma OpenSum(r: seq<Byte>)
    requires |r| == 5
    ensures OpenOk(r) <==> r[0] == 83 && r[1] == 56 && (r[2] == 1 || r[2] == 3) && r[4] == Xor(Xor(Xor(Xor(1, r[0]), r[1]), r[2]), r[3])
  {
    hide Xor, XorAll;
    assert [1 as Byte] + r[..4] == [1, r[0], r[1], r[2], r[3]];
    XorFive(1, r[0], r[1], r[2], r[3]);
  }

  lemma XorMore(b: seq<Byte>, x: Byte)
    requires b != []
    ensures XorAll(b + [x]) == Xor(XorAll(b), x)
  {
    hide Xor;
    assert (b + [x])[..|b|] == b;
  }

  lemma XorFive(a: Byte, b: Byte, c: Byte, d: Byte, e: Byte)
    ensures XorAll([a, b, c, d, e]) == Xor(Xor(Xor(Xor(a, b), c), d), e)
  {
    hide Xor, XorAll;
    XorOne(a);
    XorMore([a], b);
    XorMore([a, b], c);
    XorMore([a, b, c], d);
    XorMore([a, b, c, d], e);
    assert [a] + [b] == [a, b] && [a, b] + [c] == [a, b, c] && [a, b, c] + [d] == [a, b, c, d] && [a, b, c, d] + [e] == [a, b, c, d, e];
  }

  lemma XorThree(a: Byte, b: Byte, c: Byte)
    ensures XorAll([a, b, c]) == Xor(Xor(a, b), c)
  {
    hide Xor, XorAll;
    XorOne(a);
    XorMore([a], b);
    XorMore([a, b], c);
    assert [a] + [b] == [a, b] && [a, b] + [c] == [a, b, c];
  }

  lemma XorOne(a: Byte)
    ensures XorAll([a]) == a
  {
  }

  /** The checksums are exclusive ors of bytes. */
  lemma XorIs(a: Byte, b: Byte)
    ensures Xor(a, b) as Crc.Octet == (a as Crc.Octet) ^ (b as Crc.Octet)
  {
  }

  function Acks(n: nat): (b: seq<Byte>)
    ensures |b| == n && forall i :: 0 <= i < n ==> b[i] == 6
  {
    seq(n, i => 6)
  }

  /** The first k packets of a payload. */
  function Packets(payload: seq<Byte>, k: nat): (b: seq<Byte>)
    requires BLOCK * k <= |payload|
  {
    if k == 0 then [] else Packets(payload, k - 1) + Packet(k % 256, Chunk(payload, k - 1))
  }

  lemma NoPackets(payload: seq<Byte>, out: seq<Byte>)
    ensures Packets(payload, 0) + out == out
  {
  }

  /** A line that acknowledges everything lets the packets through, each once. */
  lemma {:induction false} AckedAll(payload: seq<Byte>, k: nat, rest: seq<Byte>)
    requires |payload| % BLOCK == 0 && BLOCK * k <= |payload|
    ensures SentAll(payload, k, Acks(|payload| / BLOCK - k + 1) + rest).alive
    ensures SentAll(payload, k, Acks(|payload| / BLOCK - k + 1) + rest).rest == rest
    ensures Packets(payload, k) + SentAll(payload, k, Acks(|payload| / BLOCK - k + 1) + rest).out == Packets(payload, |payload| / BLOCK) + [EOT]
    decreases |payload| - BLOCK * k
  {
    hide Packet, Chunk;
    var n := |payload| / BLOCK;
    assert |payload| == BLOCK * n;
    var line := Acks(n - k + 1) + rest;
    assert line[1..] == Acks(n - k) + rest && line[0] == ACK;
    if k < n {
      NextBlock(payload, k, line);
      AckedAll(payload, k + 1, rest);
      var p := Packet((k + 1) % 256, Chunk(payload, k));
      assert Packets(payload, k + 1) == Packets(payload, k) + p;
      var t := SentAll(payload, k + 1, line[1..]);
      assert Packets(payload, k) + (p + t.out) == (Packets(payload, k) + p) + t.out;
    } else {
      LastBlock(payload, k, line);
      assert line[1..] == rest;
    }
  }

  /** The file and all the pieces asked for are whole blocks. */
  ghost predicate Whole(source: seq<Byte>, ns: seq<nat>) {
    |source| % BLOCK == 0 && forall i :: 0 <= i < |ns| ==> ns[i] < 65536 && ns[i] % BLOCK == 0
  }

  lemma SliceWhole(source: seq<Byte>, at: nat, n: nat)
    requires |source| % BLOCK == 0 && n % BLOCK == 0 && at % BLOCK == 0 && at <= |source|
    ensures |Slice(source, at, n)| % BLOCK == 0 && (at + |Slice(source, at, n)|) % BLOCK == 0
  {
  }

  /** What the reader sends. */
  function Dialogue(source: seq<Byte>, at: nat, q: nat, ns: seq<nat>): seq<Byte>
    requires at <= |source| && q < MODULUS && forall i :: 0 <= i < |ns| ==> ns[i] < 65536
    decreases |ns|
  {
    if ns == [] then []
    else
      var p := Slice(source, at, ns[0]);
      Ask(q, ns[0]) + Acks(|p| / BLOCK + 1) + Dialogue(source, at + |p|, (q + 1) % MODULUS, ns[1..])
  }

  /** What the server sends. */
  function Answers(source: seq<Byte>, at: nat, ns: seq<nat>): seq<Byte>
    requires at <= |source|
    decreases |ns|
  {
    if ns == [] then []
    else
      var p := Slice(source, at, ns[0]);
      Packets(p, |p| / BLOCK) + [4] + Answers(source, at + |p|, ns[1..])
  }

  lemma AnswersStep(source: seq<Byte>, at: nat, ns: seq<nat>, out: seq<Byte>)
    requires at <= |source|
    ensures ns == [] ==> out + Answers(source, at, ns) == out && Pieces(source, at, ns) == []
    ensures ns != [] ==>
      var p := Slice(source, at, ns[0]);
      && out + Answers(source, at, ns) == (out + Packets(p, |p| / BLOCK) + [4]) + Answers(source, at + |p|, ns[1..])
      && |Pieces(source, at, ns)| == |p| + |Pieces(source, at + |p|, ns[1..])|
  {
    hide Slice, Packets;
  }

  /** The pieces of the file that these carry. */
  function Pieces(source: seq<Byte>, at: nat, ns: seq<nat>): (b: seq<Byte>)
    requires at <= |source|
    decreases |ns|
  {
    if ns == [] then []
    else
      var p := Slice(source, at, ns[0]);
      p + Pieces(source, at + |p|, ns[1..])
  }

  /** Together they are the file from at on. */
  lemma {:induction false} PiecesAre(source: seq<Byte>, at: nat, ns: seq<nat>)
    requires at <= |source|
    ensures at + |Pieces(source, at, ns)| <= |source| && Pieces(source, at, ns) == source[at..at + |Pieces(source, at, ns)|]
    decreases |ns|
  {
    hide Slice;
    if ns != [] {
      var p := Slice(source, at, ns[0]);
      PiecesAre(source, at + |p|, ns[1..]);
      var rest := Pieces(source, at + |p|, ns[1..]);
      assert source[at..at + |p|] + source[at + |p|..at + |p| + |rest|] == source[at..at + |p| + |rest|];
    }
  }

  /** The whole is what has been said and what is still to be. */
  ghost predicate Ahead(whole: Sending, said: seq<Byte>, rest: Sending) {
    whole.alive == rest.alive && whole.rest == rest.rest && whole.out == said + rest.out
  }

  lemma AheadMore(whole: Sending, said: seq<Byte>, rest: Sending, more: seq<Byte>, rest': Sending)
    requires Ahead(whole, said, rest) && rest.alive == rest'.alive && rest.rest == rest'.rest && rest.out == more + rest'.out
    ensures Ahead(whole, said + more, rest')
  {
    assert said + (more + rest'.out) == (said + more) + rest'.out;
  }

  /** A packet has gone out so many times and been refused each time. */
  ghost predicate Tried(packet: seq<Byte>, naks: nat, in0: seq<Byte>, input: seq<Byte>, out0: seq<Byte>, output: seq<Byte>) {
    && in0 == Copies([NAK], naks) + input && output == out0 + Copies(packet, naks)
    && Ahead(Sent(packet, in0), Copies(packet, naks), Sent(packet, input))
  }

  lemma FirstTry(packet: seq<Byte>, input: seq<Byte>, output: seq<Byte>)
    ensures Tried(packet, 0, input, input, output, output)
  {
    NoCopies(packet, input, output, Sent(packet, input));
  }

  /** One time more. */
  lemma TriedOnce(packet: seq<Byte>, naks: nat, in0: seq<Byte>, input: seq<Byte>, out0: seq<Byte>, output: seq<Byte>)
    requires Tried(packet, naks, in0, input, out0, output)
    ensures var o := Sent(packet, in0);
      && output + packet == out0 + Copies(packet, naks + 1)
      && (input == [] ==> !o.alive && o.rest == [] && output + packet == out0 + o.out)
      && (input != [] && input[0] == ACK ==> o.alive && o.rest == input[1..] && o.out == Copies(packet, naks + 1) && in0 == Replies(naks) + input[1..])
      && (input != [] && input[0] == NAK ==> Tried(packet, naks + 1, in0, input[1..], out0, output + packet))
      && (input != [] && input[0] != ACK && input[0] != NAK ==> !o.alive && o.rest == input[1..] && output + packet == out0 + o.out)
  {
    hide Sent, Copies, Replies, Ahead;
    SentIs(packet, input);
    AheadEnd(Sent(packet, in0), Copies(packet, naks), Sent(packet, input));
    CopiesMore(packet, naks);
    assert (out0 + Copies(packet, naks)) + packet == out0 + (Copies(packet, naks) + packet);
    if input != [] {
      var now := input[1..];
      assert input == [input[0]] + now;
      if input[0] == ACK {
        TookAck(in0, naks, input, now);
      } else if input[0] == NAK {
        TookNak(in0, naks, input, now);
        AheadMore(Sent(packet, in0), Copies(packet, naks), Sent(packet, input), packet, Sent(packet, now));
      }
    }
  }

  lemma AheadEnd(whole: Sending, said: seq<Byte>, rest: Sending)
    requires Ahead(whole, said, rest)
    ensures whole == Sending(rest.alive, said + rest.out, rest.rest)
  {
  }

  lemma AheadNone(o: Sending)
    ensures Ahead(o, [], o)
  {
  }

  lemma NoCopies(b: seq<Byte>, input: seq<Byte>, output: seq<Byte>, o: Sending)
    ensures input == Copies([NAK], 0) + input && output == output + Copies(b, 0) && Ahead(o, Copies(b, 0), o)
  {
  }

  lemma CopiesMore(b: seq<Byte>, n: nat)
    ensures Copies(b, n + 1) == Copies(b, n) + b
  {
  }

  lemma TookNak(line: seq<Byte>, naks: nat, was: seq<Byte>, now: seq<Byte>)
    requires line == Copies([NAK], naks) + was && was == [NAK] + now
    ensures line == Copies([NAK], naks + 1) + now
  {
  }

  lemma TookAck(line: seq<Byte>, naks: nat, was: seq<Byte>, now: seq<Byte>)
    requires line == Copies([NAK], naks) + was && was == [ACK] + now
    ensures line == Replies(naks) + now
  {
  }

  lemma SentIs(packet: seq<Byte>, line: seq<Byte>)
    ensures line == [] ==> Sent(packet, line) == Sending(false, packet, [])
    ensures line != [] && line[0] == ACK ==> Sent(packet, line) == Sending(true, packet, line[1..])
    ensures line != [] && line[0] == NAK ==>
      var o := Sent(packet, line[1..]);
      Sent(packet, line) == Sending(o.alive, packet + o.out, o.rest)
    ensures line != [] && line[0] != ACK && line[0] != NAK ==> Sent(packet, line) == Sending(false, packet, line[1..])
  {
  }

  lemma ChunkIs(payload: seq<Byte>, k: nat)
    requires BLOCK * (k + 1) <= |payload|
    ensures Chunk(payload, k) == payload[BLOCK * k..BLOCK * k + BLOCK]
  {
  }

  lemma NextBlock(payload: seq<Byte>, k: nat, line: seq<Byte>)
    requires |payload| % BLOCK == 0 && BLOCK * k < |payload|
    ensures BLOCK * (k + 1) <= |payload|
    ensures var o := Sent(Packet((k + 1) % 256, Chunk(payload, k)), line);
      if !o.alive then SentAll(payload, k, line) == o
      else
        var t := SentAll(payload, k + 1, o.rest);
        SentAll(payload, k, line) == Sending(t.alive, o.out + t.out, t.rest)
  {
    hide Packet, Sent;
    WholeBlocks(payload, k);
  }

  lemma WholeBlocks(payload: seq<Byte>, k: nat)
    requires |payload| % BLOCK == 0 && BLOCK * k < |payload|
    ensures BLOCK * (k + 1) <= |payload|
  {
    var n := |payload| / BLOCK;
    assert |payload| == BLOCK * n;
  }

  lemma LastBlock(payload: seq<Byte>, k: nat, line: seq<Byte>)
    requires |payload| % BLOCK == 0 && BLOCK * k == |payload|
    ensures SentAll(payload, k, line) == Sent([EOT], line)
  {
    hide Packet, Sent;
  }

  lemma StartsInOrder(source: seq<Byte>)
    ensures InOrder(Reading(0, None, 0, []), source)
  {
  }

  lemma NothingSaid(payload: seq<Byte>)
    ensures AllReplies([]) == [] && Said(payload, 0, []) == []
  {
  }

  lemma AllAcked(payload: seq<Byte>, heard: seq<Byte>, said: seq<Byte>, naks: seq<nat>)
    requires AckedWith(payload, heard, said, naks)
    ensures Acknowledged(payload, heard, said)
  {
    hide Said, AllReplies, Copies;
  }

  lemma SaidWith(payload: seq<Byte>, heard: seq<Byte>, said: seq<Byte>, naks: seq<nat>)
    requires |payload| % BLOCK == 0 && |naks| == |payload| / BLOCK + 1 && heard == AllReplies(naks)
    requires said == Said(payload, |naks| - 1, naks) + Copies([EOT], naks[|naks| - 1] + 1)
    ensures AckedWith(payload, heard, said, naks)
  {
  }

  lemma SaidMore(payload: seq<Byte>, n: nat, naks: seq<nat>, c: nat)
    requires |naks| == n && BLOCK * (n + 1) <= |payload|
    ensures Said(payload, n + 1, naks + [c]) == Said(payload, n, naks) + Copies(Packet((n + 1) % 256, payload[BLOCK * n..BLOCK * (n + 1)]), c + 1)
    ensures AllReplies(naks + [c]) == AllReplies(naks) + Replies(c)
  {
    hide Packet, Copies, Replies;
    SaidSame(payload, n, naks, c);
  }

  lemma {:induction false} SaidSame(payload: seq<Byte>, n: nat, naks: seq<nat>, c: nat)
    requires n <= |naks| && BLOCK * n <= |payload|
    ensures Said(payload, n, naks + [c]) == Said(payload, n, naks)
    ensures AllReplies(naks + [c]) == AllReplies(naks) + Replies(c)
  {
    hide Packet, Copies, Replies;
    assert (naks + [c])[..|naks|] == naks;
    if n > 0 {
      SaidSame(payload, n - 1, naks, c);
    }
  }

  lemma ByteBound(b: seq<Byte>)
    requires |b| == 2
    ensures BigEndian(b) < 65536
  {
    assert BigEndian(b[..1]) == BigEndian(b[..1][..0]) * 256 + b[0];
  }
}
