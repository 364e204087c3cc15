/** The XMODEM session of serve_tape.py, in lock step with the receiver of xmodem_receive.inc and the drivers around it. */
module Xmodem {
  import opened Blocks
  import Crc

  const SOH: Byte := 1
  const EOT: Byte := 4
  const CAN: Byte := 0x18
  const BLOCK := 128
  const PACKET := 133

  /** The register after the data, byte by byte. */
  function CrcOf(data: seq<Byte>): Crc.Word {
    Crc.Serial(0, seq(|data|, i requires 0 <= i < |data| => data[i] as Crc.Octet), Crc.XMODEM)
  }

  lemma CrcMore(data: seq<Byte>, b: Byte)
    ensures CrcOf(data + [b]) == Crc.Feed(CrcOf(data), b as Crc.Octet, Crc.XMODEM)
  {
    hide Crc.Feed;
    var d := data + [b];
    var o := seq(|d|, i requires 0 <= i < |d| => d[i] as Crc.Octet);
    assert o[..|o| - 1] == seq(|data|, i requires 0 <= i < |data| => data[i] as Crc.Octet);
  }

  /** crc16_xmodem, high byte and low byte. */
  function CrcBytes(data: seq<Byte>): (b: (Byte, Byte)) {
    (Crc.Hi(CrcOf(data)) as Byte, Crc.Lo(CrcOf(data)) as Byte)
  }

  function Packet(number: Byte, data: seq<Byte>): (p: seq<Byte>)
    requires |data| == BLOCK
    ensures |p| == PACKET
  {
    [SOH, number, 255 - number] + data + [CrcBytes(data).0, CrcBytes(data).1]
  }

  /** A packet byte by byte: SOH, the number and its complement, the data, and the CRC with the high byte first. */
  lemma PacketBytes(number: Byte, data: seq<Byte>)
    requires |data| == BLOCK
    ensures var p := Packet(number, data);
      && p[0] == 1 && p[1] == number && p[1] as int + p[2] as int == 255 && p[3..131] == data
      && p[131] == ((CrcOf(data) >> 8) as Crc.Octet) as Byte && p[132] == ((CrcOf(data) & 0xFF) as Crc.Octet) as Byte
  {
    hide CrcOf;
    assert Packet(number, data)[3..131] == data;
  }

  /** What the receiver asks of a packet: its length, its number and complement, and its CRC. */
  predicate Sound(p: seq<Byte>) {
    && |p| == PACKET && p[0] == SOH && p[2] == 255 - p[1]
    && (p[BLOCK + 3], p[BLOCK + 4]) == CrcBytes(p[3..BLOCK + 3])
  }

  lemma PacketSound(number: Byte, data: seq<Byte>)
    requires |data| == BLOCK
    ensures var p := Packet(number, data);
      Sound(p) && p[0] == SOH && p[1] == number && p[3..BLOCK + 3] == data
  {
    hide CrcBytes;
    var p := Packet(number, data);
    assert p[3..BLOCK + 3] == data;
  }

  /** Consecutive bad packets that the receiver answers; at the next one it gives up. */
  const PATIENCE := 10

  datatype Phase = Listening | Returned | Failed
  datatype Reply = Ack | Nak | Silent

  /**
   The receiver: the block number it waits for (rh2), the bytes stored from the destination on (up to r5), the room
   left (r4), the bad packets since the last good one (rh3), and whether the call has returned or failed.
   */
  datatype Receiver = Receiver(expected: nat, got: seq<Byte>, room: nat, bad: nat, phase: Phase)

  function Begin(count: nat): Receiver {
    Receiver(1, [], count, 0, Listening)
  }

  /** The bytes that the copy loop stores of what poses as the awaited block, before anything is known of its CRC. */
  function Copied(r: Receiver, p: seq<Byte>): (c: seq<Byte>) {
    if |p| >= 3 && p[0] == SOH && p[1] == r.expected && p[2] == 255 - p[1] && r.room >= BLOCK
    then if |p| >= BLOCK + 3 then p[3..BLOCK + 3] else p[3..]
    else []
  }

  /** The .Lbad of the driver.  One driver sets the destination again for each packet (rewinds); the other leaves it where the copy loop stopped. */
  function Bad(rewinds: bool, r: Receiver, copied: seq<Byte>): (o: (Receiver, Reply)) {
    var r' := r.(got := if rewinds then r.got else r.got + copied, bad := r.bad + 1);
    if r'.bad > PATIENCE then (r'.(phase := Failed), Silent) else (r', Nak)
  }

  /** What the receiver makes of the bytes that come before a pause. */
  function Listen(rewinds: bool, r: Receiver, p: seq<Byte>): (o: (Receiver, Reply)) {
    if !r.phase.Listening? then (r, Silent)
    else if p != [] && p[0] == EOT then (r.(phase := Returned), Ack)
    else if p != [] && p[0] == CAN then (r.(phase := Failed), Silent)
    else if Sound(p) && p[1] == r.expected && r.room >= BLOCK
    then (Receiver((r.expected + 1) % 256, r.got + p[3..BLOCK + 3], r.room - BLOCK, 0, Listening), Ack)
    else if Sound(p) && p[1] != r.expected && (p[1] as int + 1) % 256 == r.expected then (r.(bad := 0), Ack)
    else Bad(rewinds, r, Copied(r, p))
  }

  /** Bytes that do not begin with a whole sound packet. */
  predicate Broken(p: seq<Byte>) {
    |p| < PACKET || !Sound(p[..PACKET])
  }

  lemma BrokenNotSound(p: seq<Byte>)
    requires Broken(p)
    ensures !Sound(p)
  {
    hide CrcBytes;
    if |p| == PACKET {
      assert p[..PACKET] == p;
    }
  }

  lemma CrcNone()
    ensures CrcOf([]) == 0
  {
  }

  /** The copy loop, or the loop that only checks a packet seen before. */
  method Copy(p: seq<Byte>, awaited: bool) returns (crc: Crc.Word, copied: seq<Byte>, k: nat)
    requires |p| >= 3
    ensures k == (if |p| >= BLOCK + 3 then BLOCK else |p| - 3) && crc == CrcOf(p[3..3 + k]) && copied == if awaited then p[3..3 + k] else []
  {
    hide CrcOf, Crc.Feed;
    CrcNone();
    assert p[3..3] == [];
    crc, copied, k := 0, [], 0;
    while k < BLOCK && 3 + k < |p|
      invariant 0 <= k <= BLOCK && 3 + k <= |p| && crc == CrcOf(p[3..3 + k]) && copied == if awaited then p[3..3 + k] else []
    {
      CrcMore(p[3..3 + k], p[3 + k]);
      assert p[3..3 + k] + [p[3 + k]] == p[3..3 + k + 1];
      crc := Crc.Feed(crc, p[3 + k] as Crc.Octet, Crc.XMODEM);
      if awaited {
        copied := copied + [p[3 + k]];
      }
      k := k + 1;
    }
  }

  /** A packet whose header is right is sound exactly if its CRC is. */
  lemma SoundIs(p: seq<Byte>, crc: Crc.Word)
    requires |p| >= 3 && p[0] == SOH && p[2] == 255 - p[1] && (|p| == PACKET || Broken(p)) && (|p| >= PACKET ==> crc == CrcOf(p[3..BLOCK + 3]))
    ensures Sound(p) <==> |p| >= PACKET && p[BLOCK + 3] == Crc.Hi(crc) as Byte && p[BLOCK + 4] == Crc.Lo(crc) as Byte
  {
    hide CrcOf, Crc.Hi, Crc.Lo;
    if |p| >= PACKET {
      assert p[..PACKET][3..BLOCK + 3] == p[3..BLOCK + 3];
      if |p| == PACKET {
        assert p[..PACKET] == p;
      }
    }
  }

  /** The receive core, byte by byte; nothing follows a sound packet before it is answered. */
  method Hearing(rewinds: bool, r: Receiver, p: seq<Byte>) returns (r': Receiver, reply: Reply)
    requires r.phase.Listening? && (|p| == PACKET || Broken(p)) && r.expected < 256
    ensures (r', reply) == Listen(rewinds, r, p)
  {
    hide CrcOf, Crc.Hi, Crc.Lo, Sound;
    if p == [] {
      SoundHeader(p);
      return Bad(rewinds, r, []).0, Bad(rewinds, r, []).1;
    }
    if p[0] == EOT {
      return r.(phase := Returned), Ack;
    }
    if p[0] == CAN {
      return r.(phase := Failed), Silent;
    }
    if p[0] != SOH || |p| < 3 || p[2] != 255 - p[1] {
      SoundHeader(p);
      return Bad(rewinds, r, []).0, Bad(rewinds, r, []).1;
    }
    var awaited := p[1] == r.expected;
    if (if awaited then r.room < BLOCK else (p[1] as int + 1) % 256 != r.expected) {
      return Bad(rewinds, r, []).0, Bad(rewinds, r, []).1;
    }
    var crc, copied, k := Copy(p, awaited);
    assert copied == Copied(r, p) by { assert 3 + k < BLOCK + 3 ==> p[3..3 + k] == p[3..]; }
    SoundIs(p, crc);
    if k < BLOCK || |p| < PACKET || p[BLOCK + 3] != Crc.Hi(crc) as Byte || p[BLOCK + 4] != Crc.Lo(crc) as Byte {
      return Bad(rewinds, r, copied).0, Bad(rewinds, r, copied).1;
    }
    reply := Ack;
    r' := if awaited then Receiver((r.expected + 1) % 256, r.got + copied, r.room - BLOCK, 0, Listening) else r.(bad := 0);
  }

  lemma SoundHeader(p: seq<Byte>)
    ensures Sound(p) ==> |p| == PACKET && p[0] == SOH && p[2] == 255 - p[1]
  {
  }

  /** What happens to one message and the answer to it: both arrive; the message arrives damaged; or the answer arrives as NAK. */
  datatype Fate = Clean | Damaged(bytes: seq<Byte>) | Refused

  ghost predicate Fates(f: seq<Fate>) {
    forall i :: 0 <= i < |f| && f[i].Damaged? ==> Broken(f[i].bytes)
  }

  /** One message and the answer that the sender gets. */
  function Hear(rewinds: bool, r: Receiver, p: seq<Byte>, f: Fate): (o: (Receiver, Reply)) {
    match f
    case Clean => Listen(rewinds, r, p)
    case Damaged(bytes) => Listen(rewinds, r, bytes)
    case Refused => var o := Listen(rewinds, r, p); (o.0, if o.1 == Ack then Nak else o.1)
  }

  /** What is left of the mishaps after the first. */
  function Rest(f: seq<Fate>): (g: seq<Fate>)
    ensures f != [] ==> |g| < |f|
  {
    if f == [] then [] else f[1..]
  }

  function First(f: seq<Fate>): Fate {
    if f == [] then Clean else f[0]
  }

  lemma RestFates(f: seq<Fate>)
    requires Fates(f)
    ensures Fates(Rest(f)) && (First(f).Damaged? ==> Broken(First(f).bytes))
  {
    hide Broken;
  }

  predicate Starts(b: seq<Byte>, c: Byte) {
    b != [] && b[0] == c
  }

  /**
   The mishaps end the session early, with k of n blocks acknowledged and the next one stored unacknowledged or not:
   more bad packets in a row than the receiver bears, or damage that begins with CAN, or with EOT before all is there.
   */
  predicate Breaks(f: seq<Fate>, bad: nat, k: nat, has: bool, n: nat) {
    f != [] &&
    match f[0]
    case Clean => k < n && Breaks(f[1..], 0, k + 1, false, n)
    case Refused => k < n && Breaks(f[1..], 0, k, true, n)
    case Damaged(b) =>
      if Starts(b, EOT) then k + Stored(has) < n
      else Starts(b, CAN) || bad + 1 > PATIENCE || Breaks(f[1..], bad + 1, k, has, n)
  }

  function Stored(has: bool): nat {
    if has then 1 else 0
  }

  /** The receiver's registers when k blocks are acknowledged. */
  function Expected(k: nat, has: bool): nat {
    (k + 1 + Stored(has)) % 256
  }

  function RoomLeft(count: nat, k: nat, has: bool): int {
    count - BLOCK * (k + Stored(has))
  }

  /** Damage that begins like the awaited block and goes on, so that the copy loop stores some of it. */
  predicate Poses(b: seq<Byte>, expected: nat, room: int) {
    |b| > 3 && b[0] == SOH && b[1] == expected && b[2] == 255 - b[1] && room >= BLOCK
  }

  /** Some damage in the session poses as the awaited block. */
  predicate Strays(f: seq<Fate>, k: nat, has: bool, n: nat, count: nat) {
    f != [] &&
    match f[0]
    case Clean => k < n && Strays(f[1..], k + 1, false, n, count)
    case Refused => k < n && Strays(f[1..], k, true, n, count)
    case Damaged(b) =>
      && !Starts(b, EOT) && !Starts(b, CAN)
      && (Poses(b, Expected(k, has), RoomLeft(count, k, has)) || Strays(f[1..], k, has, n, count))
  }

  /** A listening receiver in step with the sender; strayed says that it has stored some damage. */
  ghost predicate InStep(rewinds: bool, r: Receiver, payload: seq<Byte>, k: nat, has: bool, count: nat, strayed: bool) {
    && BLOCK * (k + Stored(has)) <= |payload| <= count
    && r.phase == Listening && r.expected == Expected(k, has) && r.room == RoomLeft(count, k, has)
    && |r.got| >= BLOCK * (k + Stored(has))
    && if rewinds || !strayed then r.got == payload[..BLOCK * (k + Stored(has))] else |r.got| > BLOCK * (k + Stored(has))
  }

  function Chunk(payload: seq<Byte>, k: nat): (c: seq<Byte>)
    requires BLOCK * (k + 1) <= |payload|
    ensures |c| == BLOCK
  {
    payload[BLOCK * k..BLOCK * (k + 1)]
  }

  lemma Numbers(k: nat)
    ensures Expected(k, false) == (k + 1) % 256 != Expected(k, true) == Expected(k + 1, false) == ((k + 1) % 256 + 1) % 256
  {
  }

  /** A packet that arrives: stored if awaited, acknowledged again if just stored. */
  lemma Arrives(rewinds: bool, r: Receiver, payload: seq<Byte>, k: nat, has: bool, count: nat, strayed: bool)
    requires InStep(rewinds, r, payload, k, has, count, strayed) && BLOCK * (k + 1) <= |payload|
    ensures var (r', reply) := Listen(rewinds, r, Packet((k + 1) % 256, Chunk(payload, k)));
      reply == Ack && InStep(rewinds, r', payload, k + 1, false, count, strayed) && r'.bad == 0 && InStep(rewinds, r', payload, k, true, count, strayed)
  {
    hide Sound, Packet, Expected;
    Numbers(k);
    PacketSound((k + 1) % 256, Chunk(payload, k));
    assert payload[..BLOCK * k] + Chunk(payload, k) == payload[..BLOCK * (k + 1)];
  }

  /** Damage, of a kind that the receiver survives. */
  lemma Survives(rewinds: bool, r: Receiver, payload: seq<Byte>, k: nat, has: bool, count: nat, strayed: bool, b: seq<Byte>)
    requires InStep(rewinds, r, payload, k, has, count, strayed) && Broken(b) && !Starts(b, EOT) && !Starts(b, CAN)
    ensures var (r', reply) := Listen(rewinds, r, b);
      && r'.bad == r.bad + 1
      && if r'.bad > PATIENCE then reply == Silent && r'.phase == Failed
         else reply == Nak && InStep(rewinds, r', payload, k, has, count, strayed || Poses(b, Expected(k, has), RoomLeft(count, k, has)))
  {
    hide Sound;
    BrokenNotSound(b);
  }

  /** The receiver has returned, and says that it has the payload. */
  ghost predicate Complete(r: Receiver, payload: seq<Byte>, count: nat) {
    r.phase == Returned && r.room + |payload| == count
  }

  /** How a session ended: complete unless the mishaps broke it, and then with the payload unless damage has strayed in. */
  ghost predicate Ended(rewinds: bool, r: Receiver, payload: seq<Byte>, count: nat, breaks: bool, strays: bool) {
    && !r.phase.Listening? && (Complete(r, payload, count) <==> !breaks)
    && (!breaks ==> (r.got == payload <==> rewinds || !strays))
  }

  /** The sender repeats a block until it is acknowledged, or waits for ever when the receiver is gone. */
  method SendBlock(rewinds: bool, r0: Receiver, payload: seq<Byte>, k: nat, count: nat, fates0: seq<Fate>, ghost strayed0: bool)
    returns (r: Receiver, fates: seq<Fate>, ghost strayed: bool)
    requires |payload| % BLOCK == 0 && BLOCK * (k + 1) <= |payload| && InStep(rewinds, r0, payload, k, false, count, strayed0) && Fates(fates0)
    ensures var n := |payload| / BLOCK;
      if r.phase.Listening?
      then
        && InStep(rewinds, r, payload, k + 1, false, count, strayed) && r.bad == 0 && Fates(fates)
        && (Breaks(fates, 0, k + 1, false, n) <==> Breaks(fates0, r0.bad, k, false, n))
        && (strayed || Strays(fates, k + 1, false, n, count) <==> strayed0 || Strays(fates0, k, false, n, count))
      else Ended(rewinds, r, payload, count, Breaks(fates0, r0.bad, k, false, n), strayed0 || Strays(fates0, k, false, n, count))
  {
    hide Sound, Packet, Fates, Listen, Broken, Poses;
    ghost var n, has := |payload| / BLOCK, false;
    var p := Packet((k + 1) % 256, Chunk(payload, k));
    r, fates, strayed := r0, fates0, strayed0;
    while true
      invariant Fates(fates) && InStep(rewinds, r, payload, k, has, count, strayed)
      invariant Breaks(fates, r.bad, k, has, n) <==> Breaks(fates0, r0.bad, k, false, n)
      invariant strayed || Strays(fates, k, has, n, count) <==> strayed0 || Strays(fates0, k, false, n, count)
      decreases |fates|, 1
    {
      RestFates(fates);
      var f := First(fates);
      Arrives(rewinds, r, payload, k, has, count, strayed);
      if f.Damaged? {
        if Starts(f.bytes, EOT) || Starts(f.bytes, CAN) {
          Cut(rewinds, r, payload, k, has, count, strayed, f.bytes);
        } else {
          Survives(rewinds, r, payload, k, has, count, strayed, f.bytes);
        }
      }
      var o := Hear(rewinds, r, p, f);
      match f {
        case Clean =>
        case Refused => has := true;
        case Damaged(b) => strayed := strayed || Poses(b, Expected(k, has), RoomLeft(count, k, has));
      }
      r, fates := o.0, Rest(fates);
      if o.1 == Ack || !r.phase.Listening? {
        return;
      }
    }
  }

  /** Damage that the receiver takes for the end, or for a cancellation. */
  lemma Cut(rewinds: bool, r: Receiver, payload: seq<Byte>, k: nat, has: bool, count: nat, strayed: bool, b: seq<Byte>)
    requires InStep(rewinds, r, payload, k, has, count, strayed) && (Starts(b, EOT) || Starts(b, CAN)) && |payload| % BLOCK == 0
    ensures Ended(rewinds, Listen(rewinds, r, b).0, payload, count, Starts(b, CAN) || k + Stored(has) < |payload| / BLOCK, strayed)
  {
    hide Sound;
    var n := |payload| / BLOCK;
    assert |payload| == BLOCK * n;
    assert payload[..|payload|] == payload;
  }

  /** End of transmission, until it is acknowledged or the receiver is gone. */
  method SendEot(rewinds: bool, r0: Receiver, payload: seq<Byte>, count: nat, fates0: seq<Fate>, ghost strayed0: bool) returns (r: Receiver)
    requires |payload| % BLOCK == 0 && InStep(rewinds, r0, payload, |payload| / BLOCK, false, count, strayed0) && Fates(fates0)
    ensures var n := |payload| / BLOCK;
      Ended(rewinds, r, payload, count, Breaks(fates0, r0.bad, n, false, n), strayed0 || Strays(fates0, n, false, n, count))
  {
    hide Sound, Fates, Listen, Broken, Poses;
    ghost var n, strayed := |payload| / BLOCK, strayed0;
    r := r0;
    var fates := fates0;
    while true
      invariant Fates(fates) && InStep(rewinds, r, payload, n, false, count, strayed)
      invariant Breaks(fates, r.bad, n, false, n) <==> Breaks(fates0, r0.bad, n, false, n)
      invariant strayed || Strays(fates, n, false, n, count) <==> strayed0 || Strays(fates0, n, false, n, count)
      decreases |fates|, 1
    {
      RestFates(fates);
      var f := First(fates);
      Cut(rewinds, r, payload, n, false, count, strayed, [EOT]);
      if f.Damaged? {
        if Starts(f.bytes, EOT) || Starts(f.bytes, CAN) {
          Cut(rewinds, r, payload, n, false, count, strayed, f.bytes);
        } else {
          Survives(rewinds, r, payload, n, false, count, strayed, f.bytes);
          strayed := strayed || Poses(f.bytes, Expected(n, false), RoomLeft(count, n, false));
        }
      }
      var o := Hear(rewinds, r, [EOT], f);
      r, fates := o.0, Rest(fates);
      if !r.phase.Listening? {
        return;
      }
    }
  }

  /**
   For every payload of whole blocks that was asked for, and every finite list of mishaps: the receiver returns the
   payload's length if and only if the mishaps do not break the session; and then the driver that sets the
   destination again has stored exactly the payload, and the one that does not if and only if no damage posed as the
   awaited block.
   */
  method Session(rewinds: bool, payload: seq<Byte>, count: nat, fates0: seq<Fate>) returns (r: Receiver)
    requires |payload| % BLOCK == 0 && |payload| <= count && Fates(fates0)
    ensures var n := |payload| / BLOCK;
      && (Complete(r, payload, count) <==> !Breaks(fates0, 0, 0, false, n))
      && (Complete(r, payload, count) ==> (r.got == payload <==> rewinds || !Strays(fates0, 0, false, n, count)))
  {
    hide Fates, Breaks, Strays, InStep;
    r := Begin(count);
    InStepFirst(rewinds, payload, count);
    var fates := fates0;
    var index := 0;
    ghost var k, n, strayed := 0, |payload| / BLOCK, false;
    assert |payload| == BLOCK * n;
    while index < |payload|
      invariant 0 <= k <= n && index == BLOCK * k && Fates(fates) && InStep(rewinds, r, payload, k, false, count, strayed) && r.bad == 0
      invariant Breaks(fates, 0, k, false, n) <==> Breaks(fates0, 0, 0, false, n)
      invariant strayed || Strays(fates, k, false, n, count) <==> Strays(fates0, 0, false, n, count)
    {
      r, fates, strayed := SendBlock(rewinds, r, payload, index / BLOCK, count, fates, strayed);
      if !r.phase.Listening? {
        return;
      }
      index := index + BLOCK;
      k := k + 1;
    }
    r := SendEot(rewinds, r, payload, count, fates, strayed);
  }

  lemma InStepFirst(rewinds: bool, payload: seq<Byte>, count: nat)
    requires |payload| <= count
    ensures InStep(rewinds, Begin(count), payload, 0, false, count, false)
  {
  }

  /** One short burst that poses as block 1, and then the block: in the driver that does not rewind, everything is one byte off. */
  lemma StrayFirst(payload: seq<Byte>)
    requires |payload| == BLOCK && payload[0] != 0
    ensures var f := Damaged([SOH, 1, 254, 0]);
      var r := Hear(false, Hear(false, Begin(BLOCK), Packet(1, payload), f).0, Packet(1, payload), Clean).0;
      && Fates([f]) && !Breaks([f], 0, 0, false, 1) && Strays([f], 0, false, 1, BLOCK)
      && Complete(Hear(false, r, [EOT], Clean).0, payload, BLOCK) && r.got == [0] + payload && r.got[..BLOCK] != payload
  {
    hide Packet, Sound;
    var b := [SOH, 1, 254, 0];
    BrokenNotSound(b);
    PacketSound(1, payload);
    assert b[3..] == [0];
    assert ([0] + payload)[..BLOCK][0] == 0;
  }

  /** The answers to several sendings of one message. */
  function HearAll(rewinds: bool, r: Receiver, p: seq<Byte>, f: seq<Fate>): (o: (Receiver, seq<Reply>))
    ensures |o.1| == |f|
  {
    if f == [] then (r, [])
    else
      var o := HearAll(rewinds, r, p, f[..|f| - 1]);
      var h := Hear(rewinds, o.0, p, f[|f| - 1]);
      (h.0, o.1 + [h.1])
  }

  /** So many refusals and then an acknowledgement. */
  function Pattern(naks: nat): (a: seq<Reply>)
    ensures |a| == naks + 1
  {
    seq(naks, i => Nak) + [Ack]
  }

  lemma PatternLast(naks: nat)
    ensures Pattern(naks)[naks] == Ack
  {
  }

  /** A receiver that has returned or failed says and stores nothing more. */
  lemma {:induction false} GoneDeaf(rewinds: bool, r: Receiver, p: seq<Byte>, f: seq<Fate>)
    requires !r.phase.Listening?
    ensures HearAll(rewinds, r, p, f).0 == r && forall i :: 0 <= i < |f| ==> HearAll(rewinds, r, p, f).1[i] == Silent
    decreases |f|
  {
    hide Sound;
    if f != [] {
      GoneDeaf(rewinds, r, p, f[..|f| - 1]);
    }
  }

  /** What a listening receiver has after k blocks: at least their bytes, and just those if it has no more. */
  ghost predicate Has(rewinds: bool, r: Receiver, payload: seq<Byte>, k: nat, has: bool, count: nat) {
    exists strayed: bool :: InStep(rewinds, r, payload, k, has, count, strayed)
  }

  /** Sendings of block k that leave the receiver listening leave it in step. */
  lemma {:induction false} StillInStep(rewinds: bool, r: Receiver, payload: seq<Byte>, k: nat, count: nat, f: seq<Fate>, acks: seq<Reply>) returns (has: bool)
    requires BLOCK * (k + 1) <= |payload| && Has(rewinds, r, payload, k, false, count) && Fates(f)
    requires HearAll(rewinds, r, Packet((k + 1) % 256, Chunk(payload, k)), f) == (HearAll(rewinds, r, Packet((k + 1) % 256, Chunk(payload, k)), f).0, acks)
    requires HearAll(rewinds, r, Packet((k + 1) % 256, Chunk(payload, k)), f).0.phase.Listening? && Ack !in acks
    ensures Has(rewinds, HearAll(rewinds, r, Packet((k + 1) % 256, Chunk(payload, k)), f).0, payload, k, has, count)
    decreases |f|
  {
    hide Sound, Packet, Listen, Broken, InStep, Poses;
    var p := Packet((k + 1) % 256, Chunk(payload, k));
    if f == [] {
      return false;
    }
    var g, last := f[..|f| - 1], f[|f| - 1];
    var q := HearAll(rewinds, r, p, g);
    assert acks == q.1 + [Hear(rewinds, q.0, p, last).1];
    StaysDeaf(rewinds, q.0, p, last);
    has := StillInStep(rewinds, r, payload, k, count, g, q.1);
    var strayed: bool :| InStep(rewinds, q.0, payload, k, has, count, strayed);
    Arrives(rewinds, q.0, payload, k, has, count, strayed);
    match last {
      case Clean =>
      case Refused => has := true;
      case Damaged(b) =>
        Listened(rewinds, q.0, b);
        Survives(rewinds, q.0, payload, k, has, count, strayed, b);
    }
  }

  lemma StaysDeaf(rewinds: bool, r: Receiver, p: seq<Byte>, f: Fate)
    requires Hear(rewinds, r, p, f).0.phase.Listening? || Hear(rewinds, r, p, f).1 != Silent
    ensures r.phase.Listening?
  {
    hide Sound;
  }

  /** Damage after which the receiver still listens was taken neither for the end nor for a cancellation. */
  lemma Listened(rewinds: bool, r: Receiver, b: seq<Byte>)
    requires Listen(rewinds, r, b).0.phase.Listening?
    ensures !Starts(b, EOT) && !Starts(b, CAN)
  {
    hide Sound;
  }

  lemma NotAcked(rewinds: bool, r: Receiver, b: seq<Byte>)
    requires Broken(b) && Listen(rewinds, r, b).0.phase.Listening?
    ensures Listen(rewinds, r, b).1 != Ack
  {
    hide Sound;
    BrokenNotSound(b);
  }

  /** A block whose last sending is the first one acknowledged, with the receiver still listening, has been stored once. */
  lemma BlockHeard(rewinds: bool, r: Receiver, payload: seq<Byte>, k: nat, count: nat, f: seq<Fate>, naks: nat)
    requires BLOCK * (k + 1) <= |payload| && Has(rewinds, r, payload, k, false, count) && Fates(f) && |f| == naks + 1
    requires HearAll(rewinds, r, Packet((k + 1) % 256, Chunk(payload, k)), f).1 == Pattern(naks)
    requires HearAll(rewinds, r, Packet((k + 1) % 256, Chunk(payload, k)), f).0.phase.Listening?
    ensures Has(rewinds, HearAll(rewinds, r, Packet((k + 1) % 256, Chunk(payload, k)), f).0, payload, k + 1, false, count)
  {
    hide Sound, Packet, Listen, Broken, InStep;
    var p, g, last := Packet((k + 1) % 256, Chunk(payload, k)), f[..naks], f[naks];
    var q := HearAll(rewinds, r, p, g);
    assert q.1 + [Hear(rewinds, q.0, p, last).1] == Pattern(naks);
    assert q.1 == seq(naks, i => Nak);
    StaysDeaf(rewinds, q.0, p, last);
    var has := StillInStep(rewinds, r, payload, k, count, g, q.1);
    var strayed: bool :| InStep(rewinds, q.0, payload, k, has, count, strayed);
    Arrives(rewinds, q.0, payload, k, has, count, strayed);
    if last.Damaged? {
      NotAcked(rewinds, q.0, last.bytes);
    }
  }

  /** The receiver after n blocks of a payload, block k sent once for each of fates[k]. */
  function HeardBlocks(rewinds: bool, payload: seq<Byte>, n: nat, count: nat, fates: seq<seq<Fate>>): Receiver
    requires n <= |fates| && BLOCK * n <= |payload|
  {
    if n == 0 then Begin(count)
    else HearAll(rewinds, HeardBlocks(rewinds, payload, n - 1, count, fates), Packet(n % 256, Chunk(payload, n - 1)), fates[n - 1]).0
  }

  /** The sender's view of a session: block k was refused naks[k] times and then acknowledged. */
  ghost predicate Consistent(rewinds: bool, payload: seq<Byte>, n: nat, count: nat, fates: seq<seq<Fate>>, naks: seq<nat>) {
    && n <= |fates| && n <= |naks| && BLOCK * n <= |payload| <= count
    && forall k :: 0 <= k < n ==> Fates(fates[k]) && |fates[k]| == naks[k] + 1 && AckedAs(rewinds, payload, k, count, fates, naks)
  }

  ghost predicate AckedAs(rewinds: bool, payload: seq<Byte>, k: nat, count: nat, fates: seq<seq<Fate>>, naks: seq<nat>)
    requires k < |fates| && k < |naks| && BLOCK * (k + 1) <= |payload|
  {
    HearAll(rewinds, HeardBlocks(rewinds, payload, k, count, fates), Packet((k + 1) % 256, Chunk(payload, k)), fates[k]).1 == Pattern(naks[k])
  }

  /** Whatever the line did, a receiver that listens after n acknowledged blocks is in step. */
  lemma {:induction false} Delivered(rewinds: bool, payload: seq<Byte>, n: nat, count: nat, fates: seq<seq<Fate>>, naks: seq<nat>)
    requires Consistent(rewinds, payload, n, count, fates, naks) && HeardBlocks(rewinds, payload, n, count, fates).phase.Listening?
    ensures Has(rewinds, HeardBlocks(rewinds, payload, n, count, fates), payload, n, false, count)
  {
    hide Fates, Packet, InStep, Chunk, AckedAs, HearAll;
    if n == 0 {
      InStepFirst(rewinds, payload, count);
    } else {
      hide Has;
      var r := HeardBlocks(rewinds, payload, n - 1, count, fates);
      if !r.phase.Listening? {
        GoneDeaf(rewinds, r, Packet(n % 256, Chunk(payload, n - 1)), fates[n - 1]);
      }
      Delivered(rewinds, payload, n - 1, count, fates, naks);
      NextHeard(rewinds, payload, n - 1, count, fates, naks);
    }
  }

  lemma NextHeard(rewinds: bool, payload: seq<Byte>, k: nat, count: nat, fates: seq<seq<Fate>>, naks: seq<nat>)
    requires k < |fates| && k < |naks| && BLOCK * (k + 1) <= |payload| && AckedAs(rewinds, payload, k, count, fates, naks)
    requires Fates(fates[k]) && |fates[k]| == naks[k] + 1 && Has(rewinds, HeardBlocks(rewinds, payload, k, count, fates), payload, k, false, count)
    requires HeardBlocks(rewinds, payload, k + 1, count, fates).phase.Listening?
    ensures Has(rewinds, HeardBlocks(rewinds, payload, k + 1, count, fates), payload, k + 1, false, count)
  {
    hide Fates, Packet, InStep, Chunk, HearAll, Has;
    BlockHeard(rewinds, HeardBlocks(rewinds, payload, k, count, fates), payload, k, count, fates[k], naks[k]);
  }

  /** The sendings of the end, up to the one acknowledged: the receiver returns, with no more stored than damage. */
  lemma {:induction false} EotHeard(rewinds: bool, r: Receiver, payload: seq<Byte>, count: nat, f: seq<Fate>)
    requires |payload| % BLOCK == 0 && Has(rewinds, r, payload, |payload| / BLOCK, false, count) && Fates(f)
    ensures var q := HearAll(rewinds, r, [EOT], f).0;
      q.phase.Failed? || (q.phase.Listening? && Has(rewinds, q, payload, |payload| / BLOCK, false, count)) || Arrived(rewinds, q, payload, count)
    decreases |f|
  {
    hide Sound, Listen, Broken, InStep, Poses;
    if f == [] {
      HasListens(rewinds, r, payload, |payload| / BLOCK, count);
    } else {
      var n, g, last := |payload| / BLOCK, f[..|f| - 1], f[|f| - 1];
      EotHeard(rewinds, r, payload, count, g);
      var q := HearAll(rewinds, r, [EOT], g).0;
      if q.phase.Listening? {
        var strayed: bool :| InStep(rewinds, q, payload, n, false, count, strayed);
        ReturnsWith(rewinds, q, payload, count, strayed, [EOT]);
        if last.Damaged? {
          if Starts(last.bytes, EOT) || Starts(last.bytes, CAN) {
            ReturnsWith(rewinds, q, payload, count, strayed, last.bytes);
          } else {
            Survives(rewinds, q, payload, n, false, count, strayed, last.bytes);
            var t := Listen(rewinds, q, last.bytes).0;
            if t.bad <= PATIENCE {
              HasListens(rewinds, t, payload, n, count);
            }
          }
        }
      } else {
        DeafOnce(rewinds, q, last);
      }
    }
  }

  lemma HasListens(rewinds: bool, r: Receiver, payload: seq<Byte>, k: nat, count: nat)
    requires Has(rewinds, r, payload, k, false, count)
    ensures r.phase.Listening?
  {
  }

  lemma DeafOnce(rewinds: bool, r: Receiver, f: Fate)
    requires !r.phase.Listening?
    ensures Hear(rewinds, r, [EOT], f).0 == r
  {
    hide Sound;
  }

  /** The receiver has returned with the payload's length, and with the payload if it stored no more than that many bytes. */
  ghost predicate Arrived(rewinds: bool, r: Receiver, payload: seq<Byte>, count: nat) {
    Complete(r, payload, count) && (rewinds || |r.got| == |payload| ==> r.got == payload)
  }

  lemma ReturnsWith(rewinds: bool, r: Receiver, payload: seq<Byte>, count: nat, strayed: bool, b: seq<Byte>)
    requires |payload| % BLOCK == 0 && InStep(rewinds, r, payload, |payload| / BLOCK, false, count, strayed) && (Starts(b, EOT) || Starts(b, CAN))
    ensures var q := Listen(rewinds, r, b).0;
      if Starts(b, EOT) then Arrived(rewinds, q, payload, count) else q.phase.Failed?
  {
    hide Sound;
    assert BLOCK * (|payload| / BLOCK) == |payload|;
    assert payload[..|payload|] == payload;
  }

  lemma Fed(data: seq<Byte>, b: Byte, c: Crc.Word, r: Crc.Word)
    requires CrcOf(data) == c && Crc.Feed(c, b as Crc.Octet, Crc.XMODEM) == r
    ensures CrcOf(data + [b]) == r
  {
    hide Crc.Feed, CrcOf;
    CrcMore(data, b);
  }

  /** The CRC of the digits 1 to 9. */
  lemma CheckValue()
    ensures CrcOf([49, 50, 51, 52, 53, 54, 55, 56, 57]) == 0x31C3
  {
    hide Crc.Feed, CrcOf;
    CrcNone();
    NineSteps();
    Fed([], 49, 0, 0x2672);
    assert [] + [49 as Byte] == [49];
    Fed([49], 50, 0x2672, 0x20b5);
    assert [49] + [50] == [49, 50];
    Fed([49, 50], 51, 0x20b5, 0x9752);
    assert [49, 50] + [51] == [49, 50, 51];
    Fed([49, 50, 51], 52, 0x9752, 0xd789);
    assert [49, 50, 51] + [52] == [49, 50, 51, 52];
    Fed([49, 50, 51, 52], 53, 0xd789, 0x546c);
    assert [49, 50, 51, 52] + [53] == [49, 50, 51, 52, 53];
    Fed([49, 50, 51, 52, 53], 54, 0x546c, 0x20e4);
    assert [49, 50, 51, 52, 53] + [54] == [49, 50, 51, 52, 53, 54];
    Fed([49, 50, 51, 52, 53, 54], 55, 0x20e4, 0x86d6);
    assert [49, 50, 51, 52, 53, 54] + [55] == [49, 50, 51, 52, 53, 54, 55];
    Fed([49, 50, 51, 52, 53, 54, 55], 56, 0x86d6, 0x9015);
    assert [49, 50, 51, 52, 53, 54, 55] + [56] == [49, 50, 51, 52, 53, 54, 55, 56];
    Fed([49, 50, 51, 52, 53, 54, 55, 56], 57, 0x9015, 0x31c3);
    var d := [49, 50, 51, 52, 53, 54, 55, 56];
    assert d + [57] == [49, 50, 51, 52, 53, 54, 55, 56, 57];
  }

  lemma NineSteps()
    ensures Crc.Feed(0, 49 as Crc.Octet, Crc.XMODEM) == 0x2672
    ensures Crc.Feed(0x2672, 50 as Crc.Octet, Crc.XMODEM) == 0x20b5
    ensures Crc.Feed(0x20b5, 51 as Crc.Octet, Crc.XMODEM) == 0x9752
    ensures Crc.Feed(0x9752, 52 as Crc.Octet, Crc.XMODEM) == 0xd789
    ensures Crc.Feed(0xd789, 53 as Crc.Octet, Crc.XMODEM) == 0x546c
    ensures Crc.Feed(0x546c, 54 as Crc.Octet, Crc.XMODEM) == 0x20e4
    ensures Crc.Feed(0x20e4, 55 as Crc.Octet, Crc.XMODEM) == 0x86d6
    ensures Crc.Feed(0x86d6, 56 as Crc.Octet, Crc.XMODEM) == 0x9015
    ensures Crc.Feed(0x9015, 57 as Crc.Octet, Crc.XMODEM) == 0x31c3
  {
    Crc.FeedEight(0, 49, Crc.XMODEM);
    Crc.FeedEight(0x2672, 50, Crc.XMODEM);
    Crc.FeedEight(0x20b5, 51, Crc.XMODEM);
    Crc.FeedEight(0x9752, 52, Crc.XMODEM);
    Crc.FeedEight(0xd789, 53, Crc.XMODEM);
    Crc.FeedEight(0x546c, 54, Crc.XMODEM);
    Crc.FeedEight(0x20e4, 55, Crc.XMODEM);
    Crc.FeedEight(0x86d6, 56, Crc.XMODEM);
    Crc.FeedEight(0x9015, 57, Crc.XMODEM);
    hide Crc.Feed;
  }
}
