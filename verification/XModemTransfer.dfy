/** What the XModem protocol promises: the transmitting half of one adapter joined to the receiving half of another. */
module XModemTransfer {
  import opened Common
  import opened Crc16
  import opened XModem

  // ---------- Chunks of a file

  /** The number of data packets a file needs; a multiple of the buffer size ends with an empty packet. */
  function NumPackets(content: seq<Byte>): nat {
    |content| / BUFFER_SIZE + 1
  }

  function Sent(content: seq<Byte>, k: nat): (n: nat)
    ensures n <= |content|
  {
    Min(BUFFER_SIZE * k, |content|)
  }

  /** The payload of packet k, counting from 1. */
  function Chunk(content: seq<Byte>, k: nat): (r: seq<Byte>)
    requires k >= 1
    ensures |r| <= BUFFER_SIZE
  {
    content[Sent(content, k - 1)..Sent(content, k)]
  }

  lemma ChunkExtendsPrefix(content: seq<Byte>, k: nat)
    requires k >= 1
    ensures content[..Sent(content, k - 1)] + Chunk(content, k) == content[..Sent(content, k)]
    ensures |Chunk(content, k)| < BUFFER_SIZE <==> k >= NumPackets(content)
    ensures k >= NumPackets(content) ==> Sent(content, k) == |content|
  {
  }

  /** Going back to the start of packet k in the file: the 16-bit counter finds it exactly while it has not wrapped.
      (Files have less than 2^32 bytes.) */
  lemma SeekFindsChunk(k: nat)
    requires k >= 1 && BUFFER_SIZE * k < 0x1_0000_0000
    ensures SeekOffset(k % 0x1_0000) == BUFFER_SIZE * (k - 1) <==> k < 0x1_0000
  {
  }

  /** The 16-bit number of the packet that is k-th, counting from 1. */
  function Number(k: nat): Uint16 {
    k % 0x1_0000
  }

  lemma NextNumber(k: nat)
    ensures Number(Number(k) + 1) == Number(k + 1)
  {
  }

  lemma SmallNumber(k: nat)
    requires k <= 0x1_0000
    ensures Number(k) == if k < 0x1_0000 then k else 0
  {
  }

  // ---------- The two halves of a session

  predicate Idle(s: State) {
    !s.isReceiving && !s.isTransmitting
  }

  /** The sender is in a session on packet k of `content`: its outgoing packet holds chunk k, and it reads on from the
      end of that chunk. */
  predicate Sending(s: State, name: Name, content: seq<Byte>, k: nat) {
    && s.isTransmitting && !s.isReceiving
    && 1 <= k <= NumPackets(content)
    && s.packetno == Number(k)
    && name in s.fs && s.fs[name] == content
    && s.file == Reading(name, Sent(content, k))
    && s.store == DataPacket(Number(k), Chunk(content, k))
    && (s.isEOT <==> k == NumPackets(content))
  }

  /** A file that is received into: what was found in it, and how many bytes there is room for after that. */
  datatype Target = Target(found: seq<Byte>, room: nat)

  /** What it holds once these bytes have been received. */
  function Holds(dst: Target, bytes: seq<Byte>): seq<Byte> {
    dst.found + bytes[..Min(|bytes|, dst.room)]
  }

  function RoomLeft(dst: Target, n: nat): nat {
    dst.room - Min(n, dst.room)
  }

  lemma HoldsMore(dst: Target, a: seq<Byte>, b: seq<Byte>)
    ensures Holds(dst, a) + b[..Min(|b|, RoomLeft(dst, |a|))] == Holds(dst, a + b)
    ensures RoomLeft(dst, |a|) - Min(|b|, RoomLeft(dst, |a|)) == RoomLeft(dst, |a + b|)
  {
  }

  /** The new bytes alone, and all of them. */
  lemma HoldsExactly(dst: Target, bytes: seq<Byte>)
    ensures dst.found == [] ==> (Holds(dst, bytes) == bytes <==> |bytes| <= dst.room)
    ensures |bytes| <= dst.room ==> (Holds(dst, bytes) == bytes <==> dst.found == [])
  {
    assert |Holds(dst, bytes)| == |dst.found| + Min(|bytes|, dst.room);
  }

  /** The receiver has written the first j packets of `content`, as far as there was room. */
  predicate Receiving(s: State, dst: Target, content: seq<Byte>, j: nat) {
    && s.isReceiving && !s.isTransmitting
    && j <= NumPackets(content)
    && s.packetno == Number(j + 1)
    && s.file == Writing(CString(s.filename)) && s.file.name in s.fs
    && s.fs[s.file.name] == Holds(dst, content[..Sent(content, j)])
    && s.free == RoomLeft(dst, Sent(content, j))
  }

  lemma SendChunkSends(s: State, name: Name, content: seq<Byte>, k: nat)
    requires s.isTransmitting && !s.isReceiving && 1 <= k <= NumPackets(content) && s.packetno == Number(k)
    requires name in s.fs && s.fs[name] == content
    requires s.file == Reading(name, Sent(content, k - 1))
    requires s.isEOT ==> k == NumPackets(content)
    ensures Sending(SendChunk(s), name, content, k) && SendChunk(s).retrans == s.retrans
  {
    hide Crc, Number;
    ChunkExtendsPrefix(content, k);
    assert ReadAt(content, Sent(content, k - 1)) == Chunk(content, k);
  }

  /** An acknowledged packet is followed by the next one, read on sequentially, or by EOT after the last. */
  lemma AckAdvances(s: State, name: Name, content: seq<Byte>, k: nat)
    requires Sending(s, name, content, k)
    ensures var t := AckStep(s).0;
            if k == NumPackets(content) then Idle(t) && !t.isEOT && t.store == ControlPacket(EOT)
            else Sending(t, name, content, k + 1) && t.retrans == MAXRETRANS
  {
    hide Crc, SendChunk;
    if k < NumPackets(content) {
      NextNumber(k);
      SendChunkSends(s.(retrans := MAXRETRANS, packetno := (s.packetno + 1) % 0x1_0000), name, content, k + 1);
    }
  }

  /** A refused packet is sent again with the same contents, read back after a seek, or the session is given up. */
  lemma NakRepeats(s: State, name: Name, content: seq<Byte>, k: nat)
    requires Sending(s, name, content, k) && k < 0x1_0000
    ensures var t := NakStep(s).0;
            t.retrans == s.retrans - 1 && t.fs == s.fs &&
            if s.retrans <= 1 then Idle(t) && t.store == ControlPacket(CAN) && t.isEOT == s.isEOT
            else Sending(t, name, content, k) && t.store == s.store
  {
    hide Crc;
    if s.retrans > 1 {
      ChunkExtendsPrefix(content, k);
      assert SeekOffset(k) == Sent(content, k - 1);
      SendChunkSends(s.(retrans := s.retrans - 1, file := Seek(s.file, SeekOffset(s.packetno))), name, content, k);
    }
  }

  /** From packet 65536 on, a refusal reads back the chunk that had the same number in the first round instead, and the
      receiver takes it for chunk k. (Number 0 seeks 128 bytes short of 2^32.) */
  lemma RefusedAfterWrap(s: State, r: State, name: Name, dst: Target, content: seq<Byte>, k: nat)
    requires Sending(s, name, content, k) && s.retrans > 1 && k >= 0x1_0000
    requires Receiving(r, dst, content, k - 1)
    ensures var again := NakStep(s).0.store;
            && again == DataPacket(Number(k), ReadAt(content, SeekOffset(Number(k))))
            && (Number(k) != 0 ==> again.buffer == Chunk(content, Number(k)))
    ensures var u := DataStep(r, NakStep(s).0.store).0;
            && u.store == ControlPacket(ACK) && r.file.name in u.fs
            && u.fs[r.file.name] == Holds(dst, content[..Sent(content, k - 1)] + NakStep(s).0.store.buffer)
  {
    hide Crc;
    if Number(k) != 0 {
      assert SeekOffset(Number(k)) == BUFFER_SIZE * (Number(k) - 1);
      assert ReadAt(content, BUFFER_SIZE * (Number(k) - 1)) == Chunk(content, Number(k));
    }
    HoldsMore(dst, content[..Sent(content, k - 1)], NakStep(s).0.store.buffer);
  }

  lemma DataAccepted(s: State, dst: Target, content: seq<Byte>, k: nat)
    requires k >= 1 && k <= NumPackets(content) && Receiving(s, dst, content, k - 1)
    ensures var t := DataStep(s, DataPacket(Number(k), Chunk(content, k))).0;
            Receiving(t, dst, content, k) && t.store == ControlPacket(ACK) && t.filename == s.filename
  {
    hide Crc, Number, Chunk, Holds, RoomLeft;
    NextNumber(k);
    NumberStep(k);
    ChunkExtendsPrefix(content, k);
    HoldsMore(dst, content[..Sent(content, k - 1)], Chunk(content, k));
  }

  lemma NumberStep(k: nat)
    ensures (Number(k) + 1) % 0x1_0000 == Number(k + 1)
  {
  }

  // ---------- The channel

  datatype Wire =
    | ToReceiver(packet: Packet)
    | ToSender(packet: Packet)
    | Delivered   // the receiver has handled EOT
    | Cancelled   // the receiver has handled CAN

  datatype Link = Link(sender: State, receiver: State, wire: Wire)

  datatype Noise = Clean | Hit(error: seq<Byte>)

  /** What a burst may do to a packet: flip bits of the payload of a data packet, nothing else. */
  ghost predicate CanHit(noise: Noise, p: Packet) {
    noise.Hit? ==> p.control == SOH && |noise.error| == |p.buffer| && Burst(noise.error)
  }

  function Received(p: Packet, noise: Noise): Packet
    requires noise.Hit? ==> |noise.error| == |p.buffer|
  {
    if noise.Hit? then p.(buffer := XorBytes(p.buffer, noise.error)) else p
  }

  ghost predicate NoiseFits(l: Link, noise: Noise) {
    match l.wire
    case ToReceiver(p) => CanHit(noise, p)
    case _ => noise.Clean?
  }

  /** One delivery: the message in flight is handled, and the outgoing packet that this leaves takes its place. */
  ghost function Deliver(l: Link, noise: Noise): Link
    requires NoiseFits(l, noise)
  {
    match l.wire
    case ToReceiver(p) =>
      var r := Step(l.receiver, Received(p, noise), true).0;
      Link(l.sender, r, if p.control == EOT then Delivered else if p.control == CAN then Cancelled else ToSender(r.store))
    case ToSender(p) =>
      var s := Step(l.sender, p, true).0;
      Link(s, l.receiver, ToReceiver(s.store))
    case _ => l
  }

  /** A run: every delivery with some noise the channel can produce at that point. */
  ghost predicate NoisyRun(l: Link, noises: seq<Noise>)
    decreases |noises|
  {
    noises != [] ==> NoiseFits(l, noises[0]) && NoisyRun(Deliver(l, noises[0]), noises[1..])
  }

  ghost function After(l: Link, noises: seq<Noise>): Link
    requires NoisyRun(l, noises)
    decreases |noises|
  {
    if noises == [] then l else After(Deliver(l, noises[0]), noises[1..])
  }

  // ---------- The invariant of a transfer

  /** Sender and receiver agree on the packet in flight, and only EOT can find the file complete. */
  ghost predicate InStep(l: Link, name: Name, dst: Target, content: seq<Byte>) {
    NumPackets(content) < 0x1_0000 &&
    match l.wire
    case ToReceiver(p) =>
      match p.control {
        case SOH => var k := l.sender.packetno;
                    Sending(l.sender, name, content, k) && Receiving(l.receiver, dst, content, k - 1)
                    && p == l.sender.store
        case EOT => p == ControlPacket(EOT) && Idle(l.sender) && Receiving(l.receiver, dst, content, NumPackets(content))
        case CAN => p == ControlPacket(CAN) && Idle(l.sender) && l.receiver.isReceiving
        case _ => false
      }
    case ToSender(p) =>
      var k := l.sender.packetno;
      && Sending(l.sender, name, content, k)
      && (if p == ControlPacket(ACK) then Receiving(l.receiver, dst, content, k)
          else p == ControlPacket(NAK) && Receiving(l.receiver, dst, content, k - 1))
    case Delivered =>
      && Idle(l.sender) && !l.receiver.isReceiving
      && CString(l.receiver.filename) in l.receiver.fs
      && l.receiver.fs[CString(l.receiver.filename)] == Holds(dst, content)
    case Cancelled =>
      Idle(l.sender) && !l.receiver.isReceiving && CString(l.receiver.filename) !in l.receiver.fs
  }

  /** Steps left before the transfer must end: two deliveries for every send that the retry budget still allows. */
  function Budget(l: Link, content: seq<Byte>): int {
    match l.wire
    case ToReceiver(p) =>
      if p.control != SOH then 1
      else 2 * ((MAXRETRANS + 1) * (NumPackets(content) - l.sender.packetno) + Positive(l.sender.retrans)) + 3
    case ToSender(p) =>
      2 * ((MAXRETRANS + 1) * (NumPackets(content) - l.sender.packetno) + Positive(l.sender.retrans)) + 2
    case _ => 0
  }

  function Positive(n: int): nat {
    if n >= 0 then n else 0
  }

  /** A packet hit by a burst is refused. */
  lemma BurstIsRefused(r: State, p: Packet, e: seq<Byte>)
    requires r.isReceiving && Valid(p) && |e| == |p.buffer| && Burst(e)
    ensures DataStep(r, p.(buffer := XorBytes(p.buffer, e))).0 == r.(store := ControlPacket(NAK))
  {
    hide Crc, XorBytes, Burst;
    CrcDetectsBurst(p.buffer, e);
  }

  lemma DeliverToReceiver(l: Link, noise: Noise, name: Name, dst: Target, content: seq<Byte>)
    requires InStep(l, name, dst, content) && l.wire.ToReceiver? && NoiseFits(l, noise)
    ensures InStep(Deliver(l, noise), name, dst, content)
    ensures Budget(Deliver(l, noise), content) < Budget(l, content)
    ensures noise.Clean? && l.wire.packet.control == SOH ==> Deliver(l, noise).wire == ToSender(ControlPacket(ACK))
  {
    hide Crc, Burst, XorBytes;
    var p := l.wire.packet;
    if p.control == SOH {
      var k := l.sender.packetno;
      if noise.Clean? {
        DataAccepted(l.receiver, dst, content, k);
      } else {
        BurstIsRefused(l.receiver, p, noise.error);
      }
    }
  }

  lemma DeliverToSender(l: Link, name: Name, dst: Target, content: seq<Byte>)
    requires InStep(l, name, dst, content) && l.wire.ToSender?
    ensures InStep(Deliver(l, Clean), name, dst, content)
    ensures Budget(Deliver(l, Clean), content) < Budget(l, content)
    ensures l.wire.packet.control == ACK ==> Deliver(l, Clean).wire.packet.control != CAN
  {
    hide Crc, AckStep, NakStep, DataStep;
    var p := l.wire.packet;
    var k := l.sender.packetno;
    if p.control == ACK {
      AckAdvances(l.sender, name, content, k);
    } else {
      NakRepeats(l.sender, name, content, k);
    }
  }

  // ---------- Whole runs

  /** The state of the link when both ends have been told to start and the sender's first packet is in flight. (The
      acknowledgement of the file name packet goes back to whoever sent that one.) */
  function Start(s: State, r: State, toSender: Packet, toReceiver: Packet): Link {
    var sender := Step(s, toSender, true).0;
    Link(sender, Step(r, toReceiver, true).0, ToReceiver(sender.store))
  }

  /** The name that a packet numbered 0 leaves in an adapter's buffer. */
  function Named(s: State, p: Packet): Name {
    CString(Overlay(s.filename, p.buffer))
  }

  /** The receiver's file when the session begins. */
  function Found(r: State, p: Packet): Target {
    var found := Opened(r.fs, Named(r, p), r.truncates);
    Target(found, r.free + Size(r.fs, Named(r, p)) - |found|)
  }

  /** A session between idle adapters, one told to send a file that it has, the other to receive. */
  predicate CanStart(s: State, r: State, toSender: Packet, toReceiver: Packet) {
    && Idle(s) && Idle(r)
    && toSender.control == STX && toSender.seqno == 0 && toReceiver.control == SOH && toReceiver.seqno == 0
    && Named(s, toSender) in s.fs
  }

  lemma Started(s: State, r: State, toSender: Packet, toReceiver: Packet)
    requires CanStart(s, r, toSender, toReceiver)
    ensures var l := Start(s, r, toSender, toReceiver);
            var name := Named(s, toSender);
            var content := s.fs[name];
            && Receiving(l.receiver, Found(r, toReceiver), content, 0)
            && CString(l.receiver.filename) == Named(r, toReceiver)
            && l.wire == ToReceiver(l.sender.store)
            && (if !s.isEOT || NumPackets(content) == 1 then Sending(l.sender, name, content, 1)
                else l.sender.isTransmitting && !l.sender.isReceiving && l.sender.isEOT
                     && l.sender.store == DataPacket(1, Chunk(content, 1)))
  {
    hide Crc, CString;
    var filename := Overlay(s.filename, toSender.buffer);
    var name := Named(s, toSender);
    var content := s.fs[name];
    var begun := s.(filename := filename, file := Reading(name, 0), packetno := 1, isTransmitting := true);
    assert Step(s, toSender, true).0 == SendChunk(begun);
    assert Holds(Found(r, toReceiver), content[..0]) == Found(r, toReceiver).found;
    if !s.isEOT || NumPackets(content) == 1 {
      SendChunkSends(begun, name, content, 1);
    } else {
      assert ReadAt(content, 0) == Chunk(content, 1);
    }
  }

  /** It starts in step exactly if the sender's end-of-file flag is clear, or the file fits the first packet anyway. The
      flag is cleared only when EOT is sent, so a session given up can leave it set. */
  lemma StartInStep(s: State, r: State, toSender: Packet, toReceiver: Packet)
    requires CanStart(s, r, toSender, toReceiver)
    requires NumPackets(s.fs[Named(s, toSender)]) < 0x1_0000
    ensures var name := Named(s, toSender);
            var content := s.fs[name];
            var l := Start(s, r, toSender, toReceiver);
            InStep(l, name, Found(r, toReceiver), content) <==> !s.isEOT || NumPackets(content) == 1
  {
    hide Crc, Start, Chunk;
    Started(s, r, toSender, toReceiver);
    var l := Start(s, r, toSender, toReceiver);
    if !(!s.isEOT || NumPackets(s.fs[Named(s, toSender)]) == 1) {
      assert l.sender.store.seqno == 1;
    }
  }

  // ---------- A clean channel

  function Cleans(n: nat): seq<Noise> {
    seq(n, _ => Clean)
  }

  lemma {:induction false} CleanIsRun(l: Link, n: nat)
    ensures NoisyRun(l, Cleans(n))
    decreases n
  {
    if n > 0 {
      assert Cleans(n)[1..] == Cleans(n - 1);
      CleanIsRun(Deliver(l, Clean), n - 1);
    }
  }

  /** The link after n deliveries without noise. */
  ghost function AfterClean(l: Link, n: nat): Link {
    CleanIsRun(l, n);
    After(l, Cleans(n))
  }

  lemma CleanFirst(l: Link, n: nat)
    requires n > 0
    ensures AfterClean(l, n) == AfterClean(Deliver(l, Clean), n - 1)
  {
    CleanIsRun(l, n);
    assert Cleans(n)[1..] == Cleans(n - 1);
  }

  lemma CleanEnded(l: Link, n: nat)
    requires l.wire == Delivered
    ensures AfterClean(l, n) == l
  {
    CleanIsRun(l, n);
    EndedStays(l, Cleans(n));
  }

  /** The last delivery. */
  lemma EotDelivers(l: Link, dst: Target, content: seq<Byte>, j: nat, n: nat)
    requires l.wire == ToReceiver(ControlPacket(EOT)) && Receiving(l.receiver, dst, content, j) && n > 0
    ensures var t := AfterClean(l, n);
            t.wire == Delivered && FileOf(t) == Some(Holds(dst, content[..Sent(content, j)]))
            && t.receiver.filename == l.receiver.filename
  {
    hide AfterClean;
    CleanFirst(l, n);
    CleanEnded(Deliver(l, Clean), n - 1);
  }

  /** What the receiver has under the name that it was given. */
  function FileOf(l: Link): Option<seq<Byte>> {
    Lookup(l.receiver.fs, CString(l.receiver.filename))
  }

  /** One data packet and its acknowledgement. */
  lemma PacketAndAck(l: Link, dst: Target, content: seq<Byte>, k: nat)
    requires 1 <= k <= NumPackets(content) && Receiving(l.receiver, dst, content, k - 1)
    requires l.wire == ToReceiver(DataPacket(Number(k), Chunk(content, k)))
    ensures var t := Deliver(Deliver(l, Clean), Clean);
            && Receiving(t.receiver, dst, content, k) && t.receiver.filename == l.receiver.filename
            && t.sender == AckStep(l.sender).0 && t.wire == ToReceiver(t.sender.store)
  {
    hide Crc, AckStep, DataStep, Receiving, Chunk, Number;
    DataAccepted(l.receiver, dst, content, k);
    ReceivingIsBusy(l.receiver, dst, content, k - 1);
  }

  lemma ReceivingIsBusy(r: State, dst: Target, content: seq<Byte>, j: nat)
    requires Receiving(r, dst, content, j)
    ensures r.isReceiving
  {
  }

  /** From packet k on, however many there are: the packet counter may wrap around. */
  lemma {:induction false} CleanDelivers(l: Link, name: Name, dst: Target, content: seq<Byte>, k: nat, n: nat)
    requires Sending(l.sender, name, content, k) && Receiving(l.receiver, dst, content, k - 1)
    requires l.wire == ToReceiver(l.sender.store) && n >= 2 * (NumPackets(content) - k) + 3
    ensures var t := AfterClean(l, n);
            t.wire == Delivered && FileOf(t) == Some(Holds(dst, content)) && t.receiver.filename == l.receiver.filename
    decreases NumPackets(content) - k
  {
    hide Crc, AckStep, Deliver, AfterClean, Chunk, Number, Receiving;
    CleanFirst(l, n);
    CleanFirst(Deliver(l, Clean), n - 1);
    PacketAndAck(l, dst, content, k);
    AckAdvances(l.sender, name, content, k);
    var t := Deliver(Deliver(l, Clean), Clean);
    if k == NumPackets(content) {
      ChunkExtendsPrefix(content, k);
      assert content[..Sent(content, k)] == content;
      EotDelivers(t, dst, content, k, n - 2);
    } else {
      CleanDelivers(t, name, dst, content, k + 1, n - 2);
    }
  }

  /** A session on a clean channel, for files of any length: what arrives is the sender's file if the end-of-file flag was
      clear at the start or the file fits one buffer, and otherwise only its first chunk, which makes a difference as soon
      as there is room for more. It is stored after what was found in the file, as far as there is room; what was found is
      nothing exactly if the platform empties files, or the file was not there or empty. */
  lemma CleanTransferIff(s: State, r: State, toSender: Packet, toReceiver: Packet, n: nat)
    requires CanStart(s, r, toSender, toReceiver)
    requires n >= 2 * NumPackets(s.fs[Named(s, toSender)]) + 1
    ensures var content := s.fs[Named(s, toSender)];
            var dst := Found(r, toReceiver);
            var whole := !s.isEOT || |content| <= 128;
            var t := AfterClean(Start(s, r, toSender, toReceiver), n);
            && t.wire == Delivered && CString(t.receiver.filename) == Named(r, toReceiver)
            && FileOf(t) == Some(Holds(dst, if whole then content else Chunk(content, 1)))
            && (FileOf(t) == Some(Holds(dst, content)) <==> whole || dst.room <= 128)
            && (dst.found == [] ==> (FileOf(t) == Some(content) <==> whole && |content| <= dst.room))
            && (whole && |content| <= dst.room ==> (FileOf(t) == Some(content) <==> dst.found == []))
    ensures Found(r, toReceiver).found == [] <==>
              r.truncates || Named(r, toReceiver) !in r.fs || r.fs[Named(r, toReceiver)] == []
  {
    hide Start, AfterClean, Named, Crc, CString, Opened, Holds, Chunk;
    var name := Named(s, toSender);
    var content := s.fs[name];
    var dst := Found(r, toReceiver);
    var l := Start(s, r, toSender, toReceiver);
    Started(s, r, toSender, toReceiver);
    FirstChunk(content);
    HoldsExactly(dst, content);
    FirstChunkHeld(dst, content);
    FoundNothing(r, toReceiver);
    if !s.isEOT || NumPackets(content) == 1 {
      CleanDelivers(l, name, dst, content, 1, n);
    } else {
      StaleFlagDelivers(l, dst, content, n);
    }
  }

  lemma FoundNothing(r: State, p: Packet)
    ensures Found(r, p).found == [] <==> r.truncates || Named(r, p) !in r.fs || r.fs[Named(r, p)] == []
  {
  }

  lemma FirstChunkHeld(dst: Target, content: seq<Byte>)
    ensures Holds(dst, content) == Holds(dst, Chunk(content, 1)) <==> |content| <= BUFFER_SIZE || dst.room <= BUFFER_SIZE
    ensures |content| > BUFFER_SIZE && dst.found == [] ==> Holds(dst, Chunk(content, 1)) != content
  {
    var a, b := Holds(dst, content), Holds(dst, Chunk(content, 1));
    assert |a| == |dst.found| + Min(|content|, dst.room);
    assert |b| == |dst.found| + Min(Min(BUFFER_SIZE, |content|), dst.room);
    if |content| <= BUFFER_SIZE {
      FirstChunk(content);
    } else if dst.room <= BUFFER_SIZE {
      assert content[..dst.room] == Chunk(content, 1)[..dst.room];
    }
  }

  lemma FirstChunk(content: seq<Byte>)
    ensures Chunk(content, 1) == content[..Sent(content, 1)]
    ensures |Chunk(content, 1)| == |content| <==> |content| <= BUFFER_SIZE
    ensures |content| <= BUFFER_SIZE ==> Chunk(content, 1) == content
    ensures NumPackets(content) == 1 ==> |content| <= BUFFER_SIZE
  {
  }

  /** The first acknowledgement already ends a session that began with the flag set. */
  lemma StaleFlagDelivers(l: Link, dst: Target, content: seq<Byte>, n: nat)
    requires l.sender.isTransmitting && l.sender.isEOT && l.wire == ToReceiver(DataPacket(1, Chunk(content, 1)))
    requires Receiving(l.receiver, dst, content, 0) && n >= 3
    ensures var t := AfterClean(l, n);
            && t.wire == Delivered && FileOf(t) == Some(Holds(dst, Chunk(content, 1)))
            && t.receiver.filename == l.receiver.filename
  {
    hide Crc, AfterClean, Deliver, Chunk, Receiving;
    CleanFirst(l, n);
    CleanFirst(Deliver(l, Clean), n - 1);
    PacketAndAck(l, dst, content, 1);
    FirstChunk(content);
    EotDelivers(Deliver(Deliver(l, Clean), Clean), dst, content, 1, n - 2);
  }

  // ---------- Runs under noise

  lemma {:induction false} RunStaysInStep(l: Link, noises: seq<Noise>, name: Name, dst: Target, content: seq<Byte>)
    requires InStep(l, name, dst, content) && NoisyRun(l, noises)
    ensures InStep(After(l, noises), name, dst, content)
    ensures |noises| >= Budget(l, content) ==> After(l, noises).wire.Delivered? || After(l, noises).wire.Cancelled?
    decreases |noises|
  {
    hide InStep, Deliver, Budget;
    if noises == [] || l.wire.Delivered? || l.wire.Cancelled? {
      BudgetPositive(l, name, dst, content);
      EndedStays(l, noises);
    } else {
      DeliverInStep(l, noises[0], name, dst, content);
      RunStaysInStep(Deliver(l, noises[0]), noises[1..], name, dst, content);
    }
  }

  lemma BudgetPositive(l: Link, name: Name, dst: Target, content: seq<Byte>)
    requires InStep(l, name, dst, content)
    ensures l.wire.Delivered? || l.wire.Cancelled? || Budget(l, content) > 0
  {
  }

  lemma {:induction false} EndedStays(l: Link, noises: seq<Noise>)
    requires NoisyRun(l, noises)
    ensures l.wire.Delivered? || l.wire.Cancelled? ==> After(l, noises) == l
    decreases |noises|
  {
    if noises != [] && (l.wire.Delivered? || l.wire.Cancelled?) {
      EndedStays(l, noises[1..]);
    }
  }

  lemma DeliverInStep(l: Link, noise: Noise, name: Name, dst: Target, content: seq<Byte>)
    requires InStep(l, name, dst, content) && NoiseFits(l, noise) && !l.wire.Delivered? && !l.wire.Cancelled?
    ensures InStep(Deliver(l, noise), name, dst, content)
    ensures Budget(Deliver(l, noise), content) < Budget(l, content)
  {
    hide InStep, Deliver, Budget;
    if l.wire.ToReceiver? {
      DeliverToReceiver(l, noise, name, dst, content);
    } else {
      assert noise == Clean;
      DeliverToSender(l, name, dst, content);
    }
  }

  /** All or nothing: whatever bursts hit the payloads, the transfer ends within its budget, and then the receiver has
      the sender's file, after what was found in its own and as far as there is room, or has no such file at all. */
  lemma TransferAllOrNothing(l: Link, noises: seq<Noise>, name: Name, dst: Target, content: seq<Byte>)
    requires InStep(l, name, dst, content) && NoisyRun(l, noises)
    requires |noises| >= Budget(l, content)
    ensures var r := After(l, noises).receiver;
            !r.isReceiving &&
            match After(l, noises).wire
            case Delivered =>
              var name := CString(r.filename);
              && name in r.fs && r.fs[name] == Holds(dst, content)
              && (dst.found == [] ==> (r.fs[name] == content <==> |content| <= dst.room))
              && (|content| <= dst.room ==> (r.fs[name] == content <==> dst.found == []))
            case Cancelled => CString(r.filename) !in r.fs
            case _ => false
  {
    HoldsExactly(dst, content);
    RunStaysInStep(l, noises, name, dst, content);
  }

  /** No packet is hit by as many bursts in a row as it has retries: `left` for the first, all of them for each that follows
      an acknowledgement. Every other delivery is a reply, which no burst hits. */
  predicate Outlasts(noises: seq<Noise>, left: int)
    decreases |noises|
  {
    |noises| < 2 ||
    if noises[0].Hit? then left > 1 && Outlasts(noises[2..], left - 1) else Outlasts(noises[2..], 25)
  }

  predicate SendsData(l: Link) {
    l.wire.ToReceiver? && l.wire.packet.control == SOH
  }

  /** A data packet and the reply to it. */
  lemma PacketRound(l: Link, noise: Noise, name: Name, dst: Target, content: seq<Byte>)
    requires InStep(l, name, dst, content) && NoiseFits(l, noise) && SendsData(l)
    ensures var m := Deliver(l, noise);
            var t := Deliver(m, Clean);
            && m.wire.ToSender? && InStep(t, name, dst, content) && Budget(t, content) <= Budget(l, content) - 2
            && if noise.Hit? && l.sender.retrans <= 1 then t.wire == ToReceiver(ControlPacket(CAN))
               else if noise.Hit? then SendsData(t) && t.sender.retrans == l.sender.retrans - 1
               else t.wire == ToReceiver(ControlPacket(EOT)) || (SendsData(t) && t.sender.retrans == MAXRETRANS)
  {
    hide Crc, AckStep, NakStep, DataStep, Burst, XorBytes, Holds, Chunk, Budget, InStep;
    var m := Deliver(l, noise);
    InStepSends(l, name, dst, content);
    DeliverToReceiver(l, noise, name, dst, content);
    HitIsRefused(l, noise, name, dst, content);
    DeliverToSender(m, name, dst, content);
    InStepReplies(m, name, dst, content);
    var k := m.sender.packetno;
    if noise.Hit? {
      NakRepeats(m.sender, name, content, k);
    } else {
      AckAdvances(m.sender, name, content, k);
    }
  }

  lemma InStepSends(l: Link, name: Name, dst: Target, content: seq<Byte>)
    requires InStep(l, name, dst, content) && SendsData(l)
    ensures Receiving(l.receiver, dst, content, l.sender.packetno - 1) && Valid(l.wire.packet)
  {
    hide Crc, Holds, Chunk;
  }

  lemma InStepReplies(l: Link, name: Name, dst: Target, content: seq<Byte>)
    requires InStep(l, name, dst, content) && l.wire.ToSender?
    ensures Sending(l.sender, name, content, l.sender.packetno)
  {
    hide Crc, Holds, Chunk;
  }

  lemma HitIsRefused(l: Link, noise: Noise, name: Name, dst: Target, content: seq<Byte>)
    requires InStep(l, name, dst, content) && NoiseFits(l, noise) && SendsData(l)
    ensures Deliver(l, noise).sender == l.sender
    ensures Deliver(l, noise).wire == ToSender(ControlPacket(if noise.Hit? then NAK else ACK))
  {
    hide Crc, Burst, XorBytes, Holds, Chunk, Sending;
    if noise.Hit? {
      InStepSends(l, name, dst, content);
      BurstIsRefused(l.receiver, l.wire.packet, noise.error);
    } else {
      DeliverToReceiver(l, noise, name, dst, content);
    }
  }

  /** Nothing is hit once there is nothing but EOT left to send. */
  lemma {:induction false} NothingLeftToHit(l: Link, noises: seq<Noise>)
    requires NoisyRun(l, noises) && (l.wire == Delivered || l.wire == ToReceiver(ControlPacket(EOT)))
    ensures Outlasts(noises, MAXRETRANS)
    ensures noises != [] ==> After(l, noises).wire == Delivered
    decreases |noises|
  {
    hide Crc;
    if noises != [] {
      var m := Deliver(l, noises[0]);
      NothingLeftToHit(m, noises[1..]);
      EndedStays(m, noises[1..]);
      if |noises| >= 2 {
        NothingLeftToHit(Deliver(m, noises[1]), noises[2..]);
        assert noises[1..][1..] == noises[2..] && noises[1..][0] == noises[1];
      }
    }
  }

  lemma Cancels(l: Link, noises: seq<Noise>)
    requires NoisyRun(l, noises) && l.wire == ToReceiver(ControlPacket(CAN)) && noises != []
    ensures After(l, noises).wire == Cancelled
  {
    hide Crc;
    EndedStays(Deliver(l, noises[0]), noises[1..]);
  }

  /** The transfer is delivered exactly if the retries outlast the bursts. */
  lemma {:induction false} DeliveredIff(l: Link, noises: seq<Noise>, name: Name, dst: Target, content: seq<Byte>)
    requires InStep(l, name, dst, content) && NoisyRun(l, noises) && SendsData(l)
    requires |noises| >= Budget(l, content)
    ensures After(l, noises).wire == Delivered <==> Outlasts(noises, l.sender.retrans)
    decreases |noises|
  {
    hide InStep, Deliver, CanHit;
    BudgetOfData(l, name, dst, content);
    var m := Deliver(l, noises[0]);
    PacketRound(l, noises[0], name, dst, content);
    assert noises[1..][0] == noises[1] == Clean && noises[1..][1..] == noises[2..];
    var t, rest := Deliver(m, Clean), noises[2..];
    assert NoisyRun(t, rest) && After(l, noises) == After(t, rest);
    if SendsData(t) {
      DeliveredIff(t, rest, name, dst, content);
    } else if t.wire == ToReceiver(ControlPacket(EOT)) {
      NothingLeftToHit(t, rest);
    } else {
      Cancels(t, rest);
    }
  }

  lemma BudgetOfData(l: Link, name: Name, dst: Target, content: seq<Byte>)
    requires InStep(l, name, dst, content) && SendsData(l)
    ensures Budget(l, content) >= 3
  {
    hide Crc, Holds, Chunk;
  }

  /** The exact condition for the receiver to get the file; otherwise it has no such file. */
  lemma TransferDeliversIff(l: Link, noises: seq<Noise>, name: Name, dst: Target, content: seq<Byte>)
    requires InStep(l, name, dst, content) && NoisyRun(l, noises) && SendsData(l)
    requires |noises| >= Budget(l, content)
    ensures FileOf(After(l, noises))
         == if Outlasts(noises, l.sender.retrans) then Some(Holds(dst, content)) else None
  {
    hide InStep, NoisyRun, Outlasts, Budget, CString;
    DeliveredIff(l, noises, name, dst, content);
    TransferAllOrNothing(l, noises, name, dst, content);
  }

  function Hits(noises: seq<Noise>): nat {
    if noises == [] then 0 else (if noises[0].Hit? then 1 else 0) + Hits(noises[1..])
  }

  lemma {:induction false} FewOutlasted(noises: seq<Noise>, left: int)
    requires Hits(noises) < left <= MAXRETRANS
    ensures Outlasts(noises, left)
    decreases |noises|
  {
    if |noises| >= 2 {
      assert noises[1..][1..] == noises[2..];
      FewOutlasted(noises[2..], if noises[0].Hit? then left - 1 else MAXRETRANS);
    }
  }

  /** In particular it gets it if the whole transfer is hit by fewer bursts than one packet may be retried, and on a clean
      channel. */
  lemma FewBurstsDeliver(l: Link, noises: seq<Noise>, name: Name, dst: Target, content: seq<Byte>)
    requires InStep(l, name, dst, content) && NoisyRun(l, noises) && SendsData(l)
    requires Hits(noises) < l.sender.retrans <= MAXRETRANS
    requires |noises| >= Budget(l, content)
    ensures After(l, noises).wire == Delivered && FileOf(After(l, noises)) == Some(Holds(dst, content))
    ensures dst.found == [] ==> (FileOf(After(l, noises)) == Some(content) <==> |content| <= dst.room)
    ensures |content| <= dst.room ==> (FileOf(After(l, noises)) == Some(content) <==> dst.found == [])
  {
    hide InStep, NoisyRun, Outlasts, Budget, CString, Hits;
    FewOutlasted(noises, l.sender.retrans);
    DeliveredIff(l, noises, name, dst, content);
    TransferDeliversIff(l, noises, name, dst, content);
    HoldsExactly(dst, content);
  }

  // ---------- Retransmission

  function Naks(s: State, n: nat): State {
    if n == 0 then s else NakStep(Naks(s, n - 1)).0
  }

  /** After an acknowledgement the current packet is sent again at most 24 times, always with the same contents; the 25th
      refusal ends the session. */
  lemma {:induction false} ResendLimit(s: State, name: Name, content: seq<Byte>, k: nat, n: nat)
    requires Sending(s, name, content, k) && k < 0x1_0000 && s.retrans == 25 && n <= 25
    ensures n < 25 ==> Sending(Naks(s, n), name, content, k) && Naks(s, n).store == s.store
    ensures n == 25 ==>
              && Idle(Naks(s, n)) && Naks(s, n).store == ControlPacket(CAN) && Naks(s, n).fs == s.fs
              && (Naks(s, n).isEOT <==> k == NumPackets(content))
    ensures Naks(s, n).fs == s.fs
    ensures Naks(s, n).retrans == 25 - n
  {
    hide Crc, NakStep;
    if n > 0 {
      ResendLimit(s, name, content, k, n - 1);
      NakRepeats(Naks(s, n - 1), name, content, k);
    }
  }

  /** The end-of-file flag can be left set: an adapter just declared, told to send a file of one packet that is refused
      until it gives up. */
  lemma StaleFlagReached(fs: FileSystem, free: nat, truncates: bool, p: Packet)
    requires p.control == STX && p.seqno == 0 && Named(Initial(fs, free, truncates), p) in fs
    requires NumPackets(fs[Named(Initial(fs, free, truncates), p)]) == 1
    ensures var t := Naks(Step(Initial(fs, free, truncates), p, true).0, MAXRETRANS);
            Idle(t) && t.isEOT && t.fs == fs
  {
    hide Crc, CString;
    var s := Initial(fs, free, truncates);
    var name := Named(s, p);
    var begun := s.(filename := Overlay(s.filename, p.buffer), file := Reading(name, 0), packetno := 1,
                    isTransmitting := true);
    assert Step(s, p, true).0 == SendChunk(begun);
    SendChunkSends(begun, name, fs[name], 1);
    ResendLimit(SendChunk(begun), name, fs[name], 1, MAXRETRANS);
  }

  /** What a sender does with one reply. */
  function Reply(s: State, ack: bool): State {
    if ack then AckStep(s).0 else NakStep(s).0
  }

  function Replied(s: State, acks: seq<bool>): State
    decreases |acks|
  {
    if acks == [] then s else Replied(Reply(s, acks[0]), acks[1..])
  }

  /** Every reply ends the session or brings it forward: fewer packets are left, or as many with fewer retries. */
  lemma ReplyDecreases(s: State, name: Name, content: seq<Byte>, k: nat, ack: bool)
    requires Sending(s, name, content, k) && k < 0x1_0000
    ensures var t := Reply(s, ack);
            || Idle(t)
            || (Sending(t, name, content, k + 1) && t.retrans == MAXRETRANS)
            || (Sending(t, name, content, k) && t.store == s.store && 0 < t.retrans < s.retrans)
  {
    hide Crc, AckStep, NakStep, Sending;
    if ack {
      AckAdvances(s, name, content, k);
    } else {
      NakRepeats(s, name, content, k);
    }
  }

  function Effort(content: seq<Byte>, k: nat, retrans: int): int {
    (MAXRETRANS + 1) * (NumPackets(content) - k) + Positive(retrans) + 1
  }

  /** So whatever the order of acknowledgements and refusals, the sender stays on its file and the session ends. */
  lemma {:induction false} RepliesEndSession(s: State, name: Name, content: seq<Byte>, k: nat, acks: seq<bool>)
    requires Sending(s, name, content, k) && NumPackets(content) < 0x1_0000
    ensures var t := Replied(s, acks);
            Idle(t) || (Sending(t, name, content, t.packetno) && t.packetno >= k)
    ensures |acks| >= Effort(content, k, s.retrans) ==> Idle(Replied(s, acks))
    decreases |acks|
  {
    hide Crc, Reply, Sending;
    SendingNumber(s, name, content, k);
    if acks != [] {
      var t := Reply(s, acks[0]);
      ReplyDecreases(s, name, content, k, acks[0]);
      if Sending(t, name, content, k + 1) {
        SendingNumber(t, name, content, k + 1);
      } else if Sending(t, name, content, k) {
        SendingNumber(t, name, content, k);
      }
      if Idle(t) {
        IdleStays(t, acks[1..]);
      } else {
        RepliesEndSession(t, name, content, t.packetno, acks[1..]);
      }
    }
  }

  lemma SendingNumber(s: State, name: Name, content: seq<Byte>, k: nat)
    requires Sending(s, name, content, k) && NumPackets(content) < 0x1_0000
    ensures s.packetno == k && 1 <= k <= NumPackets(content) && s.isTransmitting
  {
    hide Crc, Chunk;
  }

  lemma {:induction false} IdleStays(s: State, acks: seq<bool>)
    requires Idle(s)
    ensures Idle(Replied(s, acks))
    decreases |acks|
  {
    if acks != [] {
      IdleStays(Reply(s, acks[0]), acks[1..]);
    }
  }

  // ---------- The receiver on a channel that loses, repeats and reorders packets

  /** The adapter after handling a list of packets, in whatever order and number they arrive. `openOk` says of each
      whether the file system would let a file be opened. */
  function Handled(s: State, ps: seq<Packet>, openOk: nat -> bool): State {
    if ps == [] then s else Step(Handled(s, ps[..|ps| - 1], openOk), ps[|ps| - 1], openOk(|ps| - 1)).0
  }

  predicate Ends(p: Packet) {
    p.control == EOT || p.control == CAN
  }

  /** All of one session: after an end, no packet that would open another. */
  predicate OneSession(ps: seq<Packet>) {
    forall i, j :: 0 <= i < j < |ps| && Ends(ps[i]) ==> !(IsData(ps[j]) && ps[j].seqno == 0)
  }

  predicate HasEnded(ps: seq<Packet>) {
    exists i :: 0 <= i < |ps| && Ends(ps[i])
  }

  predicate HasCancel(ps: seq<Packet>) {
    exists i :: 0 <= i < |ps| && ps[i].control == CAN
  }

  predicate IsData(p: Packet) {
    p.control == SOH || p.control == STX
  }

  /** An intact packet with the number of the one that is (i + 1)-th. */
  predicate Picked(ps: seq<Packet>, k: nat, i: nat) {
    k < |ps| && IsData(ps[k]) && ps[k].seqno == Number(i + 1) && Valid(ps[k])
  }

  predicate Ascending(acc: seq<nat>) {
    forall i, j :: 0 <= i < j < |acc| ==> acc[i] < acc[j]
  }

  /** acc picks, in order of arrival, one intact packet for each of the sequence numbers 1, 2, ..., in 16 bits. */
  predicate Picks(ps: seq<Packet>, acc: seq<nat>) {
    Ascending(acc) && forall i :: 0 <= i < |acc| ==> Picked(ps, acc[i], i)
  }

  function Payloads(ps: seq<Packet>, acc: seq<nat>): seq<Byte>
    requires forall i :: 0 <= i < |acc| ==> acc[i] < |ps|
  {
    if acc == [] then [] else Payloads(ps, acc[..|acc| - 1]) + ps[acc[|acc| - 1]].buffer
  }

  predicate SessionBegun(s: State) {
    && s.isReceiving && !s.isTransmitting && s.packetno == 1
    && s.file == Writing(CString(s.filename)) && s.file.name in s.fs
  }

  lemma {:induction false} PayloadsOfLonger(ps: seq<Packet>, more: seq<Packet>, acc: seq<nat>)
    requires forall i :: 0 <= i < |acc| ==> acc[i] < |ps|
    ensures Payloads(ps + more, acc) == Payloads(ps, acc)
  {
    if acc != [] {
      PayloadsOfLonger(ps, more, acc[..|acc| - 1]);
    }
  }

  /** In a session or, with the file closed, after its end. */
  predicate InSession(t: State) {
    !t.isTransmitting && t.file == (if t.isReceiving then Writing(CString(t.filename)) else Closed)
    && (t.isReceiving ==> CString(t.filename) in t.fs)
  }

  predicate Accepts(t: State, p: Packet) {
    t.isReceiving && IsData(p) && p.seqno == t.packetno && Valid(p)
  }

  lemma IdleReplies(t: State)
    requires !t.isTransmitting
    ensures AckStep(t).0 == NakStep(t).0 == t.(store := ControlPacket(CAN))
  {
  }

  /** One packet: appended if it is intact and the next in number, otherwise without effect on the file, but for CAN, which
      removes it. */
  lemma StepInSession(t: State, p: Packet, openOk: bool)
    requires InSession(t) && (!t.isReceiving ==> !(IsData(p) && p.seqno == 0))
    ensures var u := Step(t, p, openOk).0;
            var name := CString(t.filename);
            && InSession(u) && u.filename == t.filename && (u.isReceiving <==> t.isReceiving && !Ends(p))
            && u.packetno == (if Accepts(t, p) then Number(t.packetno + 1) else t.packetno)
            && (name in u.fs <==> name in t.fs && p.control != CAN)
            && var bytes := if Accepts(t, p) then p.buffer[..Min(|p.buffer|, t.free)] else [];
            && (name in u.fs ==> u.fs[name] == t.fs[name] + bytes && u.free == t.free - |bytes|)
  {
    hide Crc, CString, AckStep, NakStep, OpenStep, Size;
    IdleReplies(t);
  }

  lemma PickOneMore(front: seq<Packet>, p: Packet, acc: seq<nat>)
    requires Picks(front, acc)
    ensures Picks(front + [p], acc) && Payloads(front + [p], acc) == Payloads(front, acc)
    ensures IsData(p) && p.seqno == Number(|acc| + 1) && Valid(p) ==>
              && Picks(front + [p], acc + [|front|])
              && Payloads(front + [p], acc + [|front|]) == Payloads(front, acc) + p.buffer
  {
    hide Valid, Number, IsData, Ascending;
    PicksInRange(front, acc);
    PayloadsOfLonger(front, [p], acc);
    var ps, more := front + [p], acc + [|front|];
    assert forall i :: 0 <= i < |acc| ==> Picked(ps, acc[i], i) by {
      assert forall i :: 0 <= i < |acc| ==> Picked(front, acc[i], i);
    }
    AscendingMore(acc, |front|);
    if IsData(p) && p.seqno == Number(|acc| + 1) && Valid(p) {
      assert more[..|acc|] == acc;
      assert Picked(ps, more[|acc|], |acc|);
    }
  }

  lemma AscendingMore(acc: seq<nat>, k: nat)
    requires Ascending(acc) && forall i :: 0 <= i < |acc| ==> acc[i] < k
    ensures Ascending(acc + [k])
  {
  }

  lemma PicksFront(ps: seq<Packet>, acc: seq<nat>)
    requires Picks(ps, acc) && acc != []
    ensures Picks(ps, acc[..|acc| - 1]) && Picked(ps, acc[|acc| - 1], |acc| - 1)
  {
    hide Picked;
    var front := acc[..|acc| - 1];
    forall i | 0 <= i < |front|
      ensures Picked(ps, front[i], i)
    {
      assert Picked(ps, acc[i], i);
    }
  }

  lemma PicksInRange(ps: seq<Packet>, acc: seq<nat>)
    requires Picks(ps, acc)
    ensures forall i :: 0 <= i < |acc| ==> acc[i] < |ps|
  {
  }

  lemma NothingArrived(s: State)
    requires SessionBegun(s)
    ensures InSession(s) && !HasEnded([]) && !HasCancel([])
    ensures Holds(TargetOf(s), []) == s.fs[s.file.name] && RoomLeft(TargetOf(s), 0) == s.free
  {
  }

  lemma NothingPicked(ps: seq<Packet>)
    ensures Picks(ps, []) && Payloads(ps, []) == [] && Number(1) == 1
  {
  }

  function TargetOf(s: State): Target
    requires SessionBegun(s)
  {
    Target(s.fs[s.file.name], s.free)
  }

  /** At every moment the received file, if it was not removed by CAN, is what was found in it and then, as far as there is
      room, the concatenation of the payloads of exactly one intact packet for each sequence number up to the one before
      packetno, taken in order of arrival. */
  lemma {:induction false} ReceivedOncePerNumber(s: State, ps: seq<Packet>, openOk: nat -> bool) returns (acc: seq<nat>)
    requires SessionBegun(s) && OneSession(ps)
    ensures Picks(ps, acc)
    ensures var t := Handled(s, ps, openOk);
            && InSession(t) && t.filename == s.filename && t.packetno == Number(|acc| + 1)
            && (t.isReceiving <==> !HasEnded(ps)) && (s.file.name in t.fs <==> !HasCancel(ps))
            && (s.file.name in t.fs ==>
                  t.fs[s.file.name] == Holds(TargetOf(s), Payloads(ps, acc))
                  && t.free == RoomLeft(TargetOf(s), |Payloads(ps, acc)|))
  {
    hide Valid, CString, Step, Picks, Payloads, Number, Ends, HasEnded, HasCancel, OneSession, InSession, Holds, RoomLeft;
    if ps == [] {
      acc := [];
      NothingPicked(ps);
      NothingArrived(s);
    } else {
      var front, p := ps[..|ps| - 1], ps[|ps| - 1];
      assert ps == front + [p];
      EndedMore(front, p);
      acc := ReceivedOncePerNumber(s, front, openOk);
      var t := Handled(s, front, openOk);
      StepInSession(t, p, openOk(|front|));
      PickOneMore(front, p, acc);
      NextNumber(|acc| + 1);
      PicksInRange(front, acc);
      var payloads := Payloads(front, acc);
      if Accepts(t, p) {
        HoldsMore(TargetOf(s), payloads, p.buffer);
        acc := acc + [|front|];
      } else if s.file.name in t.fs {
        assert t.fs[s.file.name] + [] == t.fs[s.file.name];
      }
    }
  }

  lemma EndedMore(front: seq<Packet>, p: Packet)
    ensures HasEnded(front + [p]) <==> HasEnded(front) || Ends(p)
    ensures HasCancel(front + [p]) <==> HasCancel(front) || p.control == CAN
    ensures OneSession(front + [p]) ==> OneSession(front) && (HasEnded(front) ==> !(IsData(p) && p.seqno == 0))
  {
    var ps := front + [p];
    assert ps[|front|] == p;
    assert forall i :: 0 <= i < |front| ==> ps[i] == front[i];
    if HasEnded(front) {
      var i :| 0 <= i < |front| && Ends(front[i]);
      assert Ends(ps[i]);
    }
    if HasCancel(front) {
      var i :| 0 <= i < |front| && front[i].control == CAN;
      assert ps[i].control == CAN;
    }
    if HasEnded(ps) && !Ends(p) {
      var i :| 0 <= i < |ps| && Ends(ps[i]);
      assert Ends(front[i]);
    }
    if HasCancel(ps) && p.control != CAN {
      var i :| 0 <= i < |ps| && ps[i].control == CAN;
      assert front[i].control == CAN;
    }
  }

  /** If every intact data packet k carries chunk k of a file that 16-bit numbers can count, what was received is a prefix
      of the source at every moment. */
  lemma ReceivedIsPrefix(s: State, ps: seq<Packet>, openOk: nat -> bool, content: seq<Byte>) returns (n: nat)
    requires SessionBegun(s) && OneSession(ps) && NumPackets(content) < 0x1_0000
    requires forall i :: 0 <= i < |ps| && IsData(ps[i]) && Valid(ps[i]) ==>
               1 <= ps[i].seqno <= NumPackets(content) && ps[i].buffer == Chunk(content, ps[i].seqno)
    ensures n <= NumPackets(content)
    ensures var t := Handled(s, ps, openOk);
            && t.packetno == Number(n + 1) && (s.file.name in t.fs <==> !HasCancel(ps))
            && (s.file.name in t.fs ==> t.fs[s.file.name] == Holds(TargetOf(s), content[..Sent(content, n)]))
            && (s.file.name in t.fs && s.fs[s.file.name] == [] ==> t.fs[s.file.name] <= content)
  {
    hide Crc, CString, Handled, Number;
    var acc := ReceivedOncePerNumber(s, ps, openOk);
    PickedChunks(ps, acc, content);
    n := |acc|;
  }

  lemma {:induction false} PickedChunks(ps: seq<Packet>, acc: seq<nat>, content: seq<Byte>)
    requires Picks(ps, acc) && NumPackets(content) < 0x1_0000
    requires forall i :: 0 <= i < |ps| && IsData(ps[i]) && Valid(ps[i]) ==>
               1 <= ps[i].seqno <= NumPackets(content) && ps[i].buffer == Chunk(content, ps[i].seqno)
    ensures |acc| <= NumPackets(content) && Payloads(ps, acc) == content[..Sent(content, |acc|)]
  {
    hide Crc, Number, Chunk;
    if acc != [] {
      PicksFront(ps, acc);
      PickedChunks(ps, acc[..|acc| - 1], content);
      SmallNumber(|acc|);
      assert ps[acc[|acc| - 1]].seqno == |acc|;
      ChunkExtendsPrefix(content, |acc|);
    }
  }

  /** Whatever arrives, and whichever files can be opened, an adapter is never receiving and transmitting at once. */
  lemma {:induction false} NeverBothHalves(s: State, ps: seq<Packet>, openOk: nat -> bool)
    requires !(s.isReceiving && s.isTransmitting)
    ensures !(Handled(s, ps, openOk).isReceiving && Handled(s, ps, openOk).isTransmitting)
  {
    hide Crc, CString, SendChunk;
    if ps != [] {
      NeverBothHalves(s, ps[..|ps| - 1], openOk);
      StepKeepsHalves(Handled(s, ps[..|ps| - 1], openOk), ps[|ps| - 1], openOk(|ps| - 1));
    }
  }

  lemma StepKeepsHalves(s: State, p: Packet, openOk: bool)
    requires !(s.isReceiving && s.isTransmitting)
    ensures !(Step(s, p, openOk).0.isReceiving && Step(s, p, openOk).0.isTransmitting)
  {
    hide Crc, CString;
  }
}
