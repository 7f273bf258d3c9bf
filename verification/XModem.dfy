/** The XModem adapter: one object that can receive a file from, or transmit a file to, its peer.

    `Step` says what handling one packet does to the whole state; `XModemAdapter.HandlePacket` is the program's method,
    field by field, proved to do exactly that. */
module XModem {
  import opened Common
  import opened Crc16

  const BUFFER_SIZE: nat := 128
  const MAXRETRANS: int := 25

  type Uint16 = n: nat | n < 0x1_0000

  datatype Control = NUL | SOH | STX | EOT | ACK | NAK | CAN | CTRLZ

  /** A packet. The buffer holds at most BUFFER_SIZE bytes, the bound of the wire format. */
  datatype RawPacket = Packet(control: Control, seqno: Uint16, crc16: bv16, buffer: seq<Byte>)
  type Packet = p: RawPacket | |p.buffer| <= BUFFER_SIZE witness Packet(NUL, 0, 0, [])

  const INIT_ZERO: Packet := Packet(NUL, 0, 0, [])

  type Name = seq<Byte>
  type FileSystem = map<Name, seq<Byte>>

  datatype File = Closed | Writing(name: Name) | Reading(name: Name, pos: nat)

  datatype State = State(
    isReceiving: bool,
    isTransmitting: bool,
    isEOT: bool,
    retrans: int,
    packetno: Uint16,
    file: File,
    filename: seq<Byte>,
    store: Packet,
    fs: FileSystem,
    free: nat,         // bytes that can still be written
    truncates: bool)   // whether the platform empties a file that is opened for writing, or else writes to its end

  /** The adapter as it is declared. */
  function Initial(fs: FileSystem, free: nat, truncates: bool): State {
    State(false, false, false, MAXRETRANS, 0, Closed, seq(BUFFER_SIZE, _ => 0), INIT_ZERO, fs, free, truncates)
  }

  /** A memcpy to the start of the file name buffer: what lies beyond the copied bytes stays. */
  function Overlay(buffer: seq<Byte>, bytes: seq<Byte>): seq<Byte> {
    bytes + buffer[Min(|bytes|, |buffer|)..]
  }

  /** The bytes before the first zero byte. */
  function CString(s: seq<Byte>): Name {
    if s == [] || s[0] == 0 then [] else [s[0]] + CString(s[1..])
  }

  /** What a read of one buffer from position pos yields; nothing past the end. */
  function ReadAt(content: seq<Byte>, pos: nat): (r: seq<Byte>)
    ensures |r| <= BUFFER_SIZE
  {
    content[Min(pos, |content|)..Min(pos + BUFFER_SIZE, |content|)]
  }

  /** The bytes read through the handle; a closed or vanished file yields none. */
  function ReadFile(file: File, fs: FileSystem): (r: seq<Byte>)
    ensures |r| <= BUFFER_SIZE
  {
    if file.Reading? && file.name in fs then ReadAt(fs[file.name], file.pos) else []
  }

  function Advance(file: File, count: nat): File {
    if file.Reading? then file.(pos := file.pos + count) else file
  }

  /** (packetno - 1) * sizeof(bytes) in 32-bit unsigned arithmetic. */
  function SeekOffset(packetno: Uint16): nat {
    if packetno == 0 then TWO32 - BUFFER_SIZE else (packetno - 1) * BUFFER_SIZE
  }

  function Seek(file: File, pos: nat): File {
    if file.Reading? then file.(pos := pos) else file
  }

  function Write(file: File, fs: FileSystem, bytes: seq<Byte>): FileSystem {
    if file.Writing? && file.name in fs then fs[file.name := fs[file.name] + bytes] else fs
  }

  /** How much of it a write through the handle stores; the program does not look at the number. */
  function Taken(file: File, fs: FileSystem, free: nat, bytes: seq<Byte>): (count: nat)
    ensures count <= |bytes| && count <= free
  {
    if file.Writing? && file.name in fs then Min(|bytes|, free) else 0
  }

  function ControlPacket(c: Control): Packet {
    INIT_ZERO.(control := c)
  }

  function DataPacket(packetno: Uint16, bytes: seq<Byte>): Packet
    requires |bytes| <= BUFFER_SIZE
  {
    Packet(SOH, packetno, Crc(bytes), bytes)
  }

  predicate Valid(p: Packet) {
    Crc(p.buffer) == p.crc16
  }

  /** Puts the next buffer of the file into the outgoing packet, and remembers whether it was the last one. */
  function SendChunk(s: State): State {
    var bytes := ReadFile(s.file, s.fs);
    s.(store := DataPacket(s.packetno, bytes),
       file := Advance(s.file, |bytes|),
       isEOT := s.isEOT || |bytes| < BUFFER_SIZE)
  }

  /** A packet with sequence number 0 names the file and starts a session. */
  function OpenStep(s: State, p: Packet, openOk: bool): (State, bool) {
    var filename := Overlay(s.filename, p.buffer);
    var name := CString(filename);
    if p.control == SOH then
      if openOk then
        (s.(filename := filename, fs := s.fs[name := Opened(s.fs, name, s.truncates)],
            free := s.free + Size(s.fs, name) - |Opened(s.fs, name, s.truncates)|, file := Writing(name),
            store := ControlPacket(ACK), isReceiving := true, packetno := 1), true)
      else (s.(filename := filename, file := Closed, store := ControlPacket(NAK), isReceiving := false), true)
    else if openOk && name in s.fs then
      (SendChunk(s.(filename := filename, file := Reading(name, 0), packetno := 1, isTransmitting := true)), true)
    else (s.(filename := filename, file := Closed, store := ControlPacket(NAK), isTransmitting := false), true)
  }

  /** A data packet in the middle of a session. */
  function DataStep(s: State, p: Packet): (State, bool) {
    if s.isReceiving then
      if p.seqno == s.packetno && Valid(p) then
        var count := Taken(s.file, s.fs, s.free, p.buffer);
        (s.(fs := Write(s.file, s.fs, p.buffer[..count]), free := s.free - count, store := ControlPacket(ACK),
            packetno := (s.packetno + 1) % 0x1_0000), true)
      else
        (s.(store := ControlPacket(NAK)), true)
    else if s.isTransmitting then (s.(store := ControlPacket(CAN), isTransmitting := false), true)
    else (s, false)
  }

  function AckStep(s: State): (State, bool) {
    if !s.isTransmitting then (s.(store := ControlPacket(CAN)), true)
    else if s.isEOT then
      (s.(store := ControlPacket(EOT), file := Closed, isTransmitting := false, isEOT := false), true)
    else
      (SendChunk(s.(retrans := MAXRETRANS, packetno := (s.packetno + 1) % 0x1_0000)), true)
  }

  function NakStep(s: State): (State, bool) {
    if !s.isTransmitting then (s.(store := ControlPacket(CAN)), true)
    else if s.retrans - 1 <= 0 then
      (s.(retrans := s.retrans - 1, store := ControlPacket(CAN), file := Closed, isTransmitting := false), true)
    else
      (SendChunk(s.(retrans := s.retrans - 1, file := Seek(s.file, SeekOffset(s.packetno)))), true)
  }

  /** Handling one packet. The second result says whether an outgoing packet was announced. The environment's `openOk`
      says whether the file system lets a file be opened. */
  function Step(s: State, p: Packet, openOk: bool): (State, bool) {
    match p.control
    case SOH | STX =>
      if p.seqno == 0 && !s.isReceiving && !s.isTransmitting then OpenStep(s, p, openOk) else DataStep(s, p)
    case EOT =>
      (s.(store := ControlPacket(ACK), file := Closed, isReceiving := false), true)
    case CAN =>
      (s.(store := ControlPacket(ACK), file := Closed, fs := s.fs - {CString(s.filename)},
          free := s.free + Size(s.fs, CString(s.filename)), isReceiving := false), true)
    case ACK => AckStep(s)
    case NAK => NakStep(s)
    case NUL | CTRLZ => (s, false)
  }

  // ---------- What the steps come to

  lemma {:induction false} CStringIs(s: seq<Byte>, n: nat)
    requires n <= |s| && (n < |s| ==> s[n] == 0) && forall i :: 0 <= i < n ==> s[i] != 0
    ensures CString(s) == s[..n]
  {
    if n > 0 {
      CStringIs(s[1..], n - 1);
      assert s[..n] == [s[0]] + s[1..][..n - 1];
    }
  }

  /** The name that a packet gives: its bytes up to a zero byte, and if it has none, then the bytes that the name buffer
      still holds beyond them, up to their first zero byte. */
  predicate Gives(p: Packet, buffer: seq<Byte>, name: Name) {
    if |name| < |p.buffer| then
      p.buffer[..|name|] == name && p.buffer[|name|] == 0 && 0 !in name
    else
      |p.buffer| <= |name| <= |buffer| && name == p.buffer + buffer[|p.buffer|..|name|] && 0 !in name
      && (|name| < |buffer| ==> buffer[|name|] == 0)
  }

  lemma NameGiven(p: Packet, buffer: seq<Byte>, name: Name)
    requires Gives(p, buffer, name)
    ensures CString(Overlay(buffer, p.buffer)) == name
  {
    var s := Overlay(buffer, p.buffer);
    assert |name| <= |s| && s[..|name|] == name;
    assert forall i :: 0 <= i < |name| ==> s[i] == name[i];
    CStringIs(s, |name|);
  }

  /** An idle adapter opens the file that the packet names: SOH to write it, STX to read it from its start if it is there.
      If that fails it refuses, and CAN in the session removes that file. */
  lemma OpensNamedFile(s: State, p: Packet, name: Name, openOk: bool)
    requires !s.isReceiving && !s.isTransmitting && (p.control == SOH || p.control == STX) && p.seqno == 0
    requires Gives(p, s.filename, name)
    ensures var t := Step(s, p, openOk).0;
            && (p.control == SOH && openOk ==>
                  t.file == Writing(name) && t.isReceiving && !t.isTransmitting && t.packetno == 1
                  && t.fs == s.fs[name := if s.truncates || name !in s.fs then [] else s.fs[name]]
                  && t.store == Packet(ACK, 0, 0, []))
            && (p.control == STX && openOk && name in s.fs ==>
                  t.file == Reading(name, if |s.fs[name]| < 128 then |s.fs[name]| else 128) && t.isTransmitting
                  && !t.isReceiving && t.packetno == 1 && t.fs == s.fs)
            && (!openOk || (p.control == STX && name !in s.fs) ==>
                  t.file == Closed && !t.isReceiving && !t.isTransmitting && t.store == Packet(NAK, 0, 0, [])
                  && t.fs == s.fs)
    ensures var t := Step(s, p, openOk).0;
            forall c: Packet :: c.control == CAN ==> Step(t, c, true).0.fs == t.fs - {name}
  {
    hide Crc, Overlay, CString, Gives;
    NameGiven(p, s.filename, name);
  }

  /** EOT and CAN are acknowledged and end a reception; CAN removes the file and gives back its bytes. */
  lemma EndsReception(s: State, p: Packet, openOk: bool)
    requires p.control == EOT || p.control == CAN
    ensures var t := Step(s, p, openOk).0;
            && t.store == Packet(ACK, 0, 0, []) && t.file == Closed && !t.isReceiving
            && (t.isTransmitting, t.isEOT, t.retrans, t.packetno, t.filename)
               == (s.isTransmitting, s.isEOT, s.retrans, s.packetno, s.filename)
            && (p.control == EOT ==> t.fs == s.fs && t.free == s.free)
            && (p.control == CAN ==>
                  forall name :: name in t.fs <==> name in s.fs && name != CString(s.filename))
            && (p.control == CAN ==> forall name :: name in t.fs ==> t.fs[name] == s.fs[name])
            && (p.control == CAN && CString(s.filename) in s.fs ==> t.free == s.free + |s.fs[CString(s.filename)]|)
  {
    hide CString;
  }

  /** What does not belong to the session is answered with CAN, or not at all. */
  lemma StrayPackets(s: State, p: Packet, openOk: bool)
    ensures !s.isTransmitting && (p.control == ACK || p.control == NAK) ==>
              Step(s, p, openOk).0 == s.(store := Packet(CAN, 0, 0, []))
    ensures s.isTransmitting && !s.isReceiving && (p.control == SOH || p.control == STX) ==>
              Step(s, p, openOk).0 == s.(store := Packet(CAN, 0, 0, []), isTransmitting := false)
    ensures p.control == NUL || p.control == CTRLZ ==> Step(s, p, openOk).0 == s
    ensures !s.isTransmitting && !s.isReceiving && (p.control == SOH || p.control == STX) && p.seqno != 0 ==>
              Step(s, p, openOk).0 == s
    ensures Step(s, p, openOk).1 <==>
              p.control != NUL && p.control != CTRLZ
              && ((p.control == SOH || p.control == STX) && p.seqno != 0 ==> s.isReceiving || s.isTransmitting)
  {
    hide Crc, CString, Overlay;
  }

  /** The seek is 32-bit arithmetic, for every 16-bit packet number. */
  lemma SeekWraps(packetno: Uint16)
    ensures SeekOffset(packetno) == (packetno as int - 1) * 128 % 0x1_0000_0000
  {
  }

  class XModemAdapter {
    var isReceiving: bool
    var isTransmitting: bool
    var isEOT: bool
    var retrans: int
    var packetno: Uint16
    var file: File
    var filename: seq<Byte>
    var xmodemStore: Packet
    var fs: FileSystem
    var free: nat
    const truncates: bool

    function View(): State
      reads this
    {
      State(isReceiving, isTransmitting, isEOT, retrans, packetno, file, filename, xmodemStore, fs, free, truncates)
    }

    constructor (fs: FileSystem, free: nat, truncates: bool)
      ensures View() == Initial(fs, free, truncates)
    {
      isReceiving, isTransmitting, isEOT := false, false, false;
      retrans, packetno := MAXRETRANS, 0;
      file, filename := Closed, seq(BUFFER_SIZE, _ => 0);
      xmodemStore := INIT_ZERO;
      this.fs, this.free := fs, free;
      this.truncates := truncates;
    }

    method SendControl(c: Control) returns (ready: bool)
      modifies this`xmodemStore
      ensures ready && xmodemStore == ControlPacket(c)
    {
      xmodemStore := INIT_ZERO;
      xmodemStore := xmodemStore.(control := c);
      ready := true;
    }

    /** Reads the next buffer of the file into the outgoing packet. */
    method SendNextChunk() returns (ready: bool)
      modifies this`xmodemStore, this`file, this`isEOT
      ensures ready && View() == SendChunk(old(View()))
    {
      xmodemStore := INIT_ZERO;
      xmodemStore := xmodemStore.(control := SOH, seqno := packetno);
      var bytes := ReadFile(file, fs);
      file := Advance(file, |bytes|);
      var crc := ComputeCrc(bytes);
      xmodemStore := xmodemStore.(buffer := bytes, crc16 := crc);
      if |xmodemStore.buffer| < BUFFER_SIZE {
        isEOT := true;
      }
      ready := true;
    }

    method Check(buf: seq<Byte>, tcrc: bv16) returns (ok: bool)
      ensures ok == (Crc(buf) == tcrc)
    {
      var crc := ComputeCrc(buf);
      ok := crc == tcrc;
    }

    method HandleOpen(p: Packet, openOk: bool) returns (ready: bool)
      requires p.control == SOH || p.control == STX
      modifies this
      ensures (View(), ready) == OpenStep(old(View()), p, openOk)
    {
      hide Crc, Opened, Size, Overlay, CString;
      filename := Overlay(filename, p.buffer);
      var name := CString(filename);
      if p.control == SOH {
        file := if openOk then Writing(name) else Closed;
        if file != Closed {
          free := free + Size(fs, name) - |Opened(fs, name, truncates)|;
          fs := fs[name := Opened(fs, name, truncates)];
          ready := SendControl(ACK);
          isReceiving := true;
          packetno := 1;
        } else {
          ready := SendControl(NAK);
          isReceiving := false;
        }
      } else {
        file := if openOk && name in fs then Reading(name, 0) else Closed;
        if file != Closed {
          packetno := 1;
          isTransmitting := true;
          ready := SendNextChunk();
        } else {
          ready := SendControl(NAK);
          isTransmitting := false;
        }
      }
    }

    method HandleData(p: Packet) returns (ready: bool)
      modifies this
      ensures (View(), ready) == DataStep(old(View()), p)
    {
      hide Crc;
      ready := false;
      if isReceiving {
        var ok := Check(p.buffer, p.crc16);
        if p.seqno == packetno && ok {
          var count := Taken(file, fs, free, p.buffer);
          fs := Write(file, fs, p.buffer[..count]);
          free := free - count;
          ready := SendControl(ACK);
          packetno := (packetno + 1) % 0x1_0000;
        } else {
          ready := SendControl(NAK);
        }
      } else if isTransmitting {
        ready := SendControl(CAN);
        isTransmitting := false;
      }
    }

    method HandleAck() returns (ready: bool)
      modifies this
      ensures (View(), ready) == AckStep(old(View()))
    {
      hide Crc;
      if isTransmitting {
        if isEOT {
          ready := SendControl(EOT);
          file := Closed;
          isTransmitting := false;
          isEOT := false;
        } else {
          retrans := MAXRETRANS;
          packetno := (packetno + 1) % 0x1_0000;
          ready := SendNextChunk();
        }
      } else {
        ready := SendControl(CAN);
      }
    }

    method HandleNak() returns (ready: bool)
      modifies this
      ensures (View(), ready) == NakStep(old(View()))
    {
      hide Crc;
      if isTransmitting {
        retrans := retrans - 1;
        if retrans <= 0 {
          ready := SendControl(CAN);
          file := Closed;
          isTransmitting := false;
        } else {
          file := Seek(file, SeekOffset(packetno));
          ready := SendNextChunk();
        }
      } else {
        ready := SendControl(CAN);
      }
    }

    /** The program's one entry point; the four methods above are the arms of its switch. */
    method HandlePacket(p: Packet, openOk: bool) returns (ready: bool)
      modifies this
      ensures (View(), ready) == Step(old(View()), p, openOk)
    {
      hide Crc, OpenStep, DataStep, AckStep, NakStep;
      ready := false;
      match p.control
      case SOH | STX =>
        if p.seqno == 0 && !isReceiving && !isTransmitting {
          ready := HandleOpen(p, openOk);
        } else {
          ready := HandleData(p);
        }
      case EOT =>
        ready := SendControl(ACK);
        file := Closed;
        isReceiving := false;
      case CAN =>
        ready := SendControl(ACK);
        file := Closed;
        free := free + Size(fs, CString(filename));
        fs := fs - {CString(filename)};
        isReceiving := false;
      case ACK =>
        ready := HandleAck();
      case NAK =>
        ready := HandleNak();
      case NUL | CTRLZ =>
    }
  }
}
