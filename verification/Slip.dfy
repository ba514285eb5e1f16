/** The chunked SLIP reader of the browser installer (`slip-reader.js`, RFC 1055).

    `Scan` is the decoder as a function of the byte stream; the reader, with its
    chunks, its doubling packet buffer and its put-back of unread bytes, is proved
    to compute it whatever the chunking, and `Scan` to invert the encoding. */
module Slip {

  import opened Common

  const END: byte := 0xc0
  const ESC: byte := 0xdb
  const ESC_END: byte := 0xdc
  const ESC_ESC: byte := 0xdd

  const START_SIZE: nat := 4096
  const MAX_SIZE: nat := 65536

  datatype Fault = TimedOut | InvalidPacket | InvalidEscape | TooLarge

  datatype Result = Packet(bytes: seq<byte>) | Fault(fault: Fault)

  /** Where the decoder is between two bytes. */
  datatype Progress = Waiting | Reading(packet: seq<byte>, escaping: bool)

  /** One byte: go on, finish the packet, or fail. */
  datatype Move = More(progress: Progress) | Ends(packet: seq<byte>) | Fails(fault: Fault)

  function Append(packet: seq<byte>, b: byte): Move {
    if |packet| >= MAX_SIZE then Fails(TooLarge) else More(Reading(packet + [b], false))
  }

  function Take(p: Progress, b: byte): Move {
    match p
    case Waiting => if b == END then More(Reading([], false)) else Fails(InvalidPacket)
    case Reading(packet, true) =>
      if b == ESC_END then Append(packet, END)
      else if b == ESC_ESC then Append(packet, ESC)
      else Fails(InvalidEscape)
    case Reading(packet, false) =>
      if b == ESC then More(Reading(packet, true))
      else if b == END then Ends(packet)
      else Append(packet, b)
  }

  /** The outcome on a whole stream, with the bytes left unread after a packet. */
  datatype Outcome = Done(packet: seq<byte>, rest: seq<byte>) | Broken(fault: Fault) | Hungry(progress: Progress)

  function Scan(p: Progress, stream: seq<byte>): Outcome
    decreases |stream|
  {
    if stream == [] then Hungry(p)
    else
      match Take(p, stream[0])
      case More(next) => Scan(next, stream[1..])
      case Ends(packet) => Done(packet, stream[1..])
      case Fails(fault) => Broken(fault)
  }

  // ----- the reader ----------------------------------------------------------------------

  function Flatten(chunks: seq<seq<byte>>): seq<byte>
    decreases |chunks|
  {
    if chunks == [] then [] else chunks[0] + Flatten(chunks[1..])
  }

  /** `transport`: the unread buffer, and the chunks the serial reader will put into it
      each time it is found empty (none left: the wait times out). */
  class Transport {
    var buffer: seq<byte>
    var arrivals: seq<seq<byte>>

    constructor (buffer: seq<byte>, arrivals: seq<seq<byte>>)
      ensures this.buffer == buffer && this.arrivals == arrivals
    {
      this.buffer, this.arrivals := buffer, arrivals;
    }

    /** Everything the reader has yet to see. */
    function Pending(): seq<byte>
      reads this
    {
      buffer + Flatten(arrivals)
    }

    method AwaitBytes() returns (ok: bool)
      modifies this
      ensures Pending() == old(Pending())
      ensures ok <==> buffer != []
      ensures !ok ==> Pending() == []
      ensures |arrivals| <= old(|arrivals|)
    {
      while buffer == [] && arrivals != []
        invariant Pending() == old(Pending()) && |arrivals| <= old(|arrivals|)
        decreases |arrivals|
      {
        assert Flatten(arrivals) == arrivals[0] + Flatten(arrivals[1..]);
        buffer, arrivals := arrivals[0], arrivals[1..];
      }
      ok := buffer != [];
    }

    /** Unread bytes of the chunk at hand go back. */
    method PutBack(rest: seq<byte>)
      requires buffer == []
      modifies this`buffer
      ensures Pending() == rest + old(Pending())
    {
      buffer := rest;
    }

    /** The serial reader goes on appending while nobody waits: up to `n` chunks come in behind
        whatever is still unread. */
    method Arrive(n: nat)
      modifies this
      ensures Pending() == old(Pending())
    {
      var left := n;
      while left > 0 && arrivals != []
        invariant Pending() == old(Pending())
      {
        assert Flatten(arrivals) == arrivals[0] + Flatten(arrivals[1..]);
        assert buffer + (arrivals[0] + Flatten(arrivals[1..])) == buffer + arrivals[0] + Flatten(arrivals[1..]);
        buffer, arrivals := buffer + arrivals[0], arrivals[1..];
        left := left - 1;
      }
    }
  }

  /** The sizes the packet buffer can have. */
  predicate Capacity(n: nat) {
    n == START_SIZE || n == 2 * START_SIZE || n == 4 * START_SIZE || n == 8 * START_SIZE || n == MAX_SIZE
  }

  /** The packet buffer: `length` bytes used of its capacity. */
  method Store(packet: array<byte>, length: nat, b: byte) returns (ok: bool, larger: array<byte>)
    requires length <= packet.Length && Capacity(packet.Length)
    modifies packet
    ensures ok <==> length < MAX_SIZE
    ensures ok ==> larger.Length > length && larger[..length + 1] == old(packet[..length]) + [b]
    ensures Capacity(larger.Length)
    ensures larger == packet || fresh(larger)
  {
    larger := packet;
    if length == packet.Length {
      if packet.Length >= MAX_SIZE {
        return false, larger;
      }
      larger := new byte[packet.Length * 2](_ => 0);
      for i := 0 to packet.Length
        invariant larger[..i] == packet[..i]
        invariant packet[..] == old(packet[..])
      {
        larger[i] := packet[i];
      }
    }
    larger[length] := b;
    ok := true;
  }

  function View(started: bool, escaping: bool, packet: seq<byte>): Progress {
    if started then Reading(packet, escaping) else Waiting
  }

  /** What a call must return for the outcome of scanning everything pending. */
  ghost predicate Answers(outcome: Outcome, r: Result, pending: seq<byte>) {
    match outcome
    case Done(packet, rest) => r == Packet(packet) && pending == rest
    case Broken(fault) => r == Fault(fault)
    case Hungry(_) => r == Fault(TimedOut)
  }

  ghost predicate InProgress(started: bool, escaping: bool, packet: array<byte>, length: nat) {
    length <= packet.Length && Capacity(packet.Length) && (!started ==> length == 0 && !escaping)
  }

  /** The loop over one chunk: a result, or the packet so far. */
  method ReadChunk(t: Transport, incoming: seq<byte>, buffer: array<byte>, used: nat, begun: bool, escape: bool,
                   ghost outcome: Outcome)
    returns (r: Option<Result>, packet: array<byte>, length: nat, started: bool, escaping: bool)
    requires t.buffer == [] && InProgress(begun, escape, buffer, used)
    requires outcome == Scan(View(begun, escape, buffer[..used]), incoming + t.Pending())
    modifies t`buffer, buffer
    ensures packet == buffer || fresh(packet)
    ensures r.Some? ==> Answers(outcome, r.value, t.Pending())
    ensures r.None? ==> t.buffer == [] && InProgress(started, escaping, packet, length)
    ensures r.None? ==> outcome == Scan(View(started, escaping, packet[..length]), t.Pending())
  {
    packet, length, started, escaping := buffer, used, begun, escape;
    ghost var later, content := t.Pending(), packet[..length];
    assert incoming[0..] == incoming;
    for i := 0 to |incoming|
      invariant InProgress(started, escaping, packet, length) && (packet == buffer || fresh(packet))
      invariant t.buffer == [] && t.Pending() == later
      invariant content == packet[..length]
      invariant outcome == Scan(View(started, escaping, content), incoming[i..] + later)
    {
      var b := incoming[i];
      NextByte(View(started, escaping, content), incoming, i, later);
      if !started {
        if b != END {
          r := Some(Fault(InvalidPacket));
          return;
        }
        started := true;
        continue;
      }
      if escaping {
        if b != ESC_END && b != ESC_ESC {
          r := Some(Fault(InvalidEscape));
          return;
        }
        b := if b == ESC_END then END else ESC;
        escaping := false;
      } else if b == ESC {
        escaping := true;
        continue;
      } else if b == END {
        t.PutBack(incoming[i + 1..]);
        r := Some(Packet(packet[..length]));
        return;
      }
      var ok: bool;
      ok, packet := Store(packet, length, b);
      if !ok {
        r := Some(Fault(TooLarge));
        return;
      }
      length := length + 1;
      content := content + [b];
    }
    assert incoming[|incoming|..] + later == later;
    r := None;
  }

  method ReadSlipPacket(t: Transport) returns (r: Result)
    modifies t
    ensures Answers(Scan(Waiting, old(t.Pending())), r, t.Pending())
  {
    ghost var outcome := Scan(Waiting, t.Pending());
    var packet := new byte[START_SIZE](_ => 0);
    var length: nat, started, escaping := 0, false, false;
    while true
      invariant InProgress(started, escaping, packet, length) && fresh(packet)
      invariant outcome == Scan(View(started, escaping, packet[..length]), t.Pending())
      decreases |t.Pending()|
    {
      var more := t.AwaitBytes();
      if !more {
        return Fault(TimedOut);
      }
      var incoming := t.buffer;
      t.buffer := [];
      var result: Option<Result>;
      assert t.Pending() == Flatten(t.arrivals);
      result, packet, length, started, escaping :=
        ReadChunk(t, incoming, packet, length, started, escaping, outcome);
      if result.Some? {
        return result.value;
      }
    }
  }

  lemma NextByte(p: Progress, incoming: seq<byte>, i: nat, later: seq<byte>)
    requires i < |incoming|
    ensures Scan(p, incoming[i..] + later) ==
      match Take(p, incoming[i])
      case More(next) => Scan(next, incoming[i + 1..] + later)
      case Ends(packet) => Done(packet, incoming[i + 1..] + later)
      case Fails(fault) => Broken(fault)
  {
    assert (incoming[i..] + later)[1..] == incoming[i + 1..] + later;
  }

  // ----- the encoding -----------------------------------------------------------------------

  function EscapeByte(b: byte): seq<byte> {
    if b == END then [ESC, ESC_END] else if b == ESC then [ESC, ESC_ESC] else [b]
  }

  function Escape(packet: seq<byte>): seq<byte>
    decreases |packet|
  {
    if packet == [] then [] else EscapeByte(packet[0]) + Escape(packet[1..])
  }

  function Encode(packet: seq<byte>): seq<byte> {
    [END] + Escape(packet) + [END]
  }

  function EncodeAll(packets: seq<seq<byte>>): seq<byte>
    decreases |packets|
  {
    if packets == [] then [] else Encode(packets[0]) + EncodeAll(packets[1..])
  }

  lemma ScanEscapedByte(acc: seq<byte>, b: byte, tail: seq<byte>)
    ensures Scan(Reading(acc, false), EscapeByte(b) + tail) ==
      if |acc| >= MAX_SIZE then Broken(TooLarge) else Scan(Reading(acc + [b], false), tail)
  {
  }

  /** Escaped bytes are taken in until there are too many. */
  lemma {:induction false} ScanEscaped(acc: seq<byte>, packet: seq<byte>, suffix: seq<byte>)
    requires |acc| <= MAX_SIZE
    ensures Scan(Reading(acc, false), Escape(packet) + suffix) ==
      if |acc| + |packet| > MAX_SIZE then Broken(TooLarge) else Scan(Reading(acc + packet, false), suffix)
    decreases |packet|
  {
    if packet == [] {
      assert Escape(packet) + suffix == suffix && acc + packet == acc;
    } else {
      var tail := Escape(packet[1..]) + suffix;
      assert Escape(packet) + suffix == EscapeByte(packet[0]) + tail;
      ScanEscapedByte(acc, packet[0], tail);
      if |acc| < MAX_SIZE {
        ScanEscaped(acc + [packet[0]], packet[1..], suffix);
        assert acc + [packet[0]] + packet[1..] == acc + packet;
      }
    }
  }

  /** Decoding an encoded packet gives it back and leaves exactly what follows; only
      packets above the supported size are refused. */
  lemma DecodesEncoded(packet: seq<byte>, rest: seq<byte>)
    ensures Scan(Waiting, Encode(packet) + rest) ==
      if |packet| > MAX_SIZE then Broken(TooLarge) else Done(packet, rest)
  {
    var stream := Encode(packet) + rest;
    assert stream[1..] == Escape(packet) + ([END] + rest);
    ScanEscaped([], packet, [END] + rest);
    assert [] + packet == packet;
  }

  /** What a decoder in the middle of a packet must still read to end with `packet`. */
  function Remaining(acc: seq<byte>, escaping: bool, packet: seq<byte>): seq<byte>
    requires acc <= packet && (escaping ==> |acc| < |packet|)
  {
    var tail := Escape(packet[|acc|..]);
    if escaping then tail[1..] + [END] else tail + [END]
  }

  /** After the escape byte: the stream continues the escaped tail. */
  lemma RemainingAfterEscape(acc: seq<byte>, packet: seq<byte>, rest: seq<byte>)
    requires acc <= packet && |acc| < |packet| && (packet[|acc|] == END || packet[|acc|] == ESC)
    ensures Remaining(acc, false, packet) + rest == [ESC] + (Remaining(acc, true, packet) + rest)
  {
  }

  /** After a byte that was stored. */
  lemma RemainingAfterByte(acc: seq<byte>, escaping: bool, packet: seq<byte>, rest: seq<byte>, read: byte)
    requires acc <= packet && |acc| < |packet|
    requires var b := packet[|acc|];
      EscapeByte(b) == if escaping then [ESC, read] else [read]
    ensures Remaining(acc, escaping, packet) + rest ==
      [read] + (Remaining(acc + [packet[|acc|]], false, packet) + rest)
  {
  }

  lemma {:induction false} DoneWasEncoded(acc: seq<byte>, escaping: bool, stream: seq<byte>, packet: seq<byte>, rest: seq<byte>)
    requires |acc| <= MAX_SIZE
    requires Scan(Reading(acc, escaping), stream) == Done(packet, rest)
    ensures |packet| <= MAX_SIZE && acc <= packet
    ensures escaping ==> |acc| < |packet| && (packet[|acc|] == END || packet[|acc|] == ESC)
    ensures stream == Remaining(acc, escaping, packet) + rest
    decreases |stream|
  {
    assert stream == [stream[0]] + stream[1..];
    match Take(Reading(acc, escaping), stream[0])
    case Ends(_) =>
      assert packet[|acc|..] == [];
    case More(next) =>
      DoneWasEncoded(next.packet, next.escaping, stream[1..], packet, rest);
      if next.packet == acc {
        RemainingAfterEscape(acc, packet, rest);
      } else {
        assert next.packet == acc + [packet[|acc|]];
        RemainingAfterByte(acc, escaping, packet, rest, stream[0]);
      }
  }

  /** A stream yields a packet only if it starts with that packet's encoding. */
  lemma OnlyEncodingsDecode(stream: seq<byte>, packet: seq<byte>, rest: seq<byte>)
    ensures Scan(Waiting, stream) == Done(packet, rest) <==>
      |packet| <= MAX_SIZE && stream == Encode(packet) + rest
  {
    if Scan(Waiting, stream) == Done(packet, rest) {
      DoneWasEncoded([], false, stream[1..], packet, rest);
      assert packet[0..] == packet;
      assert stream == [END] + stream[1..];
    }
    DecodesEncoded(packet, rest);
  }

  // ----- the faults -------------------------------------------------------------------------

  predicate BadEscape(suffix: seq<byte>) {
    |suffix| >= 2 && suffix[0] == ESC && suffix[1] != ESC_END && suffix[1] != ESC_ESC
  }

  /** Where escaped bytes stop: at the end, at an END, or at an escape that is cut off or bad. */
  predicate Stops(suffix: seq<byte>) {
    suffix == [] || suffix[0] == END || suffix == [ESC] || BadEscape(suffix)
  }

  /** The bytes of a packet as far as they go, but at most `room` and one. */
  lemma {:induction false} Unescaped(stream: seq<byte>, room: nat) returns (packet: seq<byte>, suffix: seq<byte>)
    ensures stream == Escape(packet) + suffix
    ensures |packet| == room + 1 || (|packet| <= room && Stops(suffix))
    decreases |stream|
  {
    if Stops(stream) {
      packet, suffix := [], stream;
    } else {
      var b := if stream[0] == ESC then (if stream[1] == ESC_END then END else ESC) else stream[0];
      var n := |EscapeByte(b)|;
      assert stream == EscapeByte(b) + stream[n..];
      if room == 0 {
        packet, suffix := [b], stream[n..];
        assert [b][1..] == [] && Escape([b]) == EscapeByte(b);
      } else {
        packet, suffix := Unescaped(stream[n..], room - 1);
        assert ([b] + packet)[1..] == packet && Escape([b] + packet) == EscapeByte(b) + Escape(packet);
        packet := [b] + packet;
      }
    }
  }

  ghost predicate StartsWith(stream: seq<byte>, packet: seq<byte>, suffix: seq<byte>) {
    stream == [END] + (Escape(packet) + suffix)
  }

  lemma ScanStart(stream: seq<byte>, packet: seq<byte>, suffix: seq<byte>)
    requires StartsWith(stream, packet, suffix)
    ensures Scan(Waiting, stream) ==
      if |packet| > MAX_SIZE then Broken(TooLarge) else Scan(Reading(packet, false), suffix)
  {
    assert stream[1..] == Escape(packet) + suffix;
    ScanEscaped([], packet, suffix);
    assert [] + packet == packet;
  }

  lemma ScanStop(packet: seq<byte>, suffix: seq<byte>)
    requires Stops(suffix)
    ensures Scan(Reading(packet, false), suffix) ==
      if BadEscape(suffix) then Broken(InvalidEscape)
      else if suffix == [] then Hungry(Reading(packet, false))
      else if suffix == [ESC] then Hungry(Reading(packet, true))
      else Done(packet, suffix[1..])
  {
  }

  /** Each fault has its cause: a first byte that begins no packet; a bad escape within the
      supported size; or one byte more than that size. */
  lemma FaultsExactly(stream: seq<byte>)
    ensures Scan(Waiting, stream) == Broken(InvalidPacket) <==> stream != [] && stream[0] != END
    ensures Scan(Waiting, stream) == Broken(InvalidEscape) <==>
      exists packet, suffix :: StartsWith(stream, packet, suffix) && |packet| <= MAX_SIZE && BadEscape(suffix)
    ensures Scan(Waiting, stream) == Broken(TooLarge) <==>
      exists packet, suffix :: StartsWith(stream, packet, suffix) && |packet| == MAX_SIZE + 1
  {
    forall packet, suffix | StartsWith(stream, packet, suffix) && |packet| <= MAX_SIZE && BadEscape(suffix)
      ensures Scan(Waiting, stream) == Broken(InvalidEscape)
    {
      ScanStart(stream, packet, suffix);
      ScanStop(packet, suffix);
    }
    forall packet, suffix | StartsWith(stream, packet, suffix) && |packet| == MAX_SIZE + 1
      ensures Scan(Waiting, stream) == Broken(TooLarge)
    {
      ScanStart(stream, packet, suffix);
    }
    if stream != [] && stream[0] == END {
      var packet, suffix := Unescaped(stream[1..], MAX_SIZE);
      assert StartsWith(stream, packet, suffix);
      ScanStart(stream, packet, suffix);
      if |packet| <= MAX_SIZE {
        ScanStop(packet, suffix);
      }
    }
  }

  lemma NextPacket(packets: seq<seq<byte>>, k: nat, tail: seq<byte>)
    requires k < |packets| && |packets[k]| <= MAX_SIZE
    ensures Scan(Waiting, EncodeAll(packets[k..]) + tail) == Done(packets[k], EncodeAll(packets[k + 1..]) + tail)
  {
    var rest := EncodeAll(packets[k + 1..]) + tail;
    assert packets[k..][0] == packets[k] && packets[k..][1..] == packets[k + 1..];
    assert EncodeAll(packets[k..]) + tail == Encode(packets[k]) + rest;
    DecodesEncoded(packets[k], rest);
  }

  /** One call, after up to `early` chunks came in. */
  method ReadOne(t: Transport, early: nat, ghost packet: seq<byte>, ghost rest: seq<byte>) returns (bytes: seq<byte>)
    requires Scan(Waiting, t.Pending()) == Done(packet, rest)
    modifies t
    ensures bytes == packet && t.Pending() == rest
  {
    t.Arrive(early);
    var r := ReadSlipPacket(t);
    bytes := r.bytes;
  }

  /** Successive calls return the packets of the stream, however it is cut into chunks and
      however many of them (`early(k)`) come in before call `k`, and leave exactly what follows. */
  method ReadPackets(t: Transport, ghost packets: seq<seq<byte>>, count: nat, ghost tail: seq<byte>, early: nat -> nat)
      returns (got: seq<seq<byte>>)
    requires count == |packets|
    requires forall p | p in packets :: |p| <= MAX_SIZE
    requires t.Pending() == EncodeAll(packets) + tail
    modifies t
    ensures got == packets && t.Pending() == tail
  {
    got := [];
    for k := 0 to count
      invariant got == packets[..k]
      invariant t.Pending() == EncodeAll(packets[k..]) + tail
    {
      NextPacket(packets, k, tail);
      var bytes := ReadOne(t, early(k), packets[k], EncodeAll(packets[k + 1..]) + tail);
      got := got + [bytes];
    }
  }
}
