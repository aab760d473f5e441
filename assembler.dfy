/**
 * The byte-stream assembler of `_process_messages` (extras/ace.py): the read buffer is cut
 * at each terminator byte, and every cut is dropped, counted as incomplete, stops the scan
 * (checksum mismatch) or is handed on as a complete payload.
 */
module Assembler {
  import opened Frame

  /** What one pass hands on, in order: payloads for `_handle_response`, and connection resets. */
  datatype Event = Deliver(payload: seq<byte>) | Reset

  datatype Assembled = Assembled(rest: seq<byte>, events: seq<Event>, stoppedOnMismatch: bool)

  const MaxIncompleteBeforeReset: nat := 10

  /** `bytearray.find`: the first index of `b`, or -1. */
  function IndexOf(s: seq<byte>, b: byte): (i: int)
    ensures -1 <= i < |s|
  {
    if |s| == 0 then -1
    else if s[0] == b then 0
    else
      var j := IndexOf(s[1..], b);
      if j == -1 then -1 else j + 1
  }

  /** `find` returns the first occurrence, and -1 exactly when there is none. */
  lemma {:induction false} IndexOfSpec(s: seq<byte>, b: byte)
    ensures var i := IndexOf(s, b);
            && (i == -1 <==> b !in s)
            && (0 <= i ==> s[i] == b && b !in s[..i])
  {
    if |s| > 0 && s[0] != b {
      IndexOfSpec(s[1..], b);
      var j := IndexOf(s[1..], b);
      assert s == [s[0]] + s[1..];
      assert j >= 0 ==> s[..j + 1] == [s[0]] + s[1..][..j];
    }
  }

  function Prepend(e: Event, r: Assembled): Assembled
  {
    r.(events := [e] + r.events)
  }

  /**
   * The result of one call of `_process_messages` on `buffer`, with `incomplete`
   * incomplete candidates already counted in this call.
   */
  function Assemble(buffer: seq<byte>, incomplete: nat): Assembled
    decreases |buffer|, 1
  {
    var end := IndexOf(buffer, Terminator);
    if end == -1 then Assembled(buffer, [], false)
    else Step(buffer[..end + 1], buffer[end + 1..], incomplete)
  }

  /** How the scan goes on after classifying one candidate `msg`, with `tail` the bytes after it. */
  function Step(msg: seq<byte>, tail: seq<byte>, incomplete: nat): Assembled
    requires |msg| > 0
    decreases |msg| + |tail|, 0
  {
    match Classify(msg)
    case Dropped => Assemble(tail, incomplete)
    case Incomplete =>
      if incomplete + 1 > MaxIncompleteBeforeReset then Prepend(Reset, Assemble(tail, 0))
      else Assemble(tail, incomplete + 1)
    case Mismatch => Assembled(tail, [], true)
    case Complete(payload) => Prepend(Deliver(payload), Assemble(tail, 0))
  }

  /** What one call leaves behind is a suffix of the buffer. */
  lemma {:induction false} AssembleRestIsSuffix(buffer: seq<byte>, incomplete: nat)
    ensures var r := Assemble(buffer, incomplete);
            |r.rest| <= |buffer| && r.rest == buffer[|buffer| - |r.rest|..]
    decreases |buffer|
  {
    var end := IndexOf(buffer, Terminator);
    if end != -1 {
      var msg, tail := buffer[..end + 1], buffer[end + 1..];
      var r := Assemble(buffer, incomplete);
      assert r == Step(msg, tail, incomplete);
      var c := Classify(msg);
      if !c.Mismatch? {
        var k: nat :=
          if c.Dropped? then incomplete
          else if c.Incomplete? && incomplete + 1 <= MaxIncompleteBeforeReset then incomplete + 1
          else 0;
        assert r.rest == Assemble(tail, k).rest;
        AssembleRestIsSuffix(tail, k);
      }
      SuffixOfSuffix(buffer, end + 1, r.rest);
    }
  }

  lemma SuffixOfSuffix(s: seq<byte>, i: nat, r: seq<byte>)
    requires i <= |s| && |r| <= |s| - i && r == s[i..][|s| - i - |r|..]
    ensures |r| <= |s| && r == s[|s| - |r|..]
  {
  }

  /** Unless the call stopped on a checksum mismatch, no terminator byte is left in the buffer. */
  lemma {:induction false} AssembleConsumesTerminators(buffer: seq<byte>, incomplete: nat)
    ensures var r := Assemble(buffer, incomplete);
            !r.stoppedOnMismatch ==> Terminator !in r.rest
    decreases |buffer|
  {
    var end := IndexOf(buffer, Terminator);
    IndexOfSpec(buffer, Terminator);
    if end != -1 {
      var tail := buffer[end + 1..];
      AssembleConsumesTerminators(tail, 0);
      AssembleConsumesTerminators(tail, incomplete);
      AssembleConsumesTerminators(tail, incomplete + 1);
    }
  }

  /** Every payload handed on is at least 7 bytes (header, length, checksum, terminator) shorter than the buffer. */
  lemma {:induction false} AssembleDeliverBound(buffer: seq<byte>, incomplete: nat)
    ensures forall e :: e in Assemble(buffer, incomplete).events && e.Deliver? ==> |e.payload| + 7 <= |buffer|
    decreases |buffer|
  {
    var end := IndexOf(buffer, Terminator);
    if end != -1 {
      var tail := buffer[end + 1..];
      AssembleDeliverBound(tail, 0);
      AssembleDeliverBound(tail, incomplete);
      AssembleDeliverBound(tail, incomplete + 1);
    }
  }

  lemma IndexOfFirst(s: seq<byte>, b: byte, i: nat)
    requires i < |s| && s[i] == b && b !in s[..i]
    ensures IndexOf(s, b) == i
  {
    IndexOfSpec(s, b);
    var j := IndexOf(s, b);
    assert b in s;
    NotInPrefix(s, b, i);
    if j >= 0 {
      NotInPrefix(s, b, j);
    }
  }

  lemma NotInPrefix(s: seq<byte>, b: byte, k: nat)
    requires k <= |s| && b !in s[..k]
    ensures forall m :: 0 <= m < k ==> s[m] != b
  {
    assert forall m :: 0 <= m < k ==> s[m] == s[..k][m];
  }

  /** A result whose events are preceded by `events`, handed on earlier in the same call. */
  function After(events: seq<Event>, r: Assembled): Assembled
  {
    r.(events := events + r.events)
  }

  lemma AfterPrepend(events: seq<Event>, e: Event, r: Assembled)
    ensures After(events, Prepend(e, r)) == After(events + [e], r)
  {
    assert events + ([e] + r.events) == events + [e] + r.events;
  }

  /** A candidate is cut exactly at its own end when its only terminator is its last byte. */
  predicate IsCandidate(msg: seq<byte>)
  {
    |msg| > 0 && msg[|msg| - 1] == Terminator && Terminator !in msg[..|msg| - 1]
  }

  /** A buffer that starts with a candidate is processed by classifying that candidate first. */
  lemma AssembleCut(msg: seq<byte>, tail: seq<byte>, incomplete: nat)
    requires IsCandidate(msg)
    ensures Assemble(msg + tail, incomplete) == Step(msg, tail, incomplete)
  {
    var buffer := msg + tail;
    var n := |msg|;
    assert buffer[..n - 1] == msg[..n - 1];
    IndexOfFirst(buffer, Terminator, n - 1);
    assert buffer[..n] == msg && buffer[n..] == tail;
  }

  /** Candidates back to back. */
  function Concat(msgs: seq<seq<byte>>): seq<byte>
  {
    if msgs == [] then [] else msgs[0] + Concat(msgs[1..])
  }

  /** Candidates that are each dropped or counted as incomplete, none of them a frame. */
  predicate NoFrames(msgs: seq<seq<byte>>)
  {
    forall i :: 0 <= i < |msgs| ==> IsCandidate(msgs[i]) && Classify(msgs[i]) in {Dropped, Incomplete}
  }

  /** How many of the candidates are incomplete. */
  function Incompletes(msgs: seq<seq<byte>>): nat
  {
    if msgs == [] then 0 else (if Classify(msgs[0]) == Incomplete then 1 else 0) + Incompletes(msgs[1..])
  }

  /**
   * Dropped and incomplete candidates only raise the counter, by the number of incomplete ones,
   * while it stays at or below 10; they hand nothing on.
   */
  lemma {:induction false} IncompleteCounted(msgs: seq<seq<byte>>, tail: seq<byte>, incomplete: nat)
    requires NoFrames(msgs)
    requires incomplete + Incompletes(msgs) <= MaxIncompleteBeforeReset
    ensures Assemble(Concat(msgs) + tail, incomplete) == Assemble(tail, incomplete + Incompletes(msgs))
    decreases |msgs|
  {
    if msgs != [] {
      var rest := Concat(msgs[1..]) + tail;
      assert Concat(msgs) + tail == msgs[0] + rest;
      assert NoFrames(msgs[1..]) by {
        forall i | 0 <= i < |msgs| - 1 ensures msgs[1..][i] == msgs[i + 1] { }
      }
      assert IsCandidate(msgs[0]) && Classify(msgs[0]) in {Dropped, Incomplete};
      AssembleCut(msgs[0], rest, incomplete);
      if Classify(msgs[0]) == Incomplete {
        assert Incompletes(msgs) == 1 + Incompletes(msgs[1..]);
        assert Step(msgs[0], rest, incomplete) == Assemble(rest, incomplete + 1);
        IncompleteCounted(msgs[1..], tail, incomplete + 1);
      } else {
        assert Incompletes(msgs) == Incompletes(msgs[1..]);
        assert Step(msgs[0], rest, incomplete) == Assemble(rest, incomplete);
        IncompleteCounted(msgs[1..], tail, incomplete);
      }
    } else {
      assert Concat(msgs) + tail == tail;
    }
  }

  /**
   * The eleventh incomplete candidate in one call, whatever dropped candidates came between,
   * resets the connection and the counter.
   */
  lemma EleventhIncompleteResets(msgs: seq<seq<byte>>, msg: seq<byte>, tail: seq<byte>)
    requires NoFrames(msgs) && Incompletes(msgs) == MaxIncompleteBeforeReset
    requires IsCandidate(msg) && Classify(msg) == Incomplete
    ensures Assemble(Concat(msgs) + msg + tail, 0) == Prepend(Reset, Assemble(tail, 0))
  {
    assert Concat(msgs) + msg + tail == Concat(msgs) + (msg + tail);
    IncompleteCounted(msgs, msg + tail, 0);
    AssembleCut(msg, tail, MaxIncompleteBeforeReset);
  }

  /** A checksum mismatch stops the scan: the candidate and everything before it are gone, the rest is kept. */
  lemma MismatchStops(msg: seq<byte>, tail: seq<byte>, incomplete: nat)
    requires IsCandidate(msg) && Classify(msg) == Mismatch
    ensures Assemble(msg + tail, incomplete) == Assembled(tail, [], true)
  {
    AssembleCut(msg, tail, incomplete);
  }

  /** A complete frame hands on its payload and clears the incomplete counter. */
  lemma CompleteClearsCounter(payload: seq<byte>, tail: seq<byte>, incomplete: nat)
    requires |payload| < 0x1_0000
    requires Terminator !in payload && Terminator !in Le16(|payload|) + Le16(Crc(payload))
    ensures Assemble(BuildPacket(payload) + tail, incomplete) == Prepend(Deliver(payload), Assemble(tail, 0))
  {
    PacketIsCandidate(payload);
    ClassifyBuildPacket(payload);
    AssembleCut(BuildPacket(payload), tail, incomplete);
  }

  lemma PacketIsCandidate(payload: seq<byte>)
    requires |payload| < 0x1_0000
    requires Terminator !in payload && Terminator !in Le16(|payload|) + Le16(Crc(payload))
    ensures IsCandidate(BuildPacket(payload))
  {
    var packet := BuildPacket(payload);
    var body := [Header0, Header1] + Le16(|payload|) + payload + Le16(Crc(payload));
    assert packet == body + [Terminator];
    assert packet[..|packet| - 1] == body;
    assert Terminator !in body;
  }

  /**
   * Round trip: one encoded packet, alone in the buffer, hands on exactly its payload if and only
   * if no terminator byte occurs in its length or checksum fields (the payload itself, JSON text in
   * UTF-8, never holds 0xFE).
   */
  lemma SinglePacketRoundTrip(payload: seq<byte>)
    requires |payload| < 0x1_0000 && Terminator !in payload
    ensures Assemble(BuildPacket(payload), 0).events == [Deliver(payload)]
            <==> Terminator !in Le16(|payload|) + Le16(Crc(payload))
  {
    var packet := BuildPacket(payload);
    var n := |payload|;
    var fields := Le16(n) + Le16(Crc(payload));
    if Terminator !in fields {
      CompleteClearsCounter(payload, [], 0);
      assert packet + [] == packet;
    } else {
      FieldTerminatorLosesPayload(payload);
    }
  }

  /** A terminator byte in the length or checksum field cuts the packet early, and its payload is lost. */
  lemma FieldTerminatorLosesPayload(payload: seq<byte>)
    requires |payload| < 0x1_0000 && Terminator !in payload
    requires Terminator in Le16(|payload|) + Le16(Crc(payload))
    ensures Deliver(payload) !in Assemble(BuildPacket(payload), 0).events
  {
    var packet := BuildPacket(payload);
    FirstTerminatorInFields(payload);
    var end := IndexOf(packet, Terminator);
    var msg, tail := packet[..end + 1], packet[end + 1..];
    var c := Classify(msg);
    assert !c.Complete? by {
      if |msg| >= 7 {
        assert msg[2] == packet[2] && msg[3] == packet[3];
      }
    }
    var r := Assemble(packet, 0);
    assert r == Step(msg, tail, 0);
    if !c.Mismatch? {
      var k := if c.Incomplete? then 1 else 0;
      assert r.events == Assemble(tail, k).events;
      AssembleDeliverBound(tail, k);
    }
  }

  /** When the length or checksum field holds a terminator byte, the first one is there. */
  lemma FirstTerminatorInFields(payload: seq<byte>)
    requires |payload| < 0x1_0000 && Terminator !in payload
    requires Terminator in Le16(|payload|) + Le16(Crc(payload))
    ensures var end := IndexOf(BuildPacket(payload), Terminator);
            2 <= end < 4 || 4 + |payload| <= end < 6 + |payload|
  {
    var packet := BuildPacket(payload);
    var n := |payload|;
    var fields := Le16(n) + Le16(Crc(payload));
    var i :| 0 <= i < 4 && fields[i] == Terminator;
    var at := if i < 2 then 2 + i else 2 + n + i;
    assert packet[at] == Terminator;
    var end := IndexOf(packet, Terminator);
    IndexOfSpec(packet, Terminator);
    assert Terminator in packet;
    NotInPrefix(packet, Terminator, end);
    assert 0 <= end <= at;
  }

  /** The read buffer of the connection, consumed in place by `ProcessMessages`. */
  class MessageAssembler {
    var readBuffer: seq<byte>

    constructor ()
      ensures readBuffer == []
    {
      readBuffer := [];
    }

    /** `_process_messages`: returns the payloads handed on and the resets requested, in order. */
    method ProcessMessages() returns (events: seq<Event>)
      modifies this
      ensures readBuffer == Assemble(old(readBuffer), 0).rest
      ensures events == Assemble(old(readBuffer), 0).events
    {
      ghost var whole := Assemble(readBuffer, 0);
      var incomplete := 0;
      events := [];
      while readBuffer != []
        invariant whole == After(events, Assemble(readBuffer, incomplete))
        decreases |readBuffer|
      {
        var endIdx := IndexOf(readBuffer, Terminator);
        if endIdx == -1 {
          break;
        }
        var msg := readBuffer[..endIdx + 1];
        ghost var before := readBuffer;
        readBuffer := readBuffer[endIdx + 1..];
        assert Assemble(before, incomplete) == Step(msg, readBuffer, incomplete);
        if |msg| < 7 || msg[0] != Header0 || msg[1] != Header1 {
          continue;
        }
        var payloadLen: int := Word(msg[2], msg[3]);
        var expectedLength: int := 4 + payloadLen + 3;
        if |msg| < expectedLength {
          incomplete := incomplete + 1;
          if incomplete > MaxIncompleteBeforeReset {
            AfterPrepend(events, Reset, Assemble(readBuffer, 0));
            events := events + [Reset];
            incomplete := 0;
          }
          continue;
        }
        incomplete := 0;
        var payload := msg[4..4 + payloadLen];
        var crc := Word(msg[4 + payloadLen], msg[4 + payloadLen + 1]);
        var computed := CalcCrc(payload);
        if crc != computed {
          return;
        }
        AfterPrepend(events, Deliver(payload), Assemble(readBuffer, 0));
        events := events + [Deliver(payload)];
      }
    }

    /** The part of `_reader_loop` after a read: append the bytes, then process when any arrived. */
    method Receive(raw: seq<byte>) returns (events: seq<Event>)
      modifies this
      ensures raw == [] ==> readBuffer == old(readBuffer) && events == []
      ensures raw != [] ==> readBuffer == Assemble(old(readBuffer) + raw, 0).rest
      ensures raw != [] ==> events == Assemble(old(readBuffer) + raw, 0).events
    {
      events := [];
      if raw != [] {
        readBuffer := readBuffer + raw;
        events := ProcessMessages();
      }
    }
  }
}
