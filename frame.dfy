/**
 * The wire frame of the ACE serial protocol and its 16-bit checksum
 * (extras/ace.py, `_calc_crc` and the packet built in `_send_request`).
 *
 *   0xFF 0xAA | len: u16 little-endian | payload | crc: u16 little-endian | 0xFE
 *
 * Bytes are the integers 0..255 that iterating over a Python `bytes` yields.
 */
module Frame {

  type byte = x: int | 0 <= x < 0x100
  type u16 = x: int | 0 <= x < 0x1_0000

  const Header0: byte := 0xFF
  const Header1: byte := 0xAA
  const Terminator: byte := 0xFE
  const CrcInit: u16 := 0xFFFF

  /**
   * One turn of the checksum loop. The xor/shift/mask arithmetic is the source's,
   * done on 32-bit vectors (wide enough that no shift loses a bit) and masked to 16 bits.
   */
  function CrcStep(crc: u16, b: byte): u16
  {
    var c := crc as bv32;
    var data := (b as bv32) ^ (c & 0xFF);
    var data' := data ^ ((data & 0x0F) << 4);
    var next := (((data' << 8) | (c >> 8)) ^ (data' >> 4) ^ (data' << 3)) & 0xFFFF;
    next as bv16 as int
  }

  /** The checksum state after feeding `bytes` to the loop, starting from `crc`. */
  function CrcFrom(crc: u16, bytes: seq<byte>): u16
    decreases |bytes|
  {
    if bytes == [] then crc else CrcFrom(CrcStep(crc, bytes[0]), bytes[1..])
  }

  /** The checksum of a payload: the loop started at 0xFFFF. */
  function Crc(payload: seq<byte>): u16
  {
    CrcFrom(CrcInit, payload)
  }

  /** Continuing the loop: the checksum of `a + b` is the loop over `b` from the state after `a`. */
  lemma {:induction false} CrcFromAppend(crc: u16, a: seq<byte>, b: seq<byte>)
    ensures CrcFrom(crc, a + b) == CrcFrom(CrcFrom(crc, a), b)
    decreases |a|
  {
    if a == [] {
      assert a + b == b;
    } else {
      assert (a + b)[1..] == a[1..] + b;
      CrcFromAppend(CrcStep(crc, a[0]), a[1..], b);
    }
  }

  /** One more byte is one more turn of the loop. */
  lemma CrcFromSnoc(crc: u16, a: seq<byte>, b: byte)
    ensures CrcFrom(crc, a + [b]) == CrcStep(CrcFrom(crc, a), b)
  {
    CrcFromAppend(crc, a, [b]);
    assert [b][1..] == [];
  }

  lemma CrcPrefixStep(crc: u16, s: seq<byte>, i: nat)
    requires i < |s|
    ensures CrcFrom(crc, s[..i + 1]) == CrcStep(CrcFrom(crc, s[..i]), s[i])
  {
    assert s[..i + 1] == s[..i] + [s[i]];
    CrcFromSnoc(crc, s[..i], s[i]);
  }

  /** `_calc_crc` as written: a loop over the buffer, then a final mask. */
  method CalcCrc(buffer: seq<byte>) returns (crc: int)
    ensures 0 <= crc < 0x1_0000
    ensures crc == Crc(buffer)
    ensures buffer == [] ==> crc == 0xFFFF
  {
    var c: u16 := CrcInit;
    for i := 0 to |buffer|
      invariant c == CrcFrom(CrcInit, buffer[..i])
    {
      CrcPrefixStep(CrcInit, buffer, i);
      c := CrcStep(c, buffer[i]);
    }
    assert buffer[..|buffer|] == buffer;
    MaskKeeps(c);
    crc := c % 0x1_0000;
  }

  /** The final `& 0xffff` leaves a 16-bit state unchanged. */
  lemma MaskKeeps(c: u16)
    ensures c % 0x1_0000 == c
  {
  }

  /** Little-endian decoding of two bytes (`struct.unpack('<H', ...)`). */
  function Word(lo: byte, hi: byte): u16
  {
    lo as int + 256 * hi as int
  }

  /** Little-endian encoding of a 16-bit quantity (`struct.pack('<H', n)`). */
  function Le16(n: int): (r: seq<byte>)
    requires 0 <= n < 0x1_0000
    ensures |r| == 2 && Word(r[0], r[1]) == n
  {
    [n % 256, n / 256]
  }

  /** The packet `_send_request` writes for an (already JSON-encoded) payload. */
  function BuildPacket(payload: seq<byte>): (packet: seq<byte>)
    requires |payload| < 0x1_0000
    ensures |packet| == |payload| + 7
    ensures packet[0] == Header0 && packet[1] == Header1 && packet[|packet| - 1] == Terminator
    ensures Word(packet[2], packet[3]) == |payload| && packet[4..4 + |payload|] == payload
    ensures Word(packet[4 + |payload|], packet[5 + |payload|]) == Crc(payload)
  {
    [Header0, Header1] + Le16(|payload|) + payload + Le16(Crc(payload)) + [Terminator]
  }

  /** What `_process_messages` makes of one candidate cut at a terminator byte. */
  datatype Candidate =
    | Dropped            // shorter than 7 bytes or without the FF AA header: skipped silently
    | Incomplete         // shorter than its length field announces
    | Mismatch           // checksum differs from the one carried: processing stops
    | Complete(payload: seq<byte>)

  /** The payload length a candidate announces in bytes 2 and 3 (`struct.unpack('<H', msg[2:4])`). */
  function DeclaredLength(msg: seq<byte>): (n: nat)
    requires |msg| >= 4
    ensures n < 0x1_0000
  {
    Word(msg[2], msg[3])
  }

  function Classify(msg: seq<byte>): (c: Candidate)
    ensures c.Complete? <==>
              && |msg| >= 7 && msg[0] == Header0 && msg[1] == Header1
              && |msg| >= DeclaredLength(msg) + 7
              && Word(msg[4 + DeclaredLength(msg)], msg[5 + DeclaredLength(msg)]) == Crc(msg[4..4 + DeclaredLength(msg)])
    ensures c.Complete? ==> c.payload == msg[4..4 + DeclaredLength(msg)] && |c.payload| + 7 <= |msg|
    ensures c == Dropped <==> |msg| < 7 || msg[0] != Header0 || msg[1] != Header1
    ensures c == Incomplete <==> |msg| >= 7 && msg[0] == Header0 && msg[1] == Header1 && |msg| < DeclaredLength(msg) + 7
  {
    if |msg| < 7 || msg[0] != Header0 || msg[1] != Header1 then Dropped
    else
      var len := DeclaredLength(msg);
      if |msg| < 4 + len + 3 then Incomplete
      else
        var payload := msg[4..4 + len];
        var crc := Word(msg[4 + len], msg[4 + len + 1]);
        if crc != Crc(payload) then Mismatch else Complete(payload)
  }

  /** A packet built by `_send_request`, taken as one candidate, yields its payload back. */
  lemma ClassifyBuildPacket(payload: seq<byte>)
    requires |payload| < 0x1_0000
    ensures Classify(BuildPacket(payload)) == Complete(payload)
  {
    var packet := BuildPacket(payload);
    assert DeclaredLength(packet) == |payload|;
  }
}
