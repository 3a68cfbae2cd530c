/** `co2.c`: the checksum of a CO2 frame, and the loop that asks for frames until one is good. */
module Co2 {
  import opened Machine

  const FRAME_LENGTH := 9
  const RX_BUF_SIZE := 1024
  const READ_CO2: u8 := 0x86
  const COMMAND: seq<u8> := [0xFF, 0x01, READ_CO2, 0, 0, 0, 0, 0, 0x79]

  function Sum(s: seq<u8>): nat {
    if s == [] then 0 else Sum(s[..|s| - 1]) + s[|s| - 1]
  }

  /** Bytes 1 to 8 sum to zero modulo 256. */
  predicate ChecksumOk(frame: seq<u8>)
    requires |frame| >= FRAME_LENGTH
  {
    Sum(frame[1..9]) % 0x100 == 0
  }

  function Ppm(frame: seq<u8>): int
    requires |frame| >= FRAME_LENGTH
  {
    var high: int, low: int := frame[2], frame[3];
    256 * high + low
  }

  method CheckCRC(data: array<u8>) returns (ok: bool)
    requires data.Length >= FRAME_LENGTH
    ensures ok <==> ChecksumOk(data[..9])
  {
    var crc: u8 := 0;
    for i := 1 to 8
      invariant crc == Sum(data[1..i]) % 0x100
    {
      assert data[1..i + 1][..i - 1] == data[1..i];
      crc := (crc + data[i]) % 0x100;
    }
    assert data[..9][1..9][..7] == data[1..8];
    ChecksumByte(Sum(data[1..8]), crc, data[8]);
    crc := (255 - crc + 1) % 0x100;
    return crc == data[8];
  }

  lemma ChecksumByte(sum: nat, crc: u8, last: u8)
    requires crc == sum % 0x100
    ensures (255 - crc + 1) % 0x100 == last <==> (sum + last) % 0x100 == 0
  {
  }

  method ReadCO2(data: array<u8>) returns (ppm: int)
    requires data.Length >= FRAME_LENGTH
    ensures 0 <= ppm < 0x1_0000 && ppm / 256 == data[2] && ppm % 256 == data[3]
  {
    var responseHigh: int := data[2];
    var responseLow: int := data[3];
    ppm := 256 * responseHigh + responseLow;
  }

  // ---- the reading loop

  /** What one UART read delivers before its timeout; an error is a read of -1 bytes. */
  datatype Rx = Error | Received(bytes: seq<u8>)

  predicate Empty(rx: Rx) {
    rx.Error? || rx.bytes == []
  }

  predicate Accepts(rx: Rx) {
    rx.Received? && |rx.bytes| == FRAME_LENGTH && rx.bytes[1] == READ_CO2 && ChecksumOk(rx.bytes)
  }

  /** Nine bytes, the second 0x86, and bytes 1 to 8 with a sum of 0 modulo 256. */
  lemma AcceptsExactly(rx: Rx)
    ensures Accepts(rx) <==> (rx.Received? && var b := rx.bytes;
      && |b| == 9 && b[1] == 0x86
      && (b[1] as int + b[2] + b[3] + b[4] + b[5] + b[6] + b[7] + b[8]) % 0x100 == 0)
  {
    if rx.Received? && |rx.bytes| == 9 {
      var b := rx.bytes;
      SumOfEight(b[1..9]);
    }
  }

  lemma SumOfEight(s: seq<u8>)
    requires |s| == 8
    ensures Sum(s) == s[0] as int + s[1] + s[2] + s[3] + s[4] + s[5] + s[6] + s[7]
  {
    assert Sum(s[..0]) == 0;
    hide Sum;
    SumStep(s, 0);
    SumStep(s, 1);
    SumStep(s, 2);
    SumStep(s, 3);
    SumStep(s, 4);
    SumStep(s, 5);
    SumStep(s, 6);
    SumStep(s, 7);
    assert s[..8] == s;
  }

  function Empties(replies: seq<Rx>): nat {
    if replies == [] then 0 else Empties(replies[..|replies| - 1]) + if Empty(replies[|replies| - 1]) then 1 else 0
  }

  lemma {:induction false} EmptiesCount(replies: seq<Rx>)
    ensures Empties(replies) == |set i: nat | i < |replies| && (replies[i].Error? || |replies[i].bytes| == 0)|
  {
    var all := set i: nat | i < |replies| && (replies[i].Error? || |replies[i].bytes| == 0);
    if replies == [] {
      assert all == {};
    } else {
      var n := |replies| - 1;
      var init := replies[..n];
      EmptiesCount(init);
      var before := set i: nat | i < |init| && (init[i].Error? || |init[i].bytes| == 0);
      if Empty(replies[n]) {
        assert all == before + {n};
      } else {
        assert all == before;
      }
    }
  }

  method Fill(buffer: array<u8>, bytes: seq<u8>)
    requires |bytes| <= buffer.Length
    modifies buffer
    ensures buffer[..|bytes|] == bytes
    ensures buffer[|bytes|..] == old(buffer[|bytes|..])
  {
    for i := 0 to |bytes|
      invariant buffer[..i] == bytes[..i]
      invariant buffer[|bytes|..] == old(buffer[|bytes|..])
    {
      buffer[i] := bytes[i];
    }
  }

  /**
   `replies` is the start of what the UART will deliver; `left` is the index of the read that
   ended the loop, or `|replies|` if it is still waiting. The result does not depend on the
   bytes that earlier reads, or the allocator, left in the buffer. `sent` are the commands sent.
   */
  method Co2Read(replies: seq<Rx>) returns (co2: Option<int>, left: nat, sent: seq<seq<u8>>)
    requires forall rx <- replies :: rx.Received? ==> |rx.bytes| <= RX_BUF_SIZE
    ensures left <= |replies| && forall i | 0 <= i < left && replies[i].Received? :: var b := replies[i].bytes;
      |b| != 9 || b[1] != 0x86 || (b[1] as int + b[2] + b[3] + b[4] + b[5] + b[6] + b[7] + b[8]) % 0x100 != 0
    ensures left < |replies| ==> replies[left].Received? && var b := replies[left].bytes;
      && |b| == 9 && b[1] == 0x86 && (b[1] as int + b[2] + b[3] + b[4] + b[5] + b[6] + b[7] + b[8]) % 0x100 == 0
      && co2 == Some(0x100 * b[2] as int + b[3])
    ensures left == |replies| ==> co2 == None
    ensures |sent| == 1 + |set i: nat | i < left && (replies[i].Error? || |replies[i].bytes| == 0)|
    ensures forall command <- sent :: command == [0xFF, 1, 0x86, 0, 0, 0, 0, 0, 0x79]
  {
    hide Accepts, Empties;
    var buffer := new u8[RX_BUF_SIZE + 1];
    co2, left, sent := None, 0, [COMMAND];
    NoEmpties();
    while left < |replies|
      invariant left <= |replies| && forall i | 0 <= i < left :: !Accepts(replies[i])
      invariant co2 == None && |sent| == 1 + Empties(replies[..left]) && forall command <- sent :: command == COMMAND
    {
      EmptiesStep(replies, left);
      var rx := replies[left];
      var rxBytes := if rx.Error? then -1 else |rx.bytes|;
      AcceptsMeans(rx);
      if rxBytes > 0 {
        Fill(buffer, rx.bytes);
        buffer[rxBytes] := 0;
        assert buffer[..rxBytes] == rx.bytes;
        if rxBytes == FRAME_LENGTH && buffer[1] == READ_CO2 {
          var ok := CheckCRC(buffer);
          if !ok {
            left := left + 1;
            continue;
          }
          var ppm := ReadCO2(buffer);
          assert ppm == ppm / 256 * 256 + ppm % 256;
          co2 := Some(ppm);
          break;
        }
      } else {
        sent := sent + [COMMAND];
      }
      left := left + 1;
    }
    forall i | 0 <= i <= left && i < |replies| {
      AcceptsExactly(replies[i]);
    }
    EmptiesCount(replies[..left]);
    assert (set i: nat | i < left && (replies[i].Error? || |replies[i].bytes| == 0))
      == set i: nat | i < left && (replies[..left][i].Error? || |replies[..left][i].bytes| == 0);
  }

  lemma NoEmpties()
    ensures forall replies: seq<Rx> :: Empties(replies[..0]) == 0
  {
  }

  lemma EmptiesStep(replies: seq<Rx>, n: nat)
    requires n < |replies|
    ensures Empties(replies[..n + 1]) == Empties(replies[..n]) + if Empty(replies[n]) then 1 else 0
  {
    assert replies[..n + 1][..n] == replies[..n];
  }

  lemma AcceptsMeans(rx: Rx)
    ensures Accepts(rx) <==>
      (rx.Received? && |rx.bytes| == FRAME_LENGTH && rx.bytes[1] == READ_CO2 && ChecksumOk(rx.bytes))
  {
  }

  // ---- what the checksum detects

  lemma {:induction false} SumUpdate(s: seq<u8>, i: nat, v: u8)
    requires i < |s|
    ensures Sum(s[i := v]) == Sum(s) - s[i] + v
  {
    var n := |s| - 1;
    if i == n {
      assert s[i := v][..n] == s[..n];
    } else {
      assert s[i := v][..n] == s[..n][i := v];
      SumUpdate(s[..n], i, v);
    }
  }

  /** Changing one byte of an accepted frame goes unnoticed only at byte 0. */
  lemma OneByteDetected(frame: seq<u8>, i: nat, v: u8)
    requires |frame| == FRAME_LENGTH && ChecksumOk(frame) && i < FRAME_LENGTH
    ensures ChecksumOk(frame[i := v]) <==> i == 0 || v == frame[i]
  {
    if i == 0 {
      assert frame[i := v][1..9] == frame[1..9];
    } else {
      assert frame[i := v][1..9] == frame[1..9][i - 1 := v];
      SumUpdate(frame[1..9], i - 1, v);
    }
  }

  /** Exchanging two of bytes 1 to 8 is never noticed. */
  lemma ExchangeUndetected(frame: seq<u8>, i: nat, j: nat)
    requires |frame| == FRAME_LENGTH && 1 <= i < j < FRAME_LENGTH
    ensures ChecksumOk(frame[i := frame[j]][j := frame[i]]) <==> ChecksumOk(frame)
  {
    var s: seq<u8> := frame[1..9];
    assert frame[i := frame[j]][j := frame[i]][1..9] == s[i - 1 := frame[j]][j - 1 := frame[i]];
    SumUpdate(s, i - 1, frame[j]);
    SumUpdate(s[i - 1 := frame[j]], j - 1, frame[i]);
  }

  /** A good frame for any concentration of two bytes and any four further bytes. */
  function Reply(ppm: u16, rest: seq<u8>): (frame: seq<u8>)
    requires |rest| == 4
    ensures |frame| == FRAME_LENGTH && Accepts(Received(frame)) && Ppm(frame) == ppm
  {
    var body: seq<u8> := [READ_CO2, ppm / 0x100, ppm % 0x100] + rest;
    var check: u8 := (0x100 - Sum(body) % 0x100) % 0x100;
    Checksummed(body, check);
    [0xFF] + body + [check]
  }

  lemma Checksummed(body: seq<u8>, check: u8)
    requires |body| == 7 && check == (0x100 - Sum(body) % 0x100) % 0x100
    ensures ChecksumOk([0xFF] + body + [check])
  {
    var frame: seq<u8> := [0xFF] + body + [check];
    assert frame[1..9] == body + [check];
    assert (body + [check])[..7] == body;
    var sum := Sum(body);
    assert (sum + check) % 0x100 == 0;
  }

  /** The command itself carries a correct checksum. */
  lemma CommandChecksum()
    ensures |COMMAND| == FRAME_LENGTH && ChecksumOk(COMMAND)
  {
    var body: seq<u8> := COMMAND[1..9];
    assert body == [0x01, READ_CO2, 0, 0, 0, 0, 0, 0x79];
    assert body[..1] == [] + [0x01] && Sum(body[..1]) == 1;
    SumStep(body, 1);
    SumStep(body, 2);
    SumStep(body, 3);
    SumStep(body, 4);
    SumStep(body, 5);
    SumStep(body, 6);
    SumStep(body, 7);
    assert body[..8] == body;
  }

  lemma SumStep(s: seq<u8>, i: nat)
    requires i < |s|
    ensures Sum(s[..i + 1]) == Sum(s[..i]) + s[i]
  {
    assert s[..i + 1][..i] == s[..i];
  }
}
