/**
 * Tag records carried in frame payloads (rfid_nadadores.py): RFIDTag, the
 * real-time inventory layout, the buffered layout, and the dispatch on the
 * command byte. Timestamps are integer milliseconds supplied by the caller
 * (the source reads the wall clock when it builds the tag).
 */
module TagRecords {
  import opened Wrappers
  import opened Hex
  import opened Frames

  /** Command codes answered with a real-time inventory record. */
  const INVENTORY_CMDS: set<byte> := {0x89, 0x8A, 0x8B}
  /** Command codes answered with a buffered record. */
  const BUFFER_CMDS: set<byte> := {0x90, 0x91}

  const INVENTORY_MIN_LEN := 5
  const BUFFER_MIN_LEN := 9
  /** Offset of the raw RSSI byte's dBm conversion in RFIDTag. */
  const RSSI_OFFSET := 129

  /** A detected tag: EPC as upper-case hex, RSSI in dBm, antenna 1..8, capture instant in ms. */
  datatype RFIDTag = RFIDTag(epc: string, rssi: int, antenna: int, timestamp: int)

  /** RFIDTag.__init__: the EPC bytes as upper-case hex, the raw RSSI shifted to dBm. */
  function MakeTag(epc: seq<byte>, rssi: int, antenna: int, timestamp: int): (t: RFIDTag)
    ensures |t.epc| == 2 * |epc| && IsUpperHex(t.epc) && HexToBytes(t.epc) == Some(epc)
    ensures t.rssi + RSSI_OFFSET == rssi && t.antenna == antenna && t.timestamp == timestamp
  {
    BytesHexRoundTrip(epc);
    RFIDTag(BytesToHex(epc), rssi - RSSI_OFFSET, antenna, timestamp)
  }

  /**
   * The antenna number packed in two places: the low two bits of the
   * FreqAnt byte (`freq_ant & 0x03`, that is FreqAnt mod 4) and bit 7 of the
   * RSSI byte (`(rssi_raw & 0x80) >> 7`, that is RSSI div 128).
   */
  function AntennaOf(freqAnt: byte, rssiRaw: byte): (a: int)
    ensures 1 <= a <= 8
  {
    var antNo := freqAnt as int % 4;
    var rssiH := rssiRaw as int / 128;
    antNo + (if rssiH == 1 then 4 else 0) + 1
  }

  /** The raw RSSI value: the low seven bits of the RSSI byte (`rssi_raw & 0x7F`). */
  function RssiOf(rssiRaw: byte): (r: int)
    ensures 0 <= r < 128
  {
    rssiRaw as int % 128
  }

  /**
   * Decoding loses only the frequency bits: the antenna and RSSI values
   * determine the whole RSSI byte and the antenna bits of FreqAnt.
   */
  lemma AntennaRssiInjective(f1: byte, r1: byte, f2: byte, r2: byte)
    requires AntennaOf(f1, r1) == AntennaOf(f2, r2) && RssiOf(r1) == RssiOf(r2)
    ensures r1 == r2 && f1 as int % 4 == f2 as int % 4
  {
    assert r1 as int == 128 * (r1 as int / 128) + RssiOf(r1);
    assert r2 as int == 128 * (r2 as int / 128) + RssiOf(r2);
  }

  /**
   * RFIDReader.parse_inventory_tag: [FreqAnt][PC(2)][EPC(N)][Rssi], the EPC
   * being everything between the PC and the final RSSI byte.
   */
  function ParseInventoryTag(data: seq<byte>, now: int): (r: Option<RFIDTag>)
    ensures r.Some? <==> |data| >= INVENTORY_MIN_LEN
    ensures r.Some? ==> |r.value.epc| == 2 * (|data| - 4) && 1 <= r.value.antenna <= 8
  {
    if |data| < INVENTORY_MIN_LEN then None
    else
      var freqAnt := data[0];
      var epc := data[3..|data| - 1];
      var rssiRaw := data[|data| - 1];
      Some(MakeTag(epc, RssiOf(rssiRaw), AntennaOf(freqAnt, rssiRaw), now))
  }

  /**
   * What one record yields: a tag, nothing (too short, a rejected frame or
   * another command), or the IndexError parse_buffer_tag raises when the
   * record's DataLen points past its end.
   */
  datatype Decoded = Tag(tag: RFIDTag) | NoTag | Raised

  /**
   * RFIDReader.parse_buffer_tag:
   * [TagCount(2)][DataLen][PC(2)][EPC(DataLen-4)][CRC(2)][Rssi][FreqAnt][ReadCount].
   * The tag count, PC, CRC and read count are read and ignored. A DataLen
   * under 4 gives an empty EPC (Python's slice of negative width); a DataLen
   * that puts ReadCount past the payload raises.
   */
  function ParseBufferTag(data: seq<byte>, now: int): (r: Decoded)
    ensures r.NoTag? <==> |data| < BUFFER_MIN_LEN
    ensures r.Raised? <==> |data| >= BUFFER_MIN_LEN && data[2] as int + 6 > |data|
    ensures r.Tag? ==> 1 <= r.tag.antenna <= 8
  {
    if |data| < BUFFER_MIN_LEN then NoTag
    else
      var dataLen := data[2] as int;
      if dataLen + 6 > |data| then Raised
      else
        var epc := if dataLen >= 4 then data[5..dataLen + 1] else [];
        var rssiRaw := data[dataLen + 3];
        var freqAnt := data[dataLen + 4];
        Tag(MakeTag(epc, RssiOf(rssiRaw), AntennaOf(freqAnt, rssiRaw), now))
  }

  /** The dispatch on the command byte in read_tags_continuous; other commands carry no tag. */
  function DecodeParsed(p: Parsed, now: int): Decoded
  {
    if p.cmd in INVENTORY_CMDS then
      (match ParseInventoryTag(p.data, now)
       case Some(t) => Tag(t)
       case None => NoTag)
    else if p.cmd in BUFFER_CMDS then ParseBufferTag(p.data, now)
    else NoTag
  }

  /**
   * What one extracted frame contributes: parse_frame, then the dispatch.
   * Only an accepted frame with a known command yields a tag, and only a
   * buffered record can raise.
   */
  function DecodeCandidate(frame: seq<byte>, now: int): (r: Decoded)
    ensures !r.NoTag? ==> Accepted(frame) && (frame[3] in INVENTORY_CMDS || frame[3] in BUFFER_CMDS)
    ensures r.Raised? ==> frame[3] in BUFFER_CMDS
  {
    match ParseFrame(frame)
    case None => NoTag
    case Some(p) => DecodeParsed(p, now)
  }

  // ---------------------------------------------------------------------
  // The reader's side of the two layouts, as reference definitions.

  /** A real-time inventory record as the reader lays it out. */
  function InventoryRecord(freqAnt: byte, pc: seq<byte>, epc: seq<byte>, rssiRaw: byte): seq<byte>
    requires |pc| == 2
  {
    [freqAnt] + pc + epc + [rssiRaw]
  }

  /** A buffered record as the reader lays it out; DataLen counts PC, EPC and CRC. */
  function BufferRecord(tagCount: seq<byte>, pc: seq<byte>, epc: seq<byte>, crc: seq<byte>,
                        rssiRaw: byte, freqAnt: byte, readCount: byte): seq<byte>
    requires |tagCount| == 2 && |pc| == 2 && |crc| == 2 && |epc| + 4 < 256
  {
    tagCount + [(|epc| + 4) as byte] + pc + epc + crc + [rssiRaw, freqAnt, readCount]
  }

  /** The inventory decoder recovers the EPC, RSSI and antenna of any record with a non-empty EPC. */
  lemma InventoryRoundTrip(freqAnt: byte, pc: seq<byte>, epc: seq<byte>, rssiRaw: byte, now: int)
    requires |pc| == 2 && |epc| >= 1
    ensures ParseInventoryTag(InventoryRecord(freqAnt, pc, epc, rssiRaw), now)
            == Some(MakeTag(epc, RssiOf(rssiRaw), AntennaOf(freqAnt, rssiRaw), now))
  {
    var d := InventoryRecord(freqAnt, pc, epc, rssiRaw);
    assert d[3..|d| - 1] == epc;
  }

  /** The buffered decoder recovers the EPC, RSSI and antenna of any record, the other fields ignored. */
  lemma BufferRoundTrip(tagCount: seq<byte>, pc: seq<byte>, epc: seq<byte>, crc: seq<byte>,
                        rssiRaw: byte, freqAnt: byte, readCount: byte, now: int)
    requires |tagCount| == 2 && |pc| == 2 && |crc| == 2 && |epc| + 4 < 256
    ensures ParseBufferTag(BufferRecord(tagCount, pc, epc, crc, rssiRaw, freqAnt, readCount), now)
            == Tag(MakeTag(epc, RssiOf(rssiRaw), AntennaOf(freqAnt, rssiRaw), now))
  {
    var d := BufferRecord(tagCount, pc, epc, crc, rssiRaw, freqAnt, readCount);
    var n := |epc|;
    assert d[2] as int == n + 4;
    assert d[5..n + 5] == epc;
    assert d[n + 7] == rssiRaw && d[n + 8] == freqAnt;
  }

  /**
   * End to end: a frame built with an inventory command around an
   * inventory record decodes to that record's tag, whatever the reader id.
   */
  lemma InventoryFrameDecodes(cmd: byte, readerId: byte, freqAnt: byte, pc: seq<byte>,
                              epc: seq<byte>, rssiRaw: byte, now: int)
    requires cmd in INVENTORY_CMDS && |pc| == 2 && 1 <= |epc| <= 248
    ensures var frame := BuildFrame(cmd, InventoryRecord(freqAnt, pc, epc, rssiRaw), readerId);
            frame.Some? && DecodeCandidate(frame.value, now)
            == Tag(MakeTag(epc, RssiOf(rssiRaw), AntennaOf(freqAnt, rssiRaw), now))
  {
    var rec := InventoryRecord(freqAnt, pc, epc, rssiRaw);
    BuildParseRoundTrip(cmd, rec, readerId);
    InventoryRoundTrip(freqAnt, pc, epc, rssiRaw, now);
  }

  /** End to end for the buffered layout. */
  lemma BufferFrameDecodes(cmd: byte, readerId: byte, tagCount: seq<byte>, pc: seq<byte>,
                           epc: seq<byte>, crc: seq<byte>, rssiRaw: byte, freqAnt: byte,
                           readCount: byte, now: int)
    requires cmd in BUFFER_CMDS && |tagCount| == 2 && |pc| == 2 && |crc| == 2 && |epc| <= 242
    ensures var frame := BuildFrame(cmd, BufferRecord(tagCount, pc, epc, crc, rssiRaw, freqAnt, readCount), readerId);
            frame.Some? && DecodeCandidate(frame.value, now)
            == Tag(MakeTag(epc, RssiOf(rssiRaw), AntennaOf(freqAnt, rssiRaw), now))
  {
    var rec := BufferRecord(tagCount, pc, epc, crc, rssiRaw, freqAnt, readCount);
    BuildParseRoundTrip(cmd, rec, readerId);
    BufferRoundTrip(tagCount, pc, epc, crc, rssiRaw, freqAnt, readCount, now);
  }

  /** A frame with a buffered command whose record overruns its DataLen makes the decoder raise. */
  lemma BufferOverrunFrameRaises(cmd: byte, readerId: byte, data: seq<byte>, now: int)
    requires cmd in BUFFER_CMDS && BUFFER_MIN_LEN <= |data| <= 252 && data[2] as int + 6 > |data|
    ensures var frame := BuildFrame(cmd, data, readerId);
            frame.Some? && DecodeCandidate(frame.value, now).Raised?
  {
    BuildParseRoundTrip(cmd, data, readerId);
  }

  /** A command outside both sets never yields a tag, whatever the payload. */
  lemma OtherCommandsYieldNothing(frame: seq<byte>, now: int)
    requires |frame| > 3 && frame[3] !in INVENTORY_CMDS && frame[3] !in BUFFER_CMDS
    ensures DecodeCandidate(frame, now).NoTag?
  {
  }

  /**
   * Every antenna 1..8 and every raw RSSI 0..127 is what some FreqAnt and
   * RSSI byte pair decodes to: the low two bits of FreqAnt give the antenna
   * within its bank, the RSSI byte's top bit the bank.
   */
  lemma AntennaRssiOnto(antenna: int, rssi: int)
    requires 1 <= antenna <= 8 && 0 <= rssi < 128
    ensures exists f: byte, r: byte :: AntennaOf(f, r) == antenna && RssiOf(r) == rssi
  {
    var f := ((antenna - 1) % 4) as byte;
    var r := (rssi + (if antenna > 4 then 128 else 0)) as byte;
    assert r as int / 128 == (if antenna > 4 then 1 else 0);
    assert AntennaOf(f, r) == antenna && RssiOf(r) == rssi;
  }
}
