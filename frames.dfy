/**
 * The R300/YRM200 reader's binary frame (rfid_nadadores.py, RFIDReader):
 *
 *   0xA0 | len | reader id | cmd | payload ... | checksum
 *
 * where len counts the bytes after itself (reader id, cmd, payload, checksum),
 * so a frame is len + 2 bytes long, and the checksum is the sum of every
 * preceding byte modulo 256.
 */
module Frames {
  import opened Wrappers
  import opened Hex

  const HEADER: byte := 0xA0
  const DEFAULT_READER_ID: byte := 0xFF
  /** Header, length, reader id, command and checksum. */
  const MIN_FRAME_LEN := 5

  /** Python's `sum` over a byte string. */
  function Sum(s: seq<byte>): nat
  {
    if s == [] then 0 else Sum(s[..|s| - 1]) + s[|s| - 1] as int
  }

  /**
   * RFIDReader.checksum: `sum(data) & 0xFF`. The sum is never negative, so
   * masking with 0xFF is reduction modulo 256. (The docstring there calls it
   * an XOR; the code adds.)
   */
  function Checksum(data: seq<byte>): byte
  {
    (Sum(data) % 256) as byte
  }

  lemma {:induction false} SumConcat(a: seq<byte>, b: seq<byte>)
    ensures Sum(a + b) == Sum(a) + Sum(b)
  {
    if b != [] {
      assert (a + b)[..|a + b| - 1] == a + b[..|b| - 1];
      SumConcat(a, b[..|b| - 1]);
    } else {
      assert a + b == a;
    }
  }

  /** The checksum is additive: it can be computed chunk by chunk. */
  lemma ChecksumConcat(a: seq<byte>, b: seq<byte>)
    ensures Checksum(a + b) as int == (Checksum(a) as int + Checksum(b) as int) % 256
  {
    SumConcat(a, b);
    ModSum(Sum(a), Sum(b));
  }

  lemma ModSum(x: int, y: int)
    ensures (x + y) % 256 == (x % 256 + y % 256) % 256
  {
    var r := x % 256 + y % 256;
    assert x + y == 256 * (x / 256 + y / 256) + r;
    if r >= 256 {
      assert x + y == 256 * (x / 256 + y / 256 + 1) + (r - 256);
    }
  }

  /** Replacing one byte moves the sum by exactly the difference. */
  lemma {:induction false} SumUpdate(s: seq<byte>, i: nat, b: byte)
    requires i < |s|
    ensures Sum(s[i := b]) == Sum(s) - s[i] as int + b as int
  {
    var t := s[i := b];
    if i == |s| - 1 {
      assert t[..|t| - 1] == s[..|s| - 1];
    } else {
      assert t[..|t| - 1] == s[..|s| - 1][i := b];
      SumUpdate(s[..|s| - 1], i, b);
    }
  }

  /** The dictionary returned by parse_frame. */
  datatype Parsed = Parsed(cmd: byte, readerId: byte, data: seq<byte>)

  /**
   * The frame send_command lays out. `struct.pack('B', len)` raises for a
   * length field above 255, that is for payloads over 252 bytes: None.
   */
  function BuildFrame(cmd: byte, data: seq<byte>, readerId: byte): (r: Option<seq<byte>>)
    ensures r.Some? <==> |data| <= 252
    ensures r.Some? ==> |r.value| == |data| + MIN_FRAME_LEN && r.value[1] as int + 2 == |r.value|
  {
    if |data| + 3 > 255 then None
    else
      var body := [HEADER, (|data| + 3) as byte, readerId, cmd] + data;
      Some(body + [Checksum(body)])
  }

  /** A candidate is accepted when it is long enough, has the header and its last byte is the checksum. */
  predicate Accepted(frame: seq<byte>)
  {
    |frame| >= MIN_FRAME_LEN && frame[0] == HEADER
    && Checksum(frame[..|frame| - 1]) == frame[|frame| - 1]
  }

  /**
   * RFIDReader.parse_frame. The length byte is not compared with the
   * candidate's actual length; `data` is everything between the command byte
   * and the checksum.
   */
  function ParseFrame(frame: seq<byte>): (r: Option<Parsed>)
    ensures r.Some? <==> Accepted(frame)
    ensures r.Some? ==>
      frame == [HEADER, frame[1], r.value.readerId, r.value.cmd] + r.value.data
               + [Checksum(frame[..|frame| - 1])]
  {
    if |frame| < MIN_FRAME_LEN || frame[0] != HEADER then None
    else if Checksum(frame[..|frame| - 1]) != frame[|frame| - 1] then None
    else
      var data := if |frame| > MIN_FRAME_LEN then frame[4..|frame| - 1] else [];
      Some(Parsed(frame[3], frame[2], data))
  }

  /** Every frame send_command can build is accepted and gives back its fields. */
  lemma BuildParseRoundTrip(cmd: byte, data: seq<byte>, readerId: byte)
    requires |data| <= 252
    ensures ParseFrame(BuildFrame(cmd, data, readerId).value) == Some(Parsed(cmd, readerId, data))
  {
    var f := BuildFrame(cmd, data, readerId).value;
    var body := [HEADER, (|data| + 3) as byte, readerId, cmd] + data;
    assert f[..|f| - 1] == body;
    assert |data| > 0 ==> f[4..|f| - 1] == data;
  }

  /** An accepted frame whose length byte is right is exactly what send_command builds from its fields. */
  lemma ParseBuildRoundTrip(frame: seq<byte>)
    requires ParseFrame(frame).Some? && frame[1] as int + 2 == |frame|
    ensures var p := ParseFrame(frame).value;
            BuildFrame(p.cmd, p.data, p.readerId) == Some(frame)
  {
    var p := ParseFrame(frame).value;
    assert frame[..|frame| - 1] == [HEADER, frame[1], p.readerId, p.cmd] + p.data;
  }

  /**
   * Any single corrupted byte of an accepted frame gets it rejected: a
   * changed header fails the header test, any other change breaks the
   * checksum, since two bytes differ by less than 256.
   */
  lemma SingleByteCorruptionRejected(frame: seq<byte>, i: nat, b: byte)
    requires Accepted(frame) && i < |frame| && b != frame[i]
    ensures ParseFrame(frame[i := b]).None?
  {
    var n := |frame|;
    var g := frame[i := b];
    if 0 < i < n - 1 {
      var body := frame[..n - 1];
      assert g[..n - 1] == body[i := b];
      SumUpdate(body, i, b);
      ModShift(Sum(body), b as int - frame[i] as int);
      assert g[n - 1] == frame[n - 1];
      assert Checksum(g[..n - 1]) != g[n - 1];
    } else if i == n - 1 {
      assert g[..n - 1] == frame[..n - 1];
    }
    assert !Accepted(g);
  }

  /** Moving a sum by less than 256 in either direction, but not by zero, moves it modulo 256. */
  lemma ModShift(x: int, d: int)
    requires -256 < d < 256 && d != 0
    ensures (x + d) % 256 != x % 256
  {
    var q := x / 256;
    var r := x % 256;
    assert x + d == 256 * q + (r + d);
    if r + d < 0 {
      assert x + d == 256 * (q - 1) + (r + d + 256);
    } else if r + d >= 256 {
      assert x + d == 256 * (q + 1) + (r + d - 256);
    }
  }

}
