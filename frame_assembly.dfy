/**
 * Frame reassembly over the reader's byte stream (rfid_nadadores.py,
 * RFIDReader.read_tags_continuous): received chunks are appended to a
 * buffer, non-header bytes are dropped one at a time, and whole frames of
 * `buffer[1] + 2` bytes are sliced off the front.
 */
module FrameAssembly {
  import opened Wrappers
  import opened Hex
  import opened Frames
  import opened TagRecords

  /** A candidate as the loop slices it: header first, exactly `len + 2` bytes. */
  predicate WellFormedCandidate(f: seq<byte>)
  {
    |f| >= 2 && f[0] == HEADER && |f| == f[1] as int + 2
  }

  /** A buffer the loop leaves alone: at most one byte, or a header whose frame is not complete yet. */
  predicate Settled(buf: seq<byte>)
  {
    |buf| <= 1 || (buf[0] == HEADER && |buf| < buf[1] as int + 2)
  }

  /**
   * What the loop at rfid_nadadores.py:213-231 does to a buffer: the
   * candidates it slices off, in order, and the buffer it leaves.
   */
  function Extract(buf: seq<byte>): (r: (seq<seq<byte>>, seq<byte>))
    ensures Settled(r.1)
    decreases |buf|
  {
    if |buf| <= 1 then ([], buf)
    else if buf[0] != HEADER then Extract(buf[1..])
    else
      var n := buf[1] as int + 2;
      if |buf| < n then ([], buf)
      else
        var rest := Extract(buf[n..]);
        ([buf[..n]] + rest.0, rest.1)
  }

  /** Every candidate sliced off starts with the header and has the length its second byte announces. */
  lemma {:induction false} ExtractWellFormed(buf: seq<byte>)
    ensures forall k :: 0 <= k < |Extract(buf).0| ==> WellFormedCandidate(Extract(buf).0[k])
    decreases |buf|
  {
    if |buf| > 1 && buf[0] != HEADER {
      ExtractWellFormed(buf[1..]);
    } else if |buf| > 1 && |buf| >= buf[1] as int + 2 {
      var n := buf[1] as int + 2;
      ExtractWellFormed(buf[n..]);
      var fs := Extract(buf).0;
      assert fs == [buf[..n]] + Extract(buf[n..]).0;
      forall k | 0 <= k < |fs| ensures WellFormedCandidate(fs[k]) {
        if k > 0 {
          assert fs[k] == Extract(buf[n..]).0[k - 1];
        }
      }
    }
  }

  /** A settled buffer yields nothing and stays as it is. */
  lemma SettledIsFixed(buf: seq<byte>)
    requires Settled(buf)
    ensures Extract(buf) == ([], buf)
  {
  }

  /** One dropped byte, as the loop sees it. */
  lemma ExtractDrop(buf: seq<byte>)
    requires |buf| > 1 && buf[0] != HEADER
    ensures Extract(buf) == Extract(buf[1..])
  {
  }

  /** One sliced candidate, as the loop sees it. */
  lemma ExtractEmit(buf: seq<byte>)
    requires |buf| > 1 && buf[0] == HEADER && |buf| >= buf[1] as int + 2
    ensures var n := buf[1] as int + 2;
            Extract(buf) == ([buf[..n]] + Extract(buf[n..]).0, Extract(buf[n..]).1)
  {
  }

  /**
   * Streaming: extracting from `a + b` is extracting from `a`, then from
   * what `a` left behind followed by `b`. So frames do not depend on how the
   * stream is cut into chunks.
   */
  lemma {:induction false} ExtractConcat(a: seq<byte>, b: seq<byte>)
    ensures StreamSplit(a, b)
    decreases |a|
  {
    if Settled(a) {
      SettledIsFixed(a);
      assert [] + Extract(a + b).0 == Extract(a + b).0;
    } else if a[0] != HEADER {
      ExtractConcat(a[1..], b);
      StreamSplitDrop(a, b);
    } else {
      ExtractConcat(a[a[1] as int + 2..], b);
      StreamSplitEmit(a, b);
    }
  }

  /** Extracting from `a + b` goes through what extracting from `a` leaves behind. */
  ghost predicate StreamSplit(a: seq<byte>, b: seq<byte>)
  {
    var ra := Extract(a);
    var rb := Extract(ra.1 + b);
    Extract(a + b) == (ra.0 + rb.0, rb.1)
  }

  lemma StreamSplitDrop(a: seq<byte>, b: seq<byte>)
    requires |a| > 1 && a[0] != HEADER && StreamSplit(a[1..], b)
    ensures StreamSplit(a, b)
  {
    ExtractDrop(a);
    ExtractDrop(a + b);
    assert (a + b)[1..] == a[1..] + b;
  }

  lemma StreamSplitEmit(a: seq<byte>, b: seq<byte>)
    requires |a| > 1 && a[0] == HEADER && |a| >= a[1] as int + 2
    requires StreamSplit(a[a[1] as int + 2..], b)
    ensures StreamSplit(a, b)
  {
    var n := a[1] as int + 2;
    var ab := a + b;
    assert ab[0] == a[0] && ab[1] == a[1];
    assert ab[..n] == a[..n];
    assert ab[n..] == a[n..] + b;
    ExtractEmit(a);
    ExtractEmit(ab);
    var rr := Extract(a[n..]);
    var rb := Extract(rr.1 + b);
    assert Extract(a[n..] + b) == (rr.0 + rb.0, rb.1);
    assert Extract(ab) == ([a[..n]] + (rr.0 + rb.0), rb.1);
    var ra := Extract(a);
    assert ra == ([a[..n]] + rr.0, rr.1);
    assert Extract(ra.1 + b) == rb;
    assert [a[..n]] + (rr.0 + rb.0) == ra.0 + rb.0;
  }

  /** Resynchronisation: bytes other than the header in front of a buffer are dropped without a trace. */
  lemma {:induction false} NoiseIsDropped(noise: seq<byte>, buf: seq<byte>)
    requires forall k :: 0 <= k < |noise| ==> noise[k] != HEADER
    requires |buf| >= 1
    ensures Extract(noise + buf) == Extract(buf)
    decreases |noise|
  {
    if noise != [] {
      assert (noise + buf)[1..] == noise[1..] + buf;
      NoiseIsDropped(noise[1..], buf);
    } else {
      assert noise + buf == buf;
    }
  }

  /** A whole candidate is sliced off as it is. */
  lemma SingleCandidate(f: seq<byte>)
    requires WellFormedCandidate(f)
    ensures Extract(f) == ([f], [])
  {
    assert f[..|f|] == f;
    assert f[|f|..] == [];
    assert Extract(f[|f|..]) == ([], []);
    assert [f] + [] == [f];
  }

  /** No partial frame is ever emitted: every proper prefix of a candidate is held back whole. */
  lemma PartialFrameHeld(f: seq<byte>, k: nat)
    requires WellFormedCandidate(f) && k < |f|
    ensures Extract(f[..k]) == ([], f[..k])
  {
    SettledIsFixed(f[..k]);
  }

  /**
   * A candidate split anywhere, after any run of non-header bytes, comes out
   * once and only after its last byte has arrived.
   */
  lemma SplitFrameAfterNoise(noise: seq<byte>, f: seq<byte>, k: nat)
    requires forall i :: 0 <= i < |noise| ==> noise[i] != HEADER
    requires WellFormedCandidate(f) && 1 <= k < |f|
    ensures Extract(noise + f[..k]) == ([], f[..k])
    ensures Extract(Extract(noise + f[..k]).1 + f[k..]) == ([f], [])
  {
    NoisyPartialHeld(noise, f, k);
    RestCompletes(f, k);
  }

  lemma NoisyPartialHeld(noise: seq<byte>, f: seq<byte>, k: nat)
    requires forall i :: 0 <= i < |noise| ==> noise[i] != HEADER
    requires WellFormedCandidate(f) && 1 <= k < |f|
    ensures Extract(noise + f[..k]) == ([], f[..k])
  {
    NoiseIsDropped(noise, f[..k]);
    PartialFrameHeld(f, k);
  }

  lemma RestCompletes(f: seq<byte>, k: nat)
    requires WellFormedCandidate(f) && k <= |f|
    ensures Extract(f[..k] + f[k..]) == ([f], [])
  {
    assert f[..k] + f[k..] == f;
    SingleCandidate(f);
  }

  /** The tag, if any, one decoded candidate contributes. */
  function TagOf(d: Decoded): seq<RFIDTag>
  {
    if d.Tag? then [d.tag] else []
  }

  /** Tags of a run of candidates, all stamped with one capture instant, read as if nothing raised. */
  function DecodeAll(frames: seq<seq<byte>>, now: int): (tags: seq<RFIDTag>)
    ensures |tags| <= |frames|
  {
    if frames == [] then []
    else DecodeAll(frames[..|frames| - 1], now) + TagOf(DecodeCandidate(frames[|frames| - 1], now))
  }

  lemma {:induction false} DecodeAllConcat(a: seq<seq<byte>>, b: seq<seq<byte>>, now: int)
    ensures DecodeAll(a + b, now) == DecodeAll(a, now) + DecodeAll(b, now)
    decreases |b|
  {
    if b == [] {
      assert a + b == a;
    } else {
      assert (a + b)[..|a + b| - 1] == a + b[..|b| - 1];
      DecodeAllConcat(a, b[..|b| - 1], now);
    }
  }

  /** Index of the first candidate whose decoding raises, or the count when none does. */
  function FirstRaised(frames: seq<seq<byte>>, now: int): (k: nat)
    ensures k <= |frames|
  {
    if frames == [] then 0
    else if DecodeCandidate(frames[0], now).Raised? then 0
    else 1 + FirstRaised(frames[1..], now)
  }

  /** FirstRaised is the first raising position: nothing before it raises, and it raises unless it is the end. */
  lemma {:induction false} FirstRaisedMeaning(frames: seq<seq<byte>>, now: int)
    ensures var k := FirstRaised(frames, now);
            && (forall j :: 0 <= j < k ==> !DecodeCandidate(frames[j], now).Raised?)
            && (k < |frames| ==> DecodeCandidate(frames[k], now).Raised?)
  {
    if frames != [] && !DecodeCandidate(frames[0], now).Raised? {
      var tail := frames[1..];
      FirstRaisedMeaning(tail, now);
      var k := FirstRaised(frames, now);
      forall j | 0 <= j < k
        ensures !DecodeCandidate(frames[j], now).Raised?
      {
        if j > 0 {
          assert frames[j] == tail[j - 1];
        }
      }
      if k < |frames| {
        assert frames[k] == tail[k - 1];
      }
    }
  }

  /** One pass of the inner loop: tags handed out, the buffer left, and whether it ended by an exception. */
  datatype Pass = Pass(tags: seq<RFIDTag>, rest: seq<byte>, raised: bool)

  /**
   * The loop at rfid_nadadores.py:213-249 as written: it slices candidates
   * off the front and decodes each at once; a record that raises leaves the
   * loop with the buffer already cut past it.
   */
  function Process(buf: seq<byte>, now: int): (r: Pass)
    ensures !r.raised ==> Settled(r.rest)
    decreases |buf|
  {
    if |buf| <= 1 then Pass([], buf, false)
    else if buf[0] != HEADER then Process(buf[1..], now)
    else
      var n := buf[1] as int + 2;
      if |buf| < n then Pass([], buf, false)
      else
        var d := DecodeCandidate(buf[..n], now);
        if d.Raised? then Pass([], buf[n..], true)
        else
          var p := Process(buf[n..], now);
          Pass(TagOf(d) + p.tags, p.rest, p.raised)
  }

  /**
   * The state of the inner loop: the tags handed out so far followed by
   * what a pass over the remaining buffer hands out make up the pass over
   * the buffer the loop started from.
   */
  ghost predicate ProcessSoFar(start: seq<byte>, now: int, tags: seq<RFIDTag>, buf: seq<byte>)
  {
    var p := Process(buf, now);
    Process(start, now) == Pass(tags + p.tags, p.rest, p.raised)
  }

  /** Dropping a noise byte keeps the loop state. */
  lemma ProcessSkipStep(start: seq<byte>, now: int, tags: seq<RFIDTag>, buf: seq<byte>)
    requires ProcessSoFar(start, now, tags, buf) && |buf| > 1 && buf[0] != HEADER
    ensures ProcessSoFar(start, now, tags, buf[1..])
  {
  }

  /** Handing out the tag of a complete candidate that does not raise keeps the loop state. */
  lemma ProcessTagStep(start: seq<byte>, now: int, tags: seq<RFIDTag>, buf: seq<byte>)
    requires ProcessSoFar(start, now, tags, buf) && |buf| > 1 && buf[0] == HEADER
    requires |buf| >= buf[1] as int + 2 && !DecodeCandidate(buf[..buf[1] as int + 2], now).Raised?
    ensures var n := buf[1] as int + 2;
            ProcessSoFar(start, now, tags + TagOf(DecodeCandidate(buf[..n], now)), buf[n..])
  {
    var n := buf[1] as int + 2;
    var t := TagOf(DecodeCandidate(buf[..n], now));
    var p := Process(buf[n..], now);
    assert Process(buf, now) == Pass(t + p.tags, p.rest, p.raised);
    assert tags + (t + p.tags) == (tags + t) + p.tags;
  }

  /** A candidate that raises ends the pass with the tags so far and the buffer cut past it. */
  lemma ProcessRaiseStep(start: seq<byte>, now: int, tags: seq<RFIDTag>, buf: seq<byte>)
    requires ProcessSoFar(start, now, tags, buf) && |buf| > 1 && buf[0] == HEADER
    requires |buf| >= buf[1] as int + 2 && DecodeCandidate(buf[..buf[1] as int + 2], now).Raised?
    ensures Process(start, now) == Pass(tags, buf[buf[1] as int + 2..], true)
  {
    assert tags + [] == tags;
  }

  /** A buffer of at most one byte, or one holding an incomplete candidate, ends the pass. */
  lemma ProcessStopStep(start: seq<byte>, now: int, tags: seq<RFIDTag>, buf: seq<byte>)
    requires ProcessSoFar(start, now, tags, buf)
    requires |buf| <= 1 || (buf[0] == HEADER && |buf| < buf[1] as int + 2)
    ensures Process(start, now) == Pass(tags, buf, false)
  {
    assert tags + [] == tags;
  }

  /**
   * The loop against the framing: it hands out the tags of the candidates
   * before the first one that raises, raises exactly when some candidate
   * does, and otherwise leaves the buffer Extract leaves.
   */
  lemma {:induction false} ProcessExtract(buf: seq<byte>, now: int)
    ensures ProcessMatchesExtract(buf, now)
    decreases |buf|
  {
    if |buf| <= 1 {
      assert Extract(buf).0 == [];
    } else if buf[0] != HEADER {
      ProcessExtract(buf[1..], now);
      ExtractDrop(buf);
    } else if |buf| >= buf[1] as int + 2 {
      ProcessExtract(buf[buf[1] as int + 2..], now);
      ProcessExtractEmit(buf, now);
    } else {
      SettledIsFixed(buf);
    }
  }

  /** The pass over `buf` against the candidates framing slices off it. */
  ghost predicate ProcessMatchesExtract(buf: seq<byte>, now: int)
  {
    var frames := Extract(buf).0;
    var k := FirstRaised(frames, now);
    var p := Process(buf, now);
    && p.tags == DecodeAll(frames[..k], now)
    && (p.raised <==> k < |frames|)
    && (!p.raised ==> p.rest == Extract(buf).1)
  }

  lemma ProcessExtractEmit(buf: seq<byte>, now: int)
    requires |buf| > 1 && buf[0] == HEADER && |buf| >= buf[1] as int + 2
    requires ProcessMatchesExtract(buf[buf[1] as int + 2..], now)
    ensures ProcessMatchesExtract(buf, now)
  {
    var n := buf[1] as int + 2;
    var f := buf[..n];
    var fs := Extract(buf[n..]).0;
    ExtractEmit(buf);
    assert Extract(buf).0 == [f] + fs;
    FirstRaisedCons(f, fs, now);
    var d := DecodeCandidate(f, now);
    if !d.Raised? {
      var q := Process(buf[n..], now);
      assert Process(buf, now) == Pass(TagOf(d) + q.tags, q.rest, q.raised);
    }
  }

  /** Where the first raise falls once one more candidate is put in front. */
  lemma FirstRaisedCons(f: seq<byte>, fs: seq<seq<byte>>, now: int)
    ensures var d := DecodeCandidate(f, now);
            var k := FirstRaised([f] + fs, now);
            && (d.Raised? ==> k == 0)
            && (!d.Raised? ==> k == 1 + FirstRaised(fs, now)
                               && DecodeAll(([f] + fs)[..k], now) == TagOf(d) + DecodeAll(fs[..k - 1], now))
  {
    var s := [f] + fs;
    assert s[0] == f && s[1..] == fs;
    var d := DecodeCandidate(f, now);
    if !d.Raised? {
      var k := 1 + FirstRaised(fs, now);
      assert FirstRaised(s, now) == k;
      assert s[..k] == [f] + fs[..k - 1];
      DecodeAllConcat([f], fs[..k - 1], now);
      DecodeAllSingle(f, now);
    }
  }

  lemma DecodeAllSingle(f: seq<byte>, now: int)
    ensures DecodeAll([f], now) == TagOf(DecodeCandidate(f, now))
  {
    assert [f][..0] == [];
  }

  /** A candidate that raises hides every byte after it: they stay in the buffer unread. */
  lemma RaisingFrameHidesRest(f: seq<byte>, g: seq<byte>, now: int)
    requires WellFormedCandidate(f) && DecodeCandidate(f, now).Raised?
    ensures Process(f + g, now) == Pass([], g, true)
  {
    assert (f + g)[..|f|] == f;
    assert (f + g)[|f|..] == g;
  }

  /** The frames and final buffer of a session fed with `chunks`, stopping at the first empty read. */
  function SessionFrames(buf: seq<byte>, chunks: seq<seq<byte>>): (seq<seq<byte>>, seq<byte>)
    decreases |chunks|
  {
    if chunks == [] || chunks[0] == [] then ([], buf)
    else
      var r := Extract(buf + chunks[0]);
      var s := SessionFrames(r.1, chunks[1..]);
      (r.0 + s.0, s.1)
  }

  function Concat(chunks: seq<seq<byte>>): seq<byte>
  {
    if chunks == [] then [] else chunks[0] + Concat(chunks[1..])
  }

  /**
   * However the stream is cut into (non-empty) chunks, a session started on
   * a settled buffer (every buffer between reads is) sees the same candidates
   * and ends with the same buffer as one extraction over the whole stream.
   */
  lemma {:induction false} SessionChunkIndependent(buf: seq<byte>, chunks: seq<seq<byte>>)
    requires Settled(buf)
    requires forall k :: 0 <= k < |chunks| ==> chunks[k] != []
    ensures SessionFrames(buf, chunks) == Extract(buf + Concat(chunks))
    decreases |chunks|
  {
    if chunks == [] {
      assert buf + Concat(chunks) == buf;
      SettledIsFixed(buf);
    } else {
      var r := Extract(buf + chunks[0]);
      SessionChunkIndependent(r.1, chunks[1..]);
      ExtractConcat(buf + chunks[0], Concat(chunks[1..]));
      assert buf + chunks[0] + Concat(chunks[1..]) == buf + Concat(chunks);
    }
  }

  /** The tags of a session in which nothing raises: each chunk's candidates stamped with its capture instant. */
  function SessionTags(buf: seq<byte>, chunks: seq<seq<byte>>, times: seq<int>): seq<RFIDTag>
    requires |times| == |chunks|
    decreases |chunks|
  {
    if chunks == [] || chunks[0] == [] then []
    else
      var r := Extract(buf + chunks[0]);
      DecodeAll(r.0, times[0]) + SessionTags(r.1, chunks[1..], times[1..])
  }

  /**
   * read_tags_continuous as written: read after read until an empty one,
   * unless a record raises, which the handler at rfid_nadadores.py:253
   * turns into the end of the session.
   */
  function Session(buf: seq<byte>, chunks: seq<seq<byte>>, times: seq<int>): Pass
    requires |times| == |chunks|
    decreases |chunks|
  {
    if chunks == [] || chunks[0] == [] then Pass([], buf, false)
    else
      var p := Process(buf + chunks[0], times[0]);
      if p.raised then p
      else
        var s := Session(p.rest, chunks[1..], times[1..]);
        Pass(p.tags + s.tags, s.rest, s.raised)
  }

  /** The session loop after `i` reads: `tags` handed out so far and the rest of the session still to run on `buf`. */
  ghost predicate SessionSoFar(start: seq<byte>, chunks: seq<seq<byte>>, times: seq<int>, i: int,
                               buf: seq<byte>, tags: seq<RFIDTag>)
  {
    |times| == |chunks| && 0 <= i <= |chunks|
    && var s := Session(buf, chunks[i..], times[i..]);
    Session(start, chunks, times) == Pass(tags + s.tags, s.rest, s.raised)
  }

  lemma SessionEmptyRead(start: seq<byte>, chunks: seq<seq<byte>>, times: seq<int>, i: int,
                         buf: seq<byte>, tags: seq<RFIDTag>)
    requires SessionSoFar(start, chunks, times, i, buf, tags) && i < |chunks| && chunks[i] == []
    ensures Session(start, chunks, times) == Pass(tags, buf, false)
  {
    assert chunks[i..][0] == [];
    assert tags + [] == tags;
  }

  lemma SessionAllRead(start: seq<byte>, chunks: seq<seq<byte>>, times: seq<int>, i: int,
                       buf: seq<byte>, tags: seq<RFIDTag>)
    requires SessionSoFar(start, chunks, times, i, buf, tags) && i >= |chunks|
    ensures Session(start, chunks, times) == Pass(tags, buf, false)
  {
    assert chunks[i..] == [];
    assert tags + [] == tags;
  }

  /** One non-empty read: a raising record ends the session there, otherwise the loop goes on with the next read. */
  lemma SessionStep(start: seq<byte>, chunks: seq<seq<byte>>, times: seq<int>, i: int,
                    buf: seq<byte>, tags: seq<RFIDTag>)
    requires SessionSoFar(start, chunks, times, i, buf, tags) && i < |chunks| && chunks[i] != []
    ensures var p := Process(buf + chunks[i], times[i]);
            && (p.raised ==> Session(start, chunks, times) == Pass(tags + p.tags, p.rest, true))
            && (!p.raised ==> SessionSoFar(start, chunks, times, i + 1, p.rest, tags + p.tags))
  {
    var cs := chunks[i..];
    var ts := times[i..];
    assert cs[0] == chunks[i] && ts[0] == times[i];
    assert cs[1..] == chunks[i + 1..] && ts[1..] == times[i + 1..];
    var p := Process(buf + chunks[i], times[i]);
    if p.raised {
      assert Session(buf, cs, ts) == p;
    } else {
      var s := Session(p.rest, chunks[i + 1..], times[i + 1..]);
      assert Session(buf, cs, ts) == Pass(p.tags + s.tags, s.rest, s.raised);
      ConcatAssoc(tags, p.tags, s.tags);
    }
  }

  /**
   * A session in which no record raises hands out every candidate's tag and
   * ends with the buffer the framing alone leaves.
   */
  lemma {:induction false} SessionWithoutRaise(buf: seq<byte>, chunks: seq<seq<byte>>, times: seq<int>)
    requires |times| == |chunks|
    requires !Session(buf, chunks, times).raised
    ensures Session(buf, chunks, times).tags == SessionTags(buf, chunks, times)
    ensures Session(buf, chunks, times).rest == SessionFrames(buf, chunks).1
    decreases |chunks|
  {
    if chunks != [] && chunks[0] != [] {
      var e := Extract(buf + chunks[0]);
      var p := Process(buf + chunks[0], times[0]);
      assert !p.raised;
      ProcessExtract(buf + chunks[0], times[0]);
      assert e.0[..|e.0|] == e.0;
      assert p.tags == DecodeAll(e.0, times[0]) && p.rest == e.1;
      SessionWithoutRaise(e.1, chunks[1..], times[1..]);
      var s := Session(e.1, chunks[1..], times[1..]);
      assert Session(buf, chunks, times) == Pass(p.tags + s.tags, s.rest, s.raised);
    }
  }

  /** The reader's receive side: the residual buffer that survives between reads. */
  class RFIDReader {
    var buffer: seq<byte>

    /** A fresh reader (RFIDReader.__init__) holds no bytes. */
    constructor ()
      ensures buffer == []
    {
      buffer := [];
    }

    /**
     * The inner loop of read_tags_continuous (213-249): slice candidates off
     * the buffer, parse and dispatch each, and hand out the tags in order;
     * `raised` reports that a record raised and ended the loop.
     */
    method ProcessBuffer(now: int) returns (tags: seq<RFIDTag>, raised: bool)
      modifies this
      ensures Pass(tags, buffer, raised) == Process(old(buffer), now)
    {
      tags := [];
      raised := false;
      ghost var start := buffer;
      assert [] + Process(start, now).tags == Process(start, now).tags;
      while |buffer| > 1
        invariant ProcessSoFar(start, now, tags, buffer)
        decreases |buffer|
      {
        if buffer[0] != HEADER {
          ProcessSkipStep(start, now, tags, buffer);
          buffer := buffer[1..];
          continue;
        }
        var frameLen := buffer[1] as int + 2;
        if |buffer| < frameLen {
          break;
        }
        var frame := buffer[..frameLen];
        ghost var before := buffer;
        buffer := buffer[frameLen..];
        var parsed := ParseFrame(frame);
        var tag := if parsed.None? then NoTag else DecodeParsed(parsed.value, now);
        assert tag == DecodeCandidate(frame, now);
        if tag.Raised? {
          ProcessRaiseStep(start, now, tags, before);
          raised := true;
          return;
        }
        ProcessTagStep(start, now, tags, before);
        if tag.Tag? {
          tags := tags + [tag.tag];
        } else {
          assert tags + [] == tags;
        }
      }
      ProcessStopStep(start, now, tags, buffer);
    }

    /** One read cycle: `self.buffer.extend(data)` and the loop above. */
    method Receive(chunk: seq<byte>, now: int) returns (tags: seq<RFIDTag>, raised: bool)
      modifies this
      ensures Pass(tags, buffer, raised) == Process(old(buffer) + chunk, now)
    {
      buffer := buffer + chunk;
      tags, raised := ProcessBuffer(now);
    }

    /**
     * read_tags_continuous without the socket: `chunks` are the successive
     * reads, `times` the capture instant of each; an empty read or a record
     * that raises ends the session. Returns every tag handed to the
     * callback, in order.
     */
    method ReadTagsContinuous(chunks: seq<seq<byte>>, times: seq<int>) returns (tags: seq<RFIDTag>)
      requires |times| == |chunks|
      modifies this
      ensures tags == Session(old(buffer), chunks, times).tags
      ensures buffer == Session(old(buffer), chunks, times).rest
    {
      tags := [];
      var i := 0;
      ghost var start := buffer;
      assert chunks[0..] == chunks && times[0..] == times;
      while i < |chunks|
        invariant SessionSoFar(start, chunks, times, i, buffer, tags)
      {
        var data := chunks[i];
        if data == [] {
          SessionEmptyRead(start, chunks, times, i, buffer, tags);
          return;
        }
        ghost var before := buffer;
        var newTags, raised := Receive(data, times[i]);
        SessionStep(start, chunks, times, i, before, tags);
        tags := tags + newTags;
        if raised {
          return;
        }
        i := i + 1;
      }
      SessionAllRead(start, chunks, times, i, buffer, tags);
    }
  }
}
