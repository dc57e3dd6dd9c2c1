/**
 * The Motion-JPEG frame extractor: a two-state machine over consecutive stream
 * bytes (outside a frame / inside a frame) that collects every span from a JPEG
 * start-of-image marker FF D8 to the next end-of-image marker FF D9, hands each
 * completed span to a JPEG decoder and fans the decoded picture out to the
 * registered listeners.
 */
module Mjpeg {
  import opened Base

  // ---------------------------------------------------------------------------
  // The byte-pair machine as a function
  // ---------------------------------------------------------------------------

  /** (previous, current) is the start-of-image marker. */
  predicate IsStartOfFrame(previous: Byte, current: Byte)
  {
    previous == 0xFF && current == 0xD8
  }

  /** (previous, current) is the end-of-image marker. */
  predicate IsEndOfFrame(previous: Byte, current: Byte)
  {
    previous == 0xFF && current == 0xD9
  }

  /**
   * The decoder's fields: whether it is inside a frame, and the byte buffer
   * (None until the first start marker creates one).
   */
  datatype DecoderState = DecoderState(inside: bool, buffer: Option<seq<Byte>>)

  const Initial := DecoderState(false, None)

  /** Inside a frame there is always a buffer to write to. */
  predicate Coherent(s: DecoderState)
  {
    s.inside ==> s.buffer.Some?
  }

  /**
   * One call of read(previousByte, currentByte): the new state and, when the
   * pair ends a frame, the completed buffer.
   */
  function Step(s: DecoderState, previous: Byte, current: Byte): (r: (DecoderState, Option<seq<Byte>>))
    requires Coherent(s)
    ensures Coherent(r.0)
  {
    var started := if IsStartOfFrame(previous, current) then DecoderState(true, Some([previous])) else s;
    if started.inside then
      var written := started.buffer.value + [current];
      if IsEndOfFrame(previous, current) then (DecoderState(false, Some(written)), Some(written))
      else (DecoderState(true, Some(written)), None)
    else (started, None)
  }

  /** What read() does, case by case. */
  lemma StepCases(s: DecoderState, previous: Byte, current: Byte)
    requires Coherent(s)
    // a start marker throws away any unfinished buffer and begins a fresh one holding the marker
    ensures IsStartOfFrame(previous, current) ==>
              Step(s, previous, current) == (DecoderState(true, Some([0xFF, 0xD8])), None)
    // outside a frame every other pair, an end marker included, changes nothing
    ensures !s.inside && !IsStartOfFrame(previous, current) ==> Step(s, previous, current) == (s, None)
    // inside a frame the byte is appended; an end marker completes the buffer and leaves the frame
    ensures s.inside && !IsStartOfFrame(previous, current) ==>
              var r := Step(s, previous, current);
              && r.0.buffer == Some(s.buffer.value + [current])
              && r.0.inside == !IsEndOfFrame(previous, current)
              && r.1 == (if IsEndOfFrame(previous, current) then r.0.buffer else None)
  {
    if IsStartOfFrame(previous, current) {
      assert [previous] + [current] == [0xFF, 0xD8];
    }
  }

  /** The byte that precedes input[i]: the loop's previousByte, which starts as p0. */
  function PreviousByte(p0: Byte, input: seq<Byte>, i: nat): Byte
    requires i <= |input|
  {
    if i == 0 then p0 else input[i - 1]
  }

  /** The state after the first n bytes of input, and the buffers completed on the way, in order. */
  function Feed(s: DecoderState, p0: Byte, input: seq<Byte>, n: nat): (r: (DecoderState, seq<seq<Byte>>))
    requires Coherent(s) && n <= |input|
    ensures Coherent(r.0)
    decreases n
  {
    if n == 0 then (s, [])
    else
      var before := Feed(s, p0, input, n - 1);
      var step := Step(before.0, PreviousByte(p0, input, n - 1), input[n - 1]);
      (step.0, before.1 + Emitted(step.1))
  }

  /** The whole input read from state s with previous byte p0. */
  function Run(s: DecoderState, p0: Byte, input: seq<Byte>): (r: (DecoderState, seq<seq<Byte>>))
    requires Coherent(s)
  {
    Feed(s, p0, input, |input|)
  }

  // ---------------------------------------------------------------------------
  // Every completed buffer is a JPEG image
  // ---------------------------------------------------------------------------

  /** Starts with FF D8, ends with FF D9, and the two markers do not overlap. */
  predicate IsJpegImage(f: seq<Byte>)
  {
    |f| >= 4 && f[0] == 0xFF && f[1] == 0xD8 && f[|f| - 2] == 0xFF && f[|f| - 1] == 0xD9
  }

  /**
   * What the machine keeps true: an open buffer starts with FF D8, and when the
   * previous byte was FF it is the buffer's last byte.
   */
  predicate Framed(s: DecoderState, previous: Byte)
  {
    Coherent(s) &&
    (s.inside ==>
      var b := s.buffer.value;
      |b| >= 2 && b[0] == 0xFF && b[1] == 0xD8 && (previous == 0xFF ==> b[|b| - 1] == 0xFF))
  }

  lemma StepFramed(s: DecoderState, previous: Byte, current: Byte)
    requires Framed(s, previous)
    ensures Framed(Step(s, previous, current).0, current)
    ensures Step(s, previous, current).1.Some? ==> IsJpegImage(Step(s, previous, current).1.value)
  {
  }

  /** Every buffer the machine completes is a whole JPEG image of at least four bytes. */
  lemma {:induction false} FeedEmitsImages(s: DecoderState, p0: Byte, input: seq<Byte>, n: nat)
    requires Framed(s, p0) && n <= |input|
    ensures Framed(Feed(s, p0, input, n).0, PreviousByte(p0, input, n))
    ensures forall f :: f in Feed(s, p0, input, n).1 ==> IsJpegImage(f)
    decreases n
  {
    if n > 0 {
      FeedEmitsImages(s, p0, input, n - 1);
      StepFramed(Feed(s, p0, input, n - 1).0, PreviousByte(p0, input, n - 1), input[n - 1]);
    }
  }

  // ---------------------------------------------------------------------------
  // Completed buffers are exactly the marker-to-marker spans of the input
  // ---------------------------------------------------------------------------

  /** A start marker ends at index j of the input. */
  predicate StartAt(input: seq<Byte>, j: int)
  {
    1 <= j < |input| && IsStartOfFrame(input[j - 1], input[j])
  }

  /** An end marker ends at index k of the input. */
  predicate EndAt(input: seq<Byte>, k: int)
  {
    1 <= k < |input| && IsEndOfFrame(input[k - 1], input[k])
  }

  /** No marker ends strictly between j and k. */
  predicate Quiet(input: seq<Byte>, j: int, k: int)
  {
    forall m :: j < m < k ==> !StartAt(input, m) && !EndAt(input, m)
  }

  /** input[j-1..k+1] runs from a start marker to the first end marker after it, with no start marker between. */
  predicate FrameSpan(input: seq<Byte>, j: int, k: int)
  {
    j < k && StartAt(input, j) && EndAt(input, k) && Quiet(input, j, k)
  }

  /** The buffer holds the input from the start marker ending at j up to n, and no marker has been read since. */
  predicate OpenSince(input: seq<Byte>, j: int, n: int, buffer: Option<seq<Byte>>)
  {
    j < n <= |input| && StartAt(input, j) && Quiet(input, j, n) && buffer == Some(input[j - 1..n])
  }

  /** A start marker ending at n - 1 opens a buffer holding the marker. */
  lemma OpenSinceStart(input: seq<Byte>, n: nat)
    requires 2 <= n <= |input| && IsStartOfFrame(input[n - 2], input[n - 1])
    ensures OpenSince(input, n - 1, n, Some([0xFF, 0xD8]))
  {
    assert input[n - 2..n] == [0xFF, 0xD8];
  }

  /** A byte that completes no marker extends the open buffer. */
  lemma OpenSinceNext(input: seq<Byte>, j: int, n: nat, buffer: Option<seq<Byte>>)
    requires 1 <= n <= |input| && OpenSince(input, j, n - 1, buffer)
    requires !StartAt(input, n - 1) && !EndAt(input, n - 1)
    ensures OpenSince(input, j, n, Some(buffer.value + [input[n - 1]]))
  {
    assert input[j - 1..n - 1] + [input[n - 1]] == input[j - 1..n];
  }

  /** An end marker closes the open buffer on a frame span. */
  lemma OpenSinceEnd(input: seq<Byte>, j: int, n: nat, buffer: Option<seq<Byte>>)
    requires 1 <= n <= |input| && OpenSince(input, j, n - 1, buffer) && EndAt(input, n - 1)
    ensures FrameSpan(input, j, n - 1) && buffer.value + [input[n - 1]] == input[j - 1..(n - 1) + 1]
  {
    assert input[j - 1..n - 1] + [input[n - 1]] == input[j - 1..n];
  }

  /**
   * The buffer a reopened stream carries over: the state was inside a frame, no
   * marker has been read since, and the buffer is the old one followed by the
   * first n bytes of the input.
   */
  predicate Carried(s: DecoderState, input: seq<Byte>, n: int, buffer: Option<seq<Byte>>)
  {
    s.inside && s.buffer.Some? && 0 <= n <= |input| && Quiet(input, 0, n) &&
    buffer == Some(s.buffer.value + input[..n])
  }

  /** A byte that completes no marker extends the carried-over buffer. */
  lemma CarriedNext(s: DecoderState, input: seq<Byte>, n: nat, buffer: Option<seq<Byte>>)
    requires 1 <= n <= |input| && Carried(s, input, n - 1, buffer)
    requires !StartAt(input, n - 1) && !EndAt(input, n - 1)
    ensures Carried(s, input, n, Some(buffer.value + [input[n - 1]]))
  {
    assert input[..n - 1] + [input[n - 1]] == input[..n];
    assert s.buffer.value + input[..n - 1] + [input[n - 1]] == s.buffer.value + (input[..n - 1] + [input[n - 1]]);
  }

  /** An end marker completes the carried-over buffer. */
  lemma CarriedEnd(s: DecoderState, input: seq<Byte>, n: nat, buffer: Option<seq<Byte>>)
    requires 1 <= n <= |input| && Carried(s, input, n - 1, buffer)
    ensures buffer.value + [input[n - 1]] == s.buffer.value + input[..(n - 1) + 1]
  {
    assert input[..n - 1] + [input[n - 1]] == input[..n];
    assert s.buffer.value + input[..n - 1] + [input[n - 1]] == s.buffer.value + (input[..n - 1] + [input[n - 1]]);
  }

  /**
   * From any state, with previousByte starting at 0 as open() has it, an open
   * buffer is either the input from its last start marker on with no marker
   * since, or, when no marker has been read at all, the buffer carried over
   * from an earlier session followed by the input.
   */
  lemma {:induction false} FeedOpenBuffer(s: DecoderState, input: seq<Byte>, n: nat)
    requires Coherent(s) && n <= |input|
    ensures var after := Feed(s, 0, input, n).0;
            after.inside ==> (exists j :: OpenSince(input, j, n, after.buffer)) || Carried(s, input, n, after.buffer)
    decreases n
  {
    if n == 0 {
      assert input[..0] == [];
      assert s.buffer.Some? ==> s.buffer.value + [] == s.buffer.value;
    } else {
      FeedOpenBuffer(s, input, n - 1);
      var before := Feed(s, 0, input, n - 1);
      var p, c := PreviousByte(0, input, n - 1), input[n - 1];
      StepCases(before.0, p, c);
      var after := Feed(s, 0, input, n).0;
      assert after == Step(before.0, p, c).0;
      if IsStartOfFrame(p, c) {
        OpenSinceStart(input, n);
        assert OpenSince(input, n - 1, n, after.buffer);
      } else if before.0.inside && !IsEndOfFrame(p, c) {
        assert !StartAt(input, n - 1) && !EndAt(input, n - 1);
        if Carried(s, input, n - 1, before.0.buffer) {
          CarriedNext(s, input, n, before.0.buffer);
        } else {
          var j :| OpenSince(input, j, n - 1, before.0.buffer);
          OpenSinceNext(input, j, n, before.0.buffer);
          assert OpenSince(input, j, n, after.buffer);
        }
      }
    }
  }

  /** f is the input span from a start marker to the first end marker after it, ending before n. */
  ghost predicate SpanBefore(input: seq<Byte>, n: int, f: seq<Byte>)
  {
    exists j, k :: k < n && FrameSpan(input, j, k) && f == input[j - 1..k + 1]
  }

  /**
   * f is the buffer carried over from s completed by the input up to its first
   * end marker, ending before n, with no marker read before that one.
   */
  ghost predicate CarriedBefore(s: DecoderState, input: seq<Byte>, n: int, f: seq<Byte>)
  {
    exists k :: k < n && EndAt(input, k) && Quiet(input, 0, k) && s.inside && s.buffer.Some? &&
                f == s.buffer.value + input[..k + 1]
  }

  /**
   * Soundness, from any state, with previousByte starting at 0: every completed
   * buffer is the input span from a start marker up to and including the first
   * end marker after it, with no start marker between (a span broken by a second
   * start marker is never completed), except that a stream reopened inside a
   * frame may complete its carried-over buffer followed by the input up to the
   * input's first end marker, when no marker precedes that one.
   */
  lemma {:induction false} FeedYieldsSpans(s: DecoderState, input: seq<Byte>, n: nat)
    requires Coherent(s) && n <= |input|
    ensures forall f :: f in Feed(s, 0, input, n).1 ==> SpanBefore(input, n, f) || CarriedBefore(s, input, n, f)
    decreases n
  {
    if n > 0 {
      FeedYieldsSpans(s, input, n - 1);
      var before := Feed(s, 0, input, n - 1);
      var p, c := PreviousByte(0, input, n - 1), input[n - 1];
      var step := Step(before.0, p, c);
      StepCases(before.0, p, c);
      assert Feed(s, 0, input, n).1 == before.1 + Emitted(step.1);
      forall f | f in before.1
        ensures SpanBefore(input, n, f) || CarriedBefore(s, input, n, f)
      {
        assert SpanBefore(input, n - 1, f) || CarriedBefore(s, input, n - 1, f);
      }
      if step.1.Some? {
        FeedOpenBuffer(s, input, n - 1);
        var f := step.1.value;
        if Carried(s, input, n - 1, before.0.buffer) {
          CarriedEnd(s, input, n, before.0.buffer);
          assert EndAt(input, n - 1);
          assert CarriedBefore(s, input, n, f);
        } else {
          var j :| OpenSince(input, j, n - 1, before.0.buffer);
          OpenSinceEnd(input, j, n, before.0.buffer);
          assert f == input[j - 1..(n - 1) + 1];
          assert SpanBefore(input, n, f);
        }
      }
    }
  }

  /**
   * A fresh stream (outside a frame, as the constructor leaves it): every
   * completed buffer is a marker-to-marker span of the input.
   */
  lemma FreshFeedYieldsSpans(s: DecoderState, input: seq<Byte>, n: nat)
    requires Coherent(s) && !s.inside && n <= |input|
    ensures forall f :: f in Feed(s, 0, input, n).1 ==> SpanBefore(input, n, f)
  {
    FeedYieldsSpans(s, input, n);
  }

  /**
   * A stream closed inside a frame and reopened keeps its buffer: the new
   * connection's first end marker completes the old bytes followed by the new ones.
   */
  lemma SpliceAcrossSessions()
    ensures Run(DecoderState(true, Some([0xFF, 0xD8, 0x01])), 0, [0xFF, 0xD9]).1 == [[0xFF, 0xD8, 0x01, 0xFF, 0xD9]]
  {
    var s := DecoderState(true, Some([0xFF, 0xD8, 0x01]));
    var input: seq<Byte> := [0xFF, 0xD9];
    assert PreviousByte(0, input, 0) == 0 && input[0] == 0xFF;
    StepCases(s, 0, 0xFF);
    assert [0xFF, 0xD8, 0x01] + [0xFF] == [0xFF, 0xD8, 0x01, 0xFF];
    var first := Feed(s, 0, input, 1);
    assert Feed(s, 0, input, 0) == (s, []);
    assert Step(s, 0, 0xFF) == (DecoderState(true, Some([0xFF, 0xD8, 0x01, 0xFF])), None);
    assert first == (Step(s, 0, 0xFF).0, [] + Emitted(Step(s, 0, 0xFF).1));
    assert Emitted(Step(s, 0, 0xFF).1) == [];
    assert first.1 == [];
    assert first.0 == DecoderState(true, Some([0xFF, 0xD8, 0x01, 0xFF]));
    assert PreviousByte(0, input, 1) == 0xFF && input[1] == 0xD9;
    StepCases(first.0, 0xFF, 0xD9);
    assert [0xFF, 0xD8, 0x01, 0xFF] + [0xD9] == [0xFF, 0xD8, 0x01, 0xFF, 0xD9];
    assert Run(s, 0, input) == Feed(s, 0, input, 2);
  }

  /** From any state: after a start marker at j and no marker since, the buffer is the input from j-1 on. */
  lemma {:induction false} FeedInsideSpan(s: DecoderState, p0: Byte, input: seq<Byte>, j: nat, n: nat)
    requires Coherent(s) && StartAt(input, j) && j < n <= |input| && Quiet(input, j, n)
    ensures Feed(s, p0, input, n).0 == DecoderState(true, Some(input[j - 1..n]))
    decreases n
  {
    if n == j + 1 {
      assert PreviousByte(p0, input, j) == input[j - 1];
      StepCases(Feed(s, p0, input, j).0, input[j - 1], input[j]);
      assert input[j - 1..j + 1] == [0xFF, 0xD8];
    } else {
      FeedInsideSpan(s, p0, input, j, n - 1);
      StepCases(Feed(s, p0, input, n - 1).0, input[n - 2], input[n - 1]);
      assert PreviousByte(p0, input, n - 1) == input[n - 2];
      assert !StartAt(input, n - 1) && !EndAt(input, n - 1);
      assert input[j - 1..n - 1] + [input[n - 1]] == input[j - 1..n];
    }
  }

  /** Completeness: from any state, the span of every start marker and its first end marker is completed when its last byte is read. */
  lemma SpanIsEmitted(s: DecoderState, p0: Byte, input: seq<Byte>, j: nat, k: nat)
    requires Coherent(s) && FrameSpan(input, j, k)
    ensures Feed(s, p0, input, k + 1).1 == Feed(s, p0, input, k).1 + [input[j - 1..k + 1]]
  {
    FeedInsideSpan(s, p0, input, j, k);
    assert PreviousByte(p0, input, k) == input[k - 1];
    StepCases(Feed(s, p0, input, k).0, input[k - 1], input[k]);
    assert input[j - 1..k] + [input[k]] == input[j - 1..k + 1];
  }

  // ---------------------------------------------------------------------------
  // Chunk-boundary independence
  // ---------------------------------------------------------------------------

  lemma {:induction false} FeedPrefix(s: DecoderState, p0: Byte, a: seq<Byte>, b: seq<Byte>, n: nat)
    requires Coherent(s) && n <= |a|
    ensures Feed(s, p0, a + b, n) == Feed(s, p0, a, n)
    decreases n
  {
    if n > 0 {
      FeedPrefix(s, p0, a, b, n - 1);
      assert (a + b)[n - 1] == a[n - 1];
      assert PreviousByte(p0, a + b, n - 1) == PreviousByte(p0, a, n - 1);
    }
  }

  lemma {:induction false} FeedSuffix(s: DecoderState, p0: Byte, a: seq<Byte>, b: seq<Byte>, m: nat)
    requires Coherent(s) && m <= |b|
    ensures Feed(s, p0, a + b, |a| + m) ==
            (Feed(Run(s, p0, a).0, PreviousByte(p0, a, |a|), b, m).0,
             Run(s, p0, a).1 + Feed(Run(s, p0, a).0, PreviousByte(p0, a, |a|), b, m).1)
    decreases m
  {
    var first := Run(s, p0, a);
    var pa := PreviousByte(p0, a, |a|);
    if m == 0 {
      FeedPrefix(s, p0, a, b, |a|);
      assert first.1 + [] == first.1;
    } else {
      FeedSuffix(s, p0, a, b, m - 1);
      var whole := Feed(s, p0, a + b, |a| + m - 1);
      var second := Feed(first.0, pa, b, m - 1);
      assert whole == (second.0, first.1 + second.1);
      assert (a + b)[|a| + m - 1] == b[m - 1];
      assert PreviousByte(p0, a + b, |a| + m - 1) == PreviousByte(pa, b, m - 1);
      var step := Step(second.0, PreviousByte(pa, b, m - 1), b[m - 1]);
      assert Feed(s, p0, a + b, |a| + m) == (step.0, whole.1 + Emitted(step.1));
      assert Feed(first.0, pa, b, m) == (step.0, second.1 + Emitted(step.1));
      assert first.1 + second.1 + Emitted(step.1) == first.1 + (second.1 + Emitted(step.1));
    }
  }

  /**
   * Reading a then b, carrying the state and the previous byte across the cut, is
   * reading a + b: how the stream is split into reads does not matter.
   */
  lemma RunConcat(s: DecoderState, p0: Byte, a: seq<Byte>, b: seq<Byte>)
    requires Coherent(s)
      ensures Run(s, p0, a + b) ==
            (Run(Run(s, p0, a).0, PreviousByte(p0, a, |a|), b).0,
             Run(s, p0, a).1 + Run(Run(s, p0, a).0, PreviousByte(p0, a, |a|), b).1)
  {
    FeedSuffix(s, p0, a, b, |b|);
  }

  // ---------------------------------------------------------------------------
  // The stream object
  // ---------------------------------------------------------------------------

  /** A decoded picture (a BufferedImage). */
  datatype Image = Image(width: nat, height: nat, pixels: seq<int>)

  /** The pictures ImageIO makes of the completed buffers; a buffer it cannot read (null) gives none. */
  function Decoded(decode: seq<Byte> -> Option<Image>, frames: seq<seq<Byte>>): seq<Image>
    decreases |frames|
  {
    if frames == [] then []
    else Decoded(decode, frames[..|frames| - 1]) + Emitted(decode(frames[|frames| - 1]))
  }

  /** The picture ImageIO makes of a completed buffer, if there is one. */
  function DecodeCompleted(decode: seq<Byte> -> Option<Image>, completed: Option<seq<Byte>>): (r: Option<Image>)
    ensures completed.None? ==> r.None?
  {
    if completed.Some? then decode(completed.value) else None
  }

  lemma DecodedAppend(decode: seq<Byte> -> Option<Image>, frames: seq<seq<Byte>>, completed: Option<seq<Byte>>)
    ensures Decoded(decode, frames + Emitted(completed)) ==
            Decoded(decode, frames) + Emitted(DecodeCompleted(decode, completed))
  {
    if completed.Some? {
      assert (frames + [completed.value])[..|frames|] == frames;
    } else {
      assert frames + [] == frames;
    }
  }

  /** How the connection of one open() ends: it cannot be made, it ends normally, or it breaks. */
  datatype Ending = Unreachable | EndOfStream | ConnectionLost

  /** What open()'s loop has done so far: the decoder state, the pictures published and the listener calls made. */
  datatype Session = Session(state: DecoderState, pictures: seq<Image>, calls: seq<Delivery<Image>>)

  /**
   * open()'s loop over the first n bytes, byte by byte, from session start: each
   * completed buffer the decoder reads as a picture is published to every listener.
   */
  function Published(decode: seq<Byte> -> Option<Image>, listeners: seq<ListenerId>,
                     start: Session, input: seq<Byte>, n: nat): (r: Session)
    requires Coherent(start.state) && n <= |input|
    ensures Coherent(r.state)
    decreases n
  {
    if n == 0 then start
    else
      var before := Published(decode, listeners, start, input, n - 1);
      PublishStep(decode, listeners, before, PreviousByte(0, input, n - 1), input[n - 1])
  }

  /** One pass of open()'s loop: a decoder step, and the picture it completes published to every listener. */
  function PublishStep(decode: seq<Byte> -> Option<Image>, listeners: seq<ListenerId>,
                       before: Session, previous: Byte, current: Byte): (r: Session)
    requires Coherent(before.state)
    ensures Coherent(r.state)
  {
    var step := Step(before.state, previous, current);
    var picture := DecodeCompleted(decode, step.1);
    Session(step.0, before.pictures + Emitted(picture), before.calls + FanOutIfAny(listeners, picture))
  }

  /**
   * The session after n bytes is the decoder run over them: the pictures are
   * the decoded completed buffers and the calls made hand each of them, in
   * order, to every listener.
   */
  predicate PublishesRun(decode: seq<Byte> -> Option<Image>, listeners: seq<ListenerId>,
                         s: DecoderState, calls: seq<Delivery<Image>>, input: seq<Byte>, n: nat)
    requires Coherent(s) && n <= |input|
  {
    Published(decode, listeners, Session(s, [], calls), input, n) ==
      Session(Feed(s, 0, input, n).0,
              Decoded(decode, Feed(s, 0, input, n).1),
              calls + FanOutAll(listeners, Decoded(decode, Feed(s, 0, input, n).1)))
  }

  lemma PublishesRunNext(decode: seq<Byte> -> Option<Image>, listeners: seq<ListenerId>,
                         s: DecoderState, calls: seq<Delivery<Image>>, input: seq<Byte>, m: nat)
    requires Coherent(s) && m < |input|
    requires PublishesRun(decode, listeners, s, calls, input, m)
    ensures PublishesRun(decode, listeners, s, calls, input, m + 1)
  {
    var start := Session(s, [], calls);
    var run := Feed(s, 0, input, m);
    var pictures := Decoded(decode, run.1);
    var step := Step(run.0, PreviousByte(0, input, m), input[m]);
    var picture := DecodeCompleted(decode, step.1);
    var extra := FanOutIfAny(listeners, picture);
    var before := Published(decode, listeners, start, input, m);
    assert before.state == run.0 && before.pictures == pictures;
    assert before.calls == calls + FanOutAll(listeners, pictures);
    assert Published(decode, listeners, start, input, m + 1) ==
           Session(step.0, before.pictures + Emitted(picture), before.calls + extra);
    var fed := Feed(s, 0, input, m + 1);
    assert fed == (step.0, run.1 + Emitted(step.1));
    DecodedAppend(decode, run.1, step.1);
    assert Decoded(decode, fed.1) == pictures + Emitted(picture);
    FanOutAllAppend(listeners, pictures, picture);
    assert FanOutAll(listeners, Decoded(decode, fed.1)) == FanOutAll(listeners, pictures) + extra;
    AppendAssociative(calls, FanOutAll(listeners, pictures), extra);
  }

  lemma PublishedIsRun(decode: seq<Byte> -> Option<Image>, listeners: seq<ListenerId>,
                                          s: DecoderState, calls: seq<Delivery<Image>>, input: seq<Byte>, n: nat)
    requires Coherent(s) && n <= |input|
    ensures PublishesRun(decode, listeners, s, calls, input, n)
  {
    assert calls + [] == calls;
    var m := 0;
    while m < n
      invariant m <= n && PublishesRun(decode, listeners, s, calls, input, m)
    {
      PublishesRunNext(decode, listeners, s, calls, input, m);
      m := m + 1;
    }
    assert m == n;
  }

  /** After the whole input, open()'s loop has run the decoder and published exactly its decoded pictures. */
  lemma OpenOutcome(decode: seq<Byte> -> Option<Image>, listeners: seq<ListenerId>,
                    s0: DecoderState, d0: seq<Delivery<Image>>, input: seq<Byte>, n: nat, run: Session)
    requires Framed(s0, 0) && n == |input|
    requires run == Published(decode, listeners, Session(s0, [], d0), input, n)
    ensures run.state == Run(s0, 0, input).0 && Framed(run.state, 0)
    ensures run.pictures == Decoded(decode, Run(s0, 0, input).1)
    ensures run.calls == d0 + FanOutAll(listeners, run.pictures)
  {
    PublishedIsRun(decode, listeners, s0, d0, input, n);
    FeedEmitsImages(s0, 0, input, n);
  }

  /**
   * MotionPictureStream: the decoder's fields, the stream lifecycle flags and the
   * listeners. deliveries records every listener call made so far.
   */
  class MotionPictureStream {
    /** ImageIO.read over a completed buffer; null when the bytes are not a readable image. */
    const decode: seq<Byte> -> Option<Image>

    var alive: bool
    var loading: bool
    var insideOfFrame: bool
    var buffer: Option<seq<Byte>>
    /** Whether open() has created the input stream. */
    var hasStream: bool
    var currentFrame: Option<Image>
    var frameListeners: seq<ListenerId>
    var deliveries: seq<Delivery<Image>>

    function State(): DecoderState
      reads this`insideOfFrame, this`buffer
    {
      DecoderState(insideOfFrame, buffer)
    }

    ghost predicate Valid()
      reads this`insideOfFrame, this`buffer
    {
      Framed(State(), 0)
    }

    constructor (decode: seq<Byte> -> Option<Image>)
      ensures Valid()
      ensures this.decode == decode
      ensures !alive && loading && State() == Initial && !hasStream
      ensures currentFrame == None && frameListeners == [] && deliveries == []
    {
      this.decode := decode;
      alive, loading := false, true;
      insideOfFrame, buffer := false, None;
      hasStream := false;
      currentFrame := None;
      frameListeners, deliveries := [], [];
    }

    /** read(previousByte, currentByte): one machine step; the picture decoded from a completed buffer, if any. */
    method Read(previous: Byte, current: Byte) returns (frame: Option<Image>)
      requires Coherent(State())
      modifies this`insideOfFrame, this`buffer
      ensures State() == Step(old(State()), previous, current).0
      ensures frame == DecodeCompleted(decode, Step(old(State()), previous, current).1)
    {
      var isStartOfFrame := previous == 0xFF && current == 0xD8;
      var isEndOfFrame := previous == 0xFF && current == 0xD9;
      frame := None;
      if isStartOfFrame {
        insideOfFrame := true;
        buffer := Some([previous]);
      }
      if insideOfFrame {
        buffer := Some(buffer.value + [current]);
        if isEndOfFrame {
          insideOfFrame := false;
          frame := decode(buffer.value);
        }
      }
    }

    /** Hands a picture to every listener, in registration order. */
    method NotifyListeners(frame: Image)
      modifies this`deliveries
      ensures deliveries == old(deliveries) + FanOut(frameListeners, frame)
    {
      var i := 0;
      while i < |frameListeners|
        invariant 0 <= i <= |frameListeners|
        invariant deliveries == old(deliveries) + FanOut(frameListeners[..i], frame)
      {
        deliveries := deliveries + [Delivery(frameListeners[i], frame)];
        i := i + 1;
        assert frameListeners[..i][..i - 1] == frameListeners[..i - 1];
      }
      assert frameListeners[..i] == frameListeners;
    }

    /**
     * open(): marks the stream alive and loading, connects, reads the bytes the
     * connection delivers, and publishes every decoded picture. How the
     * connection ends is the parameter ending:
     * - Unreachable: url.openStream() throws before any byte, so the stream
     *   field is not replaced and nothing is read;
     * - EndOfStream: read() returns -1 after input and open() runs close();
     *   closeFault reports the NullPointerException close() raises when no
     *   start marker has ever created a buffer;
     * - ConnectionLost: read() throws after input; the IOException leaves
     *   open() before close(), so the stream stays alive.
     */
    method Open(input: seq<Byte>, ending: Ending) returns (closeFault: bool)
      requires Valid()
      modifies this
      ensures Valid()
      ensures frameListeners == old(frameListeners)
      ensures ending == Unreachable ==>
                && alive && loading && !closeFault
                && hasStream == old(hasStream) && State() == old(State())
                && currentFrame == old(currentFrame) && deliveries == old(deliveries)
      ensures ending != Unreachable ==>
                && hasStream
                && State() == Run(old(State()), 0, input).0
                && var pictures := Decoded(decode, Run(old(State()), 0, input).1);
                && loading == (|pictures| == 0)
                && currentFrame == (if |pictures| == 0 then old(currentFrame) else Some(pictures[|pictures| - 1]))
                && deliveries == old(deliveries) + FanOutAll(frameListeners, pictures)
      ensures ending == EndOfStream ==> !alive && (closeFault <==> buffer.None?)
      ensures ending == ConnectionLost ==> alive && !closeFault
    {
      ghost var s0, d0, c0 := State(), deliveries, currentFrame;
      alive, loading := true, true;
      if ending == Unreachable {
        return false;
      }
      hasStream := true;
      var previousByte: Byte := 0;
      var i := 0;
      ghost var start := Session(s0, [], deliveries);
      ghost var run := start;
      while alive && i < |input|
        invariant 0 <= i <= |input|
        invariant previousByte == PreviousByte(0, input, i)
        invariant run == Published(decode, frameListeners, start, input, i)
        invariant Shows(run, c0)
        modifies this`insideOfFrame, this`buffer, this`loading, this`currentFrame, this`deliveries
        decreases |input| - i
      {
        var currentByte := input[i];
        Consume(previousByte, currentByte, run, c0);
        run := PublishStep(decode, frameListeners, run, previousByte, currentByte);
        previousByte := currentByte;
        i := i + 1;
      }
      OpenOutcome(decode, frameListeners, s0, d0, input, i, run);
      if ending == EndOfStream {
        closeFault := Close();
      } else {
        closeFault := false;
      }
    }

    /** The fields agree with a session of open()'s loop; c0 is the frame shown before the session. */
    ghost predicate Shows(run: Session, c0: Option<Image>)
      reads this`insideOfFrame, this`buffer, this`loading, this`currentFrame, this`deliveries
    {
      && State() == run.state
      && loading == (|run.pictures| == 0)
      && currentFrame == (if |run.pictures| == 0 then c0 else Some(run.pictures[|run.pictures| - 1]))
      && deliveries == run.calls
    }

    /** The body of open()'s loop: read one byte and, when it completes a picture, show it and call every listener. */
    method Consume(previous: Byte, current: Byte, ghost run: Session, ghost c0: Option<Image>)
      requires Coherent(run.state) && Shows(run, c0)
      modifies this`insideOfFrame, this`buffer, this`loading, this`currentFrame, this`deliveries
      ensures Shows(PublishStep(decode, frameListeners, run, previous, current), c0)
    {
      ghost var next := PublishStep(decode, frameListeners, run, previous, current);
      var frame := Read(previous, current);
      if frame.Some? {
        loading := false;
        currentFrame := frame;
        NotifyListeners(frame.value);
        assert next.pictures == run.pictures + [frame.value];
      } else {
        assert next.pictures == run.pictures && next.calls == run.calls;
      }
    }

    /** close(): the stream is no longer alive; closing a missing stream or buffer faults. */
    method Close() returns (fault: bool)
      modifies this`alive
      ensures !alive
      ensures fault <==> !hasStream || buffer.None?
    {
      alive := false;
      fault := !hasStream || buffer.None?;
    }

    method RegisterListener(listener: ListenerId)
      modifies this`frameListeners
      ensures frameListeners == old(frameListeners) + [listener]
    {
      frameListeners := frameListeners + [listener];
    }
  }
}
