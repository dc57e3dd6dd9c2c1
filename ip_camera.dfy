/**
 * The camera view: a motion-JPEG stream that is opened when a status document
 * on the camera reports motion and closed again after a quiet minute. The clock,
 * the status document's bytes, the mouse position test and URL validity are
 * parameters; the asynchronous openAsync is recorded as a command.
 */
module IpCamera {
  import opened Base
  import opened Mjpeg

  /** How long the stream stays open after the last detected motion, in milliseconds. */
  const QuietPeriod: int := 1000 * 60

  // ---------------------------------------------------------------------------
  // Bytes and configuration values
  // ---------------------------------------------------------------------------

  /** A Java byte: -128 to 127. */
  type SignedByte = b: int | -128 <= b < 128

  /** The cast (byte) v: the low 8 bits of v read as a two's-complement byte. */
  function ToSignedByte(v: int): (b: SignedByte)
    ensures b % 256 == v % 256
    ensures 0 <= v < 128 ==> b == v
    ensures 128 <= v < 256 ==> b == v - 256
  {
    var low := v % 256;
    if low < 128 then low else low - 256
  }

  /** Two values give the same byte exactly when they agree in their low 8 bits. */
  lemma SameByteIffSameLowBits(u: int, v: int)
    ensures ToSignedByte(u) == ToSignedByte(v) <==> u % 256 == v % 256
  {
  }

  /**
   * The byte the probe reads: skipBytes(offset) skips nothing for an offset of
   * 0 or less, then readByte() takes the next byte; None is the EOFException of
   * a document that ends before it.
   */
  function ProbeByte(body: seq<Byte>, offset: int): (r: Option<SignedByte>)
    ensures offset >= 0 ==> (r.None? <==> |body| <= offset)
    ensures 0 <= offset < |body| ==> r == Some(ToSignedByte(body[offset]))
    ensures offset < 0 ==> r == if |body| == 0 then None else Some(ToSignedByte(body[0]))
  {
    var skipped := if offset <= 0 then 0 else offset;
    if skipped < |body| then Some(ToSignedByte(body[skipped])) else None
  }

  /** The "motion_detection" part of the configuration; a missing key takes the default. */
  datatype MotionConfig = MotionConfig(enabled: Option<bool>, url: Option<string>, intervalInSeconds: Option<int>,
                                       characterOffset: Option<int>, characterByte: Option<int>)

  /** The module's configuration: the stream URL and the motion settings. */
  datatype CameraConfig = CameraConfig(mjpegUrl: Option<string>, motionDetection: MotionConfig)

  const DefaultStreamUrl: string := "http://127.0.0.1/cgi-bin/CGIStream.cgi?cmd=GetMJStream"
  const DefaultMotionUrl: string := "http://127.0.0.1/cgi-bin/CGIProxy.fcgi?cmd=getDevState"
  const DefaultIntervalInSeconds: int := 3

  /** Addon.getConfigValue: the configured value, or the default when the key is absent. */
  function ValueOr<T>(o: Option<T>, default: T): T
  {
    if o.Some? then o.value else default
  }

  // ---------------------------------------------------------------------------
  // The tick decision
  // ---------------------------------------------------------------------------

  /** The motion check is due: detection is on and the interval has passed since the last check. */
  predicate Due(enabled: bool, lastMotionChecked: int, motionInterval: int, now: int)
  {
    enabled && lastMotionChecked + motionInterval <= now
  }

  /** What one probe makes the module do with the stream. */
  datatype Decision = Idle | OpenStream | CloseStream

  /**
   * The decision for one probe: nothing when the document could not be fetched
   * or ends before the offset; a matching byte opens a stream that is not alive;
   * any other byte closes an alive stream after a quiet period, unless the mouse
   * is over the view.
   */
  function Decide(probe: Option<seq<Byte>>, characterOffset: int, characterByte: SignedByte,
                  alive: bool, lastMotionDetected: int, now: int, mouseOver: bool): Decision
  {
    if probe.None? then Idle
    else
      match ProbeByte(probe.value, characterOffset)
      case None => Idle
      case Some(target) =>
        if target == characterByte then
          if !alive then OpenStream else Idle
        else if alive && lastMotionDetected + QuietPeriod < now && !mouseOver then CloseStream
        else Idle
  }

  /** The decision table, case by case. */
  lemma DecideCases(probe: Option<seq<Byte>>, characterOffset: int, characterByte: SignedByte,
                    alive: bool, lastMotionDetected: int, now: int, mouseOver: bool)
    ensures var d := Decide(probe, characterOffset, characterByte, alive, lastMotionDetected, now, mouseOver);
            && (d == OpenStream <==>
                  probe.Some? && ProbeByte(probe.value, characterOffset) == Some(characterByte) && !alive)
            && (d == CloseStream <==>
                  && probe.Some? && ProbeByte(probe.value, characterOffset).Some?
                  && ProbeByte(probe.value, characterOffset) != Some(characterByte)
                  && alive && lastMotionDetected + QuietPeriod < now && !mouseOver)
            && (d == OpenStream ==> !alive)
            && (d == CloseStream ==> alive)
            && (probe.Some? && 0 <= characterOffset && |probe.value| <= characterOffset ==> d == Idle)
  {
  }

  /** At exactly one quiet period after the last motion the stream is not closed: the comparison is strict. */
  lemma QuietPeriodIsStrict(probe: Option<seq<Byte>>, characterOffset: int, characterByte: SignedByte,
                            lastMotionDetected: int, mouseOver: bool)
    ensures Decide(probe, characterOffset, characterByte, true, lastMotionDetected,
                   lastMotionDetected + QuietPeriod, mouseOver) == Idle
  {
  }

  // ---------------------------------------------------------------------------
  // The module
  // ---------------------------------------------------------------------------

  /** The asynchronous calls the module makes on the stream. */
  datatype Command = OpenAsync

  /** IPCameraModule: the stream, the motion settings and their timestamps. */
  class IPCameraModule {
    var stream: MotionPictureStream?
    var lastMotionDetected: int
    var lastMotionChecked: int
    var motionInterval: int
    var motionDetectionEnabled: bool
    var hasMotionUrl: bool
    var characterOffset: int
    var characterByte: SignedByte
    /** Every openAsync issued, in order. */
    var commands: seq<Command>

    constructor ()
      ensures stream == null && !motionDetectionEnabled && !hasMotionUrl
      ensures lastMotionDetected == 0 && lastMotionChecked == 0 && motionInterval == 0
      ensures characterOffset == 0 && characterByte == 0 && commands == []
    {
      stream := null;
      lastMotionDetected, lastMotionChecked, motionInterval := 0, 0, 0;
      motionDetectionEnabled, hasMotionUrl := false, false;
      characterOffset, characterByte := 0, 0;
      commands := [];
    }

    /**
     * onLoadConfig. A valid stream URL replaces the stream and stamps the
     * motion time; an invalid one leaves the old stream. With detection on and
     * a valid motion URL, the interval, offset and trigger byte are read (an
     * invalid URL stops before them); with detection off and a stream, the
     * stream is opened straight away.
     */
    method LoadConfig(config: CameraConfig, validUrl: string -> bool,
                      decode: seq<Byte> -> Option<Image>, now: int)
      modifies this
      ensures validUrl(ValueOr(config.mjpegUrl, DefaultStreamUrl)) ==>
                fresh(stream) && stream.decode == decode && !stream.alive
      ensures !validUrl(ValueOr(config.mjpegUrl, DefaultStreamUrl)) ==> stream == old(stream)
      ensures var motion := config.motionDetection;
              && motionDetectionEnabled == ValueOr(motion.enabled, false)
              && lastMotionChecked == old(lastMotionChecked)
              && (motionDetectionEnabled && validUrl(ValueOr(motion.url, DefaultMotionUrl)) ==>
                    && hasMotionUrl
                    && motionInterval == ValueOr(motion.intervalInSeconds, DefaultIntervalInSeconds) * 1000
                    && characterOffset == ValueOr(motion.characterOffset, 0)
                    && characterByte == ToSignedByte(ValueOr(motion.characterByte, 0)))
              && (motionDetectionEnabled && !validUrl(ValueOr(motion.url, DefaultMotionUrl)) ==>
                    && hasMotionUrl == old(hasMotionUrl) && motionInterval == old(motionInterval)
                    && characterOffset == old(characterOffset) && characterByte == old(characterByte))
              && (!motionDetectionEnabled ==>
                    && hasMotionUrl == old(hasMotionUrl) && motionInterval == old(motionInterval)
                    && characterOffset == old(characterOffset) && characterByte == old(characterByte))
              && (!motionDetectionEnabled && stream != null ==>
                    lastMotionDetected == now && commands == old(commands) + [OpenAsync])
              && (motionDetectionEnabled || stream == null ==>
                    commands == old(commands) &&
                    lastMotionDetected == if validUrl(ValueOr(config.mjpegUrl, DefaultStreamUrl)) then now
                                          else old(lastMotionDetected))
    {
      var streamUrl := ValueOr(config.mjpegUrl, DefaultStreamUrl);
      if validUrl(streamUrl) {
        stream := new MotionPictureStream(decode);
        lastMotionDetected := now;
      }
      var motion := config.motionDetection;
      motionDetectionEnabled := ValueOr(motion.enabled, false);
      if motionDetectionEnabled {
        if validUrl(ValueOr(motion.url, DefaultMotionUrl)) {
          hasMotionUrl := true;
          motionInterval := ValueOr(motion.intervalInSeconds, DefaultIntervalInSeconds) * 1000;
          characterOffset := ValueOr(motion.characterOffset, 0);
          characterByte := ToSignedByte(ValueOr(motion.characterByte, 0));
        }
      } else if stream != null {
        lastMotionDetected := now;
        commands := commands + [OpenAsync];
      }
    }

    /**
     * onTick(now): when the check is due the check time is stamped and, with a
     * stream, the status document probe is judged; an open stamps the motion
     * time and issues openAsync, a close closes the stream. Without a motion
     * URL (detection on but no valid URL ever loaded) the probe's openStream
     * faults with a NullPointerException that the task swallows, so only the
     * check time changes.
     */
    method OnTick(now: int, probe: Option<seq<Byte>>, mouseOver: bool)
      modifies this`lastMotionChecked, this`lastMotionDetected, this`commands
      modifies (if stream == null then {} else {stream})`alive
      ensures !Due(old(motionDetectionEnabled), old(lastMotionChecked), motionInterval, now) ==>
                lastMotionChecked == old(lastMotionChecked) && lastMotionDetected == old(lastMotionDetected) &&
                commands == old(commands) && (stream != null ==> stream.alive == old(stream.alive))
      ensures Due(motionDetectionEnabled, old(lastMotionChecked), motionInterval, now) ==> lastMotionChecked == now
      ensures Due(motionDetectionEnabled, old(lastMotionChecked), motionInterval, now) && (stream == null || !hasMotionUrl) ==>
                lastMotionDetected == old(lastMotionDetected) && commands == old(commands) &&
                (stream != null ==> stream.alive == old(stream.alive))
      ensures Due(motionDetectionEnabled, old(lastMotionChecked), motionInterval, now) && stream != null && hasMotionUrl ==>
                var d := Decide(probe, characterOffset, characterByte, old(stream.alive),
                                old(lastMotionDetected), now, mouseOver);
                && (d == OpenStream ==>
                      lastMotionDetected == now && commands == old(commands) + [OpenAsync] &&
                      stream.alive == old(stream.alive))
                && (d == CloseStream ==>
                      !stream.alive && lastMotionDetected == old(lastMotionDetected) && commands == old(commands))
                && (d == Idle ==>
                      stream.alive == old(stream.alive) && lastMotionDetected == old(lastMotionDetected) &&
                      commands == old(commands))
    {
      if !motionDetectionEnabled || lastMotionChecked + motionInterval > now {
        return;
      }
      lastMotionChecked := now;
      if stream != null && hasMotionUrl {
        var decision := Decide(probe, characterOffset, characterByte, stream.alive, lastMotionDetected, now, mouseOver);
        match decision
        case OpenStream =>
          lastMotionDetected := now;
          commands := commands + [OpenAsync];
        case CloseStream =>
          var _ := stream.Close();
        case Idle =>
      }
    }
  }
}
