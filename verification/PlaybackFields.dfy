/** Who writes what: for each field of the channel, exactly the steps that change it, and to what. */
module PlaybackFields {
  import opened Wrappers
  import opened Playback

  /** The client is the one accepted last, and none after a failed accept, after Recv has dropped it, or
      after a STOP that interrupts a transmission. */
  lemma ClientStep(s: State, e: Event)
    requires Enabled(s, e)
    ensures Step(s, e).client ==
      match e
      case Accept(sd) => if sd < 0 then -1 else sd
      case Disconnect => -1
      case Recv(Stop) => if s.suspend then s.client else -1
      case _ => s.client
  {}

  /** RESET and STOP leave Send suspended and START leaves it not suspended, whatever it was before; and
      Send suspends itself when it finds no client or has sent the frame that reaches the arrival time. */
  lemma SuspendStep(s: State, e: Event)
    requires Enabled(s, e)
    ensures Step(s, e).suspend <==>
      match e
      case Recv(Reset) => true
      case Recv(Stop) => true
      case Recv(Start) => false
      case Pass => s.suspend || s.client < 0
      case Wake => s.suspend || s.client < 0
      case FrameReply(Some(f)) =>
        s.suspend || ((s.started || (f.video && s.localTarget <= f.pts)) && 0 <= s.localArrival <= f.pts)
      case _ => s.suspend
  {}

  /** A reload is asked for by RESET and done at a wake-up, or at a pass that does not go into the wait. */
  lemma RenewStep(s: State, e: Event)
    requires Enabled(s, e)
    ensures Step(s, e).renew <==> e == Recv(Reset) || (s.renew && e != Wake && (e == Pass ==> s.suspend))
  {}

  /** The shared window is written by CONFIG alone, and only while Send is suspended. */
  lemma WindowStep(s: State, e: Event)
    requires Enabled(s, e)
    ensures (Step(s, e).target, Step(s, e).arrival) ==
            if e.Recv? && e.cmd.Config? && s.suspend then (e.cmd.target, e.cmd.arrival) else (s.target, s.arrival)
  {}

  predicate Reloads(s: State, e: Event) {
    e == Wake || (e == Pass && !s.suspend && s.renew)
  }

  lemma LocalWindowStep(s: State, e: Event)
    requires Enabled(s, e)
    ensures (Step(s, e).localTarget, Step(s, e).localArrival) ==
            if Reloads(s, e) then (s.target, s.arrival) else (s.localTarget, s.localArrival)
  {}

  /** The window is opened by a video frame at or after its target and shut by a reload. */
  lemma StartedStep(s: State, e: Event)
    requires Enabled(s, e)
    ensures Step(s, e).started <==>
      match e
      case FrameReply(Some(f)) => s.started || (f.video && s.localTarget <= f.pts)
      case _ => s.started && !Reloads(s, e)
  {}

  /** The codec stored is the one answered last, where anything but H265 counts as H264. */
  lemma CodecStep(s: State, e: Event)
    requires Enabled(s, e)
    ensures Step(s, e).codec == if e.CodecReply? then (if e.raw == H265 then H265 else H264) else s.codec
    ensures Step(s, e).changed <==>
      e == Signal || (s.changed && !(e.CodecReply? && s.codec == if e.raw == H265 then H265 else H264))
  {}

  /** Send waits after a pass that finds it suspended; otherwise it goes into a call exactly when it has a
      client and is not suspended, a codec query first if the camera has signalled. */
  lemma PcStep(s: State, e: Event)
    requires Enabled(s, e)
    ensures Step(s, e).pc ==
      match e
      case Pass =>
        if s.suspend then Waiting else if s.client < 0 then Top else if s.changed then Asking else Fetching
      case Wake =>
        if s.suspend || s.client < 0 then Top else if s.changed then Asking else Fetching
      case CodecReply(raw) => if s.codec == (if raw == H265 then H265 else H264) then Fetching else Top
      case FrameReply(_) => Top
      case _ => s.pc
  {}

  /** What is observed of a step: a command that takes effect, or a packet to a client that is there. */
  lemma LogStep(s: State, e: Event)
    requires Enabled(s, e)
    ensures Step(s, e).log == s.log +
      match e
      case Recv(Reset) => [Accepted(Reset)]
      case Recv(Config(t, a)) => if s.suspend then [Accepted(Config(t, a))] else []
      case Recv(Start) => if s.suspend then [Accepted(Start)] else []
      case Recv(Stop) => if s.suspend then [] else [Accepted(Stop)]
      case CodecReply(raw) =>
        if s.client >= 0 && !s.suspend && s.codec != (if raw == H265 then H265 else H264)
        then [Sent(s.client, Restart)] else []
      case FrameReply(Some(f)) =>
        if s.client >= 0 && !s.suspend && (s.started || (f.video && s.localTarget <= f.pts))
        then [Sent(s.client, Media(f, 0 <= s.localArrival <= f.pts))] else []
      case _ => []
  {}

  /** Whoever is set up starts suspended, without client, at the head of the loop, with nothing due. */
  lemma Initially(codec: Codec)
    ensures
      var s := Init(codec);
      && s.client < 0 && s.suspend && !s.renew && (s.target, s.arrival) == (0, 0) == (s.localTarget, s.localArrival)
      && !s.changed && s.codec == codec && s.pc == Top && !s.started && s.log == []
  {}
}
