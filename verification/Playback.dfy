/**
 The playback channel of the media server: three threads (Main, Recv, Send) and the camera's
 signal callback share one record.  A step runs one thread from one cut to the next; the cuts
 are the three blocking calls of the Send loop (the condition wait, the codec query, the frame
 fetch) and, in addition, the head of that loop.  Between any two steps every other thread may run.
 */
module Playback {
  import opened Wrappers

  datatype Codec = H264 | H265 | Other(code: int)

  datatype Frame = Frame(pts: int, video: bool, payload: int)

  datatype Packet =
    | Media(frame: Frame, finish: bool)
    | Restart  // RESTART message: carries no frame

  datatype Command = Reset | Config(target: int, arrival: int) | Start | Stop | Unknown

  /** Where the Send thread stands. */
  datatype Pc = Top | Waiting | Asking | Fetching

  /** What can be observed: commands that took effect and packets put on the wire, in order. */
  datatype LogEntry = Accepted(cmd: Command) | Sent(sd: int, packet: Packet)

  datatype State = State(
    client: int,          // ClientSd[0], negative when there is none
    suspend: bool,        // Send.bSuspend
    renew: bool,          // Send.bRenew
    target: int,          // shared window
    arrival: int,
    changed: bool,        // Config.bChanged
    codec: Codec,         // Config.Codec
    pc: Pc,
    localTarget: int,     // Send's own copy of the window
    localArrival: int,
    started: bool,        // Send's bStart
    log: seq<LogEntry>
  )

  datatype Event =
    | Recv(cmd: Command)              // Recv interprets one whole command
    | Accept(sd: int)                 // Main takes a new client; negative when accept fails
    | Disconnect                      // Recv drops a silent client
    | Signal                          // the camera's configuration-changed callback
    | Pass                            // Send runs from the head of its loop
    | Wake                            // Send returns from its wait, signalled or spuriously
    | CodecReply(raw: Codec)          // the codec query returns
    | FrameReply(frame: Option<Frame>) // the frame fetch returns, None on failure

  /** The channel as set up before its threads run; `codec` is what the camera reported. */
  function Init(codec: Codec): State {
    State(-1, true, false, 0, 0, false, codec, Top, 0, 0, false, [])
  }

  predicate Enabled(s: State, e: Event) {
    match e
    case Recv(_) => s.client >= 0
    case Disconnect => s.client >= 0
    case Accept(_) => true
    case Signal => true
    case Pass => s.pc == Top
    case Wake => s.pc == Waiting
    case CodecReply(_) => s.pc == Asking
    case FrameReply(_) => s.pc == Fetching
  }

  function Normalise(raw: Codec): Codec {
    if raw.Other? then H264 else raw
  }

  /** Both send calls are guarded by the same test. */
  predicate Deliverable(s: State) {
    s.client >= 0 && !s.suspend
  }

  function Emit(s: State, p: Packet): State {
    if Deliverable(s) then s.(log := s.log + [Sent(s.client, p)]) else s
  }

  function Reload(s: State): State {
    if s.renew
    then s.(renew := false, localTarget := s.target, localArrival := s.arrival, started := false)
    else s
  }

  /** From the reload test to the next cut. */
  function Gate(s: State): State {
    var s := Reload(s);
    var s := if s.client < 0 then s.(suspend := true) else s;
    s.(pc := if s.suspend then Top else if s.changed then Asking else Fetching)
  }

  function OnCodec(s: State, raw: Codec): State {
    var c := Normalise(raw);
    if c != s.codec
    then Emit(s.(codec := c), Restart).(pc := Top)
    else s.(changed := false, pc := Fetching)
  }

  predicate Opens(s: State, f: Frame) {
    s.started || (f.video && f.pts >= s.localTarget)
  }

  predicate Closes(arrival: int, f: Frame) {
    0 <= arrival <= f.pts
  }

  function OnFrame(s: State, f: Frame): State {
    if Opens(s, f) then
      var fin := Closes(s.localArrival, f);
      var s := Emit(s.(started := true), Media(f, fin));
      s.(suspend := s.suspend || fin, pc := Top)
    else
      s.(pc := Top)
  }

  function OnCommand(s: State, cmd: Command): State {
    match cmd
    case Reset => s.(renew := true, suspend := true, log := s.log + [Accepted(cmd)])
    case Config(t, a) =>
      if s.suspend then s.(target := t, arrival := a, log := s.log + [Accepted(cmd)]) else s
    case Start =>
      if s.suspend then s.(suspend := false, log := s.log + [Accepted(cmd)]) else s
    case Stop =>
      if s.suspend then s
      else s.(suspend := true, client := -1, log := s.log + [Accepted(cmd)])
    case Unknown => s
  }

  function Step(s: State, e: Event): State {
    match e
    case Recv(cmd) => OnCommand(s, cmd)
    case Accept(sd) => s.(client := if sd >= 0 then sd else -1)
    case Disconnect => s.(client := -1)
    case Signal => s.(changed := true)
    case Pass => if s.suspend then s.(pc := Waiting) else Gate(s)
    case Wake => Gate(s.(renew := true))
    case CodecReply(raw) => OnCodec(s, raw)
    case FrameReply(None) => s.(pc := Top)
    case FrameReply(Some(f)) => OnFrame(s, f)
  }

  /** The state after the events `es`, and whether each was possible when it happened. */
  function Exec(s: State, es: seq<Event>): State {
    if es == [] then s else Step(Exec(s, es[..|es| - 1]), es[|es| - 1])
  }

  predicate Possible(s: State, es: seq<Event>) {
    es == [] ||
    (Possible(s, es[..|es| - 1]) && Enabled(Exec(s, es[..|es| - 1]), es[|es| - 1]))
  }

  lemma {:induction false} PossiblePrefix(s: State, es: seq<Event>, k: nat)
    requires Possible(s, es) && k <= |es|
    ensures Possible(s, es[..k])
    ensures k < |es| ==> Enabled(Exec(s, es[..k]), es[k])
    ensures k < |es| ==> Exec(s, es[..k + 1]) == Step(Exec(s, es[..k]), es[k])
  {
    if k == |es| {
      assert es[..k] == es;
    } else {
      assert es[..k + 1][..k] == es[..k];
      if k < |es| - 1 {
        var init := es[..|es| - 1];
        PossiblePrefix(s, init, k);
        assert init[..k] == es[..k];
      } else {
        assert es[..k + 1] == es;
      }
    }
  }

  /** One more event of a run whose prefix has been followed to `r`. */
  lemma Extend(s: State, es: seq<Event>, k: nat, r: State)
    requires k < |es| && Possible(s, es[..k]) && Exec(s, es[..k]) == r && Enabled(r, es[k])
    ensures Possible(s, es[..k + 1]) && Exec(s, es[..k + 1]) == Step(r, es[k])
  {
    assert es[..k + 1][..k] == es[..k];
  }

  /** One more event at the end of a run. */
  lemma RunSnoc(s: State, es: seq<Event>, e: Event)
    requires Possible(s, es) && Enabled(Exec(s, es), e)
    ensures Possible(s, es + [e]) && Exec(s, es + [e]) == Step(Exec(s, es), e)
  {
    assert (es + [e])[..|es|] == es;
  }

  lemma {:induction false} RunConcat(s: State, es: seq<Event>, more: seq<Event>)
    ensures Exec(s, es + more) == Exec(Exec(s, es), more)
    ensures Possible(s, es + more) <==> Possible(s, es) && Possible(Exec(s, es), more)
  {
    if more == [] {
      assert es + more == es;
    } else {
      var n := |more| - 1;
      RunConcat(s, es, more[..n]);
      assert (es + more)[..|es + more| - 1] == es + more[..n];
    }
  }
}
