/** The channel in the program's own form: shared fields updated in place by the thread loops. */
module PlaybackServer {
  import opened Wrappers
  import opened Playback
  import opened PlaybackPackets
  import PlaybackWindow
  import PlaybackFields

  class Channel {
    var clientSd: int
    var sendSuspend: bool
    var sendRenew: bool
    var targetTs: int
    var arrivalTs: int
    var changed: bool
    var codec: Codec
    // locals of the Send loop, kept here because a step ends in the middle of it
    var pc: Pc
    var targetPts: int
    var arrivalPts: int
    var started: bool
    var log: seq<LogEntry>
    ghost const initialCodec: Codec
    ghost var history: seq<Event>

    function Snapshot(): State
      reads this
    {
      State(clientSd, sendSuspend, sendRenew, targetTs, arrivalTs, changed, codec,
            pc, targetPts, arrivalPts, started, log)
    }

    /** The channel is where the steps taken so far, each possible in its turn, lead. */
    ghost predicate Valid()
      reads this
    {
      Possible(Init(initialCodec), history) && Snapshot() == Exec(Init(initialCodec), history)
    }

    /** What the theorems about runs say of the fields, between any two steps. */
    lemma AtAnyTime()
      requires Valid()
      ensures PacketsLive(Snapshot(), 0)
      ensures pc == Waiting <==> PlaybackWindow.PassedIntoWait(initialCodec, history)
      ensures pc != Waiting ==> (sendRenew <==> PlaybackWindow.ResetSinceReloadTest(history))
      ensures sendSuspend ==> forall es | Possible(Snapshot(), es) :: PacketsLive(Exec(Snapshot(), es), |log|)
    {
      if sendSuspend {
        forall es | Possible(Snapshot(), es) ensures PacketsLive(Exec(Snapshot(), es), |log|) {
          StartNeeded(Snapshot(), es);
        }
      }
      PacketsOnlyAfterStart(initialCodec, history);
      PlaybackWindow.FlagsFromHistory(initialCodec, history);
    }

    /** Adds the step just taken to the history. */
    ghost method Record(before: State, e: Event)
      requires Possible(Init(initialCodec), history) && before == Exec(Init(initialCodec), history)
      requires Enabled(before, e) && Snapshot() == Step(before, e)
      modifies `history
      ensures Valid() && history == old(history) + [e] && PacketsLive(Snapshot(), 0)
      ensures Snapshot() == old(Snapshot())
    {
      RunSnoc(Init(initialCodec), history, e);
      history := history + [e];
      AtAnyTime();
    }

    constructor (cameraCodec: Codec)
      ensures Valid() && history == [] && initialCodec == cameraCodec
      ensures Snapshot() == Init(cameraCodec) && clientSd < 0 && sendSuspend && !sendRenew
    {
      clientSd := -1;
      sendSuspend := true;
      sendRenew := false;
      targetTs, arrivalTs := 0, 0;
      changed := false;
      codec := cameraCodec;
      pc := Top;
      targetPts, arrivalPts := 0, 0;
      started := false;
      log := [];
      initialCodec := cameraCodec;
      history := [];
    }

    /** One turn of the Recv loop with a complete command. */
    method ReceiveCommand(cmd: Command)
      requires Valid()
      requires Enabled(Snapshot(), Recv(cmd))
      modifies this
      ensures Snapshot() == Step(old(Snapshot()), Recv(cmd))
      ensures Valid() && history == old(history) + [Recv(cmd)] && PacketsLive(Snapshot(), 0)
    {
      ghost var before := Snapshot();
      match cmd {
        case Reset =>
          sendRenew := true;
          sendSuspend := true;
          log := log + [Accepted(cmd)];
        case Config(t, a) =>
          if sendSuspend {
            targetTs := t;
            arrivalTs := a;
            log := log + [Accepted(cmd)];
          }
        case Start =>
          if sendSuspend {
            sendSuspend := false;
            log := log + [Accepted(cmd)];
          }
        case Stop =>
          if !sendSuspend {
            sendSuspend := true;
            clientSd := -1;
            log := log + [Accepted(cmd)];
          }
        case Unknown =>
      }
      Record(before, Recv(cmd));
    }

    /** Recv gives up on a client that has gone silent. */
    method DropClient()
      requires Valid()
      requires Enabled(Snapshot(), Disconnect)
      modifies this
      ensures Snapshot() == Step(old(Snapshot()), Disconnect)
      ensures Valid() && history == old(history) + [Disconnect] && PacketsLive(Snapshot(), 0)
      ensures forall es | Possible(Snapshot(), es) && NoAccept(es) :: Exec(Snapshot(), es).log == old(log)
    {
      ghost var before := Snapshot();
      clientSd := -1;
      Record(before, Disconnect);
      forall es | Possible(Snapshot(), es) && NoAccept(es) ensures Exec(Snapshot(), es).log == log {
        SilentWithoutClient(Snapshot(), es);
      }
    }

    /** One turn of the Main loop with a connection request pending. */
    method AcceptClient(sd: int)
      requires Valid()
      modifies this
      ensures Snapshot() == Step(old(Snapshot()), Accept(sd))
      ensures Valid() && history == old(history) + [Accept(sd)] && PacketsLive(Snapshot(), 0)
      ensures forall es | Possible(Snapshot(), es) && NoAccept(es) ::
        |log| <= |Exec(Snapshot(), es).log| &&
        forall k | |log| <= k < |Exec(Snapshot(), es).log| && Exec(Snapshot(), es).log[k].Sent? ::
          Exec(Snapshot(), es).log[k].sd == sd >= 0
    {
      ghost var before := Snapshot();
      if clientSd >= 0 {
        clientSd := -1;
      }
      if sd < 0 {
        clientSd := -1;
      } else {
        clientSd := sd;
      }
      Record(before, Accept(sd));
      forall es | Possible(Snapshot(), es) && NoAccept(es)
        ensures |log| <= |Exec(Snapshot(), es).log|
        ensures forall k | |log| <= k < |Exec(Snapshot(), es).log| && Exec(Snapshot(), es).log[k].Sent? ::
          Exec(Snapshot(), es).log[k].sd == sd >= 0
      {
        OnlyToClient(Snapshot(), es);
      }
    }

    method CameraSignal()
      requires Valid()
      modifies this
      ensures Snapshot() == Step(old(Snapshot()), Signal)
      ensures Valid() && history == old(history) + [Signal] && PacketsLive(Snapshot(), 0)
      ensures forall es: seq<Event> | Possible(Snapshot(), es) && NoReply(es) && Exec(Snapshot(), es).pc == Fetching ::
        old(pc) == Fetching && forall k | 0 <= k < |es| :: !es[k].FrameReply?
      ensures forall es: seq<Event> | Possible(Snapshot(), es) && !EverBegins(Asking, Snapshot(), es) ::
        EverBegins(Fetching, Snapshot(), es) <==> old(pc) == Asking && AnswersFirst(es, old(codec))
    {
      ghost var before := Snapshot();
      changed := true;
      Record(before, Signal);
      forall es: seq<Event> | Possible(Snapshot(), es) && NoReply(es) && Exec(Snapshot(), es).pc == Fetching
        ensures pc == Fetching && forall k | 0 <= k < |es| :: !es[k].FrameReply?
      {
        AskedBeforeFetch(Snapshot(), es);
      }
      forall es: seq<Event> | Possible(Snapshot(), es) && !EverBegins(Asking, Snapshot(), es)
        ensures EverBegins(Fetching, Snapshot(), es) <==> pc == Asking && AnswersFirst(es, codec)
      {
        FetchWithoutQuestion(Snapshot(), es);
      }
    }

    /** From the reload test to the next blocking call, or back to the loop head. */
    method ToNextCall()
      modifies this
      ensures Snapshot() == Gate(old(Snapshot())) && history == old(history)
      ensures clientSd < 0 ==> sendSuspend && pc == Top
    {
      if sendRenew {
        sendRenew := false;
        arrivalPts := arrivalTs;
        targetPts := targetTs;
        started := false;
      }
      if clientSd < 0 {
        sendSuspend := true;
      }
      if sendSuspend {
        pc := Top;
      } else if changed {
        pc := Asking;
      } else {
        pc := Fetching;
      }
    }

    /** From the head of the Send loop. */
    method SendPass()
      requires Valid()
      requires Enabled(Snapshot(), Pass)
      modifies this
      ensures Snapshot() == Step(old(Snapshot()), Pass)
      ensures Valid() && history == old(history) + [Pass] && PacketsLive(Snapshot(), 0)
      ensures old(clientSd) < 0 ==>
        sendSuspend && forall es | Possible(Snapshot(), es) :: PacketsLive(Exec(Snapshot(), es), |old(log)|)
    {
      ghost var before := Snapshot();
      if sendSuspend {
        pc := Waiting;
      } else {
        ToNextCall();
      }
      Record(before, Pass);
      PlaybackFields.SuspendStep(before, Pass);
      PlaybackFields.LogStep(before, Pass);
      AtAnyTime();
    }

    /** From the return of the condition wait. */
    method SendWake()
      requires Valid()
      requires Enabled(Snapshot(), Wake)
      modifies this
      ensures Snapshot() == Step(old(Snapshot()), Wake)
      ensures Valid() && history == old(history) + [Wake] && PacketsLive(Snapshot(), 0)
      ensures old(clientSd) < 0 ==>
        sendSuspend && forall es | Possible(Snapshot(), es) :: PacketsLive(Exec(Snapshot(), es), |old(log)|)
    {
      ghost var before := Snapshot();
      sendRenew := true;
      ToNextCall();
      Record(before, Wake);
      PlaybackFields.SuspendStep(before, Wake);
      PlaybackFields.LogStep(before, Wake);
      AtAnyTime();
    }

    /** The guarded send. */
    method SendPacket(p: Packet)
      modifies `log
      ensures Snapshot() == Emit(old(Snapshot()), p)
    {
      if clientSd >= 0 && !sendSuspend {
        log := log + [Sent(clientSd, p)];
      }
    }

    method CompareCodec(raw: Codec)
      modifies `codec, `log, `pc, `changed
      ensures Snapshot() == OnCodec(old(Snapshot()), raw)
      ensures codec == if raw == H265 then H265 else H264
      ensures pc == Fetching <==> codec == old(codec)
    {
      var c := raw;
      if c != H264 && c != H265 {
        c := H264;
      }
      if c != codec {
        codec := c;
        SendPacket(Restart);
        pc := Top;
      } else {
        changed := false;
        pc := Fetching;
      }
    }

    /** From the return of the codec query. */
    method SendCodecReply(raw: Codec)
      requires Valid()
      requires Enabled(Snapshot(), CodecReply(raw))
      modifies this
      ensures Snapshot() == Step(old(Snapshot()), CodecReply(raw))
      ensures Valid() && history == old(history) + [CodecReply(raw)] && PacketsLive(Snapshot(), 0)
    {
      ghost var before := Snapshot();
      CompareCodec(raw);
      Record(before, CodecReply(raw));
    }

    /** Lets a frame through if the window is open for it, and closes the window with the last. */
    method SendFrame(f: Frame)
      modifies `started, `log, `sendSuspend
      ensures Snapshot() == OnFrame(old(Snapshot()), f).(pc := old(pc))
      ensures started <==> old(started) || (f.video && targetPts <= f.pts)
      ensures sendSuspend <==> old(sendSuspend) || (started && 0 <= arrivalPts <= f.pts)
    {
      if f.pts >= targetPts && f.video {
        started := true;
      }
      if started {
        var finish := arrivalPts <= f.pts && 0 <= arrivalPts;
        SendPacket(Media(f, finish));
        if finish {
          sendSuspend := true;
        }
      }
    }

    /** From the return of the frame fetch. */
    method SendFrameReply(frame: Option<Frame>)
      requires Valid()
      requires Enabled(Snapshot(), FrameReply(frame))
      modifies this
      ensures Snapshot() == Step(old(Snapshot()), FrameReply(frame))
      ensures Valid() && history == old(history) + [FrameReply(frame)] && PacketsLive(Snapshot(), 0)
    {
      ghost var before := Snapshot();
      if frame.Some? {
        SendFrame(frame.value);
      }
      pc := Top;
      Record(before, FrameReply(frame));
    }
  }
}
