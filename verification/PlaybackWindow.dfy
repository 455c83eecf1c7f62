/** Which window Send works with, and which frames that window lets through. */
module PlaybackWindow {
  import opened Wrappers
  import opened Playback
  import opened PlaybackFields

  // ---- Agreement between Send's window and the shared one ----

  /** Outside its wait, Send has the shared window or knows that it must reload. */
  predicate Agrees(s: State) {
    s.pc == Waiting || s.renew || (s.localTarget == s.target && s.localArrival == s.arrival)
  }

  /** CONFIG is accepted with a window other than Send's while Send is outside its wait and no
      reload is due. */
  predicate StaleConfig(s: State, e: Event) {
    && e.Recv? && e.cmd.Config?
    && s.suspend && s.pc != Waiting && !s.renew
    && (e.cmd.target != s.localTarget || e.cmd.arrival != s.localArrival)
  }

  lemma CommandAgreement(s: State, cmd: Command)
    requires Agrees(s)
    ensures Agrees(OnCommand(s, cmd)) <==> !StaleConfig(s, Recv(cmd))
  {}

  lemma GateAgrees(s: State)
    requires Agrees(s) && (s.pc == Waiting ==> s.renew)
    ensures Agrees(Gate(s))
  {}

  lemma StepAgreement(s: State, e: Event)
    requires Agrees(s) && Enabled(s, e)
    ensures Agrees(Step(s, e)) <==> !StaleConfig(s, e)
  {
    match e
    case Recv(cmd) => CommandAgreement(s, cmd);
    case Pass => GateAgrees(s);
    case Wake => GateAgrees(s.(renew := true));
    case _ =>
  }

  predicate AlwaysAgrees(s: State, es: seq<Event>) {
    forall k | 0 <= k <= |es| :: Agrees(Exec(s, es[..k]))
  }

  // ---- What the history says about the reload flag and the wait ----

  /** The two steps of Send that run through the reload test. */
  predicate RunsReloadTest(e: Event) {
    e == Pass || e == Wake
  }

  predicate SendStep(e: Event) {
    e == Pass || e == Wake || e.CodecReply? || e.FrameReply?
  }

  predicate NoReloadTestAfter(es: seq<Event>, i: nat) {
    forall j | i < j < |es| :: !RunsReloadTest(es[j])
  }

  /** A RESET arrived and Send has not run the reload test since. */
  predicate ResetSinceReloadTest(es: seq<Event>) {
    exists i | 0 <= i < |es| :: es[i] == Recv(Reset) && NoReloadTestAfter(es, i)
  }

  lemma ResetSinceSnoc(es: seq<Event>, e: Event)
    ensures ResetSinceReloadTest(es + [e]) <==>
            e == Recv(Reset) || (ResetSinceReloadTest(es) && !RunsReloadTest(e))
  {
    var more := es + [e];
    if e == Recv(Reset) {
      assert more[|es|] == e && NoReloadTestAfter(more, |es|);
    } else {
      if ResetSinceReloadTest(es) && !RunsReloadTest(e) {
        var i :| 0 <= i < |es| && es[i] == Recv(Reset) && NoReloadTestAfter(es, i);
        assert more[i] == Recv(Reset) && NoReloadTestAfter(more, i);
      }
      if ResetSinceReloadTest(more) {
        var i :| 0 <= i < |more| && more[i] == Recv(Reset) && NoReloadTestAfter(more, i);
        assert es[i] == Recv(Reset) && !RunsReloadTest(more[|es|]);
        assert forall j | i < j < |es| :: es[j] == more[j];
        assert NoReloadTestAfter(es, i);
      }
    }
  }

  /** Send's last step so far was a pass that found it suspended. */
  predicate PassedIntoWait(codec: Codec, es: seq<Event>) {
    es != [] &&
    var init, e := es[..|es| - 1], es[|es| - 1];
    if SendStep(e) then e == Pass && Exec(Init(codec), init).suspend else PassedIntoWait(codec, init)
  }

  lemma HistoryStep(s: State, e: Event)
    requires Enabled(s, e)
    ensures Step(s, e).pc == Waiting <==> if SendStep(e) then e == Pass && s.suspend else s.pc == Waiting
    ensures Step(s, e).pc != Waiting ==>
      (Step(s, e).renew <==> e == Recv(Reset) || (s.renew && !RunsReloadTest(e)))
  {
    match e
    case Recv(cmd) =>
    case Pass =>
    case Wake =>
    case CodecReply(raw) => assert Step(s, e).renew == s.renew;
    case FrameReply(f) => assert Step(s, e).renew == s.renew;
    case _ =>
  }

  /** Send is in its wait exactly when its last step was a pass that found it suspended; and outside its
      wait a reload is due exactly when a RESET arrived after Send's last reload test. */
  lemma {:induction false} FlagsFromHistory(codec: Codec, es: seq<Event>)
    requires Possible(Init(codec), es)
    ensures Exec(Init(codec), es).pc == Waiting <==> PassedIntoWait(codec, es)
    ensures Exec(Init(codec), es).pc != Waiting ==> (Exec(Init(codec), es).renew <==> ResetSinceReloadTest(es))
  {
    if es == [] {
    } else {
      var n := |es| - 1;
      FlagsFromHistory(codec, es[..n]);
      HistoryStep(Exec(Init(codec), es[..n]), es[n]);
      ResetSinceSnoc(es[..n], es[n]);
      assert es[..n] + [es[n]] == es;
    }
  }

  // ---- When agreement holds ----

  predicate OtherWindow(s: State, cmd: Command)
    requires cmd.Config?
  {
    cmd.target != s.target || cmd.arrival != s.arrival
  }

  /** The k-th event is a CONFIG that Recv accepts, with a window other than the one in force, when no
      RESET has arrived since Send's last reload test and Send's last step was not into its wait. */
  predicate MissedConfig(codec: Codec, es: seq<Event>, k: nat)
    requires k < |es|
  {
    && es[k].Recv? && es[k].cmd.Config?
    && Exec(Init(codec), es[..k]).suspend
    && OtherWindow(Exec(Init(codec), es[..k]), es[k].cmd)
    && !ResetSinceReloadTest(es[..k]) && !PassedIntoWait(codec, es[..k])
  }

  /** In a state that agrees, a CONFIG is missed exactly when accepting it breaks agreement. */
  lemma MissedIsStale(codec: Codec, es: seq<Event>, k: nat)
    requires Possible(Init(codec), es) && k < |es| && Agrees(Exec(Init(codec), es[..k]))
    ensures MissedConfig(codec, es, k) <==> StaleConfig(Exec(Init(codec), es[..k]), es[k])
  {
    PossiblePrefix(Init(codec), es, k);
    FlagsFromHistory(codec, es[..k]);
  }

  lemma {:induction false} AgreesUpTo(codec: Codec, es: seq<Event>, n: nat)
    requires Possible(Init(codec), es) && n <= |es|
    requires forall k | 0 <= k < n :: !MissedConfig(codec, es, k)
    ensures Agrees(Exec(Init(codec), es[..n]))
  {
    if n == 0 {
    } else {
      AgreesUpTo(codec, es, n - 1);
      MissedIsStale(codec, es, n - 1);
      PossiblePrefix(Init(codec), es, n - 1);
      StepAgreement(Exec(Init(codec), es[..n - 1]), es[n - 1]);
    }
  }

  /** In every run agreement holds throughout if and only if no CONFIG is missed. */
  lemma AgreementExactly(codec: Codec, es: seq<Event>)
    requires Possible(Init(codec), es)
    ensures AlwaysAgrees(Init(codec), es) <==> forall k | 0 <= k < |es| :: !MissedConfig(codec, es, k)
  {
    if AlwaysAgrees(Init(codec), es) {
      forall k | 0 <= k < |es| ensures !MissedConfig(codec, es, k) {
        PossiblePrefix(Init(codec), es, k);
        assert Agrees(Exec(Init(codec), es[..k])) && Agrees(Exec(Init(codec), es[..k + 1]));
        StepAgreement(Exec(Init(codec), es[..k]), es[k]);
        MissedIsStale(codec, es, k);
      }
    }
    if forall k | 0 <= k < |es| :: !MissedConfig(codec, es, k) {
      forall k | 0 <= k <= |es| ensures Agrees(Exec(Init(codec), es[..k])) {
        AgreesUpTo(codec, es, k);
      }
    }
  }

  // ---- A disciplined client ----

  predicate NoStartStop(es: seq<Event>, lo: nat, hi: nat)
    requires hi <= |es|
  {
    forall i | lo < i < hi :: es[i] != Recv(Start) && es[i] != Recv(Stop)
  }

  predicate ResetBefore(es: seq<Event>, k: nat)
    requires k <= |es|
  {
    exists j | 0 <= j < k :: es[j] == Recv(Reset) && NoStartStop(es, j, k)
  }

  /** Every CONFIG follows a RESET with no START and no STOP in between. */
  predicate Disciplined(es: seq<Event>) {
    forall k | 0 <= k < |es| && es[k].Recv? && es[k].cmd.Config? :: ResetBefore(es, k)
  }

  lemma ResetBeforePrefix(es: seq<Event>, k: nat)
    requires k <= |es|
    ensures ResetBefore(es[..k], k) <==> ResetBefore(es, k)
  {
    if ResetBefore(es, k) {
      var j :| 0 <= j < k && es[j] == Recv(Reset) && NoStartStop(es, j, k);
      assert es[..k][j] == Recv(Reset) && NoStartStop(es[..k], j, k);
    }
    if ResetBefore(es[..k], k) {
      var j :| 0 <= j < k && es[..k][j] == Recv(Reset) && NoStartStop(es[..k], j, k);
      assert es[j] == Recv(Reset);
      forall i | j < i < k ensures es[i] != Recv(Start) && es[i] != Recv(Stop) { assert es[..k][i] == es[i]; }
      assert NoStartStop(es, j, k);
    }
  }

  /** A RESET just arrived, or stays the last of RESET, START and STOP through one more event. */
  lemma ResetBeforeInit(es: seq<Event>)
    requires es != [] && ResetBefore(es, |es|)
    ensures
      var n := |es| - 1;
      es[n] == Recv(Reset) || (ResetBefore(es[..n], n) && es[n] != Recv(Start) && es[n] != Recv(Stop))
  {
    var n := |es| - 1;
    if es[n] != Recv(Reset) {
      var j :| 0 <= j < |es| && es[j] == Recv(Reset) && NoStartStop(es, j, |es|);
      assert NoStartStop(es, j, n);
      ResetBeforePrefix(es, n);
    }
  }

  lemma DisciplinedPrefix(es: seq<Event>, k: nat)
    requires Disciplined(es) && k <= |es|
    ensures Disciplined(es[..k])
  {
    forall i | 0 <= i < k && es[..k][i].Recv? && es[..k][i].cmd.Config? ensures ResetBefore(es[..k], i) {
      assert ResetBefore(es, i);
      ResetBeforePrefix(es, i);
      ResetBeforePrefix(es[..k], i);
      assert es[..k][..i] == es[..i];
    }
  }

  /** The last RESET or step of Send was a return from its wait. */
  predicate WokeLast(es: seq<Event>) {
    es != [] &&
    var e := es[|es| - 1];
    if e == Recv(Reset) || SendStep(e) then e == Wake else WokeLast(es[..|es| - 1])
  }

  /** With a RESET behind and neither START nor STOP since, Send stays suspended; and it is outside its
      wait with no reload due exactly when its last step after the RESET was to wake up. */
  predicate AfterReset(s: State, woke: bool) {
    && s.suspend
    && (s.pc != Waiting && !s.renew <==> woke)
    && (woke ==> s.pc == Top)
  }

  lemma AfterResetStep(s: State, e: Event, woke: bool)
    requires Enabled(s, e) && AfterReset(s, woke) && e != Recv(Start) && e != Recv(Stop)
    ensures AfterReset(Step(s, e), if e == Recv(Reset) || SendStep(e) then e == Wake else woke)
  {
    match e
    case Recv(cmd) =>
    case CodecReply(raw) =>
    case FrameReply(f) =>
    case _ =>
  }

  lemma {:induction false} AfterResetAlways(codec: Codec, es: seq<Event>)
    requires Possible(Init(codec), es) && ResetBefore(es, |es|)
    ensures AfterReset(Exec(Init(codec), es), WokeLast(es))
  {
    var n := |es| - 1;
    ResetBeforeInit(es);
    if es[n] == Recv(Reset) {
    } else {
      AfterResetAlways(codec, es[..n]);
      AfterResetStep(Exec(Init(codec), es[..n]), es[n], WokeLast(es[..n]));
    }
  }

  /** The window of the last CONFIG sent, (0, 0) before the first. */
  function LastConfig(es: seq<Event>): (int, int) {
    if es == [] then (0, 0)
    else
      var e := es[|es| - 1];
      if e.Recv? && e.cmd.Config? then (e.cmd.target, e.cmd.arrival) else LastConfig(es[..|es| - 1])
  }

  /** A disciplined client's CONFIGs are all accepted. */
  lemma {:induction false} LastConfigInForce(codec: Codec, es: seq<Event>)
    requires Possible(Init(codec), es) && Disciplined(es)
    ensures (Exec(Init(codec), es).target, Exec(Init(codec), es).arrival) == LastConfig(es)
  {
    if es == [] {
    } else {
      var n := |es| - 1;
      DisciplinedPrefix(es, n);
      LastConfigInForce(codec, es[..n]);
      if es[n].Recv? && es[n].cmd.Config? {
        ResetBeforePrefix(es, n);
        AfterResetAlways(codec, es[..n]);
      }
      WindowStep(Exec(Init(codec), es[..n]), es[n]);
    }
  }

  /** The k-th event is a CONFIG with a window other than the last one sent, when the last RESET or step
      of Send before it was a wake-up. */
  predicate ConfigAfterWake(es: seq<Event>, k: nat)
    requires k < |es|
  {
    && es[k].Recv? && es[k].cmd.Config? && WokeLast(es[..k])
    && (es[k].cmd.target, es[k].cmd.arrival) != LastConfig(es[..k])
  }

  lemma MissedIsAfterWake(codec: Codec, es: seq<Event>, k: nat)
    requires Possible(Init(codec), es) && Disciplined(es) && k < |es|
    ensures MissedConfig(codec, es, k) <==> ConfigAfterWake(es, k)
  {
    if es[k].Recv? && es[k].cmd.Config? {
      PossiblePrefix(Init(codec), es, k);
      assert ResetBefore(es, k);
      ResetBeforePrefix(es, k);
      DisciplinedPrefix(es, k);
      LastConfigInForce(codec, es[..k]);
      AfterResetAlways(codec, es[..k]);
      FlagsFromHistory(codec, es[..k]);
    }
  }

  /** With a disciplined client agreement holds throughout if and only if no CONFIG with a new window
      arrives between a wake-up of Send and its next step. */
  lemma DisciplinedExactly(codec: Codec, es: seq<Event>)
    requires Possible(Init(codec), es) && Disciplined(es)
    ensures AlwaysAgrees(Init(codec), es) <==> forall k | 0 <= k < |es| :: !ConfigAfterWake(es, k)
  {
    AgreementExactly(codec, es);
    forall k | 0 <= k < |es| ensures MissedConfig(codec, es, k) <==> ConfigAfterWake(es, k) {
      MissedIsAfterWake(codec, es, k);
    }
  }

  /** Send never returns from its wait while suspended, as it does only if woken spuriously or if RESET
      overtakes the wake-up that START asked for. */
  predicate NoWakeSuspended(codec: Codec, es: seq<Event>) {
    forall k | 0 <= k < |es| && es[k] == Wake :: !Exec(Init(codec), es[..k]).suspend
  }

  lemma {:induction false} NotWokenAfterReset(codec: Codec, es: seq<Event>)
    requires Possible(Init(codec), es) && ResetBefore(es, |es|) && NoWakeSuspended(codec, es)
    ensures !WokeLast(es)
  {
    var n := |es| - 1;
    ResetBeforeInit(es);
    if es[n] == Recv(Reset) {
    } else {
      assert forall k | 0 <= k < n :: es[..n][..k] == es[..k] && es[..n][k] == es[k];
      NotWokenAfterReset(codec, es[..n]);
      AfterResetAlways(codec, es[..n]);
    }
  }

  /** A disciplined client is enough where Send is not woken while suspended. */
  lemma DisciplinedWindow(codec: Codec, es: seq<Event>)
    requires Possible(Init(codec), es) && Disciplined(es) && NoWakeSuspended(codec, es)
    ensures AlwaysAgrees(Init(codec), es)
  {
    forall k | 0 <= k < |es| ensures !ConfigAfterWake(es, k) {
      if es[k].Recv? && es[k].cmd.Config? {
        PossiblePrefix(Init(codec), es, k);
        assert ResetBefore(es, k);
        ResetBeforePrefix(es, k);
        assert forall i | 0 <= i < k :: es[..k][..i] == es[..i] && es[..k][i] == es[i];
        NotWokenAfterReset(codec, es[..k]);
      }
    }
    DisciplinedExactly(codec, es);
  }

  const LOST_CONFIG: seq<Event> := [Accept(3), Recv(Reset), Pass, Wake, Recv(Config(5, 9)), Recv(Start), Pass]

  /** Woken spuriously after RESET, Send has reloaded and is back at the head of its loop. */
  const BACK_AT_HEAD: State := Init(H264).(client := 3, log := [Accepted(Reset)])

  lemma LostConfigBegins()
    ensures Possible(Init(H264), LOST_CONFIG[..4]) && Exec(Init(H264), LOST_CONFIG[..4]) == BACK_AT_HEAD
  {
    var s0 := Init(H264);
    var s1 := s0.(client := 3);
    var s2 := s1.(renew := true, log := [Accepted(Reset)]);
    assert LOST_CONFIG[..0] == [];
    Extend(s0, LOST_CONFIG, 0, s0);
    Extend(s0, LOST_CONFIG, 1, s1);
    Extend(s0, LOST_CONFIG, 2, s2);
    Extend(s0, LOST_CONFIG, 3, s2.(pc := Waiting));
  }

  lemma LostConfigDisciplined()
    ensures Disciplined(LOST_CONFIG)
  {
    forall k | 0 <= k < |LOST_CONFIG| && LOST_CONFIG[k].Recv? && LOST_CONFIG[k].cmd.Config?
      ensures ResetBefore(LOST_CONFIG, k)
    {
      assert k == 4 && LOST_CONFIG[1] == Recv(Reset) && NoStartStop(LOST_CONFIG, 1, 4);
    }
  }

  /** The discipline alone is not enough: CONFIG and START that arrive while Send stands at the head of
      its loop leave it fetching with the old window. */
  lemma ConfigAtLoopHeadIsLost()
    ensures
      var s := Exec(Init(H264), LOST_CONFIG);
      Possible(Init(H264), LOST_CONFIG) && Disciplined(LOST_CONFIG) && s.pc == Fetching && !Agrees(s)
  {
    LostConfigBegins();
    LostConfigDisciplined();
    var s0 := Init(H264);
    var s5 := OnCommand(BACK_AT_HEAD, Config(5, 9));
    var s6 := OnCommand(s5, Start);
    Extend(s0, LOST_CONFIG, 4, BACK_AT_HEAD);
    Extend(s0, LOST_CONFIG, 5, s5);
    Extend(s0, LOST_CONFIG, 6, s6);
    assert LOST_CONFIG[..7] == LOST_CONFIG;
  }

  /** Missed at the head, a CONFIG does no harm if Send runs into its wait before START: the wake-up
      reloads. */
  lemma MissedConfigRecovered()
    ensures
      var es := LOST_CONFIG[..5] + [Pass, Recv(Start), Wake];
      && Possible(Init(H264), es) && !Agrees(Exec(Init(H264), LOST_CONFIG[..5]))
      && Exec(Init(H264), es).pc == Fetching && Agrees(Exec(Init(H264), es))
  {
    LostConfigBegins();
    var s0, es5 := Init(H264), LOST_CONFIG[..5];
    Extend(s0, LOST_CONFIG, 4, BACK_AT_HEAD);
    RunSnoc(s0, es5, Pass);
    RunSnoc(s0, es5 + [Pass], Recv(Start));
    RunSnoc(s0, es5 + [Pass] + [Recv(Start)], Wake);
    assert es5 + [Pass, Recv(Start), Wake] == es5 + [Pass] + [Recv(Start)] + [Wake];
  }

  // ---- Agreement where it matters: in a call of Send ----

  predicate InCall(s: State) {
    s.pc == Asking || s.pc == Fetching
  }

  /** At no point of the run is a call of Send under way with an outdated window and no reload due. */
  predicate CallsCurrent(codec: Codec, es: seq<Event>) {
    && (InCall(Exec(Init(codec), es)) ==> Agrees(Exec(Init(codec), es)))
    && (es == [] || CallsCurrent(codec, es[..|es| - 1]))
  }

  function WindowOf(s: State): (int, int) {
    (s.target, s.arrival)
  }

  /** Send takes the window over: at a wake-up, or at a pass not suspended that reloads or goes into a call.
      A pass that finds no client and no reload due goes back to the head with what it had. */
  predicate TakesOver(s: State, e: Event, reset: bool) {
    e == Wake || (e == Pass && !s.suspend && (s.client >= 0 || reset))
  }

  /** The window that was in force when Send last took it over. */
  function TakenOver(codec: Codec, es: seq<Event>): (int, int) {
    if es == [] then (0, 0)
    else
      var init := es[..|es| - 1];
      var s := Exec(Init(codec), init);
      if TakesOver(s, es[|es| - 1], ResetSinceReloadTest(init)) then WindowOf(s) else TakenOver(codec, init)
  }

  /** Without RESET since the last reload test, Send passes into a call although the window in force is
      no longer the one `w` it took over: CONFIG and START have both overtaken it. */
  predicate PassOvertaken(s: State, e: Event, w: (int, int), reset: bool) {
    e == Pass && Deliverable(s) && !reset && WindowOf(s) != w
  }

  /** Or CONFIG is accepted while a call is under way, as it can be only after a STOP. */
  predicate CallOvertaken(s: State, e: Event, w: (int, int), reset: bool) {
    && e.Recv? && e.cmd.Config? && s.suspend && InCall(s) && !reset
    && (e.cmd.target, e.cmd.arrival) != w
  }

  predicate Overtaken(s: State, e: Event, w: (int, int), reset: bool) {
    PassOvertaken(s, e, w, reset) || CallOvertaken(s, e, w, reset)
  }

  predicate NeverOvertaken(codec: Codec, es: seq<Event>) {
    es == [] ||
    var init := es[..|es| - 1];
    && NeverOvertaken(codec, init)
    && !Overtaken(Exec(Init(codec), init), es[|es| - 1], TakenOver(codec, init), ResetSinceReloadTest(init))
  }

  /** Send holds the window `w`, its call if any is current, and outside its wait a reload is due exactly
      after a RESET. */
  predicate Holds(s: State, w: (int, int), reset: bool) {
    && (s.localTarget, s.localArrival) == w
    && (InCall(s) ==> Agrees(s))
    && (s.pc != Waiting ==> (s.renew <==> reset))
  }

  /** What a step makes of it. */
  predicate OvertakenExactly(s: State, r: State, e: Event, w: (int, int), reset: bool) {
    && ((InCall(r) ==> Agrees(r)) <==> !Overtaken(s, e, w, reset))
    && ((InCall(r) ==> Agrees(r)) ==>
         (r.localTarget, r.localArrival) == if TakesOver(s, e, reset) then WindowOf(s) else w)
  }

  lemma CommandOvertaken(s: State, cmd: Command, w: (int, int), reset: bool)
    requires Holds(s, w, reset)
    ensures OvertakenExactly(s, OnCommand(s, cmd), Recv(cmd), w, reset)
  {}

  lemma PassOvertakenExactly(s: State, w: (int, int), reset: bool)
    requires Holds(s, w, reset) && s.pc == Top
    ensures OvertakenExactly(s, Step(s, Pass), Pass, w, reset)
  {}

  lemma OvertakenStep(s: State, e: Event, w: (int, int), reset: bool)
    requires Holds(s, w, reset) && Enabled(s, e)
    ensures OvertakenExactly(s, Step(s, e), e, w, reset)
  {
    match e
    case Recv(cmd) => CommandOvertaken(s, cmd, w, reset);
    case Pass => PassOvertakenExactly(s, w, reset);
    case _ =>
  }

  /** In every run no call of Send is ever under way with an outdated window and no reload due, if and only
      if Send is never overtaken. */
  lemma {:induction false} CallsCurrentExactly(codec: Codec, es: seq<Event>)
    requires Possible(Init(codec), es)
    ensures CallsCurrent(codec, es) <==> NeverOvertaken(codec, es)
    ensures CallsCurrent(codec, es) ==>
      (Exec(Init(codec), es).localTarget, Exec(Init(codec), es).localArrival) == TakenOver(codec, es)
  {
    if es == [] {
    } else {
      var init := es[..|es| - 1];
      CallsCurrentExactly(codec, init);
      if CallsCurrent(codec, init) {
        FlagsFromHistory(codec, init);
        OvertakenStep(Exec(Init(codec), init), es[|es| - 1], TakenOver(codec, init), ResetSinceReloadTest(init));
      }
    }
  }

  /** CONFIG of a disciplined client never overtakes a call. */
  lemma DisciplinedCallNotOvertaken(codec: Codec, es: seq<Event>, cmd: Command, w: (int, int))
    requires Possible(Init(codec), es) && (cmd.Config? ==> ResetBefore(es, |es|))
    ensures !CallOvertaken(Exec(Init(codec), es), Recv(cmd), w, ResetSinceReloadTest(es))
  {
    if cmd.Config? {
      AfterResetAlways(codec, es);
      FlagsFromHistory(codec, es);
    }
  }

  /** CONFIG and START never both overtake a pass of Send. */
  predicate NoPassOvertaken(codec: Codec, es: seq<Event>) {
    es == [] ||
    var init := es[..|es| - 1];
    && NoPassOvertaken(codec, init)
    && !PassOvertaken(Exec(Init(codec), init), es[|es| - 1], TakenOver(codec, init), ResetSinceReloadTest(init))
  }

  /** With a disciplined client only a pass can be overtaken. */
  lemma {:induction false} DisciplinedCalls(codec: Codec, es: seq<Event>)
    requires Possible(Init(codec), es) && Disciplined(es)
    ensures CallsCurrent(codec, es) <==> NoPassOvertaken(codec, es)
  {
    CallsCurrentExactly(codec, es);
    if es == [] {
    } else {
      var n := |es| - 1;
      DisciplinedPrefix(es, n);
      DisciplinedCalls(codec, es[..n]);
      CallsCurrentExactly(codec, es[..n]);
      if es[n].Recv? {
        if es[n].cmd.Config? {
          ResetBeforePrefix(es, n);
        }
        DisciplinedCallNotOvertaken(codec, es[..n], es[n].cmd, TakenOver(codec, es[..n]));
      }
    }
  }

  // ---- Where an outdated window can still be used ----

  /** Where Send is not overtaken, a frame is judged by an outdated window only if RESET arrived while the
      very pass that fetched it was under way. */
  lemma OutdatedFrameHadReset(codec: Codec, es: seq<Event>)
    requires Possible(Init(codec), es) && NeverOvertaken(codec, es)
    requires
      var s := Exec(Init(codec), es);
      s.pc == Fetching && (s.localTarget != s.target || s.localArrival != s.arrival)
    ensures ResetSinceReloadTest(es)
  {
    CallsCurrentExactly(codec, es);
    FlagsFromHistory(codec, es);
  }

  // ---- The frames a window selects ----

  /** Index of the first video frame at or after `target`, or the length if there is none. */
  function FirstIn(fs: seq<Frame>, target: int): (i: nat)
    ensures i <= |fs|
    ensures i < |fs| ==> fs[i].video && fs[i].pts >= target
    ensures forall k | 0 <= k < i :: !(fs[k].video && fs[k].pts >= target)
  {
    if fs == [] then 0
    else
      var i := FirstIn(fs[..|fs| - 1], target);
      var f := fs[|fs| - 1];
      if i < |fs| - 1 || (f.video && f.pts >= target) then i else |fs|
  }

  /** Index of the first frame from `from` on that reaches `arrival`, or the length if there is none;
      a negative arrival is never reached. */
  function FirstOut(fs: seq<Frame>, from: nat, arrival: int): (j: nat)
    requires from <= |fs|
    ensures from <= j <= |fs|
    ensures j < |fs| ==> 0 <= arrival <= fs[j].pts
    ensures forall k | from <= k < j :: arrival < 0 || fs[k].pts < arrival
  {
    if from == |fs| then from
    else
      var j := FirstOut(fs[..|fs| - 1], from, arrival);
      if j < |fs| - 1 || 0 <= arrival <= fs[|fs| - 1].pts then j else |fs|
  }

  function Unmarked(fs: seq<Frame>): (ps: seq<Packet>) {
    seq(|fs|, i requires 0 <= i < |fs| => Media(fs[i], false))
  }

  /** The contiguous run of frames that the window selects, the one that reaches the arrival time
      marked as the last. */
  function Selected(fs: seq<Frame>, target: int, arrival: int): seq<Packet> {
    var i := FirstIn(fs, target);
    var j := FirstOut(fs, i, arrival);
    if j < |fs| then Unmarked(fs[i..j]) + [Media(fs[j], true)] else Unmarked(fs[i..])
  }

  /** The packets are the frames from the first in to the first out, one by one, and a packet is marked
      exactly if its frame reaches the arrival time; which only the last can be. */
  predicate IsRun(ps: seq<Packet>, fs: seq<Frame>, target: int, arrival: int) {
    var i := FirstIn(fs, target);
    var j := FirstOut(fs, i, arrival);
    && |ps| == (if j < |fs| then j + 1 else |fs|) - i
    && forall k | 0 <= k < |ps| ::
      && ps[k].Media? && ps[k].frame == fs[i + k]
      && (ps[k].finish <==> 0 <= arrival <= fs[i + k].pts)
      && (ps[k].finish ==> k == |ps| - 1)
  }

  lemma SelectedIsRun(fs: seq<Frame>, target: int, arrival: int)
    ensures IsRun(Selected(fs, target, arrival), fs, target, arrival)
  {
    var ps, i := Selected(fs, target, arrival), FirstIn(fs, target);
    var j := FirstOut(fs, i, arrival);
    forall k | 0 <= k < |ps| ensures ps[k] == Media(fs[i + k], i + k == j) {
      if j < |fs| {
        assert fs[i..j] + [fs[j]] == fs[i..j + 1];
      }
    }
  }

  function MediaSent(log: seq<LogEntry>): seq<Packet> {
    if log == [] then []
    else
      var last := log[|log| - 1];
      MediaSent(log[..|log| - 1]) + (if last.Sent? && last.packet.Media? then [last.packet] else [])
  }

  function Fetched(es: seq<Event>): seq<Frame> {
    if es == [] then []
    else
      var last := es[|es| - 1];
      Fetched(es[..|es| - 1]) + (if last.FrameReply? && last.frame.Some? then [last.frame.value] else [])
  }

  /** Neither RESET, STOP nor a change of client; other commands only when they are rejected. */
  predicate Undisturbed(s: State, es: seq<Event>) {
    forall k | 0 <= k < |es| ::
      match es[k]
      case Recv(cmd) => (cmd.Start? || cmd.Config? || cmd.Unknown?) && !Exec(s, es[..k]).suspend
      case Accept(_) => false
      case Disconnect => false
      case _ => true
  }

  /** Send has just reloaded its window and goes on to a fetch. */
  predicate JustReloaded(s: State) {
    && (s.pc == Asking || s.pc == Fetching)
    && s.client >= 0 && !s.suspend && !s.renew && !s.started
  }

  /** A wake-up, or a pass with a reload due, that goes on to a fetch is such a reload, and the window
      it loads is the shared one. */
  lemma ReloadTakesSharedWindow(s: State, e: Event)
    requires Enabled(s, e) && (e == Wake || (e == Pass && s.renew))
    requires Step(s, e).pc == Asking || Step(s, e).pc == Fetching
    ensures JustReloaded(Step(s, e))
    ensures Step(s, e).localTarget == s.target && Step(s, e).localArrival == s.arrival
  {}

  /** Since the reload `s` only packets to its client were logged, and apart from RESTARTs they are what
      the window selects of `fs`. */
  predicate WireMatches(s: State, r: State, fs: seq<Frame>) {
    && s.log <= r.log
    && (forall k | |s.log| <= k < |r.log| :: r.log[k].Sent? && r.log[k].sd == s.client)
    && MediaSent(r.log[|s.log|..]) == Selected(fs, s.localTarget, s.localArrival)
  }

  /** Where Send stands in the window: suspended, with the marked frame the last one fetched, or going on. */
  predicate PositionMatches(s: State, r: State, fs: seq<Frame>) {
    var i := FirstIn(fs, s.localTarget);
    var j := FirstOut(fs, i, s.localArrival);
    && r.client == s.client
    && (r.suspend <==> j < |fs|)
    && (j < |fs| ==> j == |fs| - 1 && (r.pc == Top || r.pc == Waiting))
    && (j == |fs| ==>
          && r.pc != Waiting && !r.renew && (r.started <==> i < |fs|)
          && r.localTarget == s.localTarget && r.localArrival == s.localArrival)
  }

  /** `r` is reached from the reload `s` after fetching the frames `fs`. */
  predicate Selecting(s: State, r: State, fs: seq<Frame>) {
    WireMatches(s, r, fs) && PositionMatches(s, r, fs)
  }

  lemma MediaSentSnoc(before: seq<LogEntry>, log: seq<LogEntry>, x: LogEntry)
    requires before <= log
    ensures
      MediaSent((log + [x])[|before|..]) ==
      MediaSent(log[|before|..]) + (if x.Sent? && x.packet.Media? then [x.packet] else [])
  {
    var d := (log + [x])[|before|..];
    assert d[..|d| - 1] == log[|before|..];
  }

  /** Whether one more frame falls within the window, given the frames before it. */
  predicate InWindow(fs: seq<Frame>, f: Frame, target: int) {
    FirstIn(fs, target) < |fs| || (f.video && f.pts >= target)
  }

  lemma BoundsSnoc(fs: seq<Frame>, f: Frame, target: int, arrival: int)
    requires FirstOut(fs, FirstIn(fs, target), arrival) == |fs|
    ensures FirstIn(fs + [f], target) == if InWindow(fs, f, target) then FirstIn(fs, target) else |fs| + 1
    ensures FirstOut(fs + [f], FirstIn(fs + [f], target), arrival) ==
            if InWindow(fs, f, target) && Closes(arrival, f) then |fs| else |fs| + 1
  {
    var gs := fs + [f];
    assert gs[..|gs| - 1] == fs;
  }

  lemma SelectedSnoc(fs: seq<Frame>, f: Frame, target: int, arrival: int)
    requires FirstOut(fs, FirstIn(fs, target), arrival) == |fs|
    ensures Selected(fs + [f], target, arrival) ==
            Selected(fs, target, arrival) + if InWindow(fs, f, target) then [Media(f, Closes(arrival, f))] else []
  {
    BoundsSnoc(fs, f, target, arrival);
    var i, gs := FirstIn(fs, target), fs + [f];
    if InWindow(fs, f, target) {
      assert gs[i..|fs|] == fs[i..];
      if !Closes(arrival, f) {
        assert gs[i..] == fs[i..] + [f];
        assert Unmarked(gs[i..]) == Unmarked(fs[i..]) + [Media(f, false)];
      }
    } else {
      assert gs[|gs|..] == [] && fs[i..] == [];
    }
  }

  lemma WireSnoc(s: State, r: State, fs: seq<Frame>, r': State, fs': seq<Frame>, p: Packet)
    requires WireMatches(s, r, fs) && r'.log == r.log + [Sent(s.client, p)]
    requires Selected(fs', s.localTarget, s.localArrival) ==
             Selected(fs, s.localTarget, s.localArrival) + if p.Media? then [p] else []
    ensures WireMatches(s, r', fs')
  {
    MediaSentSnoc(s.log, r.log, Sent(s.client, p));
  }

  lemma SelectionFrame(s: State, r: State, fs: seq<Frame>, f: Frame)
    requires JustReloaded(s) && Selecting(s, r, fs) && r.pc == Fetching
    ensures Selecting(s, OnFrame(r, f), fs + [f])
  {
    BoundsSnoc(fs, f, s.localTarget, s.localArrival);
    SelectedSnoc(fs, f, s.localTarget, s.localArrival);
    if InWindow(fs, f, s.localTarget) {
      WireSnoc(s, r, fs, OnFrame(r, f), fs + [f], Media(f, Closes(s.localArrival, f)));
    }
  }

  lemma SelectionCodec(s: State, r: State, fs: seq<Frame>, raw: Codec)
    requires JustReloaded(s) && Selecting(s, r, fs) && r.pc == Asking
    ensures Selecting(s, OnCodec(r, raw), fs)
  {
    if Normalise(raw) != r.codec {
      WireSnoc(s, r, fs, OnCodec(r, raw), fs, Restart);
    }
  }

  lemma SelectionOther(s: State, r: State, fs: seq<Frame>, e: Event)
    requires JustReloaded(s) && Selecting(s, r, fs) && Enabled(r, e)
    requires e.Recv? ==> (e.cmd.Start? || e.cmd.Config? || e.cmd.Unknown?) && !r.suspend
    requires !e.Accept? && !e.Disconnect? && !e.CodecReply? && (e.FrameReply? ==> e.frame.None?)
    ensures Selecting(s, Step(r, e), fs)
  {}

  lemma UndisturbedInit(s: State, es: seq<Event>)
    requires Undisturbed(s, es) && es != []
    ensures Undisturbed(s, es[..|es| - 1])
  {
    var init := es[..|es| - 1];
    forall k | 0 <= k < |init| ensures init[..k] == es[..k] && init[k] == es[k] {}
  }

  /** From any reload, what is sent apart from RESTART messages is exactly the run of fetched frames
      that the window selects; fetching ends with the marked frame. */
  lemma {:induction false} WindowSelection(s: State, es: seq<Event>)
    requires JustReloaded(s) && Possible(s, es) && Undisturbed(s, es)
    ensures Selecting(s, Exec(s, es), Fetched(es))
    ensures IsRun(MediaSent(Exec(s, es).log[|s.log|..]), Fetched(es), s.localTarget, s.localArrival)
  {
    SelectedIsRun(Fetched(es), s.localTarget, s.localArrival);
    if es == [] {
      assert s.log[|s.log|..] == [];
    } else {
      var n := |es| - 1;
      var init, e := es[..n], es[n];
      UndisturbedInit(s, es);
      WindowSelection(s, init);
      var r, fs := Exec(s, init), Fetched(init);
      if e.FrameReply? && e.frame.Some? {
        SelectionFrame(s, r, fs, e.frame.value);
      } else {
        assert fs + [] == fs;
        if e.CodecReply? { SelectionCodec(s, r, fs, e.raw); } else { SelectionOther(s, r, fs, e); }
      }
    }
  }
}
