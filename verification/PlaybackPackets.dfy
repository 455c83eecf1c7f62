/** When packets may be on the wire, and how a change of codec is announced. */
module PlaybackPackets {
  import opened Wrappers
  import opened Playback
  import opened PlaybackFields

  // ---- Packets lie between START and whatever ends the transmission ----

  predicate IsFinish(x: LogEntry) {
    x.Sent? && x.packet.Media? && x.packet.finish
  }

  /** A RESET, a STOP, or the packet that marks the end of the window. */
  predicate Ends(x: LogEntry) {
    x == Accepted(Reset) || x == Accepted(Stop) || IsFinish(x)
  }

  predicate NoEndBetween(log: seq<LogEntry>, i: nat, k: nat)
    requires k <= |log|
  {
    forall j | i < j < k :: !Ends(log[j])
  }

  /** At position `k` an accepted START lies behind, not before position `from`, with nothing since that
      ends transmission. */
  predicate LiveAt(log: seq<LogEntry>, from: nat, k: nat)
    requires k <= |log|
  {
    exists i | from <= i < k :: log[i] == Accepted(Start) && NoEndBetween(log, i, k)
  }

  /** Every packet from position `from` on lies after such a START, and Send is not suspended only after one. */
  predicate PacketsLive(s: State, from: nat) {
    && (!s.suspend ==> LiveAt(s.log, from, |s.log|))
    && forall k | from <= k < |s.log| && s.log[k].Sent? :: LiveAt(s.log, from, k)
  }

  lemma LiveSnoc(log: seq<LogEntry>, from: nat, x: LogEntry)
    requires from <= |log|
    ensures forall k | 0 <= k <= |log| && LiveAt(log, from, k) :: LiveAt(log + [x], from, k)
    ensures x == Accepted(Start) || (LiveAt(log, from, |log|) && !Ends(x)) ==> LiveAt(log + [x], from, |log| + 1)
  {
    forall k | 0 <= k <= |log| && LiveAt(log, from, k) ensures LiveAt(log + [x], from, k) {
      var i :| from <= i < k && log[i] == Accepted(Start) && NoEndBetween(log, i, k);
      assert (log + [x])[i] == Accepted(Start) && NoEndBetween(log + [x], i, k);
    }
    if x == Accepted(Start) {
      assert (log + [x])[|log|] == x && NoEndBetween(log + [x], |log|, |log| + 1);
    } else if LiveAt(log, from, |log|) && !Ends(x) {
      var i :| from <= i < |log| && log[i] == Accepted(Start) && NoEndBetween(log, i, |log|);
      assert (log + [x])[i] == Accepted(Start) && NoEndBetween(log + [x], i, |log| + 1);
    }
  }

  lemma LiveUnchanged(s: State, r: State, from: nat)
    requires PacketsLive(s, from) && r.log == s.log && (!r.suspend ==> !s.suspend)
    ensures PacketsLive(r, from)
  {}

  /** The log grows by a packet only while Send is not suspended, and Send is left not suspended only if
      it was so before and nothing ended transmission, or START was accepted. */
  lemma LiveExtended(s: State, r: State, from: nat, x: LogEntry)
    requires PacketsLive(s, from) && r.log == s.log + [x] && from <= |s.log|
    requires x.Sent? ==> !s.suspend
    requires !r.suspend ==> x == Accepted(Start) || (!s.suspend && !Ends(x))
    ensures PacketsLive(r, from)
  {
    LiveSnoc(s.log, from, x);
    forall k | from <= k < |r.log| && r.log[k].Sent? ensures LiveAt(r.log, from, k) {
      if k < |s.log| { assert s.log[k].Sent?; }
    }
  }

  lemma StepLive(s: State, e: Event, from: nat)
    requires PacketsLive(s, from) && Enabled(s, e) && from <= |s.log|
    ensures PacketsLive(Step(s, e), from) && s.log <= Step(s, e).log
  {
    LogStep(s, e);
    SuspendStep(s, e);
    var r := Step(s, e);
    if r.log == s.log {
      LiveUnchanged(s, r, from);
    } else {
      LiveExtended(s, r, from, r.log[|s.log|]);
    }
  }

  /** From any state in which Send is suspended, every packet ever sent lies after a START accepted from
      then on, with no RESET, STOP or end-of-window packet in between. */
  lemma {:induction false} StartNeeded(s: State, es: seq<Event>)
    requires s.suspend && Possible(s, es)
    ensures PacketsLive(Exec(s, es), |s.log|) && s.log <= Exec(s, es).log
  {
    if es == [] {
    } else {
      StartNeeded(s, es[..|es| - 1]);
      StepLive(Exec(s, es[..|es| - 1]), es[|es| - 1], |s.log|);
    }
  }

  /** Every packet of every run. */
  lemma PacketsOnlyAfterStart(codec: Codec, es: seq<Event>)
    requires Possible(Init(codec), es)
    ensures PacketsLive(Exec(Init(codec), es), 0)
  {
    StartNeeded(Init(codec), es);
  }

  /** Once Send has come by without a client, the START of an earlier client counts no more: every later
      packet has a START of its own after that step. */
  lemma StartNeededAfterNoClient(s: State, e: Event, es: seq<Event>)
    requires s.client < 0 && (e == Pass || e == Wake) && Enabled(s, e) && Possible(Step(s, e), es)
    ensures Step(s, e).suspend && Step(s, e).log == s.log
    ensures PacketsLive(Exec(Step(s, e), es), |s.log|)
  {
    SuspendStep(s, e);
    LogStep(s, e);
    StartNeeded(Step(s, e), es);
  }

  lemma StartBetween(log: seq<LogEntry>, i: nat, k: nat)
    requires i < k < |log| && IsFinish(log[i]) && LiveAt(log, 0, k)
    ensures exists j | i < j < k :: log[j] == Accepted(Start)
  {
    var j :| 0 <= j < k && log[j] == Accepted(Start) && NoEndBetween(log, j, k);
    assert Ends(log[i]);
  }

  /** Between two end-of-window packets there is an accepted START, so at most one is sent from one
      accepted START to the next. */
  lemma OneFinishPerStart(codec: Codec, es: seq<Event>, log: seq<LogEntry>, i: nat, k: nat)
    requires Possible(Init(codec), es) && log == Exec(Init(codec), es).log
    requires i < k < |log| && IsFinish(log[i]) && IsFinish(log[k])
    ensures exists j | i < j < k :: log[j] == Accepted(Start)
  {
    PacketsOnlyAfterStart(codec, es);
    StartBetween(log, i, k);
  }

  // ---- Without a client ----

  predicate NoAccept(es: seq<Event>) {
    forall k | 0 <= k < |es| :: !es[k].Accept?
  }

  /** From a state without client until the next one is accepted no command takes effect and no packet
      is sent. */
  lemma {:induction false} SilentWithoutClient(s: State, es: seq<Event>)
    requires s.client < 0 && Possible(s, es) && NoAccept(es)
    ensures Exec(s, es).client < 0 && Exec(s, es).log == s.log
  {
    if es == [] {
    } else {
      var n := |es| - 1;
      assert NoAccept(es[..n]);
      SilentWithoutClient(s, es[..n]);
      ClientStep(Exec(s, es[..n]), es[n]);
      LogStep(Exec(s, es[..n]), es[n]);
    }
  }

  /** From one accept to the next every packet goes to the client there was. */
  lemma {:induction false} OnlyToClient(s: State, es: seq<Event>)
    requires Possible(s, es) && NoAccept(es)
    ensures s.log <= Exec(s, es).log && (Exec(s, es).client < 0 || Exec(s, es).client == s.client)
    ensures forall k | |s.log| <= k < |Exec(s, es).log| && Exec(s, es).log[k].Sent? ::
      Exec(s, es).log[k].sd == s.client >= 0
  {
    if es == [] {
    } else {
      var n := |es| - 1;
      assert NoAccept(es[..n]);
      OnlyToClient(s, es[..n]);
      ClientStep(Exec(s, es[..n]), es[n]);
      LogStep(Exec(s, es[..n]), es[n]);
    }
  }

  // ---- A change of codec ----

  function Queries(es: seq<Event>): nat {
    if es == [] then 0
    else Queries(es[..|es| - 1]) + (if es[|es| - 1].CodecReply? then 1 else 0)
  }

  /** Position of the answer that has `q` others before it, or the length if there is none. */
  function QueryAt(es: seq<Event>, q: nat): (k: nat)
    ensures k <= |es|
    ensures k < |es| <==> q < Queries(es)
    ensures k < |es| ==> es[k].CodecReply? && Queries(es[..k]) == q
  {
    if es == [] then 0
    else
      var n := |es| - 1;
      var k := QueryAt(es[..n], q);
      assert es[..n][..k] == es[..k];
      if k < n || (es[n].CodecReply? && Queries(es[..n]) == q) then k else |es|
  }

  lemma QueryAtSnoc(es: seq<Event>, e: Event, q: nat)
    ensures
      var more := es + [e];
      && Queries(more) == Queries(es) + (if e.CodecReply? then 1 else 0)
      && (q != Queries(es) ==> (QueryAt(more, q) < |more| <==> QueryAt(es, q) < |es|))
      && (q < Queries(es) ==> QueryAt(more, q) == QueryAt(es, q))
      && (q == Queries(es) && e.CodecReply? ==> QueryAt(more, q) == |es|)
  {
    assert (es + [e])[..|es|] == es;
  }

  /** The first answer names this codec. */
  predicate AnswersFirst(es: seq<Event>, c: Codec) {
    Queries(es) > 0 && Normalise(es[QueryAt(es, 0)].raw) == c
  }

  function Restarts(log: seq<LogEntry>): nat {
    if log == [] then 0
    else
      var last := log[|log| - 1];
      Restarts(log[..|log| - 1]) + (if last.Sent? && last.packet.Restart? then 1 else 0)
  }

  lemma RestartsSnoc(before: seq<LogEntry>, log: seq<LogEntry>, x: LogEntry)
    requires before <= log
    ensures Restarts((log + [x])[|before|..]) ==
            Restarts(log[|before|..]) + (if x.Sent? && x.packet.Restart? then 1 else 0)
  {
    var d := (log + [x])[|before|..];
    assert d[..|d| - 1] == log[|before|..];
  }

  /** The reply that finds the stored codec out of date, while the client can be told. */
  predicate Announces(s: State, e: Event) {
    e.CodecReply? && Normalise(e.raw) != s.codec && Deliverable(s)
  }

  function RestartsSince(before: seq<LogEntry>, s: State): nat
    requires before <= s.log
  {
    Restarts(s.log[|before|..])
  }

  /** The RESTARTs on the wire since the log was `before` are the announcements made. */
  lemma RestartsStep(before: seq<LogEntry>, r: State, e: Event)
    requires before <= r.log && Enabled(r, e)
    ensures before <= Step(r, e).log
    ensures RestartsSince(before, Step(r, e)) == RestartsSince(before, r) + if Announces(r, e) then 1 else 0
  {
    LogStep(r, e);
    if Step(r, e).log != r.log {
      RestartsSnoc(before, r.log, Step(r, e).log[|r.log|]);
    }
  }

  /** The codec and its flag are untouched, and a fetch is entered only with the flag clear. */
  predicate KeepsCodec(r: State, r': State) {
    && r'.changed == r.changed && r'.codec == r.codec
    && (r'.pc == Asking ==> r.changed || r.pc == Asking)
    && (r'.pc == Fetching && r.pc != Fetching ==> !r.changed)
  }

  lemma OthersKeepCodec(r: State, e: Event)
    requires Enabled(r, e) && e != Signal && !e.CodecReply?
    ensures KeepsCodec(r, Step(r, e)) && !Announces(r, e)
  {
    CodecStep(r, e);
    PcStep(r, e);
  }

  // ---- No fetch without a question ----

  predicate NoReply(es: seq<Event>) {
    forall k | 0 <= k < |es| :: !es[k].CodecReply?
  }

  /** Once the camera has signalled, no fetch begins before a codec query is answered, be it one asked
      before the signal: until then Send is in a fetch only if it was in that fetch already. */
  lemma {:induction false} AskedBeforeFetch(s: State, es: seq<Event>)
    requires s.changed && Possible(s, es) && NoReply(es)
    ensures Exec(s, es).changed
    ensures Exec(s, es).pc == Fetching ==> s.pc == Fetching && forall k | 0 <= k < |es| :: !es[k].FrameReply?
  {
    if es == [] {
    } else {
      var n := |es| - 1;
      assert NoReply(es[..n]);
      AskedBeforeFetch(s, es[..n]);
      CodecStep(Exec(s, es[..n]), es[n]);
      PcStep(Exec(s, es[..n]), es[n]);
      assert forall k | 0 <= k < n :: es[..n][k] == es[k];
    }
  }

  /** Send goes into a call in which it was not before. */
  predicate Begins(pc: Pc, s: State, r: State) {
    s.pc != pc && r.pc == pc
  }

  /** A query is asked, or a fetch begun, in the course of the run. */
  predicate EverBegins(pc: Pc, s: State, es: seq<Event>) {
    es != [] &&
    var init := es[..|es| - 1];
    EverBegins(pc, s, init) || Begins(pc, Exec(s, init), Exec(s, es))
  }

  /** Without a question after `s`: nothing has happened yet, or the query under way in `s` has been
      answered, with the codec stored (`same`) or with another, which leaves the signal standing. */
  predicate Unasked(s: State, r: State, q: nat, begun: bool, same: bool) {
    if q == 0
    then r.changed && r.codec == s.codec && !begun && (r.pc == Asking <==> s.pc == Asking)
    else q == 1 && s.pc == Asking && r.pc != Asking && (begun <==> same) && (!same ==> r.changed)
  }

  lemma UnaskedCodec(s: State, r: State, begun: bool, same: bool, raw: Codec)
    requires Unasked(s, r, 0, begun, same) && r.pc == Asking
    ensures
      var r' := OnCodec(r, raw);
      Unasked(s, r', 1, Begins(Fetching, r, r'), Normalise(raw) == s.codec)
  {}

  lemma UnaskedOther(s: State, r: State, q: nat, begun: bool, same: bool, e: Event)
    requires Unasked(s, r, q, begun, same) && Enabled(r, e) && !e.CodecReply? && !Begins(Asking, r, Step(r, e))
    ensures Unasked(s, Step(r, e), q, begun || Begins(Fetching, r, Step(r, e)), same)
  {
    if e != Signal {
      OthersKeepCodec(r, e);
    }
  }

  /** Exactly which fetches begin with no question asked after the signal: those that follow when a query
      under way at the signal is answered with the codec stored. */
  lemma {:induction false} FetchWithoutQuestion(s: State, es: seq<Event>)
    requires s.changed && Possible(s, es) && !EverBegins(Asking, s, es)
    ensures Unasked(s, Exec(s, es), Queries(es), EverBegins(Fetching, s, es), AnswersFirst(es, s.codec))
    ensures EverBegins(Fetching, s, es) <==> s.pc == Asking && AnswersFirst(es, s.codec)
  {
    if es == [] {
    } else {
      var n := |es| - 1;
      var init, e, r := es[..n], es[n], Exec(s, es[..n]);
      FetchWithoutQuestion(s, init);
      QueryAtSnoc(init, e, 0);
      assert init + [e] == es;
      if e.CodecReply? {
        UnaskedCodec(s, r, EverBegins(Fetching, s, init), AnswersFirst(init, s.codec), e.raw);
      } else {
        UnaskedOther(s, r, Queries(init), EverBegins(Fetching, s, init), AnswersFirst(init, s.codec), e);
      }
    }
  }

  // ---- How a change is worked off ----

  /** No further signal; the first query is answered with `a` and the later ones with `c`. */
  predicate Answers(es: seq<Event>, a: Codec, c: Codec) {
    es == [] ||
    var init, e := es[..|es| - 1], es[|es| - 1];
    && Answers(init, a, c) && e != Signal
    && (e.CodecReply? ==> Normalise(e.raw) == if Queries(init) == 0 then a else c)
  }

  /** Each answer that differs from the codec stored calls for another query. */
  function QueriesNeeded(stored: Codec, a: Codec, c: Codec): nat {
    if a == stored then 1 else if a == c then 2 else 3
  }

  /** How far the change has been worked off since `s`, with `q` queries answered. */
  predicate Settling(s: State, r: State, a: Codec, c: Codec, q: nat) {
    && (r.pc == Asking ==> r.changed)
    && q <= QueriesNeeded(s.codec, a, c)
    && (q == 0 ==> r.changed && r.codec == s.codec)
    && (q == 1 ==> r.codec == a)
    && (q > 1 ==> r.codec == c)
    && (q > 0 ==> (r.changed <==> q < QueriesNeeded(s.codec, a, c)))
  }

  lemma SettlingCodec(s: State, r: State, a: Codec, c: Codec, q: nat, raw: Codec)
    requires Settling(s, r, a, c, q) && r.pc == Asking && Normalise(raw) == if q == 0 then a else c
    ensures Settling(s, OnCodec(r, raw), a, c, q + 1)
    ensures OnCodec(r, raw).pc == Fetching <==> q + 1 == QueriesNeeded(s.codec, a, c)
  {}

  lemma SettlingStep(s: State, r: State, a: Codec, c: Codec, q: nat, e: Event)
    requires Settling(s, r, a, c, q) && Enabled(r, e)
    requires e != Signal && (e.CodecReply? ==> Normalise(e.raw) == if q == 0 then a else c)
    ensures Settling(s, Step(r, e), a, c, q + if e.CodecReply? then 1 else 0)
    ensures Begins(Fetching, r, Step(r, e)) ==>
      !Step(r, e).changed && Step(r, e).codec == if a == s.codec then a else c
    ensures e.CodecReply? && q == 0 && a == s.codec ==> Begins(Fetching, r, Step(r, e))
  {
    if e.CodecReply? {
      SettlingCodec(s, r, a, c, q, e.raw);
    } else {
      OthersKeepCodec(r, e);
    }
  }

  /** The client can be told when the answer with `q` others before it arrives. */
  predicate Reached(s: State, es: seq<Event>, q: nat) {
    q < Queries(es) && Deliverable(Exec(s, es[..QueryAt(es, q)]))
  }

  lemma ReachedSnoc(s: State, es: seq<Event>, e: Event, q: nat)
    ensures Reached(s, es + [e], q) <==>
            Reached(s, es, q) || (e.CodecReply? && q == Queries(es) && Deliverable(Exec(s, es)))
  {
    QueryAtSnoc(es, e, q);
    var more := es + [e];
    assert more[..|es|] == es;
    if q < Queries(es) {
      assert more[..QueryAt(es, q)] == es[..QueryAt(es, q)];
    }
  }

  /** One for each of the two answers that brings news to a client who can be told. */
  function Told(s: State, es: seq<Event>, a: Codec, c: Codec): nat {
    (if a != s.codec && Reached(s, es, 0) then 1 else 0) + (if a != c && Reached(s, es, 1) then 1 else 0)
  }

  lemma ToldSnoc(s: State, es: seq<Event>, e: Event, a: Codec, c: Codec)
    requires Settling(s, Exec(s, es), a, c, Queries(es)) && Enabled(Exec(s, es), e)
    requires e.CodecReply? ==> Normalise(e.raw) == if Queries(es) == 0 then a else c
    ensures Told(s, es + [e], a, c) == Told(s, es, a, c) + if Announces(Exec(s, es), e) then 1 else 0
  {
    ReachedSnoc(s, es, e, 0);
    ReachedSnoc(s, es, e, 1);
  }

  /** Every fetch begun starts with the change worked off and `c` stored. */
  predicate FetchesCurrent(s: State, es: seq<Event>, c: Codec) {
    es == [] ||
    var init := es[..|es| - 1];
    && FetchesCurrent(s, init, c)
    && (Begins(Fetching, Exec(s, init), Exec(s, es)) ==> !Exec(s, es).changed && Exec(s, es).codec == c)
  }

  /** After a signal, with the camera at `c` from then on, only a query that was under way when it signalled
      may be answered with another codec `a`.  Then at most three queries are made, two if none was under
      way; a RESTART is sent exactly for an answer that differs from the codec stored, if the client can be
      told when it arrives; and every fetch begun from then on starts with the change worked off and `c`
      stored, if and only if the query under way is not answered with the codec stored when that is
      outdated. */
  lemma {:induction false} CodecSettles(s: State, es: seq<Event>, a: Codec, c: Codec)
    requires s.changed && Possible(s, es) && Answers(es, a, c) && (s.pc != Asking ==> a == c)
    ensures Settling(s, Exec(s, es), a, c, Queries(es))
    ensures s.log <= Exec(s, es).log && RestartsSince(s.log, Exec(s, es)) == Told(s, es, a, c)
    ensures FetchesCurrent(s, es, c) <==> !(s.pc == Asking && Queries(es) > 0 && a == s.codec && a != c)
  {
    if es == [] {
      assert s.log[|s.log|..] == [];
    } else {
      var n := |es| - 1;
      var init, e := es[..n], es[n];
      CodecSettles(s, init, a, c);
      SettlingStep(s, Exec(s, init), a, c, Queries(init), e);
      RestartsStep(s.log, Exec(s, init), e);
      ToldSnoc(s, init, e, a, c);
      assert init + [e] == es;
    }
  }

  // ---- A signal that is lost ----

  predicate NoSignal(es: seq<Event>) {
    forall k | 0 <= k < |es| :: es[k] != Signal
  }

  /** With the flag clear and no query under way, nothing is asked until the next signal. */
  lemma {:induction false} NeverAsked(s: State, es: seq<Event>)
    requires !s.changed && s.pc != Asking && Possible(s, es) && NoSignal(es)
    ensures NoReply(es) && !Exec(s, es).changed && Exec(s, es).pc != Asking && Exec(s, es).codec == s.codec
    ensures s.log <= Exec(s, es).log && RestartsSince(s.log, Exec(s, es)) == 0
  {
    if es == [] {
      assert s.log[|s.log|..] == [];
    } else {
      var n := |es| - 1;
      assert NoSignal(es[..n]);
      NeverAsked(s, es[..n]);
      OthersKeepCodec(Exec(s, es[..n]), es[n]);
      RestartsStep(s.log, Exec(s, es[..n]), es[n]);
      assert forall k | 0 <= k < n :: es[..n][k] == es[k];
    }
  }

  /** The camera signals again while Send waits for the answer to its codec query. */
  const ASKING_AGAIN: seq<Event> := [Accept(3), Recv(Start), Signal, Pass, Signal]

  const ASKED_AGAIN: State :=
    Init(H264).(client := 3, suspend := false, changed := true, pc := Asking, log := [Accepted(Start)])

  lemma AskingAgainRun()
    ensures Possible(Init(H264), ASKING_AGAIN) && Exec(Init(H264), ASKING_AGAIN) == ASKED_AGAIN
  {
    var s0 := Init(H264);
    var s1 := s0.(client := 3);
    var s2 := s1.(suspend := false, log := [Accepted(Start)]);
    assert ASKING_AGAIN[..0] == [];
    Extend(s0, ASKING_AGAIN, 0, s0);
    Extend(s0, ASKING_AGAIN, 1, s1);
    Extend(s0, ASKING_AGAIN, 2, s2);
    Extend(s0, ASKING_AGAIN, 3, s2.(changed := true));
    Extend(s0, ASKING_AGAIN, 4, ASKED_AGAIN);
    assert ASKING_AGAIN[..5] == ASKING_AGAIN;
  }

  lemma {:induction false} RestartsConcat(a: seq<LogEntry>, b: seq<LogEntry>)
    ensures Restarts(a + b) == Restarts(a) + Restarts(b)
  {
    if b == [] {
      assert a + b == a;
    } else {
      var n := |b| - 1;
      RestartsConcat(a, b[..n]);
      assert (a + b)[..|a + b| - 1] == a + b[..n];
    }
  }

  lemma RestartsAfterStart(s: State, r: State)
    requires s.log == [Accepted(Start)] && s.log <= r.log
    ensures Restarts(r.log) == RestartsSince(s.log, r)
  {
    assert r.log == s.log + r.log[1..];
    RestartsConcat(s.log, r.log[1..]);
    assert s.log[..0] == [];
    assert Restarts(s.log) == 0;
  }

  /** The answer under way still names the old codec and clears the flag: as long as the camera does not
      signal a third time, however the run goes on, the codec is not asked for again, and so the new one is
      neither stored nor announced. */
  lemma SignalLost(more: seq<Event>)
    requires Possible(Init(H264), ASKING_AGAIN + [CodecReply(H264)] + more) && NoSignal(more)
    ensures
      var s := Exec(Init(H264), ASKING_AGAIN + [CodecReply(H264)] + more);
      NoReply(more) && !s.changed && s.codec == H264 && Restarts(s.log) == 0
  {
    AskingAgainRun();
    RunSnoc(Init(H264), ASKING_AGAIN, CodecReply(H264));
    var start := ASKING_AGAIN + [CodecReply(H264)];
    RunConcat(Init(H264), start, more);
    var s := Exec(Init(H264), start);
    assert s == ASKED_AGAIN.(changed := false, pc := Fetching);
    NeverAsked(s, more);
    RestartsAfterStart(s, Exec(s, more));
  }

  /** The answer under way names a codec that the camera has left again: two RESTARTs for no change. */
  lemma TwoRestarts()
    ensures
      var es := ASKING_AGAIN + [CodecReply(H265), Pass, CodecReply(H264)];
      && Possible(Init(H264), es)
      && Exec(Init(H264), es).codec == H264
      && Exec(Init(H264), es).log == [Accepted(Start), Sent(3, Restart), Sent(3, Restart)]
  {
    AskingAgainRun();
    var s1 := ASKED_AGAIN.(codec := H265, pc := Top, log := [Accepted(Start), Sent(3, Restart)]);
    var es1 := ASKING_AGAIN + [CodecReply(H265)];
    var es2 := es1 + [Pass];
    RunSnoc(Init(H264), ASKING_AGAIN, CodecReply(H265));
    assert Exec(Init(H264), es1) == s1;
    RunSnoc(Init(H264), es1, Pass);
    RunSnoc(Init(H264), es2, CodecReply(H264));
    assert ASKING_AGAIN + [CodecReply(H265), Pass, CodecReply(H264)] == es2 + [CodecReply(H264)];
  }

  // ---- A RESTART that is never sent ----

  /** The client leaves while Send waits for the answer to its codec query. */
  const UNTOLD: seq<Event> := [Accept(3), Recv(Start), Signal, Pass, Disconnect, CodecReply(H265)]

  lemma UntoldRun()
    ensures Possible(Init(H264), UNTOLD)
    ensures Exec(Init(H264), UNTOLD) ==
            Init(H264).(suspend := false, changed := true, codec := H265, log := [Accepted(Start)])
  {
    var s0 := Init(H264);
    var s1 := s0.(client := 3);
    var s2 := s1.(suspend := false, log := [Accepted(Start)]);
    var s3 := s2.(changed := true);
    var s4 := s3.(pc := Asking);
    assert UNTOLD[..0] == [];
    Extend(s0, UNTOLD, 0, s0);
    Extend(s0, UNTOLD, 1, s1);
    Extend(s0, UNTOLD, 2, s2);
    Extend(s0, UNTOLD, 3, s3);
    Extend(s0, UNTOLD, 4, s4);
    Extend(s0, UNTOLD, 5, s4.(client := -1));
    assert UNTOLD[..6] == UNTOLD;
  }

  /** The new codec is stored and, however the run goes on with that codec, no client is ever told. */
  lemma RestartLost(more: seq<Event>)
    requires Possible(Init(H264), UNTOLD + more) && Answers(more, H265, H265)
    ensures Exec(Init(H264), UNTOLD + more).codec == H265
    ensures Restarts(Exec(Init(H264), UNTOLD + more).log) == 0
  {
    UntoldRun();
    RunConcat(Init(H264), UNTOLD, more);
    var s := Exec(Init(H264), UNTOLD);
    CodecSettles(s, more, H265, H265);
    RestartsAfterStart(s, Exec(s, more));
  }
}
