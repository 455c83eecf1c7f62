/** The two loops that put sample frames into the stream in step with the clock. */
module FramePacing {
  import opened Integers

  const NUMBER_OF_VIDEO_FRAME_FILES := 403
  const NUMBER_OF_AUDIO_FRAME_FILES := 582
  const KEY_FRAME_INTERVAL := 45

  /** Unsigned 64-bit subtraction. */
  function Sub64(a: nat, b: nat): nat {
    (a - b) % TWO_64
  }

  lemma Sub64Plain(a: nat, b: nat)
    requires b <= a < b + TWO_64
    ensures Sub64(a, b) == a - b
  {}

  lemma Sub64Wraps(a: nat, b: nat)
    requires a < b <= TWO_64
    ensures Sub64(a, b) == a + 0x1_0000_0000_0000_0000 - b
  {}

  lemma VideoFileIs(n: nat, q: nat, r: nat)
    requires n == 403 * q + r && r < 403
    ensures n % NUMBER_OF_VIDEO_FRAME_FILES == r
  {}

  lemma NextVideoFile(n: nat)
    ensures (n % NUMBER_OF_VIDEO_FRAME_FILES + 1) % NUMBER_OF_VIDEO_FRAME_FILES == (n + 1) % NUMBER_OF_VIDEO_FRAME_FILES
  {
    var q, r := n / 403, n % 403;
    if r + 1 < 403 { VideoFileIs(n + 1, q, r + 1); } else { VideoFileIs(n + 1, q + 1, 0); }
  }

  lemma AudioFileIs(n: nat, q: nat, r: nat)
    requires n == 582 * q + r && r < 582
    ensures n % NUMBER_OF_AUDIO_FRAME_FILES == r
  {}

  lemma NextAudioFile(n: nat)
    ensures (n % NUMBER_OF_AUDIO_FRAME_FILES + 1) % NUMBER_OF_AUDIO_FRAME_FILES == (n + 1) % NUMBER_OF_AUDIO_FRAME_FILES
  {
    var q, r := n / 582, n % 582;
    if r + 1 < 582 { AudioFileIs(n + 1, q, r + 1); } else { AudioFileIs(n + 1, q + 1, 0); }
  }

  lemma NextMultiple(n: nat, d: nat)
    ensures (n + 1) * d == n * d + d
  {}

  /** A frame handed to the stream: its number, the sample file it comes from, its presentation time,
      whether it opens a fragment, and the clock when the loop was entered for it. */
  datatype Put = Put(index: nat, fileIndex: nat, pts: nat, key: bool, time: nat)

  // ---- Video ----

  /** What one turn of the video loop meets: the clock at the loop test and after the put. */
  datatype VideoTurn = VideoTurn(top: nat, after: nat)

  predicate Key(n: nat) {
    n % NUMBER_OF_VIDEO_FRAME_FILES % KEY_FRAME_INTERVAL == 0
  }

  /** Nine tenths, rounded down. */
  function VideoSleep(running: nat, pts: nat): nat {
    if running < pts then 9 * (pts - running) / 10 else 0
  }

  /** A loop that is late does not sleep; otherwise nine tenths of what remains, and not a tick less. */
  lemma VideoSleepMeaning(running: nat, pts: nat)
    ensures running >= pts ==> VideoSleep(running, pts) == 0
    ensures running < pts ==> 10 * VideoSleep(running, pts) <= 9 * (pts - running) < 10 * VideoSleep(running, pts) + 10
  {}

  /** The sleep asked for at the end of turn n. */
  function SleepAfter(turns: seq<VideoTurn>, start: nat, d: nat, n: nat): nat
    requires n < |turns|
  {
    VideoSleep(Sub64(turns[n].after, start), (n + 1) * d)
  }

  function VideoFrame(turns: seq<VideoTurn>, d: nat, n: nat): Put
    requires n < |turns|
  {
    Put(n, n % NUMBER_OF_VIDEO_FRAME_FILES, n * d, Key(n), turns[n].top)
  }

  /** The body of the loop: puts the frame, advances it, and works out the sleep. */
  method VideoTurnBody(turns: seq<VideoTurn>, start: nat, d: nat, n: nat, fileIndex: nat, pts: nat, key: bool)
    returns (put: Put, sleep: nat, fileIndex': nat, pts': nat, key': bool)
    requires n < |turns|
    requires fileIndex == n % NUMBER_OF_VIDEO_FRAME_FILES && pts == n * d && key == Key(n)
    ensures put == VideoFrame(turns, d, n) && sleep == SleepAfter(turns, start, d, n)
    ensures fileIndex' == (n + 1) % NUMBER_OF_VIDEO_FRAME_FILES && pts' == (n + 1) * d && key' == Key(n + 1)
  {
    put := Put(n, fileIndex, pts, key, turns[n].top);
    NextMultiple(n, d);
    pts' := pts + d;
    NextVideoFile(n);
    fileIndex' := (fileIndex + 1) % NUMBER_OF_VIDEO_FRAME_FILES;
    key' := fileIndex' % KEY_FRAME_INTERVAL == 0;
    var running := Sub64(turns[n].after, start);
    sleep := 0;
    if running < pts' {
      sleep := 9 * (pts' - running) / 10;
    }
  }

  /** The clock does not go back, and a sleep lasts at least as long as asked. */
  predicate Feasible(turns: seq<VideoTurn>, start: nat, d: nat) {
    && (forall n | 0 <= n < |turns| :: start <= turns[n].top <= turns[n].after < start + TWO_64)
    && (forall n | 0 <= n < |turns| - 1 :: turns[n].after + SleepAfter(turns, start, d, n) <= turns[n + 1].top)
  }

  function CeilNinth(d: nat): nat {
    (d + 8) / 9
  }

  /** How far ahead of its presentation time frame n is put. */
  function Lead(turns: seq<VideoTurn>, start: nat, d: nat, n: nat): int
    requires n < |turns|
  {
    n * d - (turns[n].top - start)
  }

  lemma LeadRecurrence(lead: int, remaining: int, d: nat)
    requires remaining <= d + lead && lead <= CeilNinth(d) && remaining > 0
    ensures remaining - 9 * remaining / 10 <= CeilNinth(d)
  {}

  /** No frame is put more than a ninth of a frame duration early, however long the run. */
  lemma {:induction false} LeadBounded(turns: seq<VideoTurn>, start: nat, d: nat, n: nat)
    requires Feasible(turns, start, d) && n < |turns|
    ensures Lead(turns, start, d, n) <= CeilNinth(d)
  {
    if n == 0 {
    } else {
      LeadBounded(turns, start, d, n - 1);
      var last := turns[n - 1];
      assert n * d == (n - 1) * d + d;
      Sub64Plain(last.after, start);
      var remaining := n * d - (last.after - start);
      if remaining > 0 {
        LeadRecurrence(Lead(turns, start, d, n - 1), remaining, d);
      }
      assert last.after + SleepAfter(turns, start, d, n - 1) <= turns[n].top;
    }
  }

  method PutVideoFrames(start: nat, stop: nat, d: nat, turns: seq<VideoTurn>) returns (puts: seq<Put>, sleeps: seq<nat>)
    ensures |puts| == |sleeps| <= |turns|
    ensures forall n | 0 <= n < |puts| :: puts[n] == VideoFrame(turns, d, n) && turns[n].top < stop
    ensures forall n | 0 <= n < |puts| ::
      puts[n].index == n && puts[n].fileIndex == n % 403 && puts[n].pts == n * d && puts[n].time == turns[n].top
    ensures forall n | 0 <= n < |puts| :: puts[n].key <==> n % 403 % 45 == 0
    ensures forall n | 0 <= n < |puts| :: sleeps[n] == SleepAfter(turns, start, d, n)
    ensures forall n | 0 <= n < |puts| :: Sub64(turns[n].after, start) >= (n + 1) * d ==> sleeps[n] == 0
    ensures |puts| < |turns| ==> turns[|puts|].top >= stop
    ensures Feasible(turns, start, d) ==>
      forall n | 0 <= n < |puts| :: puts[n].pts - (puts[n].time - start) <= CeilNinth(d)
  {
    puts, sleeps := [], [];
    var n, fileIndex, pts := 0, 0, 0;
    var key := fileIndex % KEY_FRAME_INTERVAL == 0;
    while n < |turns| && turns[n].top < stop
      invariant n == |puts| == |sleeps| <= |turns|
      invariant fileIndex == n % NUMBER_OF_VIDEO_FRAME_FILES && pts == n * d && key == Key(n)
      invariant forall k | 0 <= k < n :: puts[k] == VideoFrame(turns, d, k) && turns[k].top < stop
      invariant forall k | 0 <= k < n :: sleeps[k] == SleepAfter(turns, start, d, k)
    {
      var put, sleep;
      put, sleep, fileIndex, pts, key := VideoTurnBody(turns, start, d, n, fileIndex, pts, key);
      puts := puts + [put];
      sleeps := sleeps + [sleep];
      n := n + 1;
    }
    if Feasible(turns, start, d) {
      forall k | 0 <= k < |puts| ensures puts[k].pts - (puts[k].time - start) <= CeilNinth(d) {
        LeadBounded(turns, start, d, k);
      }
    }
  }

  /** The lead in the run in which everything but the sleeps is instantaneous. */
  function IdealLead(d: nat, n: nat): (r: nat)
    ensures r <= CeilNinth(d)
  {
    if n == 0 then 0
    else
      var remaining := d + IdealLead(d, n - 1);
      remaining - 9 * remaining / 10
  }

  lemma {:induction false} IdealLeadGrows(d: nat, n: nat)
    ensures IdealLead(d, n) >= if n <= CeilNinth(d) then n else CeilNinth(d)
  {
    if n == 0 {
    } else {
      IdealLeadGrows(d, n - 1);
    }
  }

  function IdealTurn(d: nat, n: nat): VideoTurn {
    var t := if n * d >= IdealLead(d, n) then n * d - IdealLead(d, n) else 0;
    VideoTurn(t, t)
  }

  lemma IdealTurnTime(d: nat, n: nat)
    ensures IdealTurn(d, n).top == n * d - IdealLead(d, n)
  {
    if n == 0 {
    } else {
      assert n * d == (n - 1) * d + d;
      assert (n - 1) * d >= 0;
      assert CeilNinth(d) <= d;
    }
  }

  /** The turn after an ideal turn starts when the sleep asked for ends. */
  lemma IdealTurnFollows(d: nat, n: nat)
    requires IdealTurn(d, n).after < TWO_64
    ensures IdealTurn(d, n).after + VideoSleep(Sub64(IdealTurn(d, n).after, 0), (n + 1) * d) == IdealTurn(d, n + 1).top
  {
    IdealTurnTime(d, n);
    IdealTurnTime(d, n + 1);
    NextMultiple(n, d);
    Sub64Plain(IdealTurn(d, n).after, 0);
  }

  /** The bound is the best possible: for every frame duration some run reaches it. */
  lemma LeadReached(d: nat) returns (turns: seq<VideoTurn>)
    requires CeilNinth(d) * d < TWO_64
    ensures |turns| == CeilNinth(d) + 1 && Feasible(turns, 0, d)
    ensures Lead(turns, 0, d, CeilNinth(d)) == CeilNinth(d)
  {
    var last := CeilNinth(d);
    turns := seq(last + 1, n requires 0 <= n <= last => IdealTurn(d, n));
    forall n | 0 <= n < |turns| ensures turns[n] == IdealTurn(d, n) && turns[n].after < TWO_64 {
      IdealTurnTime(d, n);
      MulMonotone(n, last, d);
    }
    forall n | 0 <= n < |turns| - 1
      ensures turns[n].after + SleepAfter(turns, 0, d, n) <= turns[n + 1].top
    {
      IdealTurnFollows(d, n);
    }
    IdealTurnTime(d, last);
    IdealLeadGrows(d, last);
  }

  // ---- Key frames ----

  lemma FileAfter(n: nat, j: nat)
    requires j <= 45
    ensures
      var r := n % NUMBER_OF_VIDEO_FRAME_FILES;
      (n + j) % NUMBER_OF_VIDEO_FRAME_FILES == if r + j < 403 then r + j else r + j - 403
  {
    var q, r := n / 403, n % 403;
    if r + j < 403 { VideoFileIs(n + j, q, r + j); } else { VideoFileIs(n + j, q + 1, r + j - 403); }
  }

  /** From one key frame the next is 45 frames on, or 43 where the sample files start over. */
  lemma KeyFrameGap(n: nat)
    requires Key(n)
    ensures
      var gap := if n % NUMBER_OF_VIDEO_FRAME_FILES == 360 then 43 else 45;
      Key(n + gap) && forall m | n < m < n + gap :: !Key(m)
  {
    var gap := if n % NUMBER_OF_VIDEO_FRAME_FILES == 360 then 43 else 45;
    FileAfter(n, gap);
    forall m | n < m < n + gap ensures !Key(m) {
      FileAfter(n, m - n);
    }
  }

  lemma {:induction false} LastKeyBefore(n: nat) returns (k: nat)
    ensures k <= n && Key(k) && forall m | k < m <= n :: !Key(m)
  {
    if Key(n) {
      k := n;
    } else {
      assert Key(0);
      k := LastKeyBefore(n - 1);
    }
  }

  /** Any 45 consecutive video frames contain a key frame. */
  lemma KeyFrameInAny45(n: nat)
    ensures exists k | n <= k < n + 45 :: Key(k)
  {
    var k := LastKeyBefore(n);
    KeyFrameGap(k);
    if k == n {
      assert Key(n);
    } else {
      var gap := if k % NUMBER_OF_VIDEO_FRAME_FILES == 360 then 43 else 45;
      assert n < k + gap < n + 45 && Key(k + gap);
    }
  }

  // ---- Audio ----

  /** One turn of the audio loop; `videoPut` is what it reads of the flag the video loop sets. */
  datatype AudioTurn = AudioTurn(top: nat, videoPut: bool, after: nat)

  /** The number of frames put in the first n turns. */
  function PutsIn(turns: seq<AudioTurn>, n: nat): nat
    requires n <= |turns|
  {
    if n == 0 then 0 else PutsIn(turns, n - 1) + if turns[n - 1].videoPut then 1 else 0
  }

  function AudioSleep(turns: seq<AudioTurn>, start: nat, d: nat, n: nat): nat
    requires n < |turns|
  {
    var running := Sub64(turns[n].after, start);
    var pts := PutsIn(turns, n + 1) * d;
    if turns[n].videoPut && running < pts then pts - running else 0
  }

  /** The frame that turn n puts, if it puts one. */
  function AudioFrame(turns: seq<AudioTurn>, d: nat, n: nat): Put
    requires n < |turns|
  {
    var k := PutsIn(turns, n);
    Put(k, k % NUMBER_OF_AUDIO_FRAME_FILES, k * d, false, turns[n].top)
  }

  /** The frames put in the first n turns. */
  function AudioFrames(turns: seq<AudioTurn>, d: nat, n: nat): (puts: seq<Put>)
    requires n <= |turns|
    ensures |puts| == PutsIn(turns, n)
  {
    if n == 0 then []
    else AudioFrames(turns, d, n - 1) + if turns[n - 1].videoPut then [AudioFrame(turns, d, n - 1)] else []
  }

  /** The body of the loop once a video frame has been put. */
  method AudioTurnBody(turns: seq<AudioTurn>, start: nat, d: nat, n: nat, index: nat, fileIndex: nat, pts: nat)
    returns (put: Put, sleep: nat, fileIndex': nat, pts': nat)
    requires n < |turns| && turns[n].videoPut && index == PutsIn(turns, n)
    requires fileIndex == index % NUMBER_OF_AUDIO_FRAME_FILES && pts == index * d
    ensures put == AudioFrame(turns, d, n) && sleep == AudioSleep(turns, start, d, n)
    ensures fileIndex' == (index + 1) % NUMBER_OF_AUDIO_FRAME_FILES && pts' == (index + 1) * d
  {
    put := Put(index, fileIndex, pts, false, turns[n].top);
    NextMultiple(index, d);
    pts' := pts + d;
    NextAudioFile(index);
    fileIndex' := (fileIndex + 1) % NUMBER_OF_AUDIO_FRAME_FILES;
    var running := Sub64(turns[n].after, start);
    sleep := 0;
    if running < pts' {
      sleep := pts' - running;
    }
  }

  predicate AudioFeasible(turns: seq<AudioTurn>, start: nat, d: nat) {
    && (forall n | 0 <= n < |turns| :: start <= turns[n].top <= turns[n].after < start + TWO_64)
    && (forall n | 0 <= n < |turns| - 1 :: turns[n].after + AudioSleep(turns, start, d, n) <= turns[n + 1].top)
  }

  /** No audio frame is ever put before its presentation time. */
  lemma {:induction false} AudioNeverEarly(turns: seq<AudioTurn>, start: nat, d: nat, n: nat)
    requires AudioFeasible(turns, start, d) && n < |turns|
    ensures PutsIn(turns, n) * d <= turns[n].top - start
  {
    if n == 0 {
    } else {
      AudioNeverEarly(turns, start, d, n - 1);
      Sub64Plain(turns[n - 1].after, start);
      assert turns[n - 1].after + AudioSleep(turns, start, d, n - 1) <= turns[n].top;
    }
  }

  /** The loop sleeps only after a put and only if it is early, and then until just the time of the frame
      that comes next. */
  lemma AudioSleepsUntilDue(turns: seq<AudioTurn>, start: nat, d: nat, n: nat)
    requires AudioFeasible(turns, start, d) && n < |turns|
    ensures
      var due := start + PutsIn(turns, n + 1) * d;
      if turns[n].videoPut && turns[n].after < due then turns[n].after + AudioSleep(turns, start, d, n) == due
      else AudioSleep(turns, start, d, n) == 0
  {
    Sub64Plain(turns[n].after, start);
  }

  /** The frame with number k carries its number, file and time, and is not put before that time. */
  predicate OnTime(p: Put, k: nat, d: nat, start: nat) {
    p.index == k && p.fileIndex == k % 582 && p.pts == k * d && !p.key && p.pts <= p.time - start
  }

  lemma {:induction false} AudioFramesNotEarly(turns: seq<AudioTurn>, start: nat, d: nat, n: nat)
    requires AudioFeasible(turns, start, d) && n <= |turns|
    ensures forall k | 0 <= k < PutsIn(turns, n) :: OnTime(AudioFrames(turns, d, n)[k], k, d, start)
  {
    if n == 0 {
    } else {
      AudioFramesNotEarly(turns, start, d, n - 1);
      AudioNeverEarly(turns, start, d, n - 1);
      forall k | 0 <= k < PutsIn(turns, n) ensures OnTime(AudioFrames(turns, d, n)[k], k, d, start) {
        if k < PutsIn(turns, n - 1) {
          assert AudioFrames(turns, d, n)[k] == AudioFrames(turns, d, n - 1)[k];
          assert OnTime(AudioFrames(turns, d, n - 1)[k], k, d, start);
        } else {
          assert AudioFrames(turns, d, n)[k] == AudioFrame(turns, d, n - 1);
        }
      }
    }
  }

  /** A turn that reads the flag set puts one frame, when it starts; the others put none. */
  lemma {:induction false} AudioFrameOfTurn(turns: seq<AudioTurn>, d: nat, n: nat, m: nat)
    requires m < n <= |turns| && turns[m].videoPut
    ensures PutsIn(turns, m) < |AudioFrames(turns, d, n)|
    ensures AudioFrames(turns, d, n)[PutsIn(turns, m)].index == PutsIn(turns, m)
    ensures AudioFrames(turns, d, n)[PutsIn(turns, m)].time == turns[m].top
  {
    if m == n - 1 {
      assert AudioFrames(turns, d, n)[PutsIn(turns, m)] == AudioFrame(turns, d, m);
    } else {
      AudioFrameOfTurn(turns, d, n - 1, m);
    }
  }

  method PutAudioFrames(start: nat, stop: nat, d: nat, turns: seq<AudioTurn>) returns (puts: seq<Put>, sleeps: seq<nat>)
    ensures |sleeps| <= |turns| && puts == AudioFrames(turns, d, |sleeps|)
    ensures forall n | 0 <= n < |sleeps| :: turns[n].top < stop && sleeps[n] == AudioSleep(turns, start, d, n)
    ensures |sleeps| < |turns| ==> turns[|sleeps|].top >= stop
    ensures AudioFeasible(turns, start, d) ==> forall k | 0 <= k < |puts| :: OnTime(puts[k], k, d, start)
  {
    puts, sleeps := [], [];
    var n, index, fileIndex, pts := 0, 0, 0, 0;
    while n < |turns| && turns[n].top < stop
      invariant n == |sleeps| <= |turns| && index == PutsIn(turns, n) && puts == AudioFrames(turns, d, n)
      invariant fileIndex == index % NUMBER_OF_AUDIO_FRAME_FILES && pts == index * d
      invariant forall i | 0 <= i < n :: turns[i].top < stop && sleeps[i] == AudioSleep(turns, start, d, i)
    {
      var sleep := 0;
      if turns[n].videoPut {
        var put;
        put, sleep, fileIndex, pts := AudioTurnBody(turns, start, d, n, index, fileIndex, pts);
        puts := puts + [put];
        index := index + 1;
      }
      sleeps := sleeps + [sleep];
      n := n + 1;
    }
    if AudioFeasible(turns, start, d) {
      AudioFramesNotEarly(turns, start, d, n);
    }
  }
}
