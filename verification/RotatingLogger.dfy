/**
 The rotating logger: numbered journal files in one directory, the current number kept in an index
 file, all but the last three removed at each rotation, the size looked at only now and then.
 */
module RotatingLogger {
  import opened Wrappers
  import opened Integers

  function CyclingIncrease(index: int): int {
    if index + 1 >= 10 then 1 else index + 1
  }

  function CyclingDecrease(index: int): int {
    if index - 1 <= 0 then 9 else index - 1
  }

  /** A log file: the name the logger was given, and a number. */
  datatype FileName = FileName(name: string, index: int)

  const JOURNAL := "journal_"

  datatype Settings = Settings(name: string, maxSize: int, frequency: int)

  /** `current` is None before the first write (an empty path); `written` records everything logged. */
  datatype State = State(
    files: map<FileName, string>,
    indexFile: Option<string>,
    index: int,
    current: Option<FileName>,
    count: int,
    written: string
  )

  datatype Event =
    | Log(text: string)
    | Restart(newProcess: bool)  // a new Logger on the same directory, initialised

  // ---- The index file ----

  function DigitText(i: int): string
    requires 0 <= i <= 9
  {
    ["0123456789"[i]]
  }

  function FirstLine(text: string): string {
    if text == [] || text[0] == '\n' then [] else [text[0]] + FirstLine(text[1..])
  }

  predicate IsDigit(c: char) {
    '0' <= c <= '9'
  }

  function DigitValue(c: char): int {
    c as int - '0' as int
  }

  /** The index read back: the first line if it is one digit, otherwise 1. */
  function IndexFrom(file: Option<string>): int {
    var line := if file.Some? then FirstLine(file.value) else [];
    if |line| == 1 && IsDigit(line[0]) then DigitValue(line[0]) else 1
  }

  /** What initialisation leaves in the index file. */
  function IndexFileAfterInit(file: Option<string>): Option<string> {
    var line := if file.Some? then FirstLine(file.value) else [];
    if |line| == 1 && IsDigit(line[0]) then file else Some("1\n")
  }

  lemma {:induction false} FirstLineOf(line: string, rest: string)
    requires '\n' !in line && (rest == [] || rest[0] == '\n')
    ensures FirstLine(line + rest) == line
  {
    if line == [] {
      assert line + rest == rest;
    } else {
      assert (line + rest)[1..] == line[1..] + rest;
      FirstLineOf(line[1..], rest);
    }
  }

  /** Anything but one digit on the first line counts as 1 and is overwritten; a digit is kept, be it zero. */
  lemma IndexReadBack(line: string, rest: string)
    requires '\n' !in line && (rest == [] || rest[0] == '\n')
    ensures
      var i, file := IndexFrom(Some(line + rest)), IndexFileAfterInit(Some(line + rest));
      if |line| == 1 && line[0] in "0123456789"
      then 0 <= i <= 9 && "0123456789"[i] == line[0] && file == Some(line + rest)
      else i == 1 && file == Some("1\n")
    ensures IndexFrom(None) == 1 && IndexFileAfterInit(None) == Some("1\n")
  {
    FirstLineOf(line, rest);
    if |line| == 1 && IsDigit(line[0]) {
      assert "0123456789"[DigitValue(line[0])] == line[0];
    }
  }

  lemma IndexRoundTrip(i: int)
    requires 0 <= i <= 9
    ensures IndexFrom(Some(DigitText(i) + "\n")) == i
    ensures IndexFileAfterInit(Some(DigitText(i) + "\n")) == Some(DigitText(i) + "\n")
  {
    var text := DigitText(i) + "\n";
    assert text[1..] == "\n";
    assert FirstLine("\n") == [];
    assert FirstLine(text) == DigitText(i);
  }

  // ---- Logging ----

  function Content(files: map<FileName, string>, f: FileName): string {
    if f in files then files[f] else []
  }

  /** The size of the file last written, or -1 when there is none. */
  function CurrentSize(s: State): int {
    if s.current.Some? && s.current.value in s.files then |s.files[s.current.value]| else -1
  }

  /** What survives RemoveLogFile: of the numbered journal files the given one and the two before it. */
  predicate Survives(f: FileName, index: int) {
    f.name == JOURNAL && 1 <= f.index <= 9 ==>
      || f.index == index
      || f.index == CyclingDecrease(index)
      || f.index == CyclingDecrease(CyclingDecrease(index))
  }

  function RemoveOthers(files: map<FileName, string>, index: int): map<FileName, string> {
    map f | f in files && Survives(f, index) :: files[f]
  }

  function Rotate(s: State): State
    requires 0 <= s.index <= 9
  {
    var i := CyclingIncrease(s.index);
    s.(index := i,
       files := RemoveOthers(s.files - {FileName(JOURNAL, i)}, i),
       indexFile := Some(DigitText(i) + "\n"))
  }

  function Append(s: State, cfg: Settings, text: string): State {
    var f := FileName(cfg.name, s.index);
    s.(current := Some(f), files := s.files[f := Content(s.files, f) + text], written := s.written + text)
  }

  predicate ChecksSize(s: State, cfg: Settings) {
    s.count > cfg.frequency
  }

  predicate Rotates(s: State, cfg: Settings) {
    ChecksSize(s, cfg) && CurrentSize(s) > cfg.maxSize
  }

  function OnLog(s: State, cfg: Settings, text: string): State
    requires 0 <= s.index <= 9
  {
    var counted := s.(count := if ChecksSize(s, cfg) then 0 else s.count + 1);
    Append(if Rotates(s, cfg) then Rotate(counted) else counted, cfg, text)
  }

  function OnRestart(s: State, newProcess: bool): State {
    s.(index := IndexFrom(s.indexFile),
       indexFile := IndexFileAfterInit(s.indexFile),
       current := None,
       count := if newProcess then 0 else s.count)
  }

  function Step(s: State, cfg: Settings, e: Event): (r: State)
    requires 0 <= s.index <= 9
    ensures 0 <= r.index <= 9
  {
    match e
    case Log(text) => OnLog(s, cfg, text)
    case Restart(p) => OnRestart(s, p)
  }

  /** A first start in an empty directory. */
  const FIRST_START := State(map[], Some("1\n"), 1, None, 0, [])

  lemma FirstStartIsInit()
    ensures OnRestart(State(map[], None, 0, None, 0, []), true) == FIRST_START
  {}

  function Exec(cfg: Settings, es: seq<Event>): (s: State)
    ensures 0 <= s.index <= 9
  {
    if es == [] then FIRST_START else Step(Exec(cfg, es[..|es| - 1]), cfg, es[|es| - 1])
  }

  // ---- What the directory holds ----

  /** The content of one journal file, empty when there is none. */
  function Journal(s: State, i: int): string {
    Content(s.files, FileName(JOURNAL, i))
  }

  /** The contents of the current file and the two before it, oldest first. */
  function Retained(s: State): string {
    var b := CyclingDecrease(s.index);
    var a := CyclingDecrease(b);
    Journal(s, a) + Journal(s, b) + Journal(s, s.index)
  }

  predicate IsSuffix(t: string, whole: string) {
    |t| <= |whole| && whole[|whole| - |t|..] == t
  }

  /** Nothing but the last three journal files, which end with what was logged last; and the index file
      names the current one. */
  predicate Tidy(s: State) {
    && 1 <= s.index <= 9
    && IsSuffix(Retained(s), s.written)
    && (forall f | f in s.files ::
          && f.name == JOURNAL
          && (|| f.index == s.index
              || f.index == CyclingDecrease(s.index)
              || f.index == CyclingDecrease(CyclingDecrease(s.index))))
    && s.indexFile == Some(DigitText(s.index) + "\n")
  }

  lemma SuffixAppend(t: string, whole: string, x: string)
    requires IsSuffix(t, whole)
    ensures IsSuffix(t + x, whole + x)
  {}

  lemma SuffixDrop(a: string, b: string, whole: string)
    requires IsSuffix(a + b, whole)
    ensures IsSuffix(b, whole)
  {
    var n := |whole|;
    assert whole[n - |a + b|..] == a + b;
    assert whole[n - |b|..] == (a + b)[|a|..];
  }

  lemma RotateTidy(s: State)
    requires Tidy(s)
    ensures Tidy(Rotate(s)) && Journal(Rotate(s), Rotate(s).index) == []
  {
    var r := Rotate(s);
    var b := CyclingDecrease(s.index);
    var a := CyclingDecrease(b);
    assert CyclingDecrease(r.index) == s.index;
    var ca, cb, cc := Journal(s, a), Journal(s, b), Journal(s, s.index);
    assert Retained(r) == cb + cc;
    assert ca + cb + cc == ca + (cb + cc);
    SuffixDrop(ca, cb + cc, s.written);
  }

  /** Rotation keeps the file just left and the one before it. */
  lemma RotateKeeps(s: State)
    requires Tidy(s)
    ensures
      var r, b := Rotate(s), CyclingDecrease(s.index);
      && CyclingDecrease(r.index) == s.index
      && Journal(r, s.index) == Journal(s, s.index) && Journal(r, b) == Journal(s, b)
  {}

  lemma AppendTidy(s: State, cfg: Settings, text: string)
    requires Tidy(s) && cfg.name == JOURNAL
    ensures Tidy(Append(s, cfg, text))
  {
    var r := Append(s, cfg, text);
    assert Retained(r) == Retained(s) + text;
    SuffixAppend(Retained(s), s.written, text);
  }

  lemma StepTidy(s: State, cfg: Settings, e: Event)
    requires Tidy(s) && cfg.name == JOURNAL
    ensures Tidy(Step(s, cfg, e))
  {
    match e
    case Log(text) =>
      var counted := s.(count := if ChecksSize(s, cfg) then 0 else s.count + 1);
      RotateTidy(counted);
      AppendTidy(if Rotates(s, cfg) then Rotate(counted) else counted, cfg, text);
    case Restart(_) =>
      IndexRoundTrip(s.index);
  }

  /** From an empty directory, across any logging and any clean restarts. */
  lemma {:induction false} AlwaysTidy(cfg: Settings, es: seq<Event>)
    requires cfg.name == JOURNAL
    ensures Tidy(Exec(cfg, es))
  {
    if es == [] {
      assert DigitText(1) + "\n" == "1\n";
    } else {
      AlwaysTidy(cfg, es[..|es| - 1]);
      StepTidy(Exec(cfg, es[..|es| - 1]), cfg, es[|es| - 1]);
    }
  }

  // ---- What exactly is retained ----

  /** The event moves on to another file. */
  predicate MovesOn(cfg: Settings, es: seq<Event>)
    requires es != []
  {
    Exec(cfg, es).index != Exec(cfg, es[..|es| - 1]).index
  }

  function Rotations(cfg: Settings, es: seq<Event>): nat {
    if es == [] then 0 else Rotations(cfg, es[..|es| - 1]) + if MovesOn(cfg, es) then 1 else 0
  }

  function TextOf(e: Event): string {
    if e.Log? then e.text else []
  }

  /** Everything logged. */
  function Logged(es: seq<Event>): string {
    if es == [] then [] else Logged(es[..|es| - 1]) + TextOf(es[|es| - 1])
  }

  /** What was logged from the r-th last rotation on, or everything if there were fewer. */
  function LoggedSince(cfg: Settings, es: seq<Event>, r: nat): string {
    if es == [] || r == 0 then []
    else LoggedSince(cfg, es[..|es| - 1], if MovesOn(cfg, es) then r - 1 else r) + TextOf(es[|es| - 1])
  }

  lemma {:induction false} LoggedSinceAll(cfg: Settings, es: seq<Event>, r: nat)
    requires Rotations(cfg, es) < r
    ensures LoggedSince(cfg, es, r) == Logged(es)
  {
    if es == [] {
    } else {
      LoggedSinceAll(cfg, es[..|es| - 1], if MovesOn(cfg, es) then r - 1 else r);
    }
  }

  lemma {:induction false} WrittenIsLogged(cfg: Settings, es: seq<Event>)
    ensures Exec(cfg, es).written == Logged(es)
  {
    if es == [] {
    } else {
      WrittenIsLogged(cfg, es[..|es| - 1]);
    }
  }

  /** The last file holds `one`, the last two `two`, and the last three `three`. */
  predicate Holds3(s: State, one: string, two: string, three: string) {
    && Journal(s, s.index) == one
    && Journal(s, CyclingDecrease(s.index)) + Journal(s, s.index) == two
    && Retained(s) == three
  }

  lemma AppendKept(s: State, cfg: Settings, text: string, one: string, two: string, three: string)
    requires 1 <= s.index <= 9 && cfg.name == JOURNAL && Holds3(s, one, two, three)
    ensures Holds3(Append(s, cfg, text), one + text, two + text, three + text)
  {
    var r := Append(s, cfg, text);
    assert Retained(r) == Retained(s) + text;
  }

  lemma RotateKept(s: State, one: string, two: string, three: string)
    requires Tidy(s) && Holds3(s, one, two, three)
    ensures Holds3(Rotate(s), [], one, two)
  {
    RotateTidy(s);
    RotateKeeps(s);
  }

  lemma LogKept(s: State, cfg: Settings, text: string, one: string, two: string, three: string)
    requires Tidy(s) && cfg.name == JOURNAL && Holds3(s, one, two, three)
    ensures
      var r := OnLog(s, cfg, text);
      if r.index == s.index then Holds3(r, one + text, two + text, three + text)
      else Holds3(r, text, one + text, two + text)
  {
    var counted := s.(count := if ChecksSize(s, cfg) then 0 else s.count + 1);
    if Rotates(s, cfg) {
      RotateKept(counted, one, two, three);
      AppendKept(Rotate(counted), cfg, text, [], one, two);
      assert [] + text == text;
    } else {
      AppendKept(counted, cfg, text, one, two, three);
    }
  }

  /** A call loses nothing unless it rotates, and then only the oldest of the three files. */
  lemma LogRetains(s: State, cfg: Settings, text: string)
    requires Tidy(s) && cfg.name == JOURNAL
    ensures
      var r, b := OnLog(s, cfg, text), CyclingDecrease(s.index);
      Retained(r) == (if r.index == s.index then Retained(s) else Journal(s, b) + Journal(s, s.index)) + text
  {
    var b := CyclingDecrease(s.index);
    LogKept(s, cfg, text, Journal(s, s.index), Journal(s, b) + Journal(s, s.index), Retained(s));
  }

  /** From an empty directory, across any logging and clean restarts, the last file holds what was logged from
      the last rotation on, the last two from the second last, and all three from the third last on. */
  lemma {:induction false} RetainedExactly(cfg: Settings, es: seq<Event>)
    requires cfg.name == JOURNAL
    ensures Holds3(Exec(cfg, es), LoggedSince(cfg, es, 1), LoggedSince(cfg, es, 2), LoggedSince(cfg, es, 3))
  {
    if es == [] {
    } else {
      var init, e := es[..|es| - 1], es[|es| - 1];
      RetainedExactly(cfg, init);
      AlwaysTidy(cfg, init);
      var s := Exec(cfg, init);
      match e
      case Log(text) =>
        LogKept(s, cfg, text, LoggedSince(cfg, init, 1), LoggedSince(cfg, init, 2), LoggedSince(cfg, init, 3));
        assert LoggedSince(cfg, init, 0) + text == text;
      case Restart(_) =>
        IndexRoundTrip(s.index);
    }
  }

  /** While there have been fewer than three rotations nothing is lost. */
  lemma NothingLostYet(cfg: Settings, es: seq<Event>)
    requires cfg.name == JOURNAL && Rotations(cfg, es) < 3
    ensures Retained(Exec(cfg, es)) == Logged(es)
  {
    RetainedExactly(cfg, es);
    LoggedSinceAll(cfg, es, 3);
  }

  /** The n-th number after the first. */
  function NumberAfter(n: nat): int {
    n % 9 + 1
  }

  lemma NextNumber(n: nat)
    ensures CyclingIncrease(NumberAfter(n)) == NumberAfter(n + 1)
  {}

  lemma IndexStep(cfg: Settings, es: seq<Event>)
    requires cfg.name == JOURNAL && es != []
    ensures Exec(cfg, es).index ==
      var before := Exec(cfg, es[..|es| - 1]).index;
      if MovesOn(cfg, es) then CyclingIncrease(before) else before
  {
    AlwaysTidy(cfg, es[..|es| - 1]);
    IndexRoundTrip(Exec(cfg, es[..|es| - 1]).index);
  }

  /** The numbers go round from 1 to 9, one further with each rotation. */
  lemma {:induction false} IndexGoesRound(cfg: Settings, es: seq<Event>)
    requires cfg.name == JOURNAL
    ensures Exec(cfg, es).index == NumberAfter(Rotations(cfg, es))
  {
    if es == [] {
    } else {
      IndexStep(cfg, es);
      IndexGoesRound(cfg, es[..|es| - 1]);
      NextNumber(Rotations(cfg, es[..|es| - 1]));
    }
  }

  /** A call moves on exactly when more calls than the frequency came since the last look and the file
      written last is then larger than the limit; where no file was written yet it counts as -1. */
  lemma MovesOnExactly(s: State, cfg: Settings, text: string)
    requires 1 <= s.index <= 9
    ensures OnLog(s, cfg, text).index != s.index <==>
      && s.count > cfg.frequency
      && cfg.maxSize < if s.current.Some? && s.current.value in s.files then |s.files[s.current.value]| else -1
    ensures OnLog(s, cfg, text).count == if s.count > cfg.frequency then 0 else s.count + 1
  {}

  // ---- The name matters ----

  lemma StepKeepsFile(s: State, cfg: Settings, e: Event, f: FileName)
    requires 0 <= s.index <= 9 && f in s.files && f.name != JOURNAL
    ensures f in Step(s, cfg, e).files && s.files[f] <= Step(s, cfg, e).files[f]
  {}

  lemma {:induction false} OnlyOwnFiles(cfg: Settings, es: seq<Event>)
    ensures forall f | f in Exec(cfg, es).files :: f.name == cfg.name
  {
    if es == [] {
    } else {
      OnlyOwnFiles(cfg, es[..|es| - 1]);
    }
  }

  /** Removal names its files itself: a logger under any other name never loses what it has written. */
  lemma {:induction false} OtherNamesNeverRemoved(cfg: Settings, es: seq<Event>, k: nat, f: FileName)
    requires cfg.name != JOURNAL && k <= |es| && f in Exec(cfg, es[..k]).files
    ensures f in Exec(cfg, es).files && Exec(cfg, es[..k]).files[f] <= Exec(cfg, es).files[f]
  {
    if k == |es| {
      assert es[..k] == es;
    } else {
      var init := es[..|es| - 1];
      assert init[..k] == es[..k];
      OtherNamesNeverRemoved(cfg, init, k, f);
      OnlyOwnFiles(cfg, init);
      StepKeepsFile(Exec(cfg, init), cfg, es[|es| - 1], f);
    }
  }

  // ---- How large the files get ----

  predicate MessagesWithin(es: seq<Event>, longest: nat) {
    forall k | 0 <= k < |es| && es[k].Log? :: |es[k].text| <= longest
  }

  predicate FilesWithin(s: State, size: nat) {
    forall f | f in s.files :: |s.files[f]| <= size
  }

  function Restarts(es: seq<Event>): nat {
    if es == [] then 0
    else Restarts(es[..|es| - 1]) + if es[|es| - 1].Restart? then 1 else 0
  }

  /** Number of calls from one look at the size to the next. */
  function Period(cfg: Settings): nat {
    if cfg.frequency >= 0 then cfg.frequency + 2 else 1
  }

  /** The limit, and on top of it that many messages of the greatest length. */
  function Over(cfg: Settings, messages: nat, longest: nat): nat {
    (if cfg.maxSize > 0 then cfg.maxSize else 0) + messages * longest
  }

  lemma OverMonotone(cfg: Settings, m: nat, n: nat, longest: nat)
    requires m <= n
    ensures Over(cfg, m, longest) <= Over(cfg, n, longest)
  {
    MulMonotone(m, n, longest);
  }

  lemma OverOneMore(cfg: Settings, m: nat, longest: nat)
    ensures Over(cfg, m + 1, longest) == Over(cfg, m, longest) + longest
    ensures Over(cfg, 1, longest) >= longest
  {
    assert (m + 1) * longest == m * longest + longest;
  }

  /** How many messages the file about to be written may hold beyond the limit: a period for each
      restart, and those since the last look. */
  function Slack(s: State, cfg: Settings, restarts: nat): nat
    requires 0 <= s.count
  {
    restarts * Period(cfg) + if s.current.Some? then s.count + 1 else 0
  }

  predicate Bounded(s: State, cfg: Settings, longest: nat, restarts: nat) {
    && 0 <= s.count < Period(cfg)
    && (s.current.Some? ==> s.current == Some(FileName(cfg.name, s.index)) && s.current.value in s.files)
    && |Journal(s, s.index)| <= Over(cfg, Slack(s, cfg, restarts), longest)
    && FilesWithin(s, Over(cfg, (restarts + 1) * Period(cfg), longest))
  }

  lemma SlackWithinPeriod(s: State, cfg: Settings, restarts: nat)
    requires 0 <= s.count < Period(cfg)
    ensures Slack(s, cfg, restarts) <= (restarts + 1) * Period(cfg)
  {
    assert (restarts + 1) * Period(cfg) == restarts * Period(cfg) + Period(cfg);
  }

  /** The size of the file just written, against the restarts and the calls since the last look. */
  lemma WrittenSize(s: State, cfg: Settings, text: string, longest: nat, restarts: nat)
    requires Bounded(s, cfg, longest, restarts) && Tidy(s) && cfg.name == JOURNAL && |text| <= longest
    ensures
      var r := OnLog(s, cfg, text);
      0 <= r.count && |Journal(r, r.index)| <= Over(cfg, Slack(r, cfg, restarts), longest)
  {
    var r := OnLog(s, cfg, text);
    if Rotates(s, cfg) {
      RotateTidy(s.(count := 0));
      OverOneMore(cfg, 0, longest);
      OverMonotone(cfg, 1, Slack(r, cfg, restarts), longest);
    } else if ChecksSize(s, cfg) && s.current.Some? {
      OverOneMore(cfg, 0, longest);
      OverMonotone(cfg, 1, Slack(r, cfg, restarts), longest);
    } else {
      OverOneMore(cfg, Slack(s, cfg, restarts), longest);
      OverMonotone(cfg, Slack(s, cfg, restarts) + 1, Slack(r, cfg, restarts), longest);
    }
  }

  lemma LogBounded(s: State, cfg: Settings, text: string, longest: nat, restarts: nat)
    requires Bounded(s, cfg, longest, restarts) && Tidy(s) && cfg.name == JOURNAL && |text| <= longest
    ensures Bounded(OnLog(s, cfg, text), cfg, longest, restarts)
  {
    var r := OnLog(s, cfg, text);
    WrittenSize(s, cfg, text, longest, restarts);
    SlackWithinPeriod(r, cfg, restarts);
    OverMonotone(cfg, Slack(r, cfg, restarts), (restarts + 1) * Period(cfg), longest);
    forall f | f in r.files ensures |r.files[f]| <= Over(cfg, (restarts + 1) * Period(cfg), longest) {
      if f != r.current.value {
        assert f in s.files && r.files[f] == s.files[f];
      }
    }
  }

  lemma RestartBounded(s: State, cfg: Settings, newProcess: bool, longest: nat, restarts: nat)
    requires Bounded(s, cfg, longest, restarts) && Tidy(s)
    ensures Bounded(OnRestart(s, newProcess), cfg, longest, restarts + 1)
  {
    IndexRoundTrip(s.index);
    SlackWithinPeriod(s, cfg, restarts);
    OverMonotone(cfg, Slack(s, cfg, restarts), (restarts + 1) * Period(cfg), longest);
    MulMonotone(restarts + 1, restarts + 2, Period(cfg));
    OverMonotone(cfg, (restarts + 1) * Period(cfg), (restarts + 2) * Period(cfg), longest);
  }

  lemma MessagesWithinPrefix(es: seq<Event>, longest: nat)
    requires es != [] && MessagesWithin(es, longest)
    ensures MessagesWithin(es[..|es| - 1], longest)
  {
    var init := es[..|es| - 1];
    forall k | 0 <= k < |init| && init[k].Log? ensures |init[k].text| <= longest {
      assert init[k] == es[k];
    }
  }

  lemma RetainedWithin(s: State, size: nat)
    requires FilesWithin(s, size)
    ensures |Retained(s)| <= 3 * size
  {
    forall f ensures |Content(s.files, f)| <= size {}
  }

  lemma {:induction false} RunBounded(cfg: Settings, es: seq<Event>, longest: nat)
    requires cfg.name == JOURNAL && MessagesWithin(es, longest)
    ensures Bounded(Exec(cfg, es), cfg, longest, Restarts(es))
  {
    if es == [] {
    } else {
      var n := |es| - 1;
      MessagesWithinPrefix(es, longest);
      RunBounded(cfg, es[..n], longest);
      AlwaysTidy(cfg, es[..n]);
      match es[n]
      case Log(text) => LogBounded(Exec(cfg, es[..n]), cfg, text, longest, Restarts(es));
      case Restart(p) => RestartBounded(Exec(cfg, es[..n]), cfg, p, longest, Restarts(es[..n]));
    }
  }

  /** From an empty directory, no file outgrows the limit by more than the messages logged between two
      looks at its size, counted once for each restart and once more; so the three files kept stay
      within three times that. */
  lemma SizesBounded(cfg: Settings, es: seq<Event>, longest: nat)
    requires cfg.name == JOURNAL && MessagesWithin(es, longest)
    ensures
      var size := Over(cfg, (Restarts(es) + 1) * Period(cfg), longest);
      FilesWithin(Exec(cfg, es), size) && |Retained(Exec(cfg, es))| <= 3 * size
  {
    RunBounded(cfg, es, longest);
    RetainedWithin(Exec(cfg, es), Over(cfg, (Restarts(es) + 1) * Period(cfg), longest));
  }

  // ---- The bound is reached ----

  /** The logger is at its first file, which is that large. */
  predicate Holding(s: State, cfg: Settings, size: nat) {
    && s.index == 1 && s.indexFile == Some("1\n")
    && |Content(s.files, FileName(cfg.name, 1))| == size
    && (s.current.Some? ==> s.current == Some(FileName(cfg.name, 1)) && s.current.value in s.files)
  }

  /** Such a run, with that many restarts and that call counter. */
  predicate Fills(cfg: Settings, es: seq<Event>, longest: nat, restarts: nat, size: nat, count: nat) {
    && Restarts(es) == restarts && MessagesWithin(es, longest)
    && Holding(Exec(cfg, es), cfg, size) && Exec(cfg, es).count == count
  }

  lemma LogHolds(s: State, cfg: Settings, text: string, size: nat)
    requires Holding(s, cfg, size) && !Rotates(s, cfg)
    ensures Holding(OnLog(s, cfg, text), cfg, size + |text|)
  {}

  lemma FillOne(cfg: Settings, es: seq<Event>, text: string, restarts: nat, size: nat, count: nat)
    requires Fills(cfg, es, |text|, restarts, size, count) && !Rotates(Exec(cfg, es), cfg)
    ensures
      var count' := if count > cfg.frequency then 0 else count + 1;
      Fills(cfg, es + [Log(text)], |text|, restarts, size + |text|, count')
  {
    var more := es + [Log(text)];
    assert more[..|more| - 1] == es;
    LogHolds(Exec(cfg, es), cfg, text, size);
  }

  /** Calls that do not look at the size. */
  lemma {:induction false} FillUnchecked(cfg: Settings, es: seq<Event>, text: string, restarts: nat, size: nat, n: nat)
    returns (more: seq<Event>)
    requires Fills(cfg, es, |text|, restarts, size, 0) && n < Period(cfg)
    ensures Fills(cfg, more, |text|, restarts, size + n * |text|, n)
  {
    if n == 0 {
      more := es;
    } else {
      var init := FillUnchecked(cfg, es, text, restarts, size, n - 1);
      more := init + [Log(text)];
      var before := size + (n - 1) * |text|;
      FillOne(cfg, init, text, restarts, before, n - 1);
      assert before + |text| == size + n * |text|;
    }
  }

  /** A call that looks at the size and does not rotate, then as many as do not look. */
  lemma FillPeriod(cfg: Settings, es: seq<Event>, text: string, restarts: nat, size: nat, added: nat)
    returns (more: seq<Event>)
    requires Fills(cfg, es, |text|, restarts, size, Period(cfg) - 1) && !Rotates(Exec(cfg, es), cfg)
    requires added == (Period(cfg) - 1) * |text|
    ensures Fills(cfg, more, |text|, restarts, size + |text| + added, Period(cfg) - 1)
  {
    FillOne(cfg, es, text, restarts, size, Period(cfg) - 1);
    more := FillUnchecked(cfg, es + [Log(text)], text, restarts, size + |text|, Period(cfg) - 1);
  }

  lemma RestartHolds(cfg: Settings, es: seq<Event>, longest: nat, restarts: nat, size: nat, count: nat)
    requires Fills(cfg, es, longest, restarts, size, count)
    ensures Fills(cfg, es + [Restart(false)], longest, restarts + 1, size, count)
    ensures Exec(cfg, es + [Restart(false)]).current == None
  {
    var more := es + [Restart(false)];
    assert more[..|more| - 1] == es;
    assert DigitText(1) + "\n" == "1\n";
    IndexRoundTrip(1);
  }

  lemma OneMorePeriod(cfg: Settings, n: nat, longest: nat)
    ensures
      Over(cfg, (n + 1) * Period(cfg), longest) ==
      Over(cfg, n * Period(cfg), longest) + longest + (Period(cfg) - 1) * longest
  {
    var p := Period(cfg);
    assert (n + 1) * p == n * p + p;
    assert (n * p + p) * longest == n * p * longest + p * longest;
    assert p * longest == longest + (p - 1) * longest;
  }

  /** In the first process: the calls before the first look fill the file to the limit, a period goes on
      top of it; and a logger created anew in the same process, whose counter goes on, adds another. */
  lemma {:induction false} FillUp(cfg: Settings, text: string, restarts: nat) returns (es: seq<Event>)
    requires cfg.maxSize >= 0 && cfg.maxSize == (Period(cfg) - 1) * |text|
    ensures Fills(cfg, es, |text|, restarts, Over(cfg, (restarts + 1) * Period(cfg), |text|), Period(cfg) - 1)
  {
    var size := Over(cfg, restarts * Period(cfg), |text|);
    if restarts == 0 {
      assert size == cfg.maxSize;
      es := FillUnchecked(cfg, [], text, 0, 0, Period(cfg) - 1);
    } else {
      es := FillUp(cfg, text, restarts - 1);
      RestartHolds(cfg, es, |text|, restarts - 1, size, Period(cfg) - 1);
      es := es + [Restart(false)];
    }
    es := FillPeriod(cfg, es, text, restarts, size, cfg.maxSize);
    OneMorePeriod(cfg, restarts, |text|);
  }

  /** For every check frequency, every message and every number of restarts the bound is reached, with a
      limit of just the messages before a look. */
  lemma SizesReached(cfg: Settings, text: string, restarts: nat)
    requires cfg.maxSize == (Period(cfg) - 1) * |text|
    ensures exists es: seq<Event> | Restarts(es) == restarts && MessagesWithin(es, |text|) ::
      |Content(Exec(cfg, es).files, FileName(cfg.name, 1))| == Over(cfg, (restarts + 1) * Period(cfg), |text|)
  {
    MulMonotone(0, Period(cfg) - 1, |text|);
    var es := FillUp(cfg, text, restarts);
  }

  // ---- Whether restarts are harmless ----

  /** Every call looks at the size and rotates, even when there is no file. */
  predicate RotatesAlways(cfg: Settings) {
    cfg.frequency < 0 && cfg.maxSize < -1
  }

  /** One message, then a restart, n times over. */
  function Rounds(text: string, n: nat): seq<Event> {
    if n == 0 then [] else Rounds(text, n - 1) + [Log(text), Restart(true)]
  }

  /** A new process, and a first file that has taken all there is. */
  predicate Filled(s: State, name: string, size: nat) {
    && s.index == 1 && s.count == 0 && s.current == None && s.indexFile == Some("1\n")
    && |Content(s.files, FileName(name, 1))| == size
  }

  lemma RoundFills(s: State, cfg: Settings, text: string, size: nat)
    requires !RotatesAlways(cfg) && Filled(s, cfg.name, size)
    ensures Filled(Step(Step(s, cfg, Log(text)), cfg, Restart(true)), cfg.name, size + |text|)
  {
    assert DigitText(1) + "\n" == "1\n";
    IndexRoundTrip(1);
  }

  lemma NextRoundFills(cfg: Settings, text: string, n: nat, size: nat)
    requires !RotatesAlways(cfg) && Filled(Exec(cfg, Rounds(text, n)), cfg.name, size)
    ensures Filled(Exec(cfg, Rounds(text, n + 1)), cfg.name, size + |text|)
  {
    var mid := Rounds(text, n) + [Log(text)];
    var es := Rounds(text, n + 1);
    assert es[..|es| - 1] == mid && mid[..|mid| - 1] == Rounds(text, n);
    RoundFills(Exec(cfg, Rounds(text, n)), cfg, text, size);
  }

  /** A new process counts its calls from zero and has not written a file yet.  So its first call either
      does not look at the size or takes it for -1: processes that log one message each fill one file. */
  lemma {:induction false} RestartsDefeatTheCheck(cfg: Settings, text: string, n: nat)
    requires !RotatesAlways(cfg)
    ensures Filled(Exec(cfg, Rounds(text, n)), cfg.name, n * |text|)
  {
    if n == 0 {
    } else {
      RestartsDefeatTheCheck(cfg, text, n - 1);
      var size := (n - 1) * |text|;
      assert n * |text| == size + |text|;
      NextRoundFills(cfg, text, n - 1, size);
    }
  }

  lemma {:induction false} OneMessagePerFile(cfg: Settings, es: seq<Event>, longest: nat)
    requires cfg.name == JOURNAL && RotatesAlways(cfg) && MessagesWithin(es, longest)
    ensures FilesWithin(Exec(cfg, es), longest) && Exec(cfg, es).count == 0
  {
    if es == [] {
    } else {
      var n := |es| - 1;
      MessagesWithinPrefix(es, longest);
      OneMessagePerFile(cfg, es[..n], longest);
      AlwaysTidy(cfg, es[..n]);
      RotateTidy(Exec(cfg, es[..n]));
    }
  }

  function Repeat(text: string, n: nat): seq<Event> {
    if n == 0 then [] else Repeat(text, n - 1) + [Log(text)]
  }

  /** How many calls it takes from here until the next one comes to file 2. */
  function CallsBeforeTwo(index: int): int {
    if index == 1 then 0 else 10 - index
  }

  /** File 2 has grown with every ninth of n calls. */
  predicate Grown(s: State, name: string, n: nat) {
    && 1 <= s.index <= 9 && s.count == 0
    && 9 * |Content(s.files, FileName(name, 2))| >= n + CallsBeforeTwo(s.index)
  }

  lemma GrowStep(s: State, cfg: Settings, text: string, n: nat)
    requires cfg.name != JOURNAL && RotatesAlways(cfg) && text != [] && Grown(s, cfg.name, n)
    ensures Grown(Step(s, cfg, Log(text)), cfg.name, n + 1)
  {
    var f := FileName(cfg.name, 2);
    var r := Step(s, cfg, Log(text));
    if s.index == 1 {
      assert Content(r.files, f) == Content(s.files, f) + text;
    } else {
      assert Content(r.files, f) == Content(s.files, f);
    }
  }

  /** Under another name nothing is removed, so rotation comes back to a file that is still there. */
  lemma {:induction false} OtherNamesGrow(cfg: Settings, text: string, n: nat)
    requires cfg.name != JOURNAL && RotatesAlways(cfg) && text != []
    ensures Grown(Exec(cfg, Repeat(text, n)), cfg.name, n)
  {
    if n == 0 {
    } else {
      OtherNamesGrow(cfg, text, n - 1);
      var es := Repeat(text, n);
      assert es[..|es| - 1] == Repeat(text, n - 1);
      GrowStep(Exec(cfg, Repeat(text, n - 1)), cfg, text, n - 1);
    }
  }

  /** No run with messages of that length, however many restarts it has, leaves a larger file. */
  ghost predicate AlwaysWithin(cfg: Settings, longest: nat, size: nat) {
    forall es | MessagesWithin(es, longest) :: FilesWithin(Exec(cfg, es), size)
  }

  lemma {:induction false} RoundsWithin(text: string, n: nat)
    ensures MessagesWithin(Rounds(text, n), |text|) && MessagesWithin(Repeat(text, n), |text|)
  {
    if n == 0 {
    } else {
      RoundsWithin(text, n - 1);
    }
  }

  lemma SeenInFile(s: State, f: FileName, size: nat)
    requires |Content(s.files, f)| > size
    ensures !FilesWithin(s, size)
  {
    assert f in s.files;
  }

  lemma TooLargeByRestarts(cfg: Settings, text: string, size: nat)
    requires text != [] && !RotatesAlways(cfg)
    ensures !AlwaysWithin(cfg, |text|, size)
  {
    var n := size + 1;
    RoundsWithin(text, n);
    RestartsDefeatTheCheck(cfg, text, n);
    MulMonotone(1, |text|, n);
    SeenInFile(Exec(cfg, Rounds(text, n)), FileName(cfg.name, 1), size);
  }

  lemma TooLargeByName(cfg: Settings, text: string, size: nat)
    requires text != [] && RotatesAlways(cfg) && cfg.name != JOURNAL
    ensures !AlwaysWithin(cfg, |text|, size)
  {
    var n := 9 * size + 1;
    RoundsWithin(text, n);
    OtherNamesGrow(cfg, text, n);
    SeenInFile(Exec(cfg, Repeat(text, n)), FileName(cfg.name, 2), size);
  }

  /** Some size is never exceeded, whatever the restarts, exactly by a journal that starts a new file for
      every message. */
  lemma BoundedAcrossRestartsExactly(cfg: Settings, longest: nat)
    requires longest > 0
    ensures
      (exists size: nat :: AlwaysWithin(cfg, longest, size)) <==> cfg.name == JOURNAL && RotatesAlways(cfg)
  {
    if cfg.name == JOURNAL && RotatesAlways(cfg) {
      forall es | MessagesWithin(es, longest) ensures FilesWithin(Exec(cfg, es), longest) {
        OneMessagePerFile(cfg, es, longest);
      }
      assert AlwaysWithin(cfg, longest, longest);
    } else {
      forall size: nat ensures !AlwaysWithin(cfg, longest, size) {
        var text := seq(longest, _ => 'x');
        if RotatesAlways(cfg) {
          TooLargeByName(cfg, text, size);
        } else {
          TooLargeByRestarts(cfg, text, size);
        }
      }
    }
  }
}
