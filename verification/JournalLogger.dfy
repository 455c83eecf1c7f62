/** The logger in the program's own form. */
module JournalLogger {
  import opened Wrappers
  import opened RotatingLogger

  class Logger {
    const settings: Settings
    var files: map<FileName, string>
    var indexFile: Option<string>
    var mIndex: int
    var mCurrentPath: Option<FileName>
    var count: int
    ghost var written: string

    ghost function Snapshot(): State
      reads this
    {
      State(files, indexFile, mIndex, mCurrentPath, count, written)
    }

    /** Reads the index back, or starts the index file afresh. */
    method Init()
      modifies `indexFile, `mIndex
      ensures mIndex == IndexFrom(old(indexFile)) && indexFile == IndexFileAfterInit(old(indexFile))
    {
      var line := if indexFile.Some? then FirstLine(indexFile.value) else [];
      if |line| == 1 && IsDigit(line[0]) {
        mIndex := DigitValue(line[0]);
      } else {
        indexFile := Some("1\n");
        mIndex := 1;
      }
    }

    /** A logger on a directory as some earlier process left it. */
    constructor (cfg: Settings, files: map<FileName, string>, indexFile: Option<string>, count: int, ghost written: string)
      ensures settings == cfg
      ensures Snapshot() == OnRestart(State(files, indexFile, 0, None, count, written), false)
    {
      settings := cfg;
      this.files, this.indexFile, this.count, this.written := files, indexFile, count, written;
      mIndex, mCurrentPath := 0, None;
      new;
      Init();
    }

    method RemoveLogFile(index: int, onlyCurrent: bool)
      modifies `files
      ensures files == if onlyCurrent then old(files) - {FileName(JOURNAL, index)} else RemoveOthers(old(files), index)
    {
      if onlyCurrent {
        files := files - {FileName(JOURNAL, index)};
        return;
      }
      var index1 := CyclingDecrease(index);
      var index2 := CyclingDecrease(index1);
      ghost var all := files;
      for i := 1 to 10
        invariant files.Keys == set f | f in all && (f.name == JOURNAL && 1 <= f.index < i ==> Survives(f, index))
        invariant forall f | f in files :: files[f] == all[f]
      {
        if i != index && i != index1 && i != index2 {
          files := files - {FileName(JOURNAL, i)};
        }
      }
    }

    /** Moves on to the next index and removes what is not kept. */
    method NextFile()
      requires 0 <= mIndex <= 9
      modifies `mIndex, `indexFile, `files
      ensures Snapshot() == Rotate(old(Snapshot()))
      ensures Tidy(old(Snapshot())) ==>
        var b := CyclingDecrease(old(mIndex));
        && Journal(Snapshot(), mIndex) == [] && Journal(Snapshot(), old(mIndex)) == Journal(old(Snapshot()), old(mIndex))
        && Journal(Snapshot(), b) == Journal(old(Snapshot()), b)
    {
      ghost var before := Snapshot();
      mIndex := CyclingIncrease(mIndex);
      RemoveLogFile(mIndex, true);
      indexFile := Some(DigitText(mIndex) + "\n");
      RemoveLogFile(mIndex, false);
      if Tidy(before) {
        RotateTidy(before);
        RotateKeeps(before);
      }
    }

    /** Appends to the file of the current index. */
    method Write(text: string)
      modifies `mCurrentPath, `files, `written
      ensures Snapshot() == Append(old(Snapshot()), settings, text)
    {
      var f := FileName(settings.name, mIndex);
      mCurrentPath := Some(f);
      files := files[f := Content(files, f) + text];
      written := written + text;
    }

    method Log(text: string)
      requires 0 <= mIndex <= 9
      modifies this
      ensures Snapshot() == Step(old(Snapshot()), settings, RotatingLogger.Log(text))
      ensures settings.name == JOURNAL && Tidy(old(Snapshot())) ==>
        && Tidy(Snapshot())
        && Retained(Snapshot()) ==
           (if mIndex == old(mIndex) then Retained(old(Snapshot()))
            else Journal(old(Snapshot()), CyclingDecrease(old(mIndex))) + Journal(old(Snapshot()), old(mIndex))) + text
    {
      ghost var before := Snapshot();
      if count > settings.frequency {
        count := 0;
        var size := if mCurrentPath.Some? && mCurrentPath.value in files then |files[mCurrentPath.value]| else -1;
        if size > settings.maxSize {
          NextFile();
        }
      } else {
        count := count + 1;
      }
      Write(text);
      if settings.name == JOURNAL && Tidy(before) {
        StepTidy(before, settings, RotatingLogger.Log(text));
        LogRetains(before, settings, text);
      }
    }
  }
}
