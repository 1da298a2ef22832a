/**
 * The access-log writer: a filename pattern with date fields is compiled on
 * first use, every write formats the current name and rotates to a new file
 * when it differs from the open one. The file system is a map from path to
 * node; the strftime library and the operating system's open call are
 * parameters of the environment.
 */
module Logfile {
  import opened Wrappers

  datatype Node = Regular(content: string) | Directory

  type FileSystem = map<string, Node>

  /**
   * What the model cannot see: whether strftime accepts a pattern, the name
   * a compiled pattern formats at a given time, and whether opening a path
   * fails for a reason outside the file system map (permissions, say).
   */
  datatype Env = Env(compiles: string -> bool, format: (string, int) -> string, openFails: string -> bool)

  /**
   * The package-level variables: the configured pattern, the compiled one
   * (None until first use), the name of the current file and the open
   * descriptor (the path it writes to, None when nil).
   */
  datatype LogState = LogState(pattern: string, compiled: Option<string>, fileName: string, descriptor: Option<string>)

  /** The reasons the writer stops the process. */
  datatype Fatal = BadPattern(pattern: string) | IsDirectory(path: string) | OpenFailed(path: string)

  datatype Opened = Opened(state: LogState, fs: FileSystem)

  /** The state at program start, for a configured pattern. */
  function Initial(pattern: string): LogState {
    LogState(pattern, None, "", None)
  }

  /**
   * The writer's invariant: a descriptor is open exactly when a file name is
   * recorded, it is open on that name, and that name is a regular file.
   */
  predicate Valid(st: LogState, fs: FileSystem) {
    && (st.descriptor.None? <==> st.fileName == "")
    && (st.descriptor.Some? ==> st.descriptor.value == st.fileName && st.fileName in fs && fs[st.fileName].Regular?)
  }

  /** The contents of a path, empty when it does not exist. */
  function ContentOf(fs: FileSystem, path: string): string {
    if path in fs && fs[path].Regular? then fs[path].content else ""
  }

  /**
   * fileExists: false for a missing path, true for a regular file, and a
   * fatal error for a directory.
   */
  function FileExists(fs: FileSystem, path: string): (r: Result<bool, Fatal>)
    ensures r == Ok(false) <==> path !in fs
    ensures r == Ok(true) <==> path in fs && fs[path].Regular?
    ensures r.Err? <==> path in fs && fs[path].Directory?
    ensures r.Err? ==> r.error == IsDirectory(path)
  {
    if path !in fs then Ok(false)
    else if fs[path].Directory? then Err(IsDirectory(path))
    else Ok(true)
  }

  /** The compiled pattern: the stored one, or the configured one if strftime accepts it. */
  function Compiled(env: Env, st: LogState): (r: Result<string, Fatal>)
    ensures st.compiled.Some? ==> r == Ok(st.compiled.value)
    ensures st.compiled.None? ==> (r.Ok? <==> env.compiles(st.pattern))
    ensures r.Ok? && st.compiled.None? ==> r.value == st.pattern
  {
    if st.compiled.Some? then Ok(st.compiled.value)
    else if env.compiles(st.pattern) then Ok(st.pattern)
    else Err(BadPattern(st.pattern))
  }

  /** The name the current file should have at time `now`. */
  function CurrentName(env: Env, st: LogState, now: int): string
    requires Compiled(env, st).Ok?
  {
    env.format(Compiled(env, st).value, now)
  }

  /**
   * getFileDescriptor: keep the descriptor when the formatted name is the
   * current one; otherwise open the new name (appending to an existing
   * file, creating a missing one), record it and drop the old descriptor.
   */
  function GetFileDescriptor(env: Env, st: LogState, fs: FileSystem, now: int): (r: Result<Opened, Fatal>)
    ensures Compiled(env, st).Err? ==> r == Err(BadPattern(st.pattern))
    ensures r.Ok? ==> Compiled(env, st).Ok? && r.value.state.compiled == Some(Compiled(env, st).value)
    ensures r.Ok? ==> r.value.state.pattern == st.pattern
    ensures r.Ok? ==> r.value.state.fileName == CurrentName(env, st, now)
    ensures r.Ok? && CurrentName(env, st, now) == st.fileName ==>
              r.value == Opened(st.(compiled := r.value.state.compiled), fs)
    ensures Compiled(env, st).Ok? && CurrentName(env, st, now) == st.fileName ==>
              r == Ok(Opened(st.(compiled := Some(Compiled(env, st).value)), fs))
    ensures Compiled(env, st).Ok? && CurrentName(env, st, now) != st.fileName ==>
              var name := CurrentName(env, st, now);
              && (name in fs && fs[name].Directory? ==> r == Err(IsDirectory(name)))
              && (r.Ok? <==> (name !in fs || fs[name].Regular?) && name != "" && !env.openFails(name))
              && (r.Ok? ==> r.value.state.descriptor == Some(name))
              && (r.Ok? ==> r.value.fs == if name in fs then fs else fs[name := Regular("")])
  {
    match Compiled(env, st)
    case Err(e) => Err(e)
    case Ok(pattern) =>
      var name := env.format(pattern, now);
      if name == st.fileName then Ok(Opened(st.(compiled := Some(pattern)), fs))
      else
        match FileExists(fs, name)
        case Err(e) => Err(e)
        case Ok(present) =>
          // O_APPEND on an existing file, O_CREATE on a missing one; the
          // empty path never opens.
          if name == "" || env.openFails(name) then Err(OpenFailed(name))
          else
            var created := if present then fs else fs[name := Regular("")];
            Ok(Opened(LogState(st.pattern, Some(pattern), name, Some(name)), created))
  }

  /** A write through a descriptor: the text lands at the end of its file. */
  function Append(fs: FileSystem, descriptor: Option<string>, text: string, writeOk: bool): (r: FileSystem)
    ensures descriptor.None? || !writeOk ==> r == fs
    ensures descriptor.Some? && writeOk ==>
              r == fs[descriptor.value := Regular(ContentOf(fs, descriptor.value) + text)]
  {
    if descriptor.Some? && writeOk then fs[descriptor.value := Regular(ContentOf(fs, descriptor.value) + text)]
    else fs
  }

  /**
   * WriteLogLine: fetch the descriptor and write the line plus a newline.
   * A failed write (writeOk false, or a nil descriptor) is only logged.
   */
  function WriteLogLine(env: Env, st: LogState, fs: FileSystem, now: int, line: string, writeOk: bool): (r: Result<Opened, Fatal>)
    ensures GetFileDescriptor(env, st, fs, now).Err? ==> r == GetFileDescriptor(env, st, fs, now)
    ensures r.Ok? ==> GetFileDescriptor(env, st, fs, now).Ok? && r.value.state == GetFileDescriptor(env, st, fs, now).value.state
    ensures GetFileDescriptor(env, st, fs, now).Ok? ==> r.Ok?
    ensures r.Ok? && !writeOk ==> r.value.fs == GetFileDescriptor(env, st, fs, now).value.fs
  {
    match GetFileDescriptor(env, st, fs, now)
    case Err(e) => Err(e)
    case Ok(got) => Ok(Opened(got.state, Append(got.fs, got.state.descriptor, line + "\n", writeOk)))
  }

  /** CloseLogfile: drop the descriptor and forget the name; nothing to do when already closed. */
  function CloseLogfile(st: LogState): (r: LogState)
    ensures r.descriptor.None? && (st.descriptor.Some? ==> r.fileName == "")
    ensures st.descriptor.None? ==> r == st
    ensures r.pattern == st.pattern && r.compiled == st.compiled
  {
    if st.descriptor.Some? then st.(descriptor := None, fileName := "") else st
  }

  // ---------------------------------------------------------------------------
  // Properties
  // ---------------------------------------------------------------------------

  /** Every operation keeps the writer's invariant. */
  lemma WriteLogLineValid(env: Env, st: LogState, fs: FileSystem, now: int, line: string, writeOk: bool)
    requires Valid(st, fs)
    ensures var r := WriteLogLine(env, st, fs, now, line, writeOk);
            r.Ok? ==> Valid(r.value.state, r.value.fs)
  {
  }

  lemma CloseLogfileValid(st: LogState, fs: FileSystem)
    requires Valid(st, fs)
    ensures Valid(CloseLogfile(st), fs)
  {
  }

  lemma InitialValid(pattern: string, fs: FileSystem)
    ensures Valid(Initial(pattern), fs)
  {
  }

  /**
   * A successful write adds exactly the line and a newline to the end of the
   * file named by the pattern at that time; every other path keeps its node.
   * A failed write changes no file at all.
   */
  lemma WriteAppendsLine(env: Env, st: LogState, fs: FileSystem, now: int, line: string, writeOk: bool)
    requires Valid(st, fs)
    requires WriteLogLine(env, st, fs, now, line, writeOk).Ok?
    ensures var r := WriteLogLine(env, st, fs, now, line, writeOk).value;
            var name := CurrentName(env, st, now);
            && (forall p :: p != name ==> (p in r.fs <==> p in fs))
            && (forall p :: p != name && p in fs ==> r.fs[p] == fs[p])
            && (writeOk && name != "" ==> r.fs[name] == Regular(ContentOf(fs, name) + line + "\n"))
            && (!writeOk ==> r.fs == fs || (name !in fs && r.fs == fs[name := Regular("")]))
  {
  }

  /** The name being unchanged, the descriptor is reused: no state or file changes. */
  lemma ReuseKeepsState(env: Env, st: LogState, fs: FileSystem, now: int)
    requires st.compiled.Some?
    requires CurrentName(env, st, now) == st.fileName
    ensures GetFileDescriptor(env, st, fs, now) == Ok(Opened(st, fs))
  {
  }

  /**
   * The pattern is compiled once: after the first successful call, changing
   * the configured pattern changes neither the compiled one nor the names.
   */
  lemma PatternCompiledOnce(env: Env, st: LogState, fs: FileSystem, now: int, later: int, newPattern: string)
    requires GetFileDescriptor(env, st, fs, now).Ok?
    ensures var got := GetFileDescriptor(env, st, fs, now).value;
            var changed := got.state.(pattern := newPattern);
            && Compiled(env, changed) == Compiled(env, got.state)
            && CurrentName(env, changed, later) == env.format(Compiled(env, st).value, later)
  {
  }

  /** Closing twice is closing once. */
  lemma CloseIdempotent(st: LogState)
    ensures CloseLogfile(CloseLogfile(st)) == CloseLogfile(st)
  {
  }

  /** The fatal cases: an unusable pattern, a directory at the target, an open that fails. */
  lemma FatalCases(env: Env, st: LogState, fs: FileSystem, now: int, line: string, writeOk: bool)
    ensures st.compiled.None? && !env.compiles(st.pattern) ==>
              WriteLogLine(env, st, fs, now, line, writeOk) == Err(BadPattern(st.pattern))
    ensures Compiled(env, st).Ok? && CurrentName(env, st, now) != st.fileName ==>
              var name := CurrentName(env, st, now);
              && (name in fs && fs[name].Directory? ==> WriteLogLine(env, st, fs, now, line, writeOk) == Err(IsDirectory(name)))
              && (name !in fs || fs[name].Regular? ==>
                    (env.openFails(name) || name == "" <==> WriteLogLine(env, st, fs, now, line, writeOk) == Err(OpenFailed(name))))
  {
  }

  /**
   * A descriptor-less writer whose pattern formats to the empty name reuses
   * the nil descriptor: the write fails, is only logged, and nothing changes.
   */
  lemma EmptyNameWritesNothing(env: Env, st: LogState, fs: FileSystem, now: int, line: string, writeOk: bool)
    requires Valid(st, fs) && st.descriptor.None? && st.compiled.Some?
    requires CurrentName(env, st, now) == ""
    ensures WriteLogLine(env, st, fs, now, line, writeOk) == Ok(Opened(st, fs))
  {
  }

  // ---------------------------------------------------------------------------
  // Sequences of writes
  // ---------------------------------------------------------------------------

  /** The text a run of lines leaves in a file: each line followed by a newline. */
  function Terminated(lines: seq<string>): (text: string)
    ensures |lines| > 0 ==> |text| > 0 && text[|text| - 1] == '\n'
  {
    if |lines| == 0 then "" else lines[0] + "\n" + Terminated(lines[1..])
  }

  /** Write a run of lines at the same time, all of them succeeding at the OS level. */
  function WriteAll(env: Env, st: LogState, fs: FileSystem, now: int, lines: seq<string>): Result<Opened, Fatal>
    decreases |lines|
  {
    if |lines| == 0 then Ok(Opened(st, fs))
    else
      match WriteLogLine(env, st, fs, now, lines[0], true)
      case Err(e) => Err(e)
      case Ok(got) => WriteAll(env, got.state, got.fs, now, lines[1..])
  }

  /** One successful write of a period: the writer stays on the period's file and the line lands at its end. */
  lemma WriteStep(env: Env, st: LogState, fs: FileSystem, now: int, line: string)
    requires Valid(st, fs)
    requires Compiled(env, st).Ok? && CurrentName(env, st, now) != ""
    requires WriteLogLine(env, st, fs, now, line, true).Ok?
    ensures var got := WriteLogLine(env, st, fs, now, line, true).value;
            var name := CurrentName(env, st, now);
            && Valid(got.state, got.fs)
            && got.state.fileName == name
            && Compiled(env, got.state).Ok? && CurrentName(env, got.state, now) == name
            && ContentOf(got.fs, name) == ContentOf(fs, name) + line + "\n"
  {
    WriteLogLineValid(env, st, fs, now, line, true);
    WriteAppendsLine(env, st, fs, now, line, true);
  }

  /**
   * Writing a run of lines in one period appends their newline-terminated
   * concatenation to the period's file, whatever it held before.
   */
  lemma {:induction false} WriteAllAppends(env: Env, st: LogState, fs: FileSystem, now: int, lines: seq<string>)
    requires Valid(st, fs)
    requires Compiled(env, st).Ok? && CurrentName(env, st, now) != ""
    requires WriteAll(env, st, fs, now, lines).Ok?
    ensures var r := WriteAll(env, st, fs, now, lines).value;
            var name := CurrentName(env, st, now);
            && Valid(r.state, r.fs)
            && (|lines| > 0 ==> r.state.fileName == name)
            && ContentOf(r.fs, name) == ContentOf(fs, name) + Terminated(lines)
    decreases |lines|
  {
    var name := CurrentName(env, st, now);
    if |lines| > 0 {
      WriteStep(env, st, fs, now, lines[0]);
      var got := WriteLogLine(env, st, fs, now, lines[0], true).value;
      WriteAllAppends(env, got.state, got.fs, now, lines[1..]);
      var rest := Terminated(lines[1..]);
      assert ContentOf(fs, name) + lines[0] + "\n" + rest == ContentOf(fs, name) + (lines[0] + "\n" + rest);
      if |lines| > 1 {
        assert WriteAll(env, got.state, got.fs, now, lines[1..]).value.state.fileName == name;
      }
    }
  }

  /**
   * Lines written before a close and lines written after it in the same
   * period end up in the same file, one after the other: the reopen appends.
   */
  lemma {:induction false} CloseThenReopenAccumulates(env: Env, st: LogState, fs: FileSystem, now: int, later: int,
                                                      first: seq<string>, second: seq<string>)
    requires Valid(st, fs)
    requires Compiled(env, st).Ok? && CurrentName(env, st, now) != ""
    requires env.format(Compiled(env, st).value, later) == CurrentName(env, st, now)
    requires WriteAll(env, st, fs, now, first).Ok?
    requires var mid := WriteAll(env, st, fs, now, first).value;
             WriteAll(env, CloseLogfile(mid.state), mid.fs, later, second).Ok?
    ensures var mid := WriteAll(env, st, fs, now, first).value;
            var r := WriteAll(env, CloseLogfile(mid.state), mid.fs, later, second).value;
            var name := CurrentName(env, st, now);
            ContentOf(r.fs, name) == ContentOf(fs, name) + Terminated(first) + Terminated(second)
  {
    var name := CurrentName(env, st, now);
    WriteAllAppends(env, st, fs, now, first);
    var mid := WriteAll(env, st, fs, now, first).value;
    var closed := CloseLogfile(mid.state);
    CloseLogfileValid(mid.state, mid.fs);
    assert Compiled(env, closed) == Compiled(env, st) by {
      if |first| == 0 {
        assert mid.state == st;
      } else {
        WriteAllCompiled(env, st, fs, now, first);
      }
    }
    WriteAllAppends(env, closed, mid.fs, later, second);
  }

  /** After a successful run of writes the compiled pattern is the one the run used. */
  lemma {:induction false} WriteAllCompiled(env: Env, st: LogState, fs: FileSystem, now: int, lines: seq<string>)
    requires WriteAll(env, st, fs, now, lines).Ok?
    requires |lines| > 0
    ensures Compiled(env, st).Ok?
    ensures WriteAll(env, st, fs, now, lines).value.state.compiled == Some(Compiled(env, st).value)
    decreases |lines|
  {
    var got := WriteLogLine(env, st, fs, now, lines[0], true).value;
    if |lines| > 1 {
      WriteAllCompiled(env, got.state, got.fs, now, lines[1..]);
    }
  }
}
