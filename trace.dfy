/**
  What the scripts do to the world, as a trace of events: external tool
  invocations (an argument vector and, for `tiffcp`, a working directory),
  file copies (`shutil.copy2`) and directory creations (`os.mkdir`). The
  file system is reduced to the set of regular files and the set of
  directories that exist. Tools are opaque except for the one file each
  writes, whose name is read off its argument vector.

  Exit statuses come from an oracle `status`, indexed by the position of
  the event in the trace. `Attempt` is the fail-fast reading of a plan of
  events used with `subprocess.check_call`: the events are carried out
  in order and the first tool that exits with a non-zero status ends the
  run.
*/
module Trace {
  import opened Wrappers
  import opened Paths

  datatype Event =
    | Run(argv: seq<string>, cwd: Option<string>)
    | Copy(src: string, dst: string)
    | MakeDir(path: string)

  datatype FileSystem = FileSystem(files: set<string>, dirs: set<string>)

  /** `os.path.exists(p)` */
  predicate Exists(fs: FileSystem, p: string)
  {
    p in fs.files || p in fs.dirs
  }

  /** `os.path.isfile(p)` */
  predicate IsFile(fs: FileSystem, p: string)
  {
    p in fs.files
  }

  /**
    The value of the option `flag` in the arguments `args` of a tool, read
    from the front as an option parser does: every option in `valued`
    takes the next argument as its value, so a value that happens to read
    `flag` is not mistaken for it.
  */
  function OptionValue(args: seq<string>, flag: string, valued: set<string>): Option<string>
    decreases |args|
  {
    if |args| < 2 then None
    else if args[0] == flag then Some(args[1])
    else if args[0] in valued then OptionValue(args[2..], flag, valued)
    else OptionValue(args[1..], flag, valued)
  }

  /** The value found for `flag` is the argument right after an occurrence of `flag`. */
  lemma {:induction false} OptionValueFollowsFlag(args: seq<string>, flag: string, valued: set<string>)
    ensures var r := OptionValue(args, flag, valued);
      r.Some? ==> exists i :: 0 <= i < |args| - 1 && args[i] == flag && args[i + 1] == r.value
    decreases |args|
  {
    if |args| >= 2 && args[0] != flag {
      var rest := if args[0] in valued then args[2..] else args[1..];
      OptionValueFollowsFlag(rest, flag, valued);
      var r := OptionValue(rest, flag, valued);
      if r.Some? {
        var i :| 0 <= i < |rest| - 1 && rest[i] == flag && rest[i + 1] == r.value;
        var j := |args| - |rest| + i;
        assert args[j] == rest[i] && args[j + 1] == rest[i + 1];
      }
    }
  }

  /**
    The file a tool run writes, by each tool's own convention: for
    `tiff2pdf` and `pdfsandwich` the value of `-o`; for `scanimage`
    (`--output-file`), `convert`, `econvert` (`--output`), `tiffcp` and
    `pdftk` (`output`) the last argument. A relative name is taken inside
    the run's working directory when it has one. `None` for any other
    command line.
  */
  function ToolOutput(argv: seq<string>, cwd: Option<string>): (r: Option<string>)
    ensures r.Some? ==> |argv| >= 2
    ensures r.Some? && argv[0] !in {"tiff2pdf", "pdfsandwich"} ==>
      r.value == if cwd.Some? then Join(cwd.value, argv[|argv| - 1]) else argv[|argv| - 1]
  {
    if |argv| < 2 then None
    else
      var name :=
        if argv[0] == "tiff2pdf" then OptionValue(argv[1..], "-o", {"-c", "-o", "-p"})
        else if argv[0] == "pdfsandwich" then OptionValue(argv[1..], "-o", {"-maxpixels", "-resolution", "-lang", "-o"})
        else if argv[0] in {"scanimage", "convert", "econvert", "tiffcp", "pdftk"} then Some(argv[|argv| - 1])
        else None;
      if name.None? then None
      else if cwd.Some? then Some(Join(cwd.value, name.value))
      else name
  }

  /**
    The effect of one event. A tool run leaves its output file (even one
    that fails may have written it). A copy onto an existing directory
    lands inside it under the source's basename, as `shutil.copy2` does.
  */
  function Apply(fs: FileSystem, e: Event): (r: FileSystem)
    ensures r.dirs == if e.MakeDir? then fs.dirs + {e.path} else fs.dirs
    ensures e.Run? ==> r.files == fs.files + (if ToolOutput(e.argv, e.cwd).Some? then {ToolOutput(e.argv, e.cwd).value} else {})
    ensures e.MakeDir? ==> r.files == fs.files
    ensures e.Copy? && e.dst !in fs.dirs ==> r.files == fs.files + {e.dst}
    ensures e.Copy? && e.dst in fs.dirs ==> r.files == fs.files + {Join(e.dst, Basename(e.src))}
  {
    match e
    case Run(argv, cwd) =>
      var out := ToolOutput(argv, cwd);
      if out.Some? then fs.(files := fs.files + {out.value}) else fs
    case MakeDir(p) => fs.(dirs := fs.dirs + {p})
    case Copy(src, dst) =>
      if dst in fs.dirs then fs.(files := fs.files + {Join(dst, Basename(src))})
      else fs.(files := fs.files + {dst})
  }

  /** The effect of a sequence of events, applied in order. */
  function Effect(fs: FileSystem, events: seq<Event>): FileSystem
  {
    if events == [] then fs else Apply(Effect(fs, events[..|events| - 1]), events[|events| - 1])
  }

  lemma {:induction false} EffectAppend(fs: FileSystem, a: seq<Event>, b: seq<Event>)
    ensures Effect(fs, a + b) == Effect(Effect(fs, a), b)
  {
    if b == [] {
      assert a + b == a;
    } else {
      var b' := b[..|b| - 1];
      assert (a + b)[..|a + b| - 1] == a + b';
      EffectAppend(fs, a, b');
    }
  }

  /** The directories after a sequence of events: those before, and those it created. */
  lemma {:induction false} EffectDirs(fs: FileSystem, events: seq<Event>)
    ensures Effect(fs, events).dirs == fs.dirs + set k | 0 <= k < |events| && events[k].MakeDir? :: events[k].path
  {
    if events != [] {
      var e' := events[..|events| - 1];
      EffectDirs(fs, e');
      var last := events[|events| - 1];
      var made := set k | 0 <= k < |events| && events[k].MakeDir? :: events[k].path;
      var made' := set k | 0 <= k < |e'| && e'[k].MakeDir? :: e'[k].path;
      assert made == made' + (if last.MakeDir? then {last.path} else {}) by {
        forall p | p in made ensures p in made' + (if last.MakeDir? then {last.path} else {}) {
          var k :| 0 <= k < |events| && events[k].MakeDir? && events[k].path == p;
          if k < |e'| { assert e'[k] == events[k]; }
        }
        forall p | p in made' ensures p in made {
          var k :| 0 <= k < |e'| && e'[k].MakeDir? && e'[k].path == p;
          assert events[k] == e'[k];
        }
      }
    }
  }

  /** An event at trace position `pos` completes unless it is a tool run with a non-zero exit status. */
  predicate Completes(e: Event, pos: nat, status: nat -> int)
  {
    !e.Run? || status(pos) == 0
  }

  /** Every event of `events`, placed at trace positions from `base` on, completes. */
  predicate Succeeds(events: seq<Event>, base: nat, status: nat -> int)
    decreases |events|
  {
    events == [] || (Completes(events[0], base, status) && Succeeds(events[1..], base + 1, status))
  }

  /** `Succeeds`, event by event: the event at index `k` completes at trace position `base + k`. */
  lemma {:induction false} SucceedsEach(events: seq<Event>, base: nat, status: nat -> int)
    ensures Succeeds(events, base, status) <==> forall k :: 0 <= k < |events| ==> Completes(events[k], base + k, status)
    decreases |events|
  {
    if events != [] {
      SucceedsEach(events[1..], base + 1, status);
      if forall k :: 0 <= k < |events| ==> Completes(events[k], base + k, status) {
        assert Completes(events[0], base + 0, status);
        forall k | 0 <= k < |events| - 1 ensures Completes(events[1..][k], base + 1 + k, status) {
          assert events[1..][k] == events[k + 1];
        }
      }
      if Succeeds(events, base, status) {
        forall k | 0 < k < |events| ensures Completes(events[k], base + k, status) {
          assert events[k] == events[1..][k - 1];
        }
      }
    }
  }

  /**
    The events that actually happen when `events` is carried out fail-fast
    from trace position `base`: all of them if every one completes,
    otherwise those up to and including the first that fails.
  */
  function Attempt(events: seq<Event>, base: nat, status: nat -> int): seq<Event>
    decreases |events|
  {
    if events == [] then []
    else if !Completes(events[0], base, status) then [events[0]]
    else [events[0]] + Attempt(events[1..], base + 1, status)
  }

  /**
    The fail-fast run is a prefix of the plan: the whole plan when every
    event completes, and otherwise the events up to the first failure,
    all of which but the last completed.
  */
  lemma {:induction false} AttemptPrefix(events: seq<Event>, base: nat, status: nat -> int)
    ensures var r := Attempt(events, base, status);
      && |r| <= |events| && r == events[..|r|]
      && (Succeeds(events, base, status) ==> r == events)
      && (!Succeeds(events, base, status) ==>
            |r| > 0 && Succeeds(r[..|r| - 1], base, status) && !Completes(r[|r| - 1], base + |r| - 1, status))
    decreases |events|
  {
    if events != [] && Completes(events[0], base, status) {
      AttemptPrefix(events[1..], base + 1, status);
      SucceedsCons(events, base, status);
      var t := Attempt(events[1..], base + 1, status);
      PrefixCons(events, t);
      if !Succeeds(events, base, status) {
        SucceedsConsPrefix(events[0], t, base, status);
      }
    }
  }

  /** A prefix of the rest of `events`, put behind its first event, is a prefix of `events`. */
  lemma {:induction false} PrefixCons(events: seq<Event>, t: seq<Event>)
    requires events != [] && |t| <= |events| - 1 && t == events[1..][..|t|]
    ensures [events[0]] + t == events[..|t| + 1]
  {
    var r := [events[0]] + t;
    forall k | 0 <= k < |r| ensures r[k] == events[k] {
      if k > 0 { assert r[k] == t[k - 1] == events[1..][k - 1]; }
    }
  }

  /** Behind a first event that completes, a run whose all but last events succeed still does. */
  lemma {:induction false} SucceedsConsPrefix(e: Event, t: seq<Event>, base: nat, status: nat -> int)
    requires Completes(e, base, status) && |t| > 0 && Succeeds(t[..|t| - 1], base + 1, status)
    ensures var r := [e] + t; Succeeds(r[..|r| - 1], base, status)
  {
    var r := [e] + t;
    var p := r[..|r| - 1];
    assert p == [e] + t[..|t| - 1];
    assert p[0] == e && p[1..] == t[..|t| - 1];
    SucceedsCons(p, base, status);
  }

  /** A concatenation of events succeeds exactly when both parts do, each at its own positions. */
  lemma {:induction false} SucceedsThen(a: seq<Event>, b: seq<Event>, base: nat, status: nat -> int)
    ensures Succeeds(a + b, base, status) <==> Succeeds(a, base, status) && Succeeds(b, base + |a|, status)
    decreases |a|
  {
    if a == [] {
      assert a + b == b;
    } else {
      assert (a + b)[0] == a[0] && (a + b)[1..] == a[1..] + b;
      SucceedsThen(a[1..], b, base + 1, status);
    }
  }

  /** Past a first event that completes, a run succeeds exactly when the rest does. */
  lemma {:induction false} SucceedsCons(a: seq<Event>, base: nat, status: nat -> int)
    requires a != [] && Completes(a[0], base, status)
    ensures Succeeds(a, base, status) <==> Succeeds(a[1..], base + 1, status)
  {
  }

  /** Running `a` then `b` fail-fast: `b` starts only if all of `a` completed. */
  lemma {:induction false} AttemptThen(a: seq<Event>, b: seq<Event>, base: nat, status: nat -> int)
    ensures Attempt(a + b, base, status) ==
      if Succeeds(a, base, status) then a + Attempt(b, base + |a|, status) else Attempt(a, base, status)
  {
    if a == [] {
      assert a + b == b;
    } else if !Completes(a[0], base, status) {
      assert (a + b)[0] == a[0];
      assert !Completes(a[0], base + 0, status);
    } else {
      var ab := a + b;
      assert ab[0] == a[0] && ab[1..] == a[1..] + b;
      var tail := Attempt(a[1..] + b, base + 1, status);
      assert Attempt(ab, base, status) == [a[0]] + tail;
      assert Attempt(a, base, status) == [a[0]] + Attempt(a[1..], base + 1, status);
      AttemptThen(a[1..], b, base + 1, status);
      SucceedsCons(a, base, status);
      if Succeeds(a, base, status) {
        assert tail == a[1..] + Attempt(b, base + |a|, status);
        assert [a[0]] + (a[1..] + Attempt(b, base + |a|, status)) == a + Attempt(b, base + |a|, status);
      }
    }
  }

  /**
    One stage of a pipeline carried out after the stages `done`, all of
    which completed: the combined fail-fast run is `done` followed by the
    stage's own fail-fast run, and it succeeds exactly when the stage does.
  */
  lemma {:induction false} Advance(done: seq<Event>, stage: seq<Event>, base: nat, status: nat -> int)
    requires Succeeds(done, base, status)
    ensures Attempt(done + stage, base, status) == done + Attempt(stage, base + |done|, status)
    ensures Succeeds(done + stage, base, status) == Succeeds(stage, base + |done|, status)
  {
    SucceedsThen(done, stage, base, status);
    AttemptThen(done, stage, base, status);
  }

  /** A stage that fails ends the run: nothing after it happens. */
  lemma {:induction false} StageFails(done: seq<Event>, stage: seq<Event>, rest: seq<Event>, base: nat, status: nat -> int)
    requires Succeeds(done, base, status) && !Succeeds(stage, base + |done|, status)
    ensures Attempt(done + stage + rest, base, status) == done + Attempt(stage, base + |done|, status)
    ensures !Succeeds(done + stage + rest, base, status)
  {
    SucceedsThen(done, stage, base, status);
    SucceedsThen(done + stage, rest, base, status);
    AttemptThen(done, stage, base, status);
    AttemptThen(done + stage, rest, base, status);
  }

  /** When the event at index `j` is the first to fail, the run stops right after it. */
  lemma {:induction false} AttemptFailsAt(events: seq<Event>, base: nat, status: nat -> int, j: nat)
    requires j < |events|
    requires Succeeds(events[..j], base, status) && !Completes(events[j], base + j, status)
    ensures Attempt(events, base, status) == events[..j + 1]
    ensures !Succeeds(events, base, status)
  {
    assert events == events[..j] + [events[j]] + events[j + 1..];
    assert !Succeeds([events[j]], base + j, status);
    StageFails(events[..j], [events[j]], events[j + 1..], base, status);
  }

  /** One more event that completes extends a run that has succeeded so far. */
  lemma {:induction false} SucceedsSnoc(events: seq<Event>, base: nat, status: nat -> int, j: nat)
    requires j < |events|
    requires Succeeds(events[..j], base, status) && Completes(events[j], base + j, status)
    ensures Succeeds(events[..j + 1], base, status)
  {
    assert events[..j + 1] == events[..j] + [events[j]];
    SucceedsThen(events[..j], [events[j]], base, status);
  }

  /** The effect of one more event of a plan. */
  lemma {:induction false} EffectSnoc(fs: FileSystem, events: seq<Event>, j: nat)
    requires j < |events|
    ensures Effect(fs, events[..j + 1]) == Apply(Effect(fs, events[..j]), events[j])
  {
    assert events[..j + 1][..j] == events[..j];
  }

  /**
    One more event of a plan carried out fail-fast from trace position
    `base`, after the first `j` all completed: the log grows by that event; if it completes, the first `j + 1` have completed,
    and if it fails, the run of the whole plan ends with it.
  */
  lemma {:induction false} Step(log0: seq<Event>, events: seq<Event>, base: nat, status: nat -> int, j: nat)
    requires j < |events| && Succeeds(events[..j], base, status)
    ensures log0 + events[..j] + [events[j]] == log0 + events[..j + 1]
    ensures Completes(events[j], base + j, status) ==> Succeeds(events[..j + 1], base, status)
    ensures !Completes(events[j], base + j, status) ==>
      Attempt(events, base, status) == events[..j + 1] && !Succeeds(events, base, status)
  {
    assert events[..j + 1] == events[..j] + [events[j]];
    if Completes(events[j], base + j, status) {
      SucceedsSnoc(events, base, status, j);
    } else {
      AttemptFailsAt(events, base, status, j);
    }
  }

  /**
    The log after the event at index `j` of a plan happened, the first `j`
    having completed: either the first `j + 1` have completed, or the log
    holds the whole fail-fast run, which has failed.
  */
  lemma {:induction false} Extend(log0: seq<Event>, log: seq<Event>, events: seq<Event>, e: Event, ok: bool, base: nat, status: nat -> int, j: nat)
    requires j < |events| && events[j] == e && Succeeds(events[..j], base, status)
    requires log == log0 + events[..j] + [e] && ok == Completes(e, base + j, status)
    ensures ok ==> log == log0 + events[..j + 1] && Succeeds(events[..j + 1], base, status)
    ensures !ok ==> log == log0 + Attempt(events, base, status) && !Succeeds(events, base, status)
  {
    Step(log0, events, base, status, j);
  }

  /** A plan carried out to its end without a failure: the fail-fast run is the whole plan. */
  lemma {:induction false} Whole(events: seq<Event>, base: nat, status: nat -> int)
    requires Succeeds(events[..|events|], base, status)
    ensures Attempt(events, base, status) == events && events[..|events|] == events
  {
    assert events[..|events|] == events;
    AttemptPrefix(events, base, status);
  }

  /**
    A stage carried out fail-fast after the events `done`, all of which
    completed: if it succeeds, `done` grows by it; if it fails, the log
    holds the fail-fast run of everything planned, whatever `rest` follows.
  */
  lemma {:induction false} StageDone(log0: seq<Event>, log1: seq<Event>, log2: seq<Event>, done: seq<Event>, stage: seq<Event>, rest: seq<Event>, status: nat -> int)
    requires log1 == log0 + done && Succeeds(done, |log0|, status)
    requires log2 == log1 + Attempt(stage, |log1|, status)
    ensures Succeeds(stage, |log1|, status) ==>
      log2 == log0 + (done + stage) && Succeeds(done + stage, |log0|, status)
    ensures !Succeeds(stage, |log1|, status) ==>
      log2 == log0 + Attempt(done + (stage + rest), |log0|, status) && !Succeeds(done + (stage + rest), |log0|, status)
  {
    var base := |log0| + |done|;
    assert |log1| == base;
    if Succeeds(stage, base, status) {
      AttemptPrefix(stage, base, status);
      SucceedsThen(done, stage, |log0|, status);
      Associative(log0, done, stage);
    } else {
      var tried := Attempt(stage, base, status);
      Advance(done, stage + rest, |log0|, status);
      Stop(stage, rest, base, status);
      assert Attempt(done + (stage + rest), |log0|, status) == done + tried;
      Associative(log0, done, tried);
    }
  }

  /** The last stage carried out fail-fast after the events `done`, all of which completed. */
  lemma {:induction false} LastStage(log0: seq<Event>, log1: seq<Event>, log2: seq<Event>, done: seq<Event>, stage: seq<Event>, status: nat -> int)
    requires log1 == log0 + done && Succeeds(done, |log0|, status)
    requires log2 == log1 + Attempt(stage, |log1|, status)
    ensures log2 == log0 + Attempt(done + stage, |log0|, status)
    ensures Succeeds(done + stage, |log0|, status) == Succeeds(stage, |log1|, status)
  {
    Advance(done, stage, |log0|, status);
    Associative(log0, done, Attempt(stage, |log1|, status));
  }

  /** A single event carried out fail-fast: it happens, and the run succeeds when it completes. */
  lemma {:induction false} Single(e: Event, base: nat, status: nat -> int)
    ensures Attempt([e], base, status) == [e]
    ensures Succeeds([e], base, status) == Completes(e, base, status)
  {
    assert [e][1..] == [];
  }

  lemma {:induction false} Associative(a: seq<Event>, b: seq<Event>, c: seq<Event>)
    ensures a + b + c == a + (b + c)
  {
  }

  /** A run that has already failed is not continued: whatever was planned after it never happens. */
  lemma {:induction false} Stop(a: seq<Event>, rest: seq<Event>, base: nat, status: nat -> int)
    requires !Succeeds(a, base, status)
    ensures Attempt(a + rest, base, status) == Attempt(a, base, status)
    ensures !Succeeds(a + rest, base, status)
  {
    SucceedsThen(a, rest, base, status);
    AttemptThen(a, rest, base, status);
  }

  /** The event writes the path `p` itself: a copy onto it, or a tool whose output it is. */
  predicate WritesTo(e: Event, p: string)
  {
    (e.Copy? && e.dst == p) || (e.Run? && ToolOutput(e.argv, e.cwd) == Some(p))
  }

  /**
    The event creates nothing outside the prefix `t`: a tool's output
    file, a copy's destination and a new directory all lie under it.
  */
  predicate Within(e: Event, t: string)
  {
    match e
    case Run(argv, cwd) => ToolOutput(argv, cwd).Some? && HasPrefix(t, ToolOutput(argv, cwd).value)
    case Copy(_, dst) => HasPrefix(t, dst)
    case MakeDir(path) => HasPrefix(t, path)
  }

  /** Every event of `events` creates things only under the prefix `t`. */
  predicate StaysUnder(events: seq<Event>, t: string)
  {
    forall k :: 0 <= k < |events| ==> Within(events[k], t)
  }

  /** Events that stay under `t` neither create nor remove anything outside it. */
  lemma {:induction false} EffectOutside(fs: FileSystem, events: seq<Event>, t: string, p: string)
    requires StaysUnder(events, t) && !HasPrefix(t, p)
    ensures p in Effect(fs, events).files <==> p in fs.files
    ensures p in Effect(fs, events).dirs <==> p in fs.dirs
  {
    if events != [] {
      var n := |events| - 1;
      assert StaysUnder(events[..n], t) by {
        forall k | 0 <= k < n ensures events[..n][k] == events[k] { }
      }
      EffectOutside(fs, events[..n], t, p);
      var e := events[n];
      assert Within(e, t);
      if e.Copy? {
        var b := Basename(e.src);
        assert !IsAbsolute(b) by {
          if |b| > 0 { assert b[0] != '/'; }
        }
        JoinKeepsPrefix(t, e.dst, b);
      }
    }
  }

  lemma {:induction false} StaysUnderConcat(a: seq<Event>, b: seq<Event>, t: string)
    requires StaysUnder(a, t) && StaysUnder(b, t)
    ensures StaysUnder(a + b, t)
  {
    forall k | |a| <= k < |a + b| ensures (a + b)[k] == b[k - |a|] { }
  }

  /** No event under `t` writes to a path outside it. */
  lemma {:induction false} StaysUnderNoWrite(events: seq<Event>, t: string, out: string)
    requires StaysUnder(events, t) && !HasPrefix(t, out)
    ensures forall k :: 0 <= k < |events| ==> !WritesTo(events[k], out)
  {
    forall k | 0 <= k < |events| ensures !WritesTo(events[k], out) {
      assert Within(events[k], t);
    }
  }

  /** A prefix of events that stay under `t` stays under `t`. */
  lemma {:induction false} StaysUnderPrefix(events: seq<Event>, t: string, j: nat)
    requires StaysUnder(events, t) && j <= |events|
    ensures StaysUnder(events[..j], t)
  {
    forall k | 0 <= k < j ensures events[..j][k] == events[k] { }
  }

  /** Everything before the final copy stays under `t`. */
  lemma {:induction false} FinishBody(front: seq<Event>, finish: seq<Event>, t: string)
    requires StaysUnder(front, t)
    requires |finish| > 0 && StaysUnder(finish[..|finish| - 1], t)
    ensures StaysUnder((front + finish)[..|front + finish| - 1], t)
  {
    assert (front + finish)[..|front + finish| - 1] == front + finish[..|finish| - 1];
    StaysUnderConcat(front, finish[..|finish| - 1], t);
  }

  /** A fail-fast run that fails stops before a final event that cannot fail. */
  lemma {:induction false} FailsBeforeLast(events: seq<Event>, base: nat, status: nat -> int)
    requires |events| > 0 && !events[|events| - 1].Run?
    requires !Succeeds(events, base, status)
    ensures var r := Attempt(events, base, status);
      |r| < |events| && r == events[..|events| - 1][..|r|]
  {
    AttemptPrefix(events, base, status);
  }

  /**
    A run in two parts: `front` stays under `t`, and `finish` is events
    that stay under `t` followed by one copy onto `out`, which lies
    outside `t`. Only the very last event of a successful run writes `out`.
  */
  lemma {:induction false} FinishWritesLast(plan: seq<Event>, front: seq<Event>, finish: seq<Event>, t: string, out: string,
                                            base: nat, status: nat -> int)
    requires plan == front + finish
    requires StaysUnder(front, t) && !HasPrefix(t, out)
    requires |finish| > 0 && finish[|finish| - 1].Copy? && finish[|finish| - 1].dst == out
    requires StaysUnder(finish[..|finish| - 1], t)
    ensures var run := Attempt(plan, base, status);
      && (forall k :: 0 <= k < |run| && WritesTo(run[k], out) ==>
            Succeeds(plan, base, status) && k == |run| - 1)
      && (Succeeds(plan, base, status) ==> WritesTo(run[|run| - 1], out))
  {
    var run := Attempt(plan, base, status);
    var body := plan[..|plan| - 1];
    FinishBody(front, finish, t);
    if !Succeeds(plan, base, status) {
      FailsBeforeLast(plan, base, status);
      assert run == body[..|run|];
      StaysUnderPrefix(body, t, |run|);
      StaysUnderNoWrite(run, t, out);
    } else {
      AttemptPrefix(plan, base, status);
      StaysUnderNoWrite(body, t, out);
      forall k | 0 <= k < |run| - 1 ensures run[k] == body[k] { }
    }
  }

  /**
    The same run seen on the file system: a run that succeeds leaves a
    regular file at `out` (when `out` was no directory), and a run that
    fails leaves `out` as it was.
  */
  lemma {:induction false} FinishEffect(fs: FileSystem, plan: seq<Event>, front: seq<Event>, finish: seq<Event>, t: string, out: string,
                                        base: nat, status: nat -> int)
    requires plan == front + finish
    requires StaysUnder(front, t) && !HasPrefix(t, out)
    requires |finish| > 0 && finish[|finish| - 1].Copy? && finish[|finish| - 1].dst == out
    requires StaysUnder(finish[..|finish| - 1], t)
    ensures var after := Effect(fs, Attempt(plan, base, status));
      && (Succeeds(plan, base, status) && out !in fs.dirs ==> out in after.files && out !in after.dirs)
      && (!Succeeds(plan, base, status) ==>
            (out in after.files <==> out in fs.files) && (out in after.dirs <==> out in fs.dirs))
  {
    var run := Attempt(plan, base, status);
    FinishBody(front, finish, t);
    if Succeeds(plan, base, status) {
      if out !in fs.dirs {
        AttemptPrefix(plan, base, status);
        FinishAll(fs, front, finish, t, out);
      }
    } else {
      FailsBeforeLast(plan, base, status);
      StaysUnderPrefix(plan[..|plan| - 1], t, |run|);
      assert run == plan[..|plan| - 1][..|run|];
      EffectOutside(fs, run, t, out);
    }
  }

  /** The whole run, carried out: the final copy leaves a regular file at `out`. */
  lemma {:induction false} FinishAll(fs: FileSystem, front: seq<Event>, finish: seq<Event>, t: string, out: string)
    requires StaysUnder(front, t) && !HasPrefix(t, out) && out !in fs.dirs
    requires |finish| > 0 && finish[|finish| - 1].Copy? && finish[|finish| - 1].dst == out
    requires StaysUnder(finish[..|finish| - 1], t)
    ensures out in Effect(fs, front + finish).files && out !in Effect(fs, front + finish).dirs
  {
    var plan := front + finish;
    var body := plan[..|plan| - 1];
    FinishBody(front, finish, t);
    EffectOutside(fs, body, t, out);
    var mid := Effect(fs, body);
    assert out !in mid.dirs;
    assert Effect(fs, plan) == Apply(mid, plan[|plan| - 1]);
  }
}
