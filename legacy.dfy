/**
  The older top-level script `makebwpdf.py`. It runs the same kind of
  tool chain as the packaged script, with these differences: there is no
  checking of the command line beyond what the argument parser enforces,
  no scanning and no appending; the position correction is always the A4
  block; `tiff2pdf` is told the paper size only when one is given;
  `pdfsandwich` writes straight to the output file; the `--tempdir`
  directory is used as given, without making it absolute; and tools are
  started with `subprocess.call`, whose exit status is thrown away, so
  every step is issued whatever happened before it.

  `LegacyPlan` holds every event of a run, and the class `LegacyRun`
  carries it out and is proved to issue exactly that plan, in order, for
  every assignment of exit statuses.
*/
module Legacy {
  import opened Wrappers
  import opened Paths
  import opened PageNames
  import opened Trace
  import opened MakeBwPdf

  /**
    The parsed command line. `brightness`, `output` and the paper size are
    single-element lists in the script; the fields hold the element the
    script reads.
  */
  datatype LegacyOptions = LegacyOptions(
    brightness: string,
    output: string,
    papersize: Option<string>,
    tempdir: Option<string>,
    rotate: Option<string>,
    languages: Option<string>,
    correctPosition: bool,
    inputFiles: seq<string>)

  /** The working directory: a fresh temporary one, or the one asked for, exactly as written. */
  function LegacyWorkDir(opts: LegacyOptions, freshTemp: string): (t: string)
    ensures opts.tempdir.Some? ==> t == opts.tempdir.value
    ensures opts.tempdir.None? ==> t == freshTemp
  {
    if opts.tempdir.None? then freshTemp else opts.tempdir.value
  }

  // ---------------------------------------------------------------------
  // Argument vectors

  /** What happens to one input file: a `convert` with the A4 correction block, or a plain copy. */
  function LegacyPageEvent(input: string, correctPosition: bool, output: string): Event
  {
    if correctPosition then Run(["convert", input] + A4Correction + [output], None) else Copy(input, output)
  }

  /**
    `tiff2pdf`: group 4, 600 dpi both ways, the output, then `-p` and the
    paper size only when one is given, and the multi-page TIFF last.
  */
  function LegacyTiff2pdfArgv(papersize: Option<string>, tempdir: string): seq<string>
  {
    ["tiff2pdf", "-c", "g4", "-x600", "-y600"]
      + ["-o", Join(tempdir, "all.pdf")]
      + (if papersize.Some? then ["-p", papersize.value] else [])
      + [Join(tempdir, "all.tiff")]
  }

  /** `pdfsandwich` without a resolution option, from `input` to `output`. */
  function LegacyPdfsandwichArgv(languages: string, input: string, output: string): seq<string>
  {
    ["pdfsandwich",
     "-maxpixels", "999999999",
     "-lang", languages,
     "-o", output,
     "-nopreproc",
     input]
  }

  /**
    The old `tiff2pdf` writes `all.pdf` in the working directory, the
    value of `-o`, which comes before the optional `-p`; a paper size
    that reads "-o" does not change that.
  */
  lemma {:induction false} LegacyTiff2pdfWrites(papersize: Option<string>, tempdir: string)
    ensures ToolOutput(LegacyTiff2pdfArgv(papersize, tempdir), None) == Some(PdfFile(tempdir))
  {
    var argv := LegacyTiff2pdfArgv(papersize, tempdir);
    var tail := ["-o", Join(tempdir, "all.pdf")]
      + (if papersize.Some? then ["-p", papersize.value] else [])
      + [Join(tempdir, "all.tiff")];
    var valued := {"-c", "-o", "-p"};
    assert OptionValue(tail, "-o", valued) == Some(PdfFile(tempdir));
    assert OptionValue(["-y600"] + tail, "-o", valued) == Some(PdfFile(tempdir)) by {
      assert (["-y600"] + tail)[1..] == tail;
    }
    assert OptionValue(["-x600", "-y600"] + tail, "-o", valued) == Some(PdfFile(tempdir)) by {
      assert (["-x600", "-y600"] + tail)[1..] == ["-y600"] + tail;
    }
    assert argv[1..] == ["-c", "g4", "-x600", "-y600"] + tail;
    assert argv[1..][2..] == ["-x600", "-y600"] + tail;
  }

  /** The old `pdfsandwich` writes the value of `-o`: the output file itself. */
  lemma {:induction false} LegacyPdfsandwichWrites(languages: string, input: string, output: string)
    ensures ToolOutput(LegacyPdfsandwichArgv(languages, input, output), None) == Some(output)
  {
    var argv := LegacyPdfsandwichArgv(languages, input, output);
    var valued := {"-maxpixels", "-resolution", "-lang", "-o"};
    var tail := ["-o", output, "-nopreproc", input];
    assert OptionValue(tail, "-o", valued) == Some(output);
    assert OptionValue(["-lang", languages] + tail, "-o", valued) == Some(output) by {
      assert (["-lang", languages] + tail)[2..] == tail;
    }
    assert argv[1..] == ["-maxpixels", "999999999", "-lang", languages] + tail;
    assert argv[1..][2..] == ["-lang", languages] + tail;
  }

  /** OCR into the output when languages are given; otherwise the PDF is copied to the output. */
  function LegacyOcrEvent(languages: Option<string>, input: string, output: string): Event
  {
    if languages.Some? then Run(LegacyPdfsandwichArgv(languages.value, input, output), None) else Copy(input, output)
  }

  // ---------------------------------------------------------------------
  // The planned events

  /** Creating the page directory, then one event per input file, in order, into the page file of the same position in `basenames`. */
  function LegacyRepositionEvents(inputFiles: seq<string>, basenames: seq<string>, correctPosition: bool, pagesDir: string)
    : (events: seq<Event>)
    requires |basenames| == |inputFiles|
    ensures |events| == |inputFiles| + 1
  {
    if inputFiles == [] then [MakeDir(pagesDir)]
    else
      var n := |inputFiles| - 1;
      LegacyRepositionEvents(inputFiles[..n], basenames[..n], correctPosition, pagesDir)
        + [LegacyPageEvent(inputFiles[n], correctPosition, PageFile(pagesDir, basenames[n]))]
  }

  /** The repositioning events one by one: the directory at position 0, the `k`-th input file at position `k + 1`. */
  lemma {:induction false} LegacyRepositionEventAt(inputFiles: seq<string>, basenames: seq<string>, correctPosition: bool, pagesDir: string, k: nat)
    requires |basenames| == |inputFiles| && k <= |inputFiles|
    ensures LegacyRepositionEvents(inputFiles, basenames, correctPosition, pagesDir)[k] ==
      if k == 0 then MakeDir(pagesDir)
      else LegacyPageEvent(inputFiles[k - 1], correctPosition, PageFile(pagesDir, basenames[k - 1]))
    decreases |inputFiles|
  {
    if inputFiles != [] {
      var n := |inputFiles| - 1;
      if k <= n {
        LegacyRepositionEventAt(inputFiles[..n], basenames[..n], correctPosition, pagesDir, k);
      }
    }
  }

  /** The events of a run after repositioning, for the page names `names`. */
  function LegacyFromBilevel(opts: LegacyOptions, names: seq<string>, tempdir: string): seq<Event>
  {
    BilevelEvents(opts.brightness, opts.rotate, names, BilevelDir(tempdir), PagesDir(tempdir))
      + [Run(TiffcpArgv(BilevelDir(tempdir), names), Some(tempdir))]
      + [Run(LegacyTiff2pdfArgv(opts.papersize, tempdir), None)]
      + [LegacyOcrEvent(opts.languages, PdfFile(tempdir), opts.output)]
  }

  /** Every event of a run, in order: nothing in it depends on the exit status of any tool. */
  function LegacyPlan(opts: LegacyOptions, tempdir: string): seq<Event>
  {
    var names := Basenames(|opts.inputFiles|);
    LegacyRepositionEvents(opts.inputFiles, names, opts.correctPosition, PagesDir(tempdir))
      + LegacyFromBilevel(opts, names, tempdir)
  }

  // ---------------------------------------------------------------------
  // Properties

  /**
    The legacy position correction is the A4 one whatever the paper size:
    the repositioning events equal the packaged script's for exactly the
    paper sizes that do not select A5, or when there is nothing to correct.
  */
  lemma {:induction false} LegacyRepositionIsA4(inputFiles: seq<string>, papersize: string, correctPosition: bool, pagesDir: string)
    ensures var names := Basenames(|inputFiles|);
      LegacyRepositionEvents(inputFiles, names, correctPosition, pagesDir)
        == RepositionEvents(inputFiles, names, papersize, correctPosition, pagesDir)
      <==> !IsA5(papersize) || !correctPosition || inputFiles == []
  {
    var names := Basenames(|inputFiles|);
    var legacy := LegacyRepositionEvents(inputFiles, names, correctPosition, pagesDir);
    var package := RepositionEvents(inputFiles, names, papersize, correctPosition, pagesDir);
    if !IsA5(papersize) || !correctPosition {
      forall k | 0 <= k < |legacy| ensures legacy[k] == package[k] {
        LegacyRepositionEventAt(inputFiles, names, correctPosition, pagesDir, k);
        RepositionEventAt(inputFiles, names, papersize, correctPosition, pagesDir, k);
        if k > 0 {
          LegacyPageEventIsA4(inputFiles[k - 1], papersize, correctPosition, PageFile(pagesDir, names[k - 1]));
        }
      }
    } else if inputFiles != [] {
      LegacyRepositionEventAt(inputFiles, names, correctPosition, pagesDir, 1);
      RepositionEventAt(inputFiles, names, papersize, correctPosition, pagesDir, 1);
      LegacyPageEventIsA4(inputFiles[0], papersize, correctPosition, PageFile(pagesDir, names[0]));
    }
  }

  /** One page: the legacy event is the packaged script's unless the paper size selects A5 and a correction is asked for. */
  lemma {:induction false} LegacyPageEventIsA4(input: string, papersize: string, correctPosition: bool, output: string)
    ensures LegacyPageEvent(input, correctPosition, output) == PageEvent(input, papersize, correctPosition, output)
      <==> !IsA5(papersize) || !correctPosition
  {
    if IsA5(papersize) && correctPosition {
      assert LegacyPageEvent(input, correctPosition, output).argv[5] == "55x0";
      assert PageEvent(input, papersize, correctPosition, output).argv[5] == "78x0";
    }
  }

  /**
    The `tiff2pdf` call: the packaged script's call when no paper size is
    given; otherwise the same with `-p` and the size inserted after the
    output and before the input.
  */
  lemma {:induction false} LegacyTiff2pdfShape(papersize: Option<string>, tempdir: string)
    ensures var argv := LegacyTiff2pdfArgv(papersize, tempdir);
      var package := Tiff2pdfArgv(tempdir);
      && (papersize.None? ==> argv == package)
      && (papersize.Some? ==> argv == package[..7] + ["-p", papersize.value] + package[7..])
      && ("-p" in argv <==> papersize.Some?)
  {
    var argv := LegacyTiff2pdfArgv(papersize, tempdir);
    var package := Tiff2pdfArgv(tempdir);
    assert package[..7] == ["tiff2pdf", "-c", "g4", "-x600", "-y600", "-o", Join(tempdir, "all.pdf")];
    assert package[7..] == [Join(tempdir, "all.tiff")];
    if papersize.None? {
      assert forall k :: 0 <= k < |argv| ==> argv[k] != "-p" by {
        assert Join(tempdir, "all.pdf") != "-p" by { JoinShape(tempdir, "all.pdf"); }
        assert Join(tempdir, "all.tiff") != "-p" by { JoinShape(tempdir, "all.tiff"); }
      }
    } else {
      assert argv[7] == "-p";
    }
  }

  /** The legacy `pdfsandwich` call is the packaged script's without `-resolution 600`. */
  lemma {:induction false} LegacyPdfsandwichShape(languages: string, input: string, output: string)
    ensures var package := PdfsandwichArgv(languages, input, output);
      LegacyPdfsandwichArgv(languages, input, output) == package[..3] + package[5..]
    ensures "-resolution" !in LegacyPdfsandwichArgv(languages, input, output)
      || languages == "-resolution" || input == "-resolution" || output == "-resolution"
  {
    var package := PdfsandwichArgv(languages, input, output);
    assert package[..3] == ["pdfsandwich", "-maxpixels", "999999999"];
  }

  /**
    The shape of a run: the page directory and one event per input, the
    bilevel directory and one `econvert` per page, then `tiffcp`,
    `tiff2pdf`, and last the step that writes the output, which is
    `pdfsandwich` with languages and a copy of the PDF without.
  */
  lemma {:induction false} LegacyPlanShape(opts: LegacyOptions, tempdir: string)
    ensures var plan := LegacyPlan(opts, tempdir);
      var n := |opts.inputFiles|;
      && |plan| == 2 * n + 5
      && plan[0] == MakeDir(PagesDir(tempdir))
      && plan[n + 1] == MakeDir(BilevelDir(tempdir))
      && plan[2 * n + 2] == Run(TiffcpArgv(BilevelDir(tempdir), Basenames(n)), Some(tempdir))
      && plan[2 * n + 3] == Run(LegacyTiff2pdfArgv(opts.papersize, tempdir), None)
      && plan[2 * n + 4] == LegacyOcrEvent(opts.languages, PdfFile(tempdir), opts.output)
      && (opts.languages.Some? ==> plan[2 * n + 4].Run? && plan[2 * n + 4].argv[6] == opts.output)
      && (opts.languages.None? ==> plan[2 * n + 4] == Copy(PdfFile(tempdir), opts.output))
  {
    var n := |opts.inputFiles|;
    var names := Basenames(n);
    var r := LegacyRepositionEvents(opts.inputFiles, names, opts.correctPosition, PagesDir(tempdir));
    var f := LegacyFromBilevel(opts, names, tempdir);
    LegacyFromBilevelShape(opts, names, tempdir);
    LegacyRepositionEventAt(opts.inputFiles, names, opts.correctPosition, PagesDir(tempdir), 0);
    var plan := LegacyPlan(opts, tempdir);
    assert plan == r + f;
    assert plan[0] == r[0];
    assert plan[n + 1] == f[0] && plan[2 * n + 2] == f[n + 1];
    assert plan[2 * n + 3] == f[n + 2] && plan[2 * n + 4] == f[n + 3];
  }

  /** The events after repositioning: the bilevel directory, one `econvert` per name, `tiffcp`, `tiff2pdf`, the output step. */
  lemma {:induction false} LegacyFromBilevelShape(opts: LegacyOptions, names: seq<string>, tempdir: string)
    ensures var f := LegacyFromBilevel(opts, names, tempdir);
      var n := |names|;
      && |f| == n + 4
      && f[..n + 1] == BilevelEvents(opts.brightness, opts.rotate, names, BilevelDir(tempdir), PagesDir(tempdir))
      && f[0] == MakeDir(BilevelDir(tempdir))
      && f[n + 1] == Run(TiffcpArgv(BilevelDir(tempdir), names), Some(tempdir))
      && f[n + 2] == Run(LegacyTiff2pdfArgv(opts.papersize, tempdir), None)
      && f[n + 3] == LegacyOcrEvent(opts.languages, PdfFile(tempdir), opts.output)
  {
    var b := BilevelEvents(opts.brightness, opts.rotate, names, BilevelDir(tempdir), PagesDir(tempdir));
    BilevelEventAt(opts.brightness, opts.rotate, names, BilevelDir(tempdir), PagesDir(tempdir), 0);
    var f := LegacyFromBilevel(opts, names, tempdir);
    assert f[..|names| + 1] == b;
  }

  /**
    Page order in the legacy run: the `k`-th input file goes to page file
    `Format5(k)`, `econvert` call `k` turns exactly that file into the
    `k`-th bilevel page, and `tiffcp` joins that page as its `k`-th.
  */
  lemma {:induction false} LegacyPageFlow(opts: LegacyOptions, tempdir: string, k: nat)
    requires k < |opts.inputFiles|
    ensures var plan := LegacyPlan(opts, tempdir);
      var n := |opts.inputFiles|;
      var name := Format5(k);
      var positioned := PageFile(PagesDir(tempdir), name);
      var bilevel := PageFile(BilevelDir(tempdir), name);
      && plan[k + 1] == LegacyPageEvent(opts.inputFiles[k], opts.correctPosition, positioned)
      && plan[n + 2 + k].Run?
      && ParseEconvert(plan[n + 2 + k].argv) == Some(EconvertRequest(positioned, opts.brightness, opts.rotate, bilevel))
      && plan[2 * n + 2].argv[3 + k] == bilevel
  {
    var n := |opts.inputFiles|;
    var names := Basenames(n);
    BasenamesAt(n, k);
    var r := LegacyRepositionEvents(opts.inputFiles, names, opts.correctPosition, PagesDir(tempdir));
    var f := LegacyFromBilevel(opts, names, tempdir);
    LegacyRepositionEventAt(opts.inputFiles, names, opts.correctPosition, PagesDir(tempdir), k + 1);
    LegacyFromBilevelPage(opts, names, tempdir, k);
    var plan := LegacyPlan(opts, tempdir);
    assert plan == r + f;
    assert plan[k + 1] == r[k + 1];
    assert plan[n + 2 + k] == f[k + 1];
    assert plan[2 * n + 2] == f[n + 1];
  }

  /** After repositioning, `econvert` call `k` turns page file `k` into bilevel page `k`, which `tiffcp` joins as its `k`-th. */
  lemma {:induction false} LegacyFromBilevelPage(opts: LegacyOptions, names: seq<string>, tempdir: string, k: nat)
    requires k < |names|
    ensures var f := LegacyFromBilevel(opts, names, tempdir);
      var positioned := PageFile(PagesDir(tempdir), names[k]);
      var bilevel := PageFile(BilevelDir(tempdir), names[k]);
      && |f| == |names| + 4
      && f[k + 1].Run?
      && ParseEconvert(f[k + 1].argv) == Some(EconvertRequest(positioned, opts.brightness, opts.rotate, bilevel))
      && f[|names| + 1].argv[3 + k] == bilevel
  {
    var n := |names|;
    var f := LegacyFromBilevel(opts, names, tempdir);
    var b := BilevelEvents(opts.brightness, opts.rotate, names, BilevelDir(tempdir), PagesDir(tempdir));
    LegacyFromBilevelShape(opts, names, tempdir);
    BilevelEventAt(opts.brightness, opts.rotate, names, BilevelDir(tempdir), PagesDir(tempdir), k + 1);
    EconvertArgvShape(PageFile(PagesDir(tempdir), names[k]), opts.brightness, opts.rotate, PageFile(BilevelDir(tempdir), names[k]));
    TiffcpArgvShape(BilevelDir(tempdir), names);
    assert f[k + 1] == f[..n + 1][k + 1] == b[k + 1];
  }

  /** The only directories a run creates are the two page directories. */
  lemma {:induction false} LegacyMadeDirs(opts: LegacyOptions, tempdir: string)
    ensures var plan := LegacyPlan(opts, tempdir);
      forall k :: 0 <= k < |plan| && plan[k].MakeDir? ==> plan[k].path == PagesDir(tempdir) || plan[k].path == BilevelDir(tempdir)
  {
    var n := |opts.inputFiles|;
    var names := Basenames(n);
    var plan := LegacyPlan(opts, tempdir);
    var r := LegacyRepositionEvents(opts.inputFiles, names, opts.correctPosition, PagesDir(tempdir));
    var f := LegacyFromBilevel(opts, names, tempdir);
    var b := BilevelEvents(opts.brightness, opts.rotate, names, BilevelDir(tempdir), PagesDir(tempdir));
    assert plan == r + f;
    LegacyFromBilevelShape(opts, names, tempdir);
    forall k | 0 <= k < |plan|
      ensures plan[k].MakeDir? ==> plan[k].path == PagesDir(tempdir) || plan[k].path == BilevelDir(tempdir)
    {
      if k <= n {
        assert plan[k] == r[k];
        LegacyRepositionEventAt(opts.inputFiles, names, opts.correctPosition, PagesDir(tempdir), k);
      } else if k <= 2 * n + 1 {
        assert plan[k] == f[k - n - 1] == b[k - n - 1];
        BilevelEventAt(opts.brightness, opts.rotate, names, BilevelDir(tempdir), PagesDir(tempdir), k - n - 1);
      } else {
        assert plan[k] == f[k - n - 1];
      }
    }
  }

  /**
    Without OCR the last step copies the PDF to the output whatever the
    tools did before it: the copy is always attempted. Where that copy
    succeeds, the output path ends up holding a file: the output itself,
    or, when a directory stands there, `all.pdf` inside it.
  */
  lemma {:induction false} LegacyOutputWritten(fs: FileSystem, opts: LegacyOptions, tempdir: string)
    requires opts.languages.None?
    ensures var after := Effect(fs, LegacyPlan(opts, tempdir));
      var dirs := fs.dirs + {PagesDir(tempdir), BilevelDir(tempdir)};
      && (opts.output !in dirs ==> opts.output in after.files)
      && (opts.output in dirs ==> Join(opts.output, "all.pdf") in after.files)
  {
    LegacyFinalCopy(fs, opts, tempdir);
    PdfBasename(tempdir);
  }

  /** The same, with the name of the copy inside a directory left as `copy2` computes it. */
  lemma {:induction false} LegacyFinalCopy(fs: FileSystem, opts: LegacyOptions, tempdir: string)
    requires opts.languages.None?
    ensures var after := Effect(fs, LegacyPlan(opts, tempdir));
      var dirs := fs.dirs + {PagesDir(tempdir), BilevelDir(tempdir)};
      && (opts.output !in dirs ==> opts.output in after.files)
      && (opts.output in dirs ==> Join(opts.output, Basename(PdfFile(tempdir))) in after.files)
  {
    var n := |opts.inputFiles|;
    var plan := LegacyPlan(opts, tempdir);
    var m := |plan| - 1;
    LegacyPlanShape(opts, tempdir);
    LegacyMadeDirs(opts, tempdir);
    EffectSnoc(fs, plan, m);
    assert plan[..m + 1] == plan;
    var front := plan[..m];
    EffectDirs(fs, front);
    var made := set k | 0 <= k < |front| && front[k].MakeDir? :: front[k].path;
    assert made == {PagesDir(tempdir), BilevelDir(tempdir)} by {
      assert front[0] == plan[0] && front[n + 1] == plan[n + 1];
      forall p | p in made ensures p == PagesDir(tempdir) || p == BilevelDir(tempdir) {
        var k :| 0 <= k < |front| && front[k].MakeDir? && front[k].path == p;
        assert front[k] == plan[k];
      }
    }
  }

  /**
    With a relative `--tempdir` of one proper name, `tiffcp` cannot find the pages: it is
    started inside the working directory, but the page paths it is given
    already begin with that directory, so, resolved from wherever the
    script runs, the file `tiffcp` reads as its `k`-th page is not the one
    `econvert` call `k` wrote.
  */
  lemma {:induction false} LegacyRelativeTempdirMissesPages(opts: LegacyOptions, freshTemp: string, cwd: string, k: nat)
    requires k < |opts.inputFiles| && opts.tempdir.Some?
    requires ProperName(opts.tempdir.value)
    ensures var t := LegacyWorkDir(opts, freshTemp);
      var plan := LegacyPlan(opts, t);
      var n := |opts.inputFiles|;
      var written := PageFile(BilevelDir(t), Format5(k));
      && plan[n + 2 + k].Run? && ParseEconvert(plan[n + 2 + k].argv).Some?
      && ParseEconvert(plan[n + 2 + k].argv).value.output == written
      && plan[2 * n + 2].cwd == Some(t) && plan[2 * n + 2].argv[3 + k] == written
      && AbsPath(AbsPath(cwd, t), written) != AbsPath(cwd, written)
  {
    var t := LegacyWorkDir(opts, freshTemp);
    var written := PageFile(BilevelDir(t), Format5(k));
    LegacyPageFlow(opts, t, k);
    LegacyPlanShape(opts, t);
    var name := Format5(k) + ".tiff";
    Format5Digits(k);
    assert NoSlash(name) by {
      forall i | 0 <= i < |name| ensures name[i] != '/' {
        if i < |Format5(k)| {
          assert name[i] == Format5(k)[i];
        }
      }
    }
    RelativeTwice(cwd, t, "pages_bilevel", name);
  }

  /**
    Unlike the pages, the combined TIFF is found whatever `--tempdir` is,
    relative ones included: `tiffcp` writes `all.tiff` inside its working
    directory, which is `tempdir/all.tiff` from the script's directory,
    and that is the file `tiff2pdf` is given; resolved from any current
    directory, the name `tiffcp` is given and the name `tiff2pdf` is given
    are the same path.
  */
  lemma {:induction false} LegacyTiff2pdfFindsTiff(papersize: Option<string>, cwd: string, tempdir: string, basenames: seq<string>)
    ensures var tc := TiffcpArgv(BilevelDir(tempdir), basenames);
      var argv := LegacyTiff2pdfArgv(papersize, tempdir);
      && |argv| > 0 && argv[|argv| - 1] == TiffFile(tempdir)
      && ToolOutput(tc, Some(tempdir)) == Some(argv[|argv| - 1])
      && AbsPath(AbsPath(cwd, tempdir), tc[|tc| - 1]) == AbsPath(cwd, argv[|argv| - 1])
  {
    LegacyTiff2pdfShape(papersize, tempdir);
    TiffcpArgvShape(BilevelDir(tempdir), basenames);
    TiffcpWrites(BilevelDir(tempdir), basenames, tempdir);
    JoinTwice(cwd, tempdir, "all.tiff");
  }

  // ---------------------------------------------------------------------
  // Carrying the run out

  /**
    The legacy script in its world: the file system it started from, the
    log of events so far, and the exit statuses the tools will give,
    which the script never looks at.
  */
  class LegacyRun {
    const fs0: FileSystem
    var log: seq<Event>
    const status: nat -> int

    constructor (fs0: FileSystem, status: nat -> int)
      ensures this.fs0 == fs0 && log == [] && this.status == status
      ensures Fs() == fs0
    {
      this.fs0 := fs0;
      log := [];
      this.status := status;
    }

    /** The file system now. */
    function Fs(): FileSystem
      reads this
    {
      Effect(fs0, log)
    }

    /** `subprocess.call`: runs the tool and returns its exit status, whatever it is. */
    method Call(argv: seq<string>, cwd: Option<string>) returns (exitStatus: int)
      modifies this
      ensures log == old(log) + [Run(argv, cwd)]
      ensures exitStatus == status(|old(log)|)
    {
      exitStatus := status(|log|);
      log := log + [Run(argv, cwd)];
    }

    /** `shutil.copy2` */
    method Copy2(src: string, dst: string)
      modifies this
      ensures log == old(log) + [Copy(src, dst)]
    {
      log := log + [Copy(src, dst)];
    }

    /** `os.mkdir` */
    method Mkdir(path: string)
      modifies this
      ensures log == old(log) + [MakeDir(path)]
    {
      log := log + [MakeDir(path)];
    }

    /** One pass of the loop of `reposition`: a `convert` with the A4 block, or a copy, into the page file. */
    method RepositionPage(inputFilename: string, correctPosition: bool, outputFilename: string)
      modifies this
      ensures log == old(log) + [LegacyPageEvent(inputFilename, correctPosition, outputFilename)]
    {
      if correctPosition {
        var convertArgs := [
          "convert", inputFilename,
          "-gravity", "southeast", "-chop", "55x0",
          "-gravity", "northwest", "-splice", "72x90",
          "-gravity", "southeast", "-splice", "0x52",
          outputFilename];
        assert convertArgs == ["convert", inputFilename] + A4Correction + [outputFilename];
        var exitStatus := Call(convertArgs, None);
      } else {
        Copy2(inputFilename, outputFilename);
      }
    }

    /**
      `reposition`: creates the page directory, then for each input file,
      in order, names it by its index and converts or copies it there;
      returns the names.
    */
    method Reposition(inputFiles: seq<string>, correctPosition: bool, pagesDir: string) returns (basenames: seq<string>)
      modifies this
      ensures log == old(log) + LegacyRepositionEvents(inputFiles, Basenames(|inputFiles|), correctPosition, pagesDir)
      ensures basenames == Basenames(|inputFiles|)
    {
      ghost var names := Basenames(|inputFiles|);
      ghost var events := LegacyRepositionEvents(inputFiles, names, correctPosition, pagesDir);
      ghost var log0 := log;
      basenames := [];
      Mkdir(pagesDir);
      LegacyRepositionEventAt(inputFiles, names, correctPosition, pagesDir, 0);
      assert events[..1] == [MakeDir(pagesDir)];
      var i := 0;
      while i < |inputFiles|
        invariant 0 <= i <= |inputFiles|
        invariant log == log0 + events[..i + 1]
        invariant basenames == Basenames(i)
      {
        var outputBasename := Format5(i);
        BasenamesAt(|inputFiles|, i);
        basenames := basenames + [outputBasename];
        RepositionNext(inputFiles, names, correctPosition, pagesDir, i, outputBasename, log0, events);
        i := i + 1;
      }
      assert events[..i + 1] == events;
    }

    /** The page `i` of `reposition`, once its name is known: the log grows by event `i + 1` of the plan. */
    method RepositionNext(inputFiles: seq<string>, ghost names: seq<string>, correctPosition: bool, pagesDir: string,
                          i: nat, outputBasename: string, ghost log0: seq<Event>, ghost events: seq<Event>)
      requires i < |inputFiles| == |names| && outputBasename == names[i]
      requires events == LegacyRepositionEvents(inputFiles, names, correctPosition, pagesDir)
      requires log == log0 + events[..i + 1]
      modifies this
      ensures log == log0 + events[..i + 2]
    {
      var outputFilename := Join(pagesDir, outputBasename + ".tiff");
      LegacyRepositionEventAt(inputFiles, names, correctPosition, pagesDir, i + 1);
      RepositionPage(inputFiles[i], correctPosition, outputFilename);
      assert events[..i + 2] == events[..i + 1] + [events[i + 1]];
    }

    /** `convert_to_bilevel`: creates the bilevel directory, then one `econvert` per page name, in order. */
    method ConvertToBilevel(brightness: string, rotate: Option<string>, basenames: seq<string>, pagesBilevelDir: string, pagesDir: string)
      modifies this
      ensures log == old(log) + BilevelEvents(brightness, rotate, basenames, pagesBilevelDir, pagesDir)
    {
      ghost var events := BilevelEvents(brightness, rotate, basenames, pagesBilevelDir, pagesDir);
      ghost var log0 := log;
      Mkdir(pagesBilevelDir);
      BilevelEventAt(brightness, rotate, basenames, pagesBilevelDir, pagesDir, 0);
      assert events[..1] == [MakeDir(pagesBilevelDir)];
      var i := 0;
      while i < |basenames|
        invariant 0 <= i <= |basenames|
        invariant log == log0 + events[..i + 1]
      {
        var infile := Join(pagesDir, basenames[i] + ".tiff");
        var outfile := Join(pagesBilevelDir, basenames[i] + ".tiff");
        var econvertArgs := ["econvert", "-i", infile, "--brightness", brightness, "--colorspace", "bilevel"];
        if rotate.Some? {
          econvertArgs := econvertArgs + ["--rotate", rotate.value];
        }
        econvertArgs := econvertArgs + ["--output", outfile];
        BilevelEventAt(brightness, rotate, basenames, pagesBilevelDir, pagesDir, i + 1);
        assert Run(econvertArgs, None) == events[i + 1];
        var exitStatus := Call(econvertArgs, None);
        assert events[..i + 2] == events[..i + 1] + [events[i + 1]];
        i := i + 1;
      }
      assert events[..i + 1] == events;
    }

    /** `make_multipage_tiff`: one `tiffcp` call inside the working directory. */
    method MakeMultipageTiff(basenames: seq<string>, pagesBilevelDir: string, tempdir: string)
      modifies this
      ensures log == old(log) + [Run(TiffcpArgv(pagesBilevelDir, basenames), Some(tempdir))]
    {
      var tiffcpArgs := ["tiffcp", "-c", "g4"];
      tiffcpArgs := tiffcpArgs + seq(|basenames|, k requires 0 <= k < |basenames| => Join(pagesBilevelDir, basenames[k] + ".tiff"));
      tiffcpArgs := tiffcpArgs + ["all.tiff"];
      assert tiffcpArgs == TiffcpArgv(pagesBilevelDir, basenames);
      var exitStatus := Call(tiffcpArgs, Some(tempdir));
    }

    /** `convert_tiff_to_pdf`: one `tiff2pdf` call, with the paper size when one is given; returns the name of the PDF. */
    method ConvertTiffToPdf(papersize: Option<string>, tempdir: string) returns (tiff2pdfOutputFile: string)
      modifies this
      ensures log == old(log) + [Run(LegacyTiff2pdfArgv(papersize, tempdir), None)]
      ensures tiff2pdfOutputFile == PdfFile(tempdir)
    {
      tiff2pdfOutputFile := Join(tempdir, "all.pdf");
      var tiff2pdfArgs := ["tiff2pdf", "-c", "g4", "-x600", "-y600"];
      tiff2pdfArgs := tiff2pdfArgs + ["-o", tiff2pdfOutputFile];
      if papersize.Some? {
        tiff2pdfArgs := tiff2pdfArgs + ["-p", papersize.value];
      }
      tiff2pdfArgs := tiff2pdfArgs + [Join(tempdir, "all.tiff")];
      assert tiff2pdfArgs == LegacyTiff2pdfArgv(papersize, tempdir);
      var exitStatus := Call(tiff2pdfArgs, None);
    }

    /** `perform_ocr_on_pdf`: `pdfsandwich` into the output when languages are given, a copy to the output otherwise. */
    method PerformOcrOnPdf(languages: Option<string>, output: string, tiff2pdfOutputFile: string)
      modifies this
      ensures log == old(log) + [LegacyOcrEvent(languages, tiff2pdfOutputFile, output)]
    {
      if languages.Some? {
        var pdfsandwichArgs := [
          "pdfsandwich",
          "-maxpixels", "999999999",
          "-lang", languages.value,
          "-o", output,
          "-nopreproc",
          tiff2pdfOutputFile];
        var exitStatus := Call(pdfsandwichArgs, None);
      } else {
        Copy2(tiff2pdfOutputFile, output);
      }
    }

    /** `process`: every step in order, none of them looking at how the one before ended. */
    method Process(opts: LegacyOptions, tempdir: string)
      modifies this
      ensures log == old(log) + LegacyPlan(opts, tempdir)
    {
      ghost var log0 := log;
      var pagesDir := Join(tempdir, "pages_positioned");
      var basenames := Reposition(opts.inputFiles, opts.correctPosition, pagesDir);
      ghost var repositioned := log;
      ProcessFromBilevel(opts, tempdir, basenames, pagesDir);
      Associative(log0, repositioned[|log0|..], log[|repositioned|..]);
    }

    /** The steps of `process` after repositioning, for the page names it returned. */
    method ProcessFromBilevel(opts: LegacyOptions, tempdir: string, basenames: seq<string>, pagesDir: string)
      requires pagesDir == PagesDir(tempdir)
      modifies this
      ensures log == old(log) + LegacyFromBilevel(opts, basenames, tempdir)
    {
      var pagesBilevelDir := Join(tempdir, "pages_bilevel");
      ConvertToBilevel(opts.brightness, opts.rotate, basenames, pagesBilevelDir, pagesDir);
      MakeMultipageTiff(basenames, pagesBilevelDir, tempdir);
      var tiff2pdfOutputFile := ConvertTiffToPdf(opts.papersize, tempdir);
      PerformOcrOnPdf(opts.languages, opts.output, tiff2pdfOutputFile);
    }

    /**
      `main`: the run in a fresh temporary directory, or in the one asked
      for. The file system afterwards is the effect of the whole plan, for
      every assignment of exit statuses.
    */
    method Launch(opts: LegacyOptions, freshTemp: string)
      modifies this
      ensures log == old(log) + LegacyPlan(opts, LegacyWorkDir(opts, freshTemp))
      ensures Fs() == Effect(old(Fs()), LegacyPlan(opts, LegacyWorkDir(opts, freshTemp)))
    {
      ghost var log0 := log;
      assert old(Fs()) == Effect(fs0, log0);
      var tempdir := if opts.tempdir.None? then freshTemp else opts.tempdir.value;
      Process(opts, tempdir);
      EffectAppend(fs0, log0, LegacyPlan(opts, tempdir));
    }
  }
}
