/**
  The packaged script `makebwpdf`: it checks its command line, then runs a
  fixed sequence of external tools in a working directory, each through
  `subprocess.check_call`, so that the first tool to fail ends the run.

  The argument vectors of the tools are functions of the parsed options;
  the planned events of a whole run are `Plan`; the class `Pipeline`
  carries the run out step by step against a log of events and a model of
  the file system, and every one of its methods is proved to perform the
  fail-fast `Attempt` of its part of the plan.
*/
module MakeBwPdf {
  import opened Wrappers
  import opened Paths
  import opened PageNames
  import opened Trace

  /** The parsed command line; `brightness` is the single string the option holds. */
  datatype Options = Options(
    brightness: string,
    output: string,
    append: bool,
    papersize: string,
    tempdir: Option<string>,
    rotate: Option<string>,
    languages: Option<string>,
    scan: bool,
    correctPosition: bool,
    inputFiles: seq<string>)

  // ---------------------------------------------------------------------
  // Checking the command line

  /** Either go on, or stop with an exit status and one line on standard error. */
  datatype Verdict = Proceed | Exit(status: int, stderr: string)

  const NoInputMessage: string :=
    ": error: " + "either the --scan option or at least one input file must be supplied."
  const NoOutputMessage: string := "cannot append, since output file does not exist"
  const OutputExistsMessage: string := "output file exists (use --append to append to it)"

  /** The line `exit_with_error` prints: the program's file name, a colon and a space, the message. */
  function ErrorLine(program: string, message: string): (line: string)
    ensures HasPrefix(Basename(program) + ": ", line)
    ensures |line| >= |message| && line[|line| - |message|..] == message
    ensures |line| == |Basename(program)| + 2 + |message|
  {
    Basename(program) + ": " + message
  }

  /**
    The checks `main` makes before any work: some input or a scan is
    needed; appending needs an existing regular file; otherwise nothing may
    exist under the output name yet. Each failure exits with status 1.
  */
  function Validate(program: string, opts: Options, fs: FileSystem): (v: Verdict)
    ensures v == Proceed <==>
      && (opts.inputFiles != [] || opts.scan)
      && (if opts.append then IsFile(fs, opts.output) else !Exists(fs, opts.output))
    ensures v.Exit? ==> v.status == 1 && HasPrefix(Basename(program) + ": ", v.stderr)
    ensures opts.inputFiles == [] && !opts.scan ==> v == Exit(1, ErrorLine(program, NoInputMessage))
    ensures (opts.inputFiles != [] || opts.scan) && opts.append && !IsFile(fs, opts.output) ==>
      v == Exit(1, ErrorLine(program, NoOutputMessage))
    ensures (opts.inputFiles != [] || opts.scan) && !opts.append && Exists(fs, opts.output) ==>
      v == Exit(1, ErrorLine(program, OutputExistsMessage))
    ensures opts.output in fs.dirs && opts.output !in fs.files ==> v.Exit?
  {
    if opts.inputFiles == [] && !opts.scan then Exit(1, ErrorLine(program, NoInputMessage))
    else if opts.append && !IsFile(fs, opts.output) then Exit(1, ErrorLine(program, NoOutputMessage))
    else if !opts.append && Exists(fs, opts.output) then Exit(1, ErrorLine(program, OutputExistsMessage))
    else Proceed
  }

  /** The message for a missing input already starts with a colon, so the printed line has two. */
  lemma {:induction false} NoInputLineDoubled(program: string)
    ensures HasPrefix(Basename(program) + ": : error: ", ErrorLine(program, NoInputMessage))
  {
    var b := Basename(program);
    var line := b + ": " + NoInputMessage;
    assert line == b + ": " + ": error: " + "either the --scan option or at least one input file must be supplied.";
    assert line[..|b| + 11] == b + ": : error: ";
  }

  // ---------------------------------------------------------------------
  // Paper size

  /** The `convert` operations that correct the position of an A4 scan. */
  const A4Correction: seq<string> := [
    "-gravity", "southeast", "-chop", "55x0",
    "-gravity", "northwest", "-splice", "72x90",
    "-gravity", "southeast", "-splice", "0x52"]

  /** The `convert` operations that correct the position of an A5 scan. */
  const A5Correction: seq<string> := [
    "-gravity", "southeast", "-chop", "78x0",
    "-gravity", "northwest", "-splice", "70x90",
    "-gravity", "southeast", "-chop", "0x92"]

  /** The paper-size test of the script: `papersize.lower() == "a5"`. */
  predicate IsA5(papersize: string)
  {
    Lower(papersize) == "a5"
  }

  /** The scan area in millimetres, width and height: A5 when the paper size lower-cases to "a5", A4 otherwise. */
  function ScanSize(papersize: string): (nat, nat)
  {
    if IsA5(papersize) then (148, 210) else (210, 297)
  }

  /** The position-correction block for the paper size, with the same fallback to A4. */
  function CorrectionArgs(papersize: string): seq<string>
  {
    if IsA5(papersize) then A5Correction else A4Correction
  }

  /**
    The paper-size choice: exactly "a5" and "A5" select the A5 scan area and
    correction block; every other value, "A4" or anything else, gets A4's.
  */
  lemma {:induction false} PaperSizeChoice(papersize: string)
    ensures ScanSize(papersize) == if papersize == "a5" || papersize == "A5" then (148, 210) else (210, 297)
    ensures CorrectionArgs(papersize) == if papersize == "a5" || papersize == "A5" then A5Correction else A4Correction
  {
    LowerIsA5(papersize);
  }

  // ---------------------------------------------------------------------
  // Names inside the working directory

  function ScanFile(tempdir: string): string { Join(tempdir, "scan.tiff") }
  function PagesDir(tempdir: string): string { Join(tempdir, "pages_positioned") }
  function BilevelDir(tempdir: string): string { Join(tempdir, "pages_bilevel") }
  function TiffFile(tempdir: string): string { Join(tempdir, "all.tiff") }
  function PdfFile(tempdir: string): string { Join(tempdir, "all.pdf") }
  function OcrFile(tempdir: string): string { Join(tempdir, "all_ocr.pdf") }
  function AppendedFile(tempdir: string): string { Join(tempdir, "appended.pdf") }

  /** `copy2` of the PDF into a directory names the copy `all.pdf`. */
  lemma {:induction false} PdfBasename(tempdir: string)
    ensures Basename(PdfFile(tempdir)) == "all.pdf"
  {
    JoinBasename(tempdir, "all.pdf");
  }

  /** The file of one page, by page name, in one of the page directories. */
  function PageFile(dir: string, basename: string): string
  {
    Join(dir, basename + ".tiff")
  }

  /** The page files of `n` pages in `dir` are pairwise distinct; up to 100000 pages they ascend as strings. */
  lemma {:induction false} PageFilesDistinctOrdered(dir: string, n: nat)
    ensures forall j, k :: 0 <= j < k < n ==> PageFile(dir, Format5(j)) != PageFile(dir, Format5(k))
    ensures n <= 100000 ==> forall j, k :: 0 <= j < k < n ==>
      LexLess(PageFile(dir, Format5(j)), PageFile(dir, Format5(k)))
  {
    forall j, k | 0 <= j < k < n
      ensures PageFile(dir, Format5(j)) != PageFile(dir, Format5(k))
      ensures n <= 100000 ==> LexLess(PageFile(dir, Format5(j)), PageFile(dir, Format5(k)))
    {
      var a, b := Format5(j), Format5(k);
      Format5Digits(j);
      Format5Digits(k);
      assert IsDigit(a[0]) && IsDigit(b[0]);
      PageFilePair(dir, a, b);
      if a == b {
        Format5Injective(j, k);
      }
      if n <= 100000 {
        Format5Width(j);
        Format5Width(k);
        Format5Ordered(j, k);
      }
    }
  }

  /** Page files of two relative names in one directory: equal only for equal names, and ordered as names of equal length are. */
  lemma {:induction false} PageFilePair(dir: string, a: string, b: string)
    requires |a| > 0 && |b| > 0 && a[0] != '/' && b[0] != '/'
    ensures PageFile(dir, a) == PageFile(dir, b) ==> a == b
    ensures |a| == |b| && LexLess(a, b) ==> LexLess(PageFile(dir, a), PageFile(dir, b))
  {
    var x, y := a + ".tiff", b + ".tiff";
    assert !IsAbsolute(x) && !IsAbsolute(y) by {
      assert x[0] == a[0] && y[0] == b[0];
    }
    if PageFile(dir, a) == PageFile(dir, b) {
      JoinInjective(dir, x, y);
      assert a == x[..|x| - 5] == y[..|y| - 5] == b;
    }
    if |a| == |b| && LexLess(a, b) {
      LexLessExtend(a, b, ".tiff", ".tiff");
      var sep := if dir == [] || dir[|dir| - 1] == '/' then "" else "/";
      assert Join(dir, x) == (dir + sep) + x && Join(dir, y) == (dir + sep) + y;
      LexLessCommonPrefix(dir + sep, x, y);
    }
  }

  /** A page file lies inside its directory. */
  lemma {:induction false} PageFileUnder(p: string, dir: string, basename: string)
    requires HasPrefix(p, dir) && |basename| > 0 && basename[0] != '/'
    ensures HasPrefix(p, PageFile(dir, basename))
  {
    assert (basename + ".tiff")[0] == basename[0];
    JoinKeepsPrefix(p, dir, basename + ".tiff");
  }

  // ---------------------------------------------------------------------
  // Argument vectors of the tools

  /** `scanimage`: the scan area of the paper size, 600 dpi, grey, TIFF, into the working directory. */
  function ScanArgv(papersize: string, tempdir: string): seq<string>
  {
    var size := ScanSize(papersize);
    ["scanimage",
     "-x", Decimal(size.0),
     "-y", Decimal(size.1),
     "--resolution", "600",
     "--mode", "True Gray",
     "--format", "tiff",
     "--output-file", Join(tempdir, "scan.tiff")]
  }

  /** The `scanimage` call asks for 148 by 210 mm for "a5" in either case and 210 by 297 mm otherwise, and writes the scan file. */
  lemma {:induction false} ScanArgvShape(papersize: string, tempdir: string)
    ensures var argv := ScanArgv(papersize, tempdir);
      && |argv| == 13 && argv[0] == "scanimage" && argv[1] == "-x" && argv[3] == "-y"
      && argv[5..12] == ["--resolution", "600", "--mode", "True Gray", "--format", "tiff", "--output-file"]
      && argv[12] == ScanFile(tempdir)
      && (papersize == "a5" || papersize == "A5" ==> argv[2] == "148" && argv[4] == "210")
      && (!(papersize == "a5" || papersize == "A5") ==> argv[2] == "210" && argv[4] == "297")
  {
    PaperSizeChoice(papersize);
    SizesInDecimal();
  }

  /** The three millimetre sizes `scanimage` is given, written out. */
  lemma {:induction false} SizesInDecimal()
    ensures Decimal(148) == "148" && Decimal(210) == "210" && Decimal(297) == "297"
  {
    assert Decimal(14) == "14" && Decimal(21) == "21" && Decimal(29) == "29";
  }

  /** `convert`: the input, the correction block, the output. */
  function ConvertArgv(input: string, papersize: string, output: string): seq<string>
  {
    ["convert", input] + CorrectionArgs(papersize) + [output]
  }

  /** The `convert` call: input first, output last, and between them the A5 block exactly for "a5" in either case, the A4 block otherwise. */
  lemma {:induction false} ConvertArgvShape(input: string, papersize: string, output: string)
    ensures var argv := ConvertArgv(input, papersize, output);
      && |argv| == 15 && argv[0] == "convert" && argv[1] == input && argv[14] == output
      && argv[2..14] == if papersize == "a5" || papersize == "A5" then A5Correction else A4Correction
  {
    PaperSizeChoice(papersize);
    var argv := ConvertArgv(input, papersize, output);
    assert argv[2..14] == CorrectionArgs(papersize);
  }

  /** What an `econvert` command line asks for. */
  datatype EconvertRequest = EconvertRequest(input: string, brightness: string, rotate: Option<string>, output: string)

  /** Reads an `econvert` command line of the form the script writes; `None` for any other form. */
  function ParseEconvert(argv: seq<string>): Option<EconvertRequest>
  {
    if |argv| >= 9 && argv[..2] == ["econvert", "-i"] && argv[3] == "--brightness"
       && argv[5..7] == ["--colorspace", "bilevel"] && argv[|argv| - 2] == "--output"
    then
      if |argv| == 9 then Some(EconvertRequest(argv[2], argv[4], None, argv[8]))
      else if |argv| == 11 && argv[7] == "--rotate" then Some(EconvertRequest(argv[2], argv[4], Some(argv[8]), argv[10]))
      else None
    else None
  }

  /**
    `econvert`: input, brightness, bilevel colour space, a rotation only
    when one was given, and always the output last.
  */
  function EconvertArgv(infile: string, brightness: string, rotate: Option<string>, outfile: string): seq<string>
  {
    ["econvert", "-i", infile, "--brightness", brightness, "--colorspace", "bilevel"]
      + (if rotate.Some? then ["--rotate", rotate.value] else [])
      + ["--output", outfile]
  }

  /**
    The `econvert` call reads back as what was asked: the input, the
    brightness, the rotation exactly when one was given, and the output,
    which always comes last.
  */
  lemma {:induction false} EconvertArgvShape(infile: string, brightness: string, rotate: Option<string>, outfile: string)
    ensures var argv := EconvertArgv(infile, brightness, rotate, outfile);
      && ParseEconvert(argv) == Some(EconvertRequest(infile, brightness, rotate, outfile))
      && |argv| == (if rotate.Some? then 11 else 9) && argv[|argv| - 2..] == ["--output", outfile]
  {
    var argv := EconvertArgv(infile, brightness, rotate, outfile);
    assert argv[..2] == ["econvert", "-i"] && argv[5..7] == ["--colorspace", "bilevel"];
  }

  /** `tiffcp`: group 4 compression, the bilevel pages in page order, into `all.tiff`. */
  function TiffcpArgv(bilevelDir: string, basenames: seq<string>): seq<string>
  {
    ["tiffcp", "-c", "g4"]
      + seq(|basenames|, k requires 0 <= k < |basenames| => PageFile(bilevelDir, basenames[k]))
      + ["all.tiff"]
  }

  /** The `tiffcp` call names the `k`-th page's bilevel file at position `3 + k`, so page order is input order. */
  lemma {:induction false} TiffcpArgvShape(bilevelDir: string, basenames: seq<string>)
    ensures var argv := TiffcpArgv(bilevelDir, basenames);
      && |argv| == |basenames| + 4 && argv[..3] == ["tiffcp", "-c", "g4"] && argv[|argv| - 1] == "all.tiff"
      && forall k :: 0 <= k < |basenames| ==> argv[3 + k] == PageFile(bilevelDir, basenames[k])
  {
  }

  /** `tiff2pdf`: group 4, 600 dpi both ways, from `all.tiff` to `all.pdf`. */
  function Tiff2pdfArgv(tempdir: string): seq<string>
  {
    ["tiff2pdf", "-c", "g4", "-x600", "-y600"] + ["-o", Join(tempdir, "all.pdf")] + [Join(tempdir, "all.tiff")]
  }

  /**
    `tiff2pdf` reads the file `tiffcp` wrote: `tiffcp` names `all.tiff`
    relative to its own working directory `tempdir`, and `tiff2pdf` is
    given `tempdir/all.tiff` from the script's directory. Both resolve to
    the same path, from any current directory.
  */
  lemma {:induction false} Tiff2pdfFindsTiff(cwd: string, tempdir: string, basenames: seq<string>)
    ensures var tc := TiffcpArgv(BilevelDir(tempdir), basenames);
      var argv := Tiff2pdfArgv(tempdir);
      && |argv| == 8 && argv[..5] == ["tiff2pdf", "-c", "g4", "-x600", "-y600"]
      && argv[5] == "-o" && argv[6] == PdfFile(tempdir) && argv[7] == TiffFile(tempdir)
      && ToolOutput(tc, Some(tempdir)) == Some(argv[7])
      && AbsPath(AbsPath(cwd, tempdir), tc[|tc| - 1]) == AbsPath(cwd, argv[7])
  {
    TiffcpArgvShape(BilevelDir(tempdir), basenames);
    TiffcpWrites(BilevelDir(tempdir), basenames, tempdir);
    JoinTwice(cwd, tempdir, "all.tiff");
  }

  /** `pdfsandwich`: OCR in the given languages at 600 dpi, from `input` to `output`. */
  function PdfsandwichArgv(languages: string, input: string, output: string): seq<string>
  {
    ["pdfsandwich",
     "-maxpixels", "999999999",
     "-resolution", "600",
     "-lang", languages,
     "-o", output,
     "-nopreproc",
     input]
  }

  /** `pdftk`: all pages of `mainFile`, then all pages of `additional`, into `output`. */
  function PdftkArgv(mainFile: string, additional: string, output: string): seq<string>
  {
    ["pdftk", mainFile, additional, "cat", "output", output]
  }

  // ---------------------------------------------------------------------
  // The file each tool writes

  /** `scanimage` writes `scan.tiff` in the working directory, the value of `--output-file`. */
  lemma {:induction false} ScanWrites(papersize: string, tempdir: string)
    ensures ToolOutput(ScanArgv(papersize, tempdir), None) == Some(ScanFile(tempdir))
  {
  }

  /** `convert` writes the file given last. */
  lemma {:induction false} ConvertWrites(input: string, papersize: string, output: string)
    ensures ToolOutput(ConvertArgv(input, papersize, output), None) == Some(output)
  {
  }

  /** `econvert` writes the value of `--output`, given last. */
  lemma {:induction false} EconvertWrites(infile: string, brightness: string, rotate: Option<string>, outfile: string)
    ensures ToolOutput(EconvertArgv(infile, brightness, rotate, outfile), None) == Some(outfile)
  {
  }

  /** `tiffcp`, run inside the directory `t`, writes `all.tiff` there, whatever `t` is. */
  lemma {:induction false} TiffcpWrites(bilevelDir: string, basenames: seq<string>, t: string)
    ensures ToolOutput(TiffcpArgv(bilevelDir, basenames), Some(t)) == Some(TiffFile(t))
  {
  }

  /** `tiff2pdf` writes `all.pdf` in the working directory: the value of `-o`, reached past `-c g4`, `-x600` and `-y600`. */
  lemma {:induction false} Tiff2pdfWrites(tempdir: string)
    ensures ToolOutput(Tiff2pdfArgv(tempdir), None) == Some(PdfFile(tempdir))
  {
    var argv := Tiff2pdfArgv(tempdir);
    var valued := {"-c", "-o", "-p"};
    assert OptionValue(["-o", PdfFile(tempdir), TiffFile(tempdir)], "-o", valued) == Some(PdfFile(tempdir));
    assert OptionValue(["-y600", "-o", PdfFile(tempdir), TiffFile(tempdir)], "-o", valued) == Some(PdfFile(tempdir));
    assert OptionValue(["-x600", "-y600", "-o", PdfFile(tempdir), TiffFile(tempdir)], "-o", valued) == Some(PdfFile(tempdir));
    assert argv[1..] == ["-c", "g4", "-x600", "-y600", "-o", PdfFile(tempdir), TiffFile(tempdir)];
  }

  /**
    `pdfsandwich` writes the value of `-o`, reached past the values of
    `-maxpixels`, `-resolution` and `-lang`, even a language list that
    reads "-o".
  */
  lemma {:induction false} PdfsandwichWrites(languages: string, input: string, output: string)
    ensures ToolOutput(PdfsandwichArgv(languages, input, output), None) == Some(output)
  {
    var argv := PdfsandwichArgv(languages, input, output);
    var valued := {"-maxpixels", "-resolution", "-lang", "-o"};
    var tail := ["-o", output, "-nopreproc", input];
    assert OptionValue(tail, "-o", valued) == Some(output);
    assert OptionValue(["-lang", languages] + tail, "-o", valued) == Some(output) by {
      assert (["-lang", languages] + tail)[2..] == tail;
    }
    assert OptionValue(["-resolution", "600", "-lang", languages] + tail, "-o", valued) == Some(output) by {
      assert (["-resolution", "600", "-lang", languages] + tail)[2..] == ["-lang", languages] + tail;
    }
    assert argv[1..] == ["-maxpixels", "999999999", "-resolution", "600", "-lang", languages] + tail;
    assert argv[1..][2..] == ["-resolution", "600", "-lang", languages] + tail;
  }

  /** `pdftk` writes the file named after `output`, given last. */
  lemma {:induction false} PdftkWrites(mainFile: string, additional: string, output: string)
    ensures ToolOutput(PdftkArgv(mainFile, additional, output), None) == Some(output)
  {
  }

  // ---------------------------------------------------------------------
  // The planned events of each stage and of a whole run

  /** The page set: the single scan when scanning (input files ignored), the input files otherwise. */
  function Sources(opts: Options, tempdir: string): (files: seq<string>)
    ensures opts.scan ==> files == [ScanFile(tempdir)]
    ensures !opts.scan ==> files == opts.inputFiles
  {
    if opts.scan then [ScanFile(tempdir)] else opts.inputFiles
  }

  /** Acquisition: one `scanimage` call when scanning, nothing otherwise. */
  function AcquireEvents(opts: Options, tempdir: string): seq<Event>
  {
    if opts.scan then [Run(ScanArgv(opts.papersize, tempdir), None)] else []
  }

  /** What happens to one input file: a `convert` into `output`, or a plain copy there. */
  function PageEvent(input: string, papersize: string, correctPosition: bool, output: string): Event
  {
    if correctPosition then Run(ConvertArgv(input, papersize, output), None) else Copy(input, output)
  }

  /**
    Creating the directory, then one event per input file, in input order,
    into the page file of the same position in `basenames` (in a run, the
    names `Basenames(|inputFiles|)`, one per index).
  */
  function RepositionEvents(inputFiles: seq<string>, basenames: seq<string>, papersize: string, correctPosition: bool, pagesDir: string)
    : (events: seq<Event>)
    requires |basenames| == |inputFiles|
    ensures |events| == |inputFiles| + 1
  {
    if inputFiles == [] then [MakeDir(pagesDir)]
    else
      var n := |inputFiles| - 1;
      RepositionEvents(inputFiles[..n], basenames[..n], papersize, correctPosition, pagesDir)
        + [PageEvent(inputFiles[n], papersize, correctPosition, PageFile(pagesDir, basenames[n]))]
  }

  /**
    The repositioning plan, event by event: the directory first, then at
    position `k + 1` the event of the `k`-th input file, into the page file
    of the `k`-th name.
  */
  lemma {:induction false} RepositionEventAt(inputFiles: seq<string>, basenames: seq<string>, papersize: string, correctPosition: bool, pagesDir: string, k: nat)
    requires |basenames| == |inputFiles| && k <= |inputFiles|
    ensures RepositionEvents(inputFiles, basenames, papersize, correctPosition, pagesDir)[k] ==
      if k == 0 then MakeDir(pagesDir)
      else PageEvent(inputFiles[k - 1], papersize, correctPosition, PageFile(pagesDir, basenames[k - 1]))
    decreases |inputFiles|
  {
    if inputFiles != [] {
      var n := |inputFiles| - 1;
      if k <= n {
        RepositionEventAt(inputFiles[..n], basenames[..n], papersize, correctPosition, pagesDir, k);
      }
    }
  }

  /** The `econvert` call of one page: from its positioned file to its bilevel file. */
  function BilevelEvent(basename: string, brightness: string, rotate: Option<string>, bilevelDir: string, pagesDir: string): Event
  {
    Run(EconvertArgv(PageFile(pagesDir, basename), brightness, rotate, PageFile(bilevelDir, basename)), None)
  }

  /** Creating the directory, then one `econvert` per page name, in order. */
  function BilevelEvents(brightness: string, rotate: Option<string>, basenames: seq<string>, bilevelDir: string, pagesDir: string)
    : (events: seq<Event>)
    ensures |events| == |basenames| + 1
  {
    if basenames == [] then [MakeDir(bilevelDir)]
    else
      var n := |basenames| - 1;
      BilevelEvents(brightness, rotate, basenames[..n], bilevelDir, pagesDir)
        + [BilevelEvent(basenames[n], brightness, rotate, bilevelDir, pagesDir)]
  }

  /** The bilevel plan, event by event: the directory first, then at position `k + 1` the call for the `k`-th page name. */
  lemma {:induction false} BilevelEventAt(brightness: string, rotate: Option<string>, basenames: seq<string>, bilevelDir: string, pagesDir: string, k: nat)
    requires k <= |basenames|
    ensures BilevelEvents(brightness, rotate, basenames, bilevelDir, pagesDir)[k] ==
      if k == 0 then MakeDir(bilevelDir) else BilevelEvent(basenames[k - 1], brightness, rotate, bilevelDir, pagesDir)
    decreases |basenames|
  {
    if basenames != [] {
      var n := |basenames| - 1;
      if k <= n {
        BilevelEventAt(brightness, rotate, basenames[..n], bilevelDir, pagesDir, k);
      }
    }
  }

  /** OCR runs `pdfsandwich` exactly when languages are given; otherwise the PDF is copied unchanged. */
  function OcrEvents(languages: Option<string>, input: string, output: string): (events: seq<Event>)
    ensures |events| == 1 && (events[0].Run? <==> languages.Some?)
    ensures languages.Some? ==> events[0] == Run(PdfsandwichArgv(languages.value, input, output), None)
    ensures languages.None? ==> events[0] == Copy(input, output)
  {
    if languages.Some? then [Run(PdfsandwichArgv(languages.value, input, output), None)]
    else [Copy(input, output)]
  }

  /** Appending: `pdftk` puts the existing document first and the new one second, and the result replaces the output. */
  function AppendEvents(mainFile: string, additional: string, tempdir: string): (events: seq<Event>)
    ensures |events| == 2
    ensures events[0] == Run(["pdftk", mainFile, additional, "cat", "output", AppendedFile(tempdir)], None)
    ensures events[1] == Copy(AppendedFile(tempdir), mainFile)
  {
    var outputFile := Join(tempdir, "appended.pdf");
    [Run(PdftkArgv(mainFile, additional, outputFile), None), Copy(outputFile, mainFile)]
  }

  /** The output: appended to with `pdftk`, or a copy of the OCR result. */
  function FinishEvents(opts: Options, ocrFile: string, tempdir: string): seq<Event>
  {
    if opts.append then AppendEvents(opts.output, ocrFile, tempdir) else [Copy(ocrFile, opts.output)]
  }

  /*
    The stages of `process`, in order: acquisition, repositioning, bilevel
    conversion, the multi-page TIFF, the PDF, OCR, the output. `FromX`
    holds the events of a run from stage X on.
  */

  function FromOcr(opts: Options, tempdir: string): seq<Event>
  {
    OcrEvents(opts.languages, PdfFile(tempdir), OcrFile(tempdir)) + FinishEvents(opts, OcrFile(tempdir), tempdir)
  }

  function FromPdf(opts: Options, tempdir: string): seq<Event>
  {
    [Run(Tiff2pdfArgv(tempdir), None)] + FromOcr(opts, tempdir)
  }

  function FromTiff(opts: Options, tempdir: string): seq<Event>
  {
    [Run(TiffcpArgv(BilevelDir(tempdir), Basenames(|Sources(opts, tempdir)|)), Some(tempdir))] + FromPdf(opts, tempdir)
  }

  function FromBilevel(opts: Options, tempdir: string): seq<Event>
  {
    BilevelEvents(opts.brightness, opts.rotate, Basenames(|Sources(opts, tempdir)|), BilevelDir(tempdir), PagesDir(tempdir))
      + FromTiff(opts, tempdir)
  }

  function FromReposition(opts: Options, tempdir: string): seq<Event>
  {
    RepositionEvents(Sources(opts, tempdir), Basenames(|Sources(opts, tempdir)|), opts.papersize, opts.correctPosition, PagesDir(tempdir))
      + FromBilevel(opts, tempdir)
  }

  /** Every event a run of `process` plans, in order. */
  function Plan(opts: Options, tempdir: string): seq<Event>
  {
    AcquireEvents(opts, tempdir) + FromReposition(opts, tempdir)
  }

  /** The events of a run before the output is written. */
  function Front(opts: Options, tempdir: string): seq<Event>
  {
    AcquireEvents(opts, tempdir)
      + (RepositionEvents(Sources(opts, tempdir), Basenames(|Sources(opts, tempdir)|), opts.papersize, opts.correctPosition, PagesDir(tempdir))
      + (BilevelEvents(opts.brightness, opts.rotate, Basenames(|Sources(opts, tempdir)|), BilevelDir(tempdir), PagesDir(tempdir))
      + ([Run(TiffcpArgv(BilevelDir(tempdir), Basenames(|Sources(opts, tempdir)|)), Some(tempdir))]
      + ([Run(Tiff2pdfArgv(tempdir), None)]
      + OcrEvents(opts.languages, PdfFile(tempdir), OcrFile(tempdir))))))
  }

  // ---------------------------------------------------------------------
  // Properties of the plan

  /** A run is its front, then the events that write the output. */
  lemma {:induction false} PlanFrontFinish(opts: Options, tempdir: string)
    ensures Plan(opts, tempdir) == Front(opts, tempdir) + FinishEvents(opts, OcrFile(tempdir), tempdir)
  {
    var sources := Sources(opts, tempdir);
    var basenames := Basenames(|sources|);
    var a := AcquireEvents(opts, tempdir);
    var r := RepositionEvents(sources, basenames, opts.papersize, opts.correctPosition, PagesDir(tempdir));
    var b := BilevelEvents(opts.brightness, opts.rotate, basenames, BilevelDir(tempdir), PagesDir(tempdir));
    var t := [Run(TiffcpArgv(BilevelDir(tempdir), basenames), Some(tempdir))];
    var p := [Run(Tiff2pdfArgv(tempdir), None)];
    var o := OcrEvents(opts.languages, PdfFile(tempdir), OcrFile(tempdir));
    var f := FinishEvents(opts, OcrFile(tempdir), tempdir);
    Associative(p, o, f);
    Associative(t, p + o, f);
    Associative(b, t + (p + o), f);
    Associative(r, b + (t + (p + o)), f);
    Associative(a, r + (b + (t + (p + o))), f);
  }

  /** When scanning, the input files play no part, and the page set is the one scanned page. */
  lemma {:induction false} ScanIgnoresInputFiles(opts: Options, tempdir: string, others: seq<string>)
    requires opts.scan
    ensures Plan(opts, tempdir) == Plan(opts.(inputFiles := others), tempdir)
    ensures Sources(opts, tempdir) == [ScanFile(tempdir)]
  {
    var o2 := opts.(inputFiles := others);
    assert Sources(opts, tempdir) == Sources(o2, tempdir);
    assert FromBilevel(opts, tempdir) == FromBilevel(o2, tempdir);
  }

  /** A scan is a document of one page, named `00000`, and `tiffcp` joins exactly that page. */
  lemma {:induction false} ScanPageNames(tempdir: string)
    ensures Basenames(1) == ["00000"]
    ensures TiffcpArgv(BilevelDir(tempdir), Basenames(1))
      == ["tiffcp", "-c", "g4", PageFile(BilevelDir(tempdir), "00000"), "all.tiff"]
  {
    assert Zeros(4) == "0000" by {
      assert Zeros(1) == "0" && Zeros(2) == "00" && Zeros(3) == "000";
    }
    assert Format5(0) == "00000" by { assert Decimal(0) == "0"; }
    TiffcpArgvShape(BilevelDir(tempdir), ["00000"]);
  }

  /**
    Page order through the stages: the `k`-th input file goes to the `k`-th
    page file, `econvert` call `k` turns exactly that page file into the
    `k`-th bilevel page, and that page is the `k`-th page `tiffcp` joins.
  */
  lemma {:induction false} PageFlow(opts: Options, tempdir: string, k: nat)
    requires k < |Sources(opts, tempdir)|
    ensures
      var sources := Sources(opts, tempdir);
      var name := Basenames(|sources|)[k];
      var positioned := PageFile(PagesDir(tempdir), name);
      var bilevel := PageFile(BilevelDir(tempdir), name);
      && name == Format5(k)
      && RepositionEvents(sources, Basenames(|sources|), opts.papersize, opts.correctPosition, PagesDir(tempdir))[k + 1]
         == PageEvent(sources[k], opts.papersize, opts.correctPosition, positioned)
      && TiffcpArgv(BilevelDir(tempdir), Basenames(|sources|))[3 + k] == bilevel
      && var e := BilevelEvents(opts.brightness, opts.rotate, Basenames(|sources|), BilevelDir(tempdir), PagesDir(tempdir))[k + 1];
         e.Run? && ParseEconvert(e.argv) == Some(EconvertRequest(positioned, opts.brightness, opts.rotate, bilevel))
  {
    var sources := Sources(opts, tempdir);
    var names := Basenames(|sources|);
    var name := names[k];
    BasenamesAt(|sources|, k);
    RepositionEventAt(sources, names, opts.papersize, opts.correctPosition, PagesDir(tempdir), k + 1);
    BilevelEventAt(opts.brightness, opts.rotate, names, BilevelDir(tempdir), PagesDir(tempdir), k + 1);
    EconvertArgvShape(PageFile(PagesDir(tempdir), name), opts.brightness, opts.rotate, PageFile(BilevelDir(tempdir), name));
    TiffcpArgvShape(BilevelDir(tempdir), names);
  }

  /**
    `tiffcp` runs inside the working directory but is given page paths
    that begin with it. They name the pages `econvert` wrote because the
    working directory is absolute: a fresh temporary directory is, and a
    `--tempdir` is made so.
  */
  lemma {:induction false} TiffcpFindsPages(opts: Options, cwd: string, freshTemp: string, k: nat)
    requires IsAbsolute(cwd) && IsAbsolute(freshTemp)
    requires k < |Sources(opts, WorkDir(opts, cwd, freshTemp))|
    ensures var t := WorkDir(opts, cwd, freshTemp);
      var n := |Sources(opts, t)|;
      var written := PageFile(BilevelDir(t), Format5(k));
      && IsAbsolute(t)
      && TiffcpArgv(BilevelDir(t), Basenames(n))[3 + k] == written
      && AbsPath(AbsPath(cwd, t), written) == AbsPath(cwd, written)
  {
    var t := WorkDir(opts, cwd, freshTemp);
    var n := |Sources(opts, t)|;
    var written := PageFile(BilevelDir(t), Format5(k));
    PageDirsInWorkDir(t);
    PageFileInWorkDir(t, BilevelDir(t), k);
    assert written[0] == t[0];
    BasenamesAt(n, k);
    TiffcpArgvShape(BilevelDir(t), Basenames(n));
  }

  /** A page name never starts with a slash, so page files stay in their directory. */
  lemma {:induction false} PageFileInWorkDir(t: string, dir: string, k: nat)
    requires HasPrefix(t, dir)
    ensures HasPrefix(t, PageFile(dir, Format5(k)))
  {
    Format5Digits(k);
    assert IsDigit(Format5(k)[0]);
    PageFileUnder(t, dir, Format5(k));
  }

  /** The page directories and every file the run makes in the working directory lie in it. */
  lemma {:induction false} PageDirsInWorkDir(t: string)
    ensures HasPrefix(t, PagesDir(t)) && HasPrefix(t, BilevelDir(t)) && HasPrefix(t, ScanFile(t))
    ensures HasPrefix(t, TiffFile(t)) && HasPrefix(t, PdfFile(t)) && HasPrefix(t, OcrFile(t)) && HasPrefix(t, AppendedFile(t))
  {
    assert HasPrefix(t, t);
    JoinKeepsPrefix(t, t, "pages_positioned");
    JoinKeepsPrefix(t, t, "pages_bilevel");
    JoinKeepsPrefix(t, t, "scan.tiff");
    JoinKeepsPrefix(t, t, "all.tiff");
    JoinKeepsPrefix(t, t, "all.pdf");
    JoinKeepsPrefix(t, t, "all_ocr.pdf");
    JoinKeepsPrefix(t, t, "appended.pdf");
  }

  /** Repositioning makes its directory, and copies or `convert`s every page, inside the working directory. */
  lemma {:induction false} RepositionStaysInWorkDir(inputFiles: seq<string>, papersize: string, correctPosition: bool, t: string)
    ensures StaysUnder(RepositionEvents(inputFiles, Basenames(|inputFiles|), papersize, correctPosition, PagesDir(t)), t)
  {
    var names := Basenames(|inputFiles|);
    var events := RepositionEvents(inputFiles, names, papersize, correctPosition, PagesDir(t));
    forall k | 0 <= k < |events| ensures Within(events[k], t) {
      if k > 0 {
        BasenamesAt(|inputFiles|, k - 1);
      }
      RepositionEventInWorkDir(inputFiles, names, papersize, correctPosition, t, k);
    }
  }

  /** Event `k` of repositioning, the directory or page `k - 1`, creates inside the working directory. */
  lemma {:induction false} RepositionEventInWorkDir(inputFiles: seq<string>, names: seq<string>, papersize: string, correctPosition: bool, t: string, k: nat)
    requires |names| == |inputFiles| && k <= |inputFiles|
    requires k > 0 ==> names[k - 1] == Format5(k - 1)
    ensures Within(RepositionEvents(inputFiles, names, papersize, correctPosition, PagesDir(t))[k], t)
  {
    var e := RepositionEvents(inputFiles, names, papersize, correctPosition, PagesDir(t))[k];
    RepositionEventAt(inputFiles, names, papersize, correctPosition, PagesDir(t), k);
    if k == 0 {
      assert e == MakeDir(PagesDir(t));
      PageDirsInWorkDir(t);
    } else {
      assert e == PageEvent(inputFiles[k - 1], papersize, correctPosition, PageFile(PagesDir(t), Format5(k - 1)));
      RepositionPageInWorkDir(inputFiles[k - 1], papersize, correctPosition, t, k - 1);
    }
  }

  /** Page `k` of repositioning, a copy or a `convert` call, writes its page file inside the working directory. */
  lemma {:induction false} RepositionPageInWorkDir(input: string, papersize: string, correctPosition: bool, t: string, k: nat)
    ensures Within(PageEvent(input, papersize, correctPosition, PageFile(PagesDir(t), Format5(k))), t)
  {
    PageDirsInWorkDir(t);
    PageFileInWorkDir(t, PagesDir(t), k);
    ConvertWrites(input, papersize, PageFile(PagesDir(t), Format5(k)));
  }

  /** Bilevel conversion makes its directory, and `econvert` writes every page, inside the working directory. */
  lemma {:induction false} BilevelStaysInWorkDir(brightness: string, rotate: Option<string>, n: nat, t: string)
    ensures StaysUnder(BilevelEvents(brightness, rotate, Basenames(n), BilevelDir(t), PagesDir(t)), t)
  {
    var names := Basenames(n);
    var events := BilevelEvents(brightness, rotate, names, BilevelDir(t), PagesDir(t));
    forall k | 0 <= k < |events| ensures Within(events[k], t) {
      if k > 0 {
        BasenamesAt(n, k - 1);
      }
      BilevelEventInWorkDir(brightness, rotate, names, t, k);
    }
  }

  /** Event `k` of bilevel conversion, the directory or the `econvert` call of page `k - 1`, creates inside the working directory. */
  lemma {:induction false} BilevelEventInWorkDir(brightness: string, rotate: Option<string>, names: seq<string>, t: string, k: nat)
    requires k <= |names|
    requires k > 0 ==> names[k - 1] == Format5(k - 1)
    ensures Within(BilevelEvents(brightness, rotate, names, BilevelDir(t), PagesDir(t))[k], t)
  {
    var e := BilevelEvents(brightness, rotate, names, BilevelDir(t), PagesDir(t))[k];
    BilevelEventAt(brightness, rotate, names, BilevelDir(t), PagesDir(t), k);
    if k == 0 {
      assert e == MakeDir(BilevelDir(t));
      PageDirsInWorkDir(t);
    } else {
      assert e == BilevelEvent(Format5(k - 1), brightness, rotate, BilevelDir(t), PagesDir(t));
      BilevelPageInWorkDir(brightness, rotate, t, Format5(k - 1), k - 1);
    }
  }

  /** The `econvert` call of page `k` writes its bilevel file inside the working directory. */
  lemma {:induction false} BilevelPageInWorkDir(brightness: string, rotate: Option<string>, t: string, name: string, k: nat)
    requires name == Format5(k)
    ensures Within(BilevelEvent(name, brightness, rotate, BilevelDir(t), PagesDir(t)), t)
  {
    PageDirsInWorkDir(t);
    PageFileInWorkDir(t, BilevelDir(t), k);
    EconvertWrites(PageFile(PagesDir(t), name), brightness, rotate, PageFile(BilevelDir(t), name));
  }

  /**
    Before the output is written, every event of a run creates things
    only in the working directory: the directories, the copies, and the
    file each tool writes (`scanimage`, `convert`, `econvert`, `tiffcp`
    inside it, `tiff2pdf`, `pdfsandwich`).
  */
  lemma {:induction false} FrontStaysInWorkDir(opts: Options, t: string)
    ensures StaysUnder(Front(opts, t), t)
  {
    var sources := Sources(opts, t);
    var basenames := Basenames(|sources|);
    var a := AcquireEvents(opts, t);
    var r := RepositionEvents(sources, basenames, opts.papersize, opts.correctPosition, PagesDir(t));
    var b := BilevelEvents(opts.brightness, opts.rotate, basenames, BilevelDir(t), PagesDir(t));
    var tc := [Run(TiffcpArgv(BilevelDir(t), basenames), Some(t))];
    var p := [Run(Tiff2pdfArgv(t), None)];
    var o := OcrEvents(opts.languages, PdfFile(t), OcrFile(t));
    PageDirsInWorkDir(t);
    assert StaysUnder(a, t) by {
      if opts.scan {
        ScanWrites(opts.papersize, t);
        assert Within(a[0], t);
      }
    }
    RepositionStaysInWorkDir(sources, opts.papersize, opts.correctPosition, t);
    BilevelStaysInWorkDir(opts.brightness, opts.rotate, |sources|, t);
    TiffcpWrites(BilevelDir(t), basenames, t);
    Tiff2pdfWrites(t);
    if opts.languages.Some? {
      PdfsandwichWrites(opts.languages.value, PdfFile(t), OcrFile(t));
    }
    assert Within(tc[0], t) && Within(p[0], t) && Within(o[0], t);
    StaysUnderConcat(p, o, t);
    StaysUnderConcat(tc, p + o, t);
    StaysUnderConcat(b, tc + (p + o), t);
    StaysUnderConcat(r, b + (tc + (p + o)), t);
    StaysUnderConcat(a, r + (b + (tc + (p + o))), t);
  }

  /**
    The output step ends with the copy onto the output; an append first
    runs `pdftk`, which writes `appended.pdf` in the working directory.
  */
  lemma {:induction false} FinishShape(opts: Options, tempdir: string)
    ensures var finish := FinishEvents(opts, OcrFile(tempdir), tempdir);
      && |finish| > 0 && finish[|finish| - 1].Copy? && finish[|finish| - 1].dst == opts.output
      && StaysUnder(finish[..|finish| - 1], tempdir)
      && (opts.append ==> |finish| == 2 && ToolOutput(finish[0].argv, finish[0].cwd) == Some(AppendedFile(tempdir)))
  {
    var finish := FinishEvents(opts, OcrFile(tempdir), tempdir);
    PageDirsInWorkDir(tempdir);
    if opts.append {
      PdftkWrites(opts.output, OcrFile(tempdir), AppendedFile(tempdir));
      assert finish[..1] == [finish[0]];
      assert Within(finish[0], tempdir);
    }
  }

  /**
    The output is written only by the last event of a run that succeeds:
    no tool writes it, and a run that fails at any step leaves no copy on
    the output path. The
    working directory is absolute, and the output, resolved from `cwd`,
    lies outside it.
  */
  lemma {:induction false} OutputWrittenLast(opts: Options, cwd: string, tempdir: string, base: nat, status: nat -> int)
    requires IsAbsolute(tempdir) && !HasPrefix(tempdir, AbsPath(cwd, opts.output))
    ensures var run := Attempt(Plan(opts, tempdir), base, status);
      && (forall k :: 0 <= k < |run| && WritesTo(run[k], opts.output) ==>
            Succeeds(Plan(opts, tempdir), base, status) && k == |run| - 1)
      && (Succeeds(Plan(opts, tempdir), base, status) ==> WritesTo(run[|run| - 1], opts.output))
  {
    OutsideResolved(tempdir, cwd, opts.output);
    PlanFrontFinish(opts, tempdir);
    FrontStaysInWorkDir(opts, tempdir);
    FinishShape(opts, tempdir);
    FinishWritesLast(Plan(opts, tempdir), Front(opts, tempdir), FinishEvents(opts, OcrFile(tempdir), tempdir),
      tempdir, opts.output, base, status);
  }

  /**
    What a run does to the output path, for a command line that passed
    the checks: a run that succeeds leaves a regular file there; a run
    that fails leaves the path as it was. The working directory is
    absolute, and the output, resolved from `cwd`, lies outside it.
  */
  lemma {:induction false} OutputOnlyOnSuccess(program: string, opts: Options, fs: FileSystem, cwd: string, tempdir: string,
                                               base: nat, status: nat -> int)
    requires Validate(program, opts, fs) == Proceed
    requires fs.files !! fs.dirs
    requires IsAbsolute(tempdir) && !HasPrefix(tempdir, AbsPath(cwd, opts.output))
    ensures var after := Effect(fs, Attempt(Plan(opts, tempdir), base, status));
      && (Succeeds(Plan(opts, tempdir), base, status) ==> IsFile(after, opts.output) && opts.output !in after.dirs)
      && (!Succeeds(Plan(opts, tempdir), base, status) ==>
            (IsFile(after, opts.output) <==> IsFile(fs, opts.output))
            && (Exists(after, opts.output) <==> Exists(fs, opts.output)))
  {
    assert opts.output !in fs.dirs;
    OutsideResolved(tempdir, cwd, opts.output);
    PlanFrontFinish(opts, tempdir);
    FrontStaysInWorkDir(opts, tempdir);
    FinishShape(opts, tempdir);
    FinishEffect(fs, Plan(opts, tempdir), Front(opts, tempdir), FinishEvents(opts, OcrFile(tempdir), tempdir),
      tempdir, opts.output, base, status);
  }

  /** The working directory: a fresh temporary one, or the one asked for, made absolute. */
  function WorkDir(opts: Options, cwd: string, freshTemp: string): string
  {
    if opts.tempdir.None? then freshTemp else AbsPath(cwd, opts.tempdir.value)
  }

  /** The first line Python writes to stderr for an exception nobody catches. */
  const TracebackHeader := "Traceback (most recent call last):"

  // ---------------------------------------------------------------------
  // Carrying the run out

  /**
    The script's process in its world: the file system it started from,
    the log of events so far, and the exit statuses the tools will give.
    The file system at any moment is the effect of the log.
  */
  class Pipeline {
    const fs0: FileSystem
    var log: seq<Event>
    const status: nat -> int

    constructor (fs0: FileSystem, status: nat -> int)
      ensures this.fs0 == fs0 && log == [] && this.status == status
      ensures Fs() == fs0
    {
      this.fs0 := fs0;
      log := [];
      this.status := status;
    }

    /** The file system now. */
    function Fs(): FileSystem
      reads this
    {
      Effect(fs0, log)
    }

    /** Since `log0`, exactly the fail-fast run of `events` has happened. */
    ghost predicate Carried(log0: seq<Event>, events: seq<Event>)
      reads this
    {
      log == log0 + Attempt(events, |log0|, status)
    }

    /** `subprocess.check_call`: runs the tool and reports whether it exited with status 0. */
    method CheckCall(argv: seq<string>, cwd: Option<string>) returns (ok: bool)
      modifies this
      ensures log == old(log) + [Run(argv, cwd)]
      ensures ok == (status(|old(log)|) == 0)
    {
      ok := status(|log|) == 0;
      log := log + [Run(argv, cwd)];
    }

    /** `shutil.copy2` */
    method Copy2(src: string, dst: string)
      modifies this
      ensures log == old(log) + [Copy(src, dst)]
      ensures Fs() == Apply(old(Fs()), Copy(src, dst))
    {
      log := log + [Copy(src, dst)];
      assert log[..|log| - 1] == old(log);
    }

    /** `os.mkdir` */
    method Mkdir(path: string)
      modifies this
      ensures log == old(log) + [MakeDir(path)]
      ensures Fs() == Apply(old(Fs()), MakeDir(path))
    {
      log := log + [MakeDir(path)];
      assert log[..|log| - 1] == old(log);
    }

    /** `scan_document`: one `scanimage` call; the page set is the single scan file. */
    method ScanDocument(papersize: string, tempdir: string) returns (ok: bool, inputFiles: seq<string>)
      modifies this
      ensures Carried(old(log), [Run(ScanArgv(papersize, tempdir), None)])
      ensures ok == Succeeds([Run(ScanArgv(papersize, tempdir), None)], |old(log)|, status)
      ensures inputFiles == [ScanFile(tempdir)]
    {
      var outputFile := Join(tempdir, "scan.tiff");
      var size := if Lower(papersize) == "a5" then (148, 210) else (210, 297);
      var scanimageArgs := [
        "scanimage",
        "-x", Decimal(size.0),
        "-y", Decimal(size.1),
        "--resolution", "600",
        "--mode", "True Gray",
        "--format", "tiff",
        "--output-file", Join(tempdir, "scan.tiff")];
      ok := CheckCall(scanimageArgs, None);
      Single(Run(ScanArgv(papersize, tempdir), None), |old(log)|, status);
      inputFiles := [outputFile];
    }

    /** The `convert` with the correction block, or the plain copy, of one input file. */
    method RepositionPage(inputFilename: string, papersize: string, convertArgs: seq<string>, correctPosition: bool, outputFilename: string)
      returns (ok: bool)
      requires convertArgs == CorrectionArgs(papersize)
      modifies this
      ensures log == old(log) + [PageEvent(inputFilename, papersize, correctPosition, outputFilename)]
      ensures ok == Completes(PageEvent(inputFilename, papersize, correctPosition, outputFilename), |old(log)|, status)
    {
      if correctPosition {
        ok := CheckCall(["convert", inputFilename] + convertArgs + [outputFilename], None);
      } else {
        Copy2(inputFilename, outputFilename);
        ok := true;
      }
    }

    /**
      One pass of the loop of `copy_and_reposition`, for input `i` and its
      page name: the log grows by event `i + 1` of the plan; when that event
      fails, the whole stage has been attempted and has failed.
    */
    method RepositionNext(inputFiles: seq<string>, ghost names: seq<string>, papersize: string, convertArgs: seq<string>,
                          correctPosition: bool, outputDir: string, i: nat, outputBasename: string,
                          ghost log0: seq<Event>, ghost events: seq<Event>)
      returns (ok: bool)
      requires i < |inputFiles| == |names| && outputBasename == names[i]
      requires convertArgs == CorrectionArgs(papersize)
      requires events == RepositionEvents(inputFiles, names, papersize, correctPosition, outputDir)
      requires log == log0 + events[..i + 1] && Succeeds(events[..i + 1], |log0|, status)
      modifies this
      ensures ok ==> log == log0 + events[..i + 2] && Succeeds(events[..i + 2], |log0|, status)
      ensures !ok ==> log == log0 + Attempt(events, |log0|, status) && !Succeeds(events, |log0|, status)
    {
      var outputFilename := Join(outputDir, outputBasename + ".tiff");
      RepositionEventAt(inputFiles, names, papersize, correctPosition, outputDir, i + 1);
      ghost var e := PageEvent(inputFiles[i], papersize, correctPosition, outputFilename);
      ok := RepositionPage(inputFiles[i], papersize, convertArgs, correctPosition, outputFilename);
      Extend(log0, log, events, e, ok, |log0|, status, i + 1);
    }

    /**
      `copy_and_reposition`: creates the page directory, then for each input
      file, in order, names it by its index and converts or copies it there.
      On success the names are `Basenames(|inputFiles|)`.
    */
    method CopyAndReposition(inputFiles: seq<string>, papersize: string, correctPosition: bool, outputDir: string)
      returns (ok: bool, basenames: seq<string>)
      modifies this
      ensures Carried(old(log), RepositionEvents(inputFiles, Basenames(|inputFiles|), papersize, correctPosition, outputDir))
      ensures ok == Succeeds(RepositionEvents(inputFiles, Basenames(|inputFiles|), papersize, correctPosition, outputDir), |old(log)|, status)
      ensures ok ==> basenames == Basenames(|inputFiles|)
    {
      ghost var names := Basenames(|inputFiles|);
      ghost var events := RepositionEvents(inputFiles, names, papersize, correctPosition, outputDir);
      ghost var log0 := log;
      basenames := [];
      Mkdir(outputDir);
      RepositionEventAt(inputFiles, names, papersize, correctPosition, outputDir, 0);
      Extend(log0, log, events, MakeDir(outputDir), true, |log0|, status, 0);
      var i := 0;
      var convertArgs := if Lower(papersize) == "a5" then A5Correction else A4Correction;
      ok := true;
      while i < |inputFiles|
        invariant 0 <= i <= |inputFiles|
        invariant log == log0 + events[..i + 1]
        invariant Succeeds(events[..i + 1], |log0|, status)
        invariant basenames == Basenames(i)
        invariant ok
      {
        var outputBasename := Format5(i);
        BasenamesAt(|inputFiles|, i);
        basenames := basenames + [outputBasename];
        ok := RepositionNext(inputFiles, names, papersize, convertArgs, correctPosition, outputDir, i, outputBasename, log0, events);
        if !ok {
          return;
        }
        i := i + 1;
      }
      Whole(events, |log0|, status);
    }

    /** One pass of the loop of `convert_to_bilevel`: the argument vector grows as the options ask, then `econvert` runs. */
    method RunEconvert(infile: string, brightness: string, rotate: Option<string>, outfile: string) returns (ok: bool)
      modifies this
      ensures log == old(log) + [Run(EconvertArgv(infile, brightness, rotate, outfile), None)]
      ensures ok == (status(|old(log)|) == 0)
    {
      var econvertArgs := ["econvert", "-i", infile, "--brightness", brightness, "--colorspace", "bilevel"];
      if rotate.Some? {
        econvertArgs := econvertArgs + ["--rotate", rotate.value];
      }
      econvertArgs := econvertArgs + ["--output", outfile];
      assert econvertArgs == EconvertArgv(infile, brightness, rotate, outfile);
      ok := CheckCall(econvertArgs, None);
    }

    /**
      One pass of the loop of `convert_to_bilevel`, for page name `i`: the
      log grows by event `i + 1` of the plan; when that event fails, the
      whole stage has been attempted and has failed.
    */
    method BilevelNext(brightness: string, rotate: Option<string>, basenames: seq<string>, pagesBilevelDir: string, pagesDir: string,
                       i: nat, ghost log0: seq<Event>, ghost events: seq<Event>)
      returns (ok: bool)
      requires i < |basenames| && events == BilevelEvents(brightness, rotate, basenames, pagesBilevelDir, pagesDir)
      requires log == log0 + events[..i + 1] && Succeeds(events[..i + 1], |log0|, status)
      modifies this
      ensures ok ==> log == log0 + events[..i + 2] && Succeeds(events[..i + 2], |log0|, status)
      ensures !ok ==> log == log0 + Attempt(events, |log0|, status) && !Succeeds(events, |log0|, status)
    {
      var infile := Join(pagesDir, basenames[i] + ".tiff");
      var outfile := Join(pagesBilevelDir, basenames[i] + ".tiff");
      BilevelEventAt(brightness, rotate, basenames, pagesBilevelDir, pagesDir, i + 1);
      ghost var e := BilevelEvent(basenames[i], brightness, rotate, pagesBilevelDir, pagesDir);
      ok := RunEconvert(infile, brightness, rotate, outfile);
      Extend(log0, log, events, e, ok, |log0|, status, i + 1);
    }

    /** `convert_to_bilevel`: creates the bilevel directory, then one `econvert` per page name, in order. */
    method ConvertToBilevel(brightness: string, rotate: Option<string>, basenames: seq<string>, pagesBilevelDir: string, pagesDir: string)
      returns (ok: bool)
      modifies this
      ensures Carried(old(log), BilevelEvents(brightness, rotate, basenames, pagesBilevelDir, pagesDir))
      ensures ok == Succeeds(BilevelEvents(brightness, rotate, basenames, pagesBilevelDir, pagesDir), |old(log)|, status)
    {
      ghost var events := BilevelEvents(brightness, rotate, basenames, pagesBilevelDir, pagesDir);
      ghost var log0 := log;
      Mkdir(pagesBilevelDir);
      BilevelEventAt(brightness, rotate, basenames, pagesBilevelDir, pagesDir, 0);
      Extend(log0, log, events, MakeDir(pagesBilevelDir), true, |log0|, status, 0);
      var i := 0;
      ok := true;
      while i < |basenames|
        invariant 0 <= i <= |basenames|
        invariant log == log0 + events[..i + 1]
        invariant Succeeds(events[..i + 1], |log0|, status)
        invariant ok
      {
        ok := BilevelNext(brightness, rotate, basenames, pagesBilevelDir, pagesDir, i, log0, events);
        if !ok {
          return;
        }
        i := i + 1;
      }
      Whole(events, |log0|, status);
    }

    /** `make_multipage_tiff`: one `tiffcp` call, run in the working directory. */
    method MakeMultipageTiff(basenames: seq<string>, pagesBilevelDir: string, tempdir: string) returns (ok: bool)
      modifies this
      ensures Carried(old(log), [Run(TiffcpArgv(pagesBilevelDir, basenames), Some(tempdir))])
      ensures ok == Succeeds([Run(TiffcpArgv(pagesBilevelDir, basenames), Some(tempdir))], |old(log)|, status)
    {
      var tiffcpArgs := ["tiffcp", "-c", "g4"];
      tiffcpArgs := tiffcpArgs + seq(|basenames|, k requires 0 <= k < |basenames| => Join(pagesBilevelDir, basenames[k] + ".tiff"));
      tiffcpArgs := tiffcpArgs + ["all.tiff"];
      assert tiffcpArgs == TiffcpArgv(pagesBilevelDir, basenames);
      ok := CheckCall(tiffcpArgs, Some(tempdir));
      Single(Run(tiffcpArgs, Some(tempdir)), |old(log)|, status);
    }

    /** `convert_tiff_to_pdf`: one `tiff2pdf` call; returns the name of the PDF. */
    method ConvertTiffToPdf(tempdir: string) returns (ok: bool, tiff2pdfOutputFile: string)
      modifies this
      ensures Carried(old(log), [Run(Tiff2pdfArgv(tempdir), None)])
      ensures ok == Succeeds([Run(Tiff2pdfArgv(tempdir), None)], |old(log)|, status)
      ensures tiff2pdfOutputFile == PdfFile(tempdir)
    {
      tiff2pdfOutputFile := Join(tempdir, "all.pdf");
      var tiff2pdfArgs := ["tiff2pdf", "-c", "g4", "-x600", "-y600"];
      tiff2pdfArgs := tiff2pdfArgs + ["-o", tiff2pdfOutputFile];
      tiff2pdfArgs := tiff2pdfArgs + [Join(tempdir, "all.tiff")];
      ok := CheckCall(tiff2pdfArgs, None);
      Single(Run(Tiff2pdfArgv(tempdir), None), |old(log)|, status);
    }

    /** `perform_ocr_on_pdf`: `pdfsandwich` when languages are given, a copy otherwise. */
    method PerformOcrOnPdf(languages: Option<string>, inputFile: string, outputFile: string) returns (ok: bool)
      modifies this
      ensures Carried(old(log), OcrEvents(languages, inputFile, outputFile))
      ensures ok == Succeeds(OcrEvents(languages, inputFile, outputFile), |old(log)|, status)
    {
      ghost var events := OcrEvents(languages, inputFile, outputFile);
      if languages.Some? {
        var pdfsandwichArgs := [
          "pdfsandwich",
          "-maxpixels", "999999999",
          "-resolution", "600",
          "-lang", languages.value,
          "-o", outputFile,
          "-nopreproc",
          inputFile];
        ok := CheckCall(pdfsandwichArgs, None);
      } else {
        Copy2(inputFile, outputFile);
        ok := true;
      }
      assert events == [events[0]];
      Single(events[0], |old(log)|, status);
    }

    /** `append_pdf`: `pdftk` joins the existing output and the new PDF, and the result is copied over the output. */
    method AppendPdf(mainFile: string, additionalFile: string, tempdir: string) returns (ok: bool)
      modifies this
      ensures Carried(old(log), AppendEvents(mainFile, additionalFile, tempdir))
      ensures ok == Succeeds(AppendEvents(mainFile, additionalFile, tempdir), |old(log)|, status)
    {
      ghost var events := AppendEvents(mainFile, additionalFile, tempdir);
      ghost var log0 := log;
      var outputFile := Join(tempdir, "appended.pdf");
      var pdftkArgs := ["pdftk", mainFile, additionalFile, "cat", "output", outputFile];
      Step(log0, events, |log0|, status, 0);
      ok := CheckCall(pdftkArgs, None);
      if !ok {
        return;
      }
      Step(log0, events, |log0|, status, 1);
      Copy2(outputFile, mainFile);
      Whole(events, |log0|, status);
    }

    /**
      `process`: acquisition, repositioning, bilevel conversion, the
      multi-page TIFF, the PDF, OCR, and the output, fail-fast: the whole
      run is the fail-fast run of `Plan`.
    */
    method Process(opts: Options, tempdir: string) returns (ok: bool)
      modifies this
      ensures Carried(old(log), Plan(opts, tempdir))
      ensures ok == Succeeds(Plan(opts, tempdir), |old(log)|, status)
    {
      ghost var log0 := log;
      ghost var acquire := AcquireEvents(opts, tempdir);
      var inputFiles := opts.inputFiles;
      ok := true;
      if opts.scan {
        ok, inputFiles := ScanDocument(opts.papersize, tempdir);
      } else {
        assert log == log0 + Attempt([], |log0|, status) && log0 + [] == log0;
      }
      AttemptPrefix(acquire, |log0|, status);
      if ok {
        ok := RepositionStage(opts, tempdir, inputFiles, log0, acquire);
      } else {
        Stop(acquire, FromReposition(opts, tempdir), |log0|, status);
      }
    }

    /** Repositioning after the events `done`, then the stages after it. */
    method RepositionStage(opts: Options, tempdir: string, inputFiles: seq<string>, ghost log0: seq<Event>, ghost done: seq<Event>)
      returns (ok: bool)
      requires log == log0 + done && Succeeds(done, |log0|, status)
      requires inputFiles == Sources(opts, tempdir)
      modifies this
      ensures Carried(log0, done + FromReposition(opts, tempdir))
      ensures ok == Succeeds(done + FromReposition(opts, tempdir), |log0|, status)
    {
      ghost var log1 := log;
      ghost var stage := RepositionEvents(inputFiles, Basenames(|inputFiles|), opts.papersize, opts.correctPosition, PagesDir(tempdir));
      var pagesDir := Join(tempdir, "pages_positioned");
      var basenames;
      ok, basenames := CopyAndReposition(inputFiles, opts.papersize, opts.correctPosition, pagesDir);
      StageDone(log0, log1, log, done, stage, FromBilevel(opts, tempdir), status);
      if ok {
        ok := BilevelStage(opts, tempdir, basenames, log0, done + stage);
        Associative(done, stage, FromBilevel(opts, tempdir));
      }
    }

    /** The bilevel conversion after the events `done`, then the stages after it. */
    method BilevelStage(opts: Options, tempdir: string, basenames: seq<string>, ghost log0: seq<Event>, ghost done: seq<Event>)
      returns (ok: bool)
      requires log == log0 + done && Succeeds(done, |log0|, status)
      requires basenames == Basenames(|Sources(opts, tempdir)|)
      modifies this
      ensures Carried(log0, done + FromBilevel(opts, tempdir))
      ensures ok == Succeeds(done + FromBilevel(opts, tempdir), |log0|, status)
    {
      ghost var log1 := log;
      ghost var stage := BilevelEvents(opts.brightness, opts.rotate, basenames, BilevelDir(tempdir), PagesDir(tempdir));
      var pagesDir := Join(tempdir, "pages_positioned");
      var pagesBilevelDir := Join(tempdir, "pages_bilevel");
      ok := ConvertToBilevel(opts.brightness, opts.rotate, basenames, pagesBilevelDir, pagesDir);
      StageDone(log0, log1, log, done, stage, FromTiff(opts, tempdir), status);
      if ok {
        ok := TiffStage(opts, tempdir, basenames, log0, done + stage);
        Associative(done, stage, FromTiff(opts, tempdir));
      }
    }

    /** The multi-page TIFF after the events `done`, then the stages after it. */
    method TiffStage(opts: Options, tempdir: string, basenames: seq<string>, ghost log0: seq<Event>, ghost done: seq<Event>)
      returns (ok: bool)
      requires log == log0 + done && Succeeds(done, |log0|, status)
      requires basenames == Basenames(|Sources(opts, tempdir)|)
      modifies this
      ensures Carried(log0, done + FromTiff(opts, tempdir))
      ensures ok == Succeeds(done + FromTiff(opts, tempdir), |log0|, status)
    {
      ghost var log1 := log;
      ghost var stage := [Run(TiffcpArgv(BilevelDir(tempdir), basenames), Some(tempdir))];
      var pagesBilevelDir := Join(tempdir, "pages_bilevel");
      ok := MakeMultipageTiff(basenames, pagesBilevelDir, tempdir);
      StageDone(log0, log1, log, done, stage, FromPdf(opts, tempdir), status);
      if ok {
        ok := PdfStage(opts, tempdir, log0, done + stage);
        Associative(done, stage, FromPdf(opts, tempdir));
      }
    }

    /** The TIFF-to-PDF conversion after the events `done`, then the stages after it. */
    method PdfStage(opts: Options, tempdir: string, ghost log0: seq<Event>, ghost done: seq<Event>) returns (ok: bool)
      requires log == log0 + done && Succeeds(done, |log0|, status)
      modifies this
      ensures Carried(log0, done + FromPdf(opts, tempdir))
      ensures ok == Succeeds(done + FromPdf(opts, tempdir), |log0|, status)
    {
      ghost var log1 := log;
      ghost var stage := [Run(Tiff2pdfArgv(tempdir), None)];
      var tiff2pdfOutputFile;
      ok, tiff2pdfOutputFile := ConvertTiffToPdf(tempdir);
      StageDone(log0, log1, log, done, stage, FromOcr(opts, tempdir), status);
      if ok {
        ok := OcrStage(opts, tempdir, tiff2pdfOutputFile, log0, done + stage);
        Associative(done, stage, FromOcr(opts, tempdir));
      }
    }

    /** Text recognition after the events `done`, then the output. */
    method OcrStage(opts: Options, tempdir: string, tiff2pdfOutputFile: string, ghost log0: seq<Event>, ghost done: seq<Event>)
      returns (ok: bool)
      requires log == log0 + done && Succeeds(done, |log0|, status)
      requires tiff2pdfOutputFile == PdfFile(tempdir)
      modifies this
      ensures Carried(log0, done + FromOcr(opts, tempdir))
      ensures ok == Succeeds(done + FromOcr(opts, tempdir), |log0|, status)
    {
      ghost var log1 := log;
      ghost var stage := OcrEvents(opts.languages, PdfFile(tempdir), OcrFile(tempdir));
      ghost var rest := FinishEvents(opts, OcrFile(tempdir), tempdir);
      var ocrOutputFile := Join(tempdir, "all_ocr.pdf");
      ok := PerformOcrOnPdf(opts.languages, tiff2pdfOutputFile, ocrOutputFile);
      StageDone(log0, log1, log, done, stage, rest, status);
      if ok {
        ok := OutputStage(opts, tempdir, ocrOutputFile, log0, done + stage);
        Associative(done, stage, rest);
      }
    }

    /** The output after the events `done`: appended to the existing file, or a copy of the recognised PDF. */
    method OutputStage(opts: Options, tempdir: string, ocrOutputFile: string, ghost log0: seq<Event>, ghost done: seq<Event>)
      returns (ok: bool)
      requires log == log0 + done && Succeeds(done, |log0|, status)
      requires ocrOutputFile == OcrFile(tempdir)
      modifies this
      ensures Carried(log0, done + FinishEvents(opts, OcrFile(tempdir), tempdir))
      ensures ok == Succeeds(done + FinishEvents(opts, OcrFile(tempdir), tempdir), |log0|, status)
    {
      ghost var log1 := log;
      if opts.append {
        ok := AppendPdf(opts.output, ocrOutputFile, tempdir);
      } else {
        Copy2(ocrOutputFile, opts.output);
        ok := true;
        Single(Copy(ocrOutputFile, opts.output), |log1|, status);
      }
      LastStage(log0, log1, log, done, FinishEvents(opts, OcrFile(tempdir), tempdir), status);
    }

    /**
      `main` after parsing: the command-line checks, the choice of working
      directory, and the run. A failed check exits with its message before
      anything happens; a run exits with 0 when every tool succeeded and
      with 1 (an uncaught `CalledProcessError`) otherwise, and Python then
      writes a traceback to stderr, of which only the header is modelled.
    */
    method Launch(program: string, opts: Options, cwd: string, freshTemp: string) returns (exitStatus: int, stderr: string)
      modifies this
      ensures var v := Validate(program, opts, old(Fs()));
        v.Exit? ==> exitStatus == v.status && stderr == v.stderr && log == old(log)
      ensures var v := Validate(program, opts, old(Fs()));
        var plan := Plan(opts, WorkDir(opts, cwd, freshTemp));
        v == Proceed ==>
          && (stderr == "" <==> Succeeds(plan, |old(log)|, status))
          && (!Succeeds(plan, |old(log)|, status) ==> HasPrefix(TracebackHeader, stderr))
          && Carried(old(log), plan)
          && Fs() == Effect(old(Fs()), Attempt(plan, |old(log)|, status))
          && (exitStatus == 0 <==> Succeeds(plan, |old(log)|, status))
          && (exitStatus == 0 || exitStatus == 1)
    {
      var verdict := Validate(program, opts, Fs());
      if verdict.Exit? {
        return verdict.status, verdict.stderr;
      }
      ghost var log0 := log;
      var tempdir := if opts.tempdir.None? then freshTemp else AbsPath(cwd, opts.tempdir.value);
      var ok := Process(opts, tempdir);
      EffectAppend(fs0, log0, Attempt(Plan(opts, tempdir), |log0|, status));
      exitStatus := if ok then 0 else 1;
      stderr := if ok then "" else TracebackHeader + "\n";
    }
  }
}
