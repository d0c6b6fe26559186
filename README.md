# makebwpdf, modelled in Dafny

makebwpdf turns a series of page images into one multi-page black-and-white
PDF. It does not touch any pixels itself; it drives external tools through a
temporary working directory:

1. `scanimage` acquires one page from a scanner (`--scan`); otherwise the
   input files are used.
2. Every page is copied, or repositioned with ImageMagick `convert`
   (`--correct-position`), into `pages_positioned/00000.tiff`,
   `00001.tiff`, … .
3. `econvert` makes every page bilevel, with an optional rotation, into
   `pages_bilevel/`.
4. `tiffcp` joins the pages into `all.tiff`.
5. `tiff2pdf` makes `all.pdf`.
6. `pdfsandwich` runs OCR on it (`--languages`), or the PDF is copied as it is.
7. The result is copied to the output file, or is appended to it with
   `pdftk` (`--append`).

The repository holds two versions of the script, and both are modelled:

- the package script `makebwpdf/makebwpdf.py` (module `MakeBwPdf`). It checks
  its command line first, and it stops at the first tool that fails
  (`subprocess.check_call`);
- the older root script `makebwpdf.py` (module `Legacy`). It runs every
  step whatever the tools return (`subprocess.call`), always uses the A4
  position correction, passes an optional paper size to `tiff2pdf`, and has
  no scanning and no appending.

## How the model works

- A run of the script is a sequence of **events** (`Trace.Event`):
  - `Run(argv, cwd)` is one external command and its argument vector;
  - `Copy(src, dst)` is `shutil.copy2`;
  - `MakeDir(path)` is `os.mkdir`.
- A **file system** (`Trace.FileSystem`) is a set of files and a set of
  directories. `Trace.Apply` and `Trace.Effect` give the file system after
  events. An external tool is opaque except for the file it writes:
  `Trace.ToolOutput` reads that file's name off the command line by the
  tool's own convention, and a `Run` event adds it to the files, whether or
  not the tool then succeeds.
- The exit statuses of the tools are an **oracle** `status: nat -> int`,
  indexed by the event's position in the log.
  - `Trace.Succeeds(events, base, status)` holds when every event completes.
  - `Trace.Attempt(events, base, status)` is what `check_call` actually runs:
    the planned events up to and including the first command that fails.
- For each script, the commands are given as pure functions that compute
  the **plan**: `MakeBwPdf.Plan` and `Legacy.LegacyPlan`.
- The script's own procedures are methods of a class whose `log` field
  records the events, in the script's own order and loops:
  - `MakeBwPdf.Pipeline` (fail-fast). Each method proves that its log is
    `Attempt` of its part of the plan, and that it reports success exactly
    when that part `Succeeds`.
  - `Legacy.LegacyRun`. Each method proves that it appends its whole part
    of the plan, whatever the statuses.
- Properties of the plans are proved as lemmas: page names and their order,
  the flow of one page through the tools, what is written where, and how
  the two versions differ.

Files:

- `wrappers.dfy`: `Option`.
- `paths.dfy`: `os.path.join`, `basename` and `abspath`, plus ASCII lower-casing.
- `page_names.dfy`: the `"{:05}"` page names.
- `trace.dfy`: events, the file system and fail-fast execution.
- `makebwpdf.dfy`: the package script.
- `legacy.dfy`: the root script.

## Model

| member | source | states |
|---|---|---|
| MakeBwPdf.ErrorLine | makebwpdf/makebwpdf.py:76-78 | the error line is exactly the program's base name, ": " and the message: it starts with the first two, ends with the message, and is no longer than the three together |
| MakeBwPdf.Validate | makebwpdf/makebwpdf.py:57-67 | proceeds exactly when an input is given (files or `--scan`) and the output is a regular file when appending, or does not exist when not appending. Otherwise it exits with status 1 and the message of the first check that fails, in the source's order. An output that is a directory is always refused |
| MakeBwPdf.NoInputLineDoubled | makebwpdf/makebwpdf.py:57-59 | the "no input" message is printed with a doubled prefix "prog: : error: ", because the message itself starts with ": error: " |
| MakeBwPdf.PaperSizeChoice | makebwpdf/makebwpdf.py:105-138 | the scan size is 148×210 mm and the repositioning uses the A5 correction exactly when the paper size is "a5" or "A5"; every other paper size gets 210×297 mm and the A4 correction |
| Paths.LowerIsA5 | makebwpdf/makebwpdf.py:105 | the lower-cased paper size equals "a5" exactly when it is "a5" or "A5" |
| Paths.LowerChar | makebwpdf/makebwpdf.py:105 | upper-case ASCII letters move to their lower-case letter, and every other character is kept |
| Paths.Lower | makebwpdf/makebwpdf.py:138 | lower-casing keeps the length of the string |
| Paths.LowerAt | makebwpdf/makebwpdf.py:138 | each character of the lower-cased string is the lower-cased character at that position |
| Paths.JoinShape | makebwpdf/makebwpdf.py:82 | `os.path.join(a, b)` is `b` when `b` is absolute. Otherwise it starts with `a` and ends with `b`, and one '/' stands between them exactly when `a` is non-empty and does not already end in one |
| Paths.Basename | makebwpdf/makebwpdf.py:77 | the base name is the slash-free tail of the path, and it is preceded by '/' when it is not the whole path |
| Paths.BasenameOfSuffix | makebwpdf/makebwpdf.py:77 | the base name of a directory part followed by a slash-free name is that name |
| Paths.JoinBasename | makebwpdf.py:141 | the base name of `join(a, b)`, for a non-empty slash-free `b`, is `b`; so `copy2` into a directory names the copy after the source file |
| MakeBwPdf.PdfBasename | makebwpdf.py:141 | a copy of `all.pdf` made into a directory is named `all.pdf` |
| Paths.JoinInjective | makebwpdf/makebwpdf.py:143 | joining two relative names onto the same directory gives different paths for different names |
| Paths.JoinKeepsPrefix | makebwpdf/makebwpdf.py:82-87 | a path joined under a directory inside the working directory stays inside the working directory |
| Paths.AbsPath | makebwpdf/makebwpdf.py:73 | `abspath` keeps an absolute path, and gives an absolute path when the current directory is absolute |
| Paths.RelativeTwice | makebwpdf.py:107-113 | for proper path components `t`, `d` and `f` (not empty, no '/', not `.` or `..`), the path `t/d/f` resolved inside `t` (itself resolved from the current directory) differs from `t/d/f` resolved from the current directory. No component is one that normalisation removes, so the two name different files |
| Paths.JoinTwice | makebwpdf.py:112-123 | a relative name resolved inside any directory `t` (absolute, relative, empty, or ending in '/') is the same path as `t/name` resolved from the current directory |
| PageNames.Format5 | makebwpdf/makebwpdf.py:141 | the name of page i is at least five characters long |
| PageNames.Format5Digits | makebwpdf/makebwpdf.py:141 | a page name is made of decimal digits only |
| PageNames.Format5Value | makebwpdf/makebwpdf.py:141 | a page name, read as a decimal number, is the page's index |
| PageNames.Format5Width | makebwpdf/makebwpdf.py:141 | names of pages below 100000 are exactly five characters long |
| PageNames.Format5Injective | makebwpdf/makebwpdf.py:141 | different pages get different names |
| PageNames.Format5Ordered | makebwpdf/makebwpdf.py:141 | for pages below 100000, the name order (lexicographic) is the page order |
| PageNames.Format5OrderLimit | makebwpdf/makebwpdf.py:141 | the name order breaks past five digits: the name of page 100000 sorts before the name of page 99999 |
| PageNames.Decimal | makebwpdf/makebwpdf.py:109-110 | `str(n)` is never empty |
| PageNames.DecimalDigits | makebwpdf/makebwpdf.py:109-110 | `str(n)` is made of decimal digits only |
| PageNames.ValueOfDecimal | makebwpdf/makebwpdf.py:109-110 | `str(n)` read back as a number is `n` |
| PageNames.DecimalLength | makebwpdf/makebwpdf.py:141 | a number below 10^k has at most k digits, so below 100000 the name needs no more than its padding to five |
| PageNames.Basenames | makebwpdf/makebwpdf.py:140-151 | the loop returns one page name per input file |
| PageNames.BasenamesAt | makebwpdf/makebwpdf.py:141-142 | the k-th returned name is the name of page k |
| PageNames.BasenamesDistinctOrdered | makebwpdf/makebwpdf.py:140-151 | the returned names are distinct; with at most 100000 pages they are all five characters long and in increasing order |
| MakeBwPdf.PageFilesDistinctOrdered | makebwpdf/makebwpdf.py:143 | the page files in one directory are distinct, and below 100000 pages their paths sort in page order |
| MakeBwPdf.PageFilePair | makebwpdf/makebwpdf.py:143 | two page files in one directory are equal only for the same name, and keep the order of equal-length names |
| MakeBwPdf.PageFileUnder | makebwpdf/makebwpdf.py:143 | a page file lies inside the working directory when its directory does |
| MakeBwPdf.ScanWrites | makebwpdf/makebwpdf.py:107-116 | `scanimage` writes `scan.tiff` in the working directory, the value of `--output-file` |
| MakeBwPdf.ScanArgvShape | makebwpdf/makebwpdf.py:102-116 | the `scanimage` command has 13 words: the A5 or A4 size in millimetres, 600 dpi, true grey, TIFF, and `scan.tiff` in the working directory |
| MakeBwPdf.SizesInDecimal | makebwpdf/makebwpdf.py:109-110 | the sizes are printed as "148", "210" and "297" |
| MakeBwPdf.ConvertWrites | makebwpdf/makebwpdf.py:145-147 | `convert` writes the page file given as its last argument |
| MakeBwPdf.ConvertArgvShape | makebwpdf/makebwpdf.py:145-147 | the `convert` command is the input, the 12 correction words for the paper size, and the output |
| MakeBwPdf.EconvertWrites | makebwpdf/makebwpdf.py:160-167 | `econvert` writes the file given to `--output` |
| MakeBwPdf.EconvertArgvShape | makebwpdf/makebwpdf.py:160-166 | reading the `econvert` command back gives exactly its input, brightness, rotation and output; it has 11 words with a rotation and 9 without, and ends with `--output` and the output file |
| MakeBwPdf.TiffcpWrites | makebwpdf/makebwpdf.py:172-176 | `tiffcp`, run inside a directory `t`, writes `t/all.tiff`, whatever `t` is |
| MakeBwPdf.TiffcpArgvShape | makebwpdf/makebwpdf.py:172-175 | the `tiffcp` command is `tiffcp -c g4`, then one bilevel page file per name in the given order, then `all.tiff` |
| MakeBwPdf.Sources | makebwpdf/makebwpdf.py:83-84 | with `--scan` the only page is the scanned file, and the input files are ignored; otherwise the pages are the input files |
| MakeBwPdf.RepositionEvents | makebwpdf/makebwpdf.py:120-151 | copy_and_reposition plans one directory creation and then one event per input file |
| MakeBwPdf.RepositionEventAt | makebwpdf/makebwpdf.py:123-150 | event 0 creates the page directory, and event k+1 converts or copies input k to the page file of its name |
| MakeBwPdf.BilevelEvents | makebwpdf/makebwpdf.py:154-167 | convert_to_bilevel plans one directory creation and then one `econvert` per page |
| MakeBwPdf.BilevelEventAt | makebwpdf/makebwpdf.py:156-167 | event 0 creates the bilevel directory, and event k+1 is the `econvert` of page k |
| MakeBwPdf.OcrEvents | makebwpdf/makebwpdf.py:189-203 | OCR is one event: the `pdfsandwich` run exactly when languages are given, otherwise a copy of the PDF |
| MakeBwPdf.AppendEvents | makebwpdf/makebwpdf.py:206-214 | appending runs `pdftk main additional cat output appended.pdf` and then copies `appended.pdf` over the main file |
| MakeBwPdf.PlanFrontFinish | makebwpdf/makebwpdf.py:81-96 | the whole run is the work inside the working directory followed by the step that writes the output (a copy, or `pdftk` and a copy) |
| MakeBwPdf.ScanIgnoresInputFiles | makebwpdf/makebwpdf.py:83-84 | with `--scan`, the run does not depend on the input files given |
| MakeBwPdf.ScanPageNames | makebwpdf/makebwpdf.py:117-175 | a scan is the single page "00000", and `tiffcp` is given exactly that page |
| MakeBwPdf.PageFlow | makebwpdf/makebwpdf.py:140-175 | page k is named `Format5(k)`. Its repositioned file is the one `econvert` reads, and its bilevel file is the one `econvert` writes and the one `tiffcp` takes in position k |
| MakeBwPdf.TiffcpFindsPages | makebwpdf/makebwpdf.py:170-176 | the working directory is absolute (line 73). So the page file that `tiffcp` is given, resolved in its own working directory, is the page file that `econvert` wrote |
| MakeBwPdf.Tiff2pdfWrites | makebwpdf/makebwpdf.py:181-185 | `tiff2pdf` writes `all.pdf` in the working directory, the value of `-o`, which an option parser reaches past `-c g4`, `-x600` and `-y600` |
| MakeBwPdf.Tiff2pdfFindsTiff | makebwpdf/makebwpdf.py:170-186 | `tiff2pdf` gets `tiff2pdf -c g4 -x600 -y600 -o tempdir/all.pdf tempdir/all.tiff`. The TIFF it reads is the file `tiffcp` writes, and the two names resolve to the same path from any current directory |
| MakeBwPdf.PdfsandwichWrites | makebwpdf/makebwpdf.py:192-201 | `pdfsandwich` writes the value of `-o`, found past the values of `-maxpixels`, `-resolution` and `-lang`, even when the language list reads `-o` |
| MakeBwPdf.PdftkWrites | makebwpdf/makebwpdf.py:207-213 | `pdftk` writes the file named after `output`, its last argument |
| MakeBwPdf.PageFileInWorkDir | makebwpdf/makebwpdf.py:143-159 | every page file lies inside the working directory |
| MakeBwPdf.PageDirsInWorkDir | makebwpdf/makebwpdf.py:82-91 | the page directories, `scan.tiff`, `all.tiff`, `all.pdf`, `all_ocr.pdf` and `appended.pdf` lie inside the working directory |
| MakeBwPdf.RepositionStaysInWorkDir | makebwpdf/makebwpdf.py:120-151 | repositioning creates its directory, and copies or `convert`s every page, only inside the working directory |
| MakeBwPdf.RepositionEventInWorkDir | makebwpdf/makebwpdf.py:120-151 | the `k`-th repositioning event, the directory or one page's copy or `convert`, creates only inside the working directory |
| MakeBwPdf.BilevelStaysInWorkDir | makebwpdf/makebwpdf.py:154-167 | bilevel conversion creates its directory, and `econvert` writes every page, only inside the working directory |
| MakeBwPdf.BilevelEventInWorkDir | makebwpdf/makebwpdf.py:154-167 | the `k`-th bilevel event, the directory or one page's `econvert`, creates only inside the working directory |
| MakeBwPdf.FrontStaysInWorkDir | makebwpdf/makebwpdf.py:81-92 | everything before the output step creates things only inside the working directory: every directory, every copy, and the file each tool writes (`scanimage`, `convert`, `econvert`, `tiffcp`, `tiff2pdf`, `pdfsandwich`) |
| MakeBwPdf.FinishShape | makebwpdf/makebwpdf.py:93-96 | the output step ends with the copy onto the output; an append first runs `pdftk`, which writes `appended.pdf` inside the working directory |
| MakeBwPdf.OutputWrittenLast | makebwpdf/makebwpdf.py:81-96 | take an absolute working directory that does not contain the output, with the output resolved from the current directory. Then no tool writes the output, and the fail-fast run writes it only as its very last event, the copy, and only when every tool succeeded; when every tool succeeds, it does write it |
| MakeBwPdf.OutputOnlyOnSuccess | makebwpdf/makebwpdf.py:57-96 | take a run after the checks pass, in an absolute working directory that does not contain the output resolved from the current directory. When every tool succeeds, the output ends up a regular file. When one fails, the output's existence, and whether it is a file, are what they were before, although every tool that ran, the failing one included, may have written its own output file |
| MakeBwPdf.Pipeline.constructor | makebwpdf/makebwpdf.py:20 | a run starts with an empty log in the given file system |
| MakeBwPdf.Pipeline.CheckCall | makebwpdf/makebwpdf.py:116 | `check_call` logs the command and succeeds exactly when its exit status is 0 |
| MakeBwPdf.Pipeline.Copy2 | makebwpdf/makebwpdf.py:149 | `copy2` logs the copy and adds the destination file, or the file inside a destination directory |
| MakeBwPdf.Pipeline.Mkdir | makebwpdf/makebwpdf.py:123 | `mkdir` logs the directory creation and adds the directory |
| MakeBwPdf.Pipeline.ScanDocument | makebwpdf/makebwpdf.py:99-117 | runs `scanimage` with the size for the paper, and returns the scanned file as the only input |
| MakeBwPdf.Pipeline.RepositionPage | makebwpdf/makebwpdf.py:144-149 | one page is converted with the correction arguments, or copied, and success is that event completing |
| MakeBwPdf.Pipeline.RepositionNext | makebwpdf/makebwpdf.py:140-150 | one loop iteration extends the successful prefix by one event, or stops the run at the failing `convert` |
| MakeBwPdf.Pipeline.CopyAndReposition | makebwpdf/makebwpdf.py:120-151 | the log grows by the fail-fast attempt of the planned events, success means every planned event succeeded, and on success the returned names are the page names |
| MakeBwPdf.Pipeline.RunEconvert | makebwpdf/makebwpdf.py:160-167 | builds the `econvert` command of one page and runs it with `check_call` |
| MakeBwPdf.Pipeline.BilevelNext | makebwpdf/makebwpdf.py:157-167 | one loop iteration extends the successful prefix by one event, or stops the run at the failing `econvert` |
| MakeBwPdf.Pipeline.ConvertToBilevel | makebwpdf/makebwpdf.py:154-167 | the log grows by the fail-fast attempt of the bilevel events, and success means every one of them succeeded |
| MakeBwPdf.Pipeline.MakeMultipageTiff | makebwpdf/makebwpdf.py:170-176 | runs `tiffcp` on the bilevel pages in order, in the working directory |
| MakeBwPdf.Pipeline.ConvertTiffToPdf | makebwpdf/makebwpdf.py:179-186 | runs `tiff2pdf` and returns `all.pdf` in the working directory |
| MakeBwPdf.Pipeline.PerformOcrOnPdf | makebwpdf/makebwpdf.py:189-203 | runs `pdfsandwich` when languages are given, and copies the PDF otherwise |
| MakeBwPdf.Pipeline.AppendPdf | makebwpdf/makebwpdf.py:206-214 | runs `pdftk`, and copies the appended PDF over the output only when `pdftk` succeeded |
| MakeBwPdf.Pipeline.Process | makebwpdf/makebwpdf.py:81-96 | the log grows by the fail-fast attempt of the whole plan, and success means every step of the plan succeeded |
| MakeBwPdf.Pipeline.RepositionStage | makebwpdf/makebwpdf.py:85-86 | after a successful prefix, the rest of the run from repositioning on is carried out fail-fast |
| MakeBwPdf.Pipeline.BilevelStage | makebwpdf/makebwpdf.py:87-88 | after a successful prefix, the rest of the run from bilevel conversion on is carried out fail-fast |
| MakeBwPdf.Pipeline.TiffStage | makebwpdf/makebwpdf.py:89 | after a successful prefix, the rest of the run from `tiffcp` on is carried out fail-fast |
| MakeBwPdf.Pipeline.PdfStage | makebwpdf/makebwpdf.py:90 | after a successful prefix, the rest of the run from `tiff2pdf` on is carried out fail-fast |
| MakeBwPdf.Pipeline.OcrStage | makebwpdf/makebwpdf.py:91-92 | after a successful prefix, the rest of the run from OCR on is carried out fail-fast |
| MakeBwPdf.Pipeline.OutputStage | makebwpdf/makebwpdf.py:93-96 | after a successful prefix, the output is written by a copy, or by `pdftk` and a copy |
| MakeBwPdf.Pipeline.Launch | makebwpdf/makebwpdf.py:57-73 | A failed check exits with status 1 and its message, and runs nothing. Otherwise the plan runs fail-fast in a fresh directory or in the absolute `--tempdir`. The file system is then the effect of what ran, and the exit status is 0 exactly when every tool succeeded, else 1. stderr is empty exactly on success; on a tool failure it starts with Python's traceback header |
| Trace.OptionValueFollowsFlag | makebwpdf/makebwpdf.py:181-201 | the value an option parser finds for `-o` is the argument right after an occurrence of `-o` |
| Trace.ToolOutput | makebwpdf/makebwpdf.py:170-176 | a tool's output file is only found in a command line of at least two words; for every tool but `tiff2pdf` and `pdfsandwich` it is the last argument, taken inside the run's working directory when it has one |
| Trace.Apply | makebwpdf/makebwpdf.py:123-149 | a tool run adds the file it writes; `mkdir` adds a directory; `copy2` adds the destination file, or the file inside a destination directory; only `mkdir` changes the directories |
| Trace.EffectAppend | makebwpdf/makebwpdf.py:81-96 | the effect of two event sequences one after the other is the effect of the first, then of the second |
| Trace.EffectDirs | makebwpdf/makebwpdf.py:123-156 | the directories after a run are those before plus exactly the ones its events create |
| Trace.SucceedsEach | makebwpdf/makebwpdf.py:116 | a sequence succeeds exactly when each of its events completes |
| Trace.AttemptPrefix | makebwpdf/makebwpdf.py:116 | a fail-fast run is a prefix of the plan: the whole plan on success, and otherwise the events up to the first failing command, which is the last event run |
| Trace.SucceedsThen | makebwpdf/makebwpdf.py:81-96 | two stages succeed together exactly when the first succeeds and the second succeeds after it |
| Trace.AttemptThen | makebwpdf/makebwpdf.py:81-96 | running two stages fail-fast is running the first and, only if it succeeded, the second |
| Trace.Advance | makebwpdf/makebwpdf.py:81-96 | after a successful prefix, the fail-fast run continues with the next stage |
| Trace.StageFails | makebwpdf/makebwpdf.py:81-96 | a failing stage stops the run: nothing after it is attempted |
| Trace.AttemptFailsAt | makebwpdf/makebwpdf.py:116 | the run stops just after the first event that fails |
| Trace.Stop | makebwpdf/makebwpdf.py:81-96 | once a part fails, adding events after it changes nothing |
| Trace.EffectOutside | makebwpdf/makebwpdf.py:81-92 | events whose directories, copies and tool outputs lie inside the working directory leave every path outside it as it was |
| Trace.FinishWritesLast | makebwpdf/makebwpdf.py:93-96 | when every event but a final copy onto the output stays inside the working directory, the fail-fast run writes the output exactly when everything succeeded, as its last event |
| Trace.FinishEffect | makebwpdf/makebwpdf.py:93-96 | after such a run, the output is a file on success, and is as before on failure |
| Trace.FinishAll | makebwpdf/makebwpdf.py:93-96 | running such a run to the end leaves the output as a file |
| Legacy.LegacyWorkDir | makebwpdf.py:50-54 | the working directory is a fresh temporary one, or `--tempdir` exactly as written (not made absolute) |
| Legacy.LegacyRepositionEvents | makebwpdf.py:67-88 | reposition plans one directory creation and then one event per input file |
| Legacy.LegacyRepositionEventAt | makebwpdf.py:70-87 | event 0 creates the page directory, and event k+1 converts (A4 correction) or copies input k to the page file of its name |
| Legacy.LegacyPageEventIsA4 | makebwpdf.py:76-86 | the handling of one page in the old script is the package's exactly when the package would not use the A5 correction for it |
| Legacy.LegacyRepositionIsA4 | makebwpdf.py:67-88 | the old repositioning equals the package's exactly when the paper is not A5, or there is no correction, or there are no pages |
| Legacy.LegacyTiff2pdfWrites | makebwpdf.py:118-124 | the old `tiff2pdf` writes `all.pdf` in the working directory, the value of `-o`, even when the paper size given to `-p` reads `-o` |
| Legacy.LegacyPdfsandwichWrites | makebwpdf.py:131-139 | the old `pdfsandwich` writes the value of `-o`, which is the output file |
| Legacy.LegacyTiff2pdfShape | makebwpdf.py:116-125 | the old `tiff2pdf` command is the package's, with `-p size` inserted after `-o all.pdf` exactly when a paper size is given |
| Legacy.LegacyPdfsandwichShape | makebwpdf.py:128-139 | the old `pdfsandwich` command is the package's without `-resolution 600`, and writes straight to the output file |
| Legacy.LegacyPlanShape | makebwpdf.py:57-64 | the old run has 2n+5 events: the page directory, n pages, the bilevel directory, n `econvert` runs, `tiffcp` in the working directory, `tiff2pdf`, and then the OCR run or the copy, both of which write to the output |
| Legacy.LegacyFromBilevelShape | makebwpdf.py:60-64 | from bilevel conversion on, the old run is the package's bilevel events followed by `tiffcp`, `tiff2pdf` and OCR or copy |
| Legacy.LegacyPageFlow | makebwpdf.py:72-113 | in the old run, page k's repositioned file is what `econvert` reads, and its bilevel file is what `econvert` writes and what `tiffcp` takes in position k |
| Legacy.LegacyFromBilevelPage | makebwpdf.py:91-113 | from bilevel conversion on, page k's `econvert` reads and writes that page's files, and `tiffcp` takes its bilevel file in position k |
| Legacy.LegacyMadeDirs | makebwpdf.py:70-93 | the only directories the old run creates are the two page directories |
| Legacy.LegacyOutputWritten | makebwpdf.py:128-141 | without OCR the old run always ends by attempting the copy of the PDF to the output, whatever the tools returned. Where that copy succeeds, the output is a file, or `all.pdf` inside it when the output is a directory |
| Legacy.LegacyTiff2pdfFindsTiff | makebwpdf.py:107-125 | unlike the pages, the combined TIFF is found whatever `--tempdir` is, relative or ending in '/' included: the last argument of `tiff2pdf` is `tempdir/all.tiff`, which is the file `tiffcp` writes inside `tempdir`, and the two names resolve to the same path from any current directory |
| Legacy.LegacyRelativeTempdirMissesPages | makebwpdf.py:91-113 | take a `--tempdir` of one proper name (not `.` or `..`), used as given at lines 50-54. Page k is written by `econvert` to a path that `tiffcp` is given as argument 3+k. But `tiffcp` runs inside the working directory, so it resolves that path to a different file |
| Legacy.LegacyRun.constructor | makebwpdf.py:19 | a run starts with an empty log in the given file system |
| Legacy.LegacyRun.Call | makebwpdf.py:84 | `subprocess.call` logs the command and returns its exit status, which nothing checks |
| Legacy.LegacyRun.Copy2 | makebwpdf.py:86 | `copy2` logs the copy |
| Legacy.LegacyRun.Mkdir | makebwpdf.py:70 | `mkdir` logs the directory creation |
| Legacy.LegacyRun.RepositionPage | makebwpdf.py:76-86 | one page is converted with the A4 correction, or copied |
| Legacy.LegacyRun.RepositionNext | makebwpdf.py:72-87 | one loop iteration adds exactly the next planned event |
| Legacy.LegacyRun.Reposition | makebwpdf.py:67-88 | the log grows by all of the repositioning events, and the returned names are the page names |
| Legacy.LegacyRun.ConvertToBilevel | makebwpdf.py:91-104 | the log grows by all of the bilevel events (the same commands as in the package) |
| Legacy.LegacyRun.MakeMultipageTiff | makebwpdf.py:107-113 | runs `tiffcp` on the bilevel pages, in the working directory |
| Legacy.LegacyRun.ConvertTiffToPdf | makebwpdf.py:116-125 | runs `tiff2pdf`, with the paper size if given, and returns `all.pdf` |
| Legacy.LegacyRun.PerformOcrOnPdf | makebwpdf.py:128-141 | runs `pdfsandwich` writing to the output, or copies the PDF to the output |
| Legacy.LegacyRun.ProcessFromBilevel | makebwpdf.py:60-64 | the steps from bilevel conversion on are all carried out |
| Legacy.LegacyRun.Process | makebwpdf.py:57-64 | every step of the plan is carried out, whatever the exit statuses |
| Legacy.LegacyRun.Launch | makebwpdf.py:50-54 | the whole plan runs in the fresh directory or in `--tempdir` as written, and the file system is its effect |

## Left out

- Parsing the command line with argparse is left out; the model starts from the parsed options.
  - The brightness, and the old script's output and paper size, are lists of one element in the source (`nargs=1`). The model holds that element.
  - argparse's own refusals are not modelled, for example a missing `--output`, or the old script's missing input file.
- Printing to standard error and `sys.exit` become the `(exitStatus, stderr)` result of `MakeBwPdf.Pipeline.Launch`.
- `TemporaryDirectory` is not modelled. Its fresh absolute path is a parameter, `freshTemp`, and its removal at the end is not modelled.
- The process's current directory is a parameter, `cwd`.
- Exceptions that `os.mkdir` and `shutil.copy2` raise are not modelled: an existing directory, a missing parent, or a missing source file. The model treats these calls as always succeeding. The package's `--tempdir` must exist for the run to work.
- What the external tools do to files is modelled only as far as the one output file each writes, which is added to the files. What they read, partial output, and any other file they touch are not modelled; their outcome is the exit-status oracle.
- MakeBwPdf.Pipeline.Launch: when a tool fails, Python's traceback goes to stderr. Only its header line is modelled; the stack frames and the final `CalledProcessError` line with the command and its status are not.
- Paths.AbsPath: `os.path.abspath` is modelled as a join with the current directory. Its normalisation (`..`, `.`, doubled slashes) is left out.
- MakeBwPdf.OutputWrittenLast: paths are compared as strings, without normalisation or symbolic links. An output that reaches into the working directory through `.`, `..` or doubled slashes (for example `-t . -o all.pdf` run in `/w`, where `tiff2pdf` itself writes the output: the model's working directory is `/w/.`, and the `/w/./all.pdf` that `tiff2pdf` writes is not recognised as the output `all.pdf`) is not covered.
- MakeBwPdf.OutputOnlyOnSuccess: the same restriction as `MakeBwPdf.OutputWrittenLast`, for the same reason.
- Legacy.LegacyOutputWritten: the final `copy2` is assumed to succeed. When no `all.pdf` was made (a tool failed), `copy2` raises and no output appears. The lemma states that the copy is always attempted.
- Legacy.LegacyRelativeTempdirMissesPages: only a `--tempdir` of one proper name is stated. A relative path of several components (`a/b`) misses the pages in the same way. It is not stated because the model does not normalise paths.
- Paths.Lower: only ASCII letters are lower-cased. Python's `str.lower` is Unicode-aware. The contract gives the length, and `Paths.LowerAt` gives each character.
- PageNames.Format5Ordered: the names follow page order only below 100000 pages. `PageNames.Format5OrderLimit` shows where it breaks.

## Findings

| source | as written | input that shows it | evidently intended | confidence | as-written member | corrected member |
|---|---|---|---|---|---|---|
| makebwpdf.py:107-113 | `--tempdir` is used as given (lines 50-54). `tiffcp` runs with its working directory set to that directory, but it is given page paths that already start with it (stated for a `--tempdir` of one proper name, not `.` or `..`) | `makebwpdf.py -t tmp -o out.pdf a.tiff`, run in `/w`. `econvert` writes `/w/tmp/pages_bilevel/00000.tiff`, but `tiffcp` opens `/w/tmp/tmp/pages_bilevel/00000.tiff` | make the working directory absolute first, as the package script does at makebwpdf/makebwpdf.py:73 | high; not executed | Legacy.LegacyRelativeTempdirMissesPages | MakeBwPdf.TiffcpFindsPages |
