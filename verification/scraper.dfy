/** The stdout scraper of the dcm2nii wrapper: one forward pass over the
    tool's output lines that sorts each line by prefix or pattern and fills
    five ordered lists of paths. The output directory and the working
    directory are parameters instead of environment lookups. */
module Scraper {
  import opened Optional
  import opened Text
  import Paths

  const SAVING := "Saving "
  const GZIP := "GZip..."
  const DIFFUSION := "Number of diffusion directions "
  const REORIENTING := "Reorienting as "
  const CROPPING := "Cropping NIfTI/Analyze image "

  /** What the scraper reads from outside: the user's `output_dir`, if set,
      and the working directory used when it is not. */
  datatype Env = Env(outputDir: Option<string>, cwd: string)

  /** The effective output directory: the user's choice, else the working
      directory. */
  function OutputDir(env: Env): string {
    if env.outputDir.Some? then env.outputDir.value else env.cwd
  }

  /** The kind of one line of output that was not skipped. */
  datatype Event =
    | Converted(path: string)        // appended to the converted files
    | DiffusionDirections            // b-vector and b-value files of the last file
    | Reoriented(path: string)       // appended to the reoriented files, skips a line
    | Cropped(path: string)          // appended to the cropped files, skips a line
    | Unrecognised                   // no effect

  /** The `.bvec` file beside `file`: same directory and base name. */
  function BvecPath(file: string): string {
    var (dir, base, _) := Paths.SplitFilename(file);
    Paths.Join(dir, base + ".bvec")
  }

  /** The `.bval` file beside `file`: same directory and base name. */
  function BvalPath(file: string): string {
    var (dir, base, _) := Paths.SplitFilename(file);
    Paths.Join(dir, base + ".bval")
  }

  /** The cropped image the tool writes for `image`: the same directory, the
      file name prefixed with "c". */
  function CroppedPath(image: string): string {
    Paths.Join(Paths.Dirname(image), "c" + Paths.Basename(image))
  }

  /** Two paths that share everything but the extension `.bvec` / `.bval`. */
  predicate Siblings(bvec: string, bval: string) {
    && |bvec| >= 5 && |bval| == |bvec|
    && bvec[..|bvec| - 5] == bval[..|bval| - 5]
    && bvec[|bvec| - 5..] == ".bvec" && bval[|bval| - 5..] == ".bval"
  }

  /** The lines tried only when no file was found: reoriented images and
      cropped images. */
  function Fallback(line: string): (e: Event)
    ensures e.Reoriented? <==> StartsWith(line, REORIENTING)
    ensures e.Reoriented? ==> line == REORIENTING + e.path
    ensures e.Cropped? <==> StartsWith(line, CROPPING)
    ensures e.Cropped? ==> e.path == CroppedPath(line[|CROPPING|..])
    ensures !e.Converted? && !e.DiffusionDirections?
  {
    if StartsWith(line, REORIENTING) then
      FirstChar(line, REORIENTING);
      assert !StartsWith(line, CROPPING) by {
        if StartsWith(line, CROPPING) { FirstChar(line, CROPPING); }
      }
      assert line == REORIENTING + line[|REORIENTING|..];
      Reoriented(line[|REORIENTING|..])
    else if StartsWith(line, CROPPING) then Cropped(CroppedPath(line[|CROPPING|..]))
    else Unrecognised
  }

  /** A found file counts only when it is a non-empty string (Python
      truthiness); an empty one lets the line fall through. */
  function Accept(file: string, line: string): Event {
    if file != "" then Converted(file) else Fallback(line)
  }

  /** The file a "GZip..." line names: the rest of the line under the
      effective output directory, made absolute. */
  function GZipTarget(line: string, env: Env): string
    requires StartsWith(line, GZIP)
  {
    Paths.Abspath(Paths.Join(OutputDir(env), line[|GZIP|..]), env.cwd)
  }

  /** The file a line holding an arrow names: the text after its last arrow
      under the effective output directory. */
  function ArrowTarget(line: string, env: Env): string
    requires ArrowCapture(line).Some?
  {
    Paths.Join(OutputDir(env), ArrowCapture(line).value)
  }

  /** The event of one line: "Saving ", "GZip...", the diffusion count and
      the arrow pattern are tried in that order, and only a line none of them
      turned into a file is tried as a reoriented or cropped image. */
  function Classify(line: string, env: Env): (e: Event)
    ensures e.Converted? ==> e.path != ""
    ensures StartsWith(line, SAVING) && line[|SAVING|..] != "" ==> e == Converted(line[|SAVING|..])
    ensures StartsWith(line, GZIP) && GZipTarget(line, env) != "" ==> e == Converted(GZipTarget(line, env))
    ensures && !StartsWith(line, SAVING) && !StartsWith(line, GZIP) && !StartsWith(line, DIFFUSION)
            && ArrowCapture(line).Some? && ArrowTarget(line, env) != ""
            ==> e == Converted(ArrowTarget(line, env))
    ensures e.Converted? ==>
              || (StartsWith(line, SAVING) && e.path == line[|SAVING|..])
              || (StartsWith(line, GZIP) && e.path == GZipTarget(line, env))
              || (ArrowCapture(line).Some? && e.path == ArrowTarget(line, env))
    ensures e.DiffusionDirections? <==> StartsWith(line, DIFFUSION)
    ensures e.Reoriented? ==> line == REORIENTING + e.path
    ensures e.Cropped? ==> StartsWith(line, CROPPING)
  {
    if StartsWith(line, SAVING) then
      assert !StartsWith(line, DIFFUSION) by {
        FirstChar(line, SAVING);
        if StartsWith(line, DIFFUSION) { FirstChar(line, DIFFUSION); }
      }
      Accept(line[|SAVING|..], line)
    else if StartsWith(line, GZIP) then
      assert !StartsWith(line, DIFFUSION) by {
        FirstChar(line, GZIP);
        if StartsWith(line, DIFFUSION) { FirstChar(line, DIFFUSION); }
      }
      Accept(GZipTarget(line, env), line)
    else if StartsWith(line, DIFFUSION) then DiffusionDirections
    else
      match ArrowCapture(line)
      case Some(_) => Accept(ArrowTarget(line, env), line)
      case None => Fallback(line)
  }

  /** Whether the previous line asked for the current one to be ignored. */
  datatype Mode = Normal | SkipOne

  datatype ScrapeState = ScrapeState(
    mode: Mode,
    lastFile: Option<string>,
    converted: seq<string>,
    reoriented: seq<string>,
    cropped: seq<string>,
    bvecs: seq<string>,
    bvals: seq<string>)

  const Init := ScrapeState(Normal, None, [], [], [], [], [])

  /** The invariant the scrape keeps: b-vectors and b-values come in
      sibling pairs, converted files are non-empty, and the last added file is
      exactly the last converted file. */
  predicate Wf(st: ScrapeState) {
    && |st.bvecs| == |st.bvals|
    && (forall i :: 0 <= i < |st.bvecs| ==> Siblings(st.bvecs[i], st.bvals[i]))
    && (forall i :: 0 <= i < |st.converted| ==> st.converted[i] != "")
    && (st.lastFile.Some? <==> |st.converted| > 0)
    && (st.lastFile.Some? ==> st.lastFile.value == st.converted[|st.converted| - 1])
  }

  /** Every list of `b` starts with the corresponding list of `a`. */
  predicate Extends(a: ScrapeState, b: ScrapeState) {
    && a.converted <= b.converted
    && a.reoriented <= b.reoriented
    && a.cropped <= b.cropped
    && a.bvecs <= b.bvecs
    && a.bvals <= b.bvals
  }

  /** The number of entries in the three image lists. */
  function Images(st: ScrapeState): nat {
    |st.converted| + |st.reoriented| + |st.cropped|
  }

  lemma SiblingsBySuffix(x: string)
    ensures Siblings(x + ".bvec", x + ".bval")
  {
    assert (x + ".bvec")[..|x|] == x == (x + ".bval")[..|x|];
    assert (x + ".bvec")[|x|..] == ".bvec";
    assert (x + ".bval")[|x|..] == ".bval";
  }

  /** The two extensions joined onto one directory and slash-free base. */
  lemma JoinedSiblings(dir: string, base: string)
    requires '/' !in base
    ensures Siblings(Paths.Join(dir, base + ".bvec"), Paths.Join(dir, base + ".bval"))
  {
    Paths.JoinWithExt(dir, base, ".bvec");
    Paths.JoinWithExt(dir, base, ".bval");
    SiblingsBySuffix(Paths.DirPrefix(dir) + base);
  }

  /** The two diffusion files derived from one image share directory and
      base name and differ only in extension. */
  lemma SiblingPaths(file: string)
    ensures Siblings(BvecPath(file), BvalPath(file))
  {
    var r := Paths.SplitFilename(file);
    JoinedSiblings(r.0, r.1);
  }

  /** Recording a non-empty converted file keeps the invariant. */
  lemma ConvertedKeepsWf(st: ScrapeState, f: string)
    requires Wf(st) && f != ""
    ensures Wf(st.(converted := st.converted + [f], lastFile := Some(f)))
  {
    var c := st.converted + [f];
    assert forall i :: 0 <= i < |st.converted| ==> c[i] == st.converted[i];
  }

  /** Recording a sibling pair of diffusion files keeps the invariant. */
  lemma DiffusionKeepsWf(st: ScrapeState, v: string, l: string)
    requires Wf(st) && Siblings(v, l)
    ensures Wf(st.(bvecs := st.bvecs + [v], bvals := st.bvals + [l]))
  {
    var vs, ls := st.bvecs + [v], st.bvals + [l];
    assert forall i :: 0 <= i < |st.bvecs| ==> vs[i] == st.bvecs[i] && ls[i] == st.bvals[i];
  }

  /** The effect of one event on a state in normal mode. */
  function Apply(st: ScrapeState, e: Event): (st': ScrapeState)
    requires Wf(st)
    requires e.Converted? ==> e.path != ""
    ensures Wf(st')
    ensures Extends(st, st')
    ensures Images(st) <= Images(st') <= Images(st) + 1
    ensures |st'.bvecs| - |st.bvecs| == |st'.bvals| - |st.bvals| <= 1
  {
    match e
    case Converted(f) =>
      ConvertedKeepsWf(st, f);
      st.(converted := st.converted + [f], lastFile := Some(f))
    case DiffusionDirections =>
      // `if last_added_file:` is false for None and for the empty string
      if st.lastFile.Some? && st.lastFile.value != "" then
        var f := st.lastFile.value;
        SiblingPaths(f);
        DiffusionKeepsWf(st, BvecPath(f), BvalPath(f));
        st.(bvecs := st.bvecs + [BvecPath(f)], bvals := st.bvals + [BvalPath(f)])
      else st
    case Reoriented(p) => st.(reoriented := st.reoriented + [p], mode := SkipOne)
    case Cropped(p) => st.(cropped := st.cropped + [p], mode := SkipOne)
    case Unrecognised => st
  }

  /** One pass of the loop body: a line after a skip trigger is ignored and
      clears the skip, any other line is classified and applied. */
  function Step(st: ScrapeState, line: string, env: Env): (st': ScrapeState)
    requires Wf(st)
    ensures Wf(st')
    ensures Extends(st, st')
    ensures Images(st) <= Images(st') <= Images(st) + 1
    ensures |st'.bvecs| - |st.bvecs| == |st'.bvals| - |st.bvals| <= 1
    ensures st.mode == SkipOne ==> st' == st.(mode := Normal)
  {
    if st.mode == SkipOne then st.(mode := Normal) else Apply(st, Classify(line, env))
  }

  /** The loop over all `lines`, from state `st`. */
  function Scrape(st: ScrapeState, lines: seq<string>, env: Env): (st': ScrapeState)
    requires Wf(st)
    ensures Wf(st')
    decreases |lines|
  {
    if lines == [] then st else Scrape(Step(st, lines[0], env), lines[1..], env)
  }

  /** The five lists the scraper returns. */
  datatype Conversion = Conversion(
    converted: seq<string>,
    reoriented: seq<string>,
    cropped: seq<string>,
    bvecs: seq<string>,
    bvals: seq<string>)

  function Lists(st: ScrapeState): Conversion {
    Conversion(st.converted, st.reoriented, st.cropped, st.bvecs, st.bvals)
  }

  /** The scrape of a whole captured stdout. */
  function Parse(stdout: string, env: Env): (r: Conversion)
    ensures |r.bvecs| == |r.bvals|
    ensures forall i :: 0 <= i < |r.bvecs| ==> Siblings(r.bvecs[i], r.bvals[i])
    ensures forall i :: 0 <= i < |r.converted| ==> r.converted[i] != ""
  {
    Lists(Scrape(Init, SplitLines(stdout), env))
  }

  /** Scraping the lines from index `i` on is one step on line `i` followed
      by scraping the rest. */
  lemma ScrapeFrom(st: ScrapeState, lines: seq<string>, i: nat, env: Env)
    requires Wf(st) && i < |lines|
    ensures Scrape(st, lines[i..], env) == Scrape(Step(st, lines[i], env), lines[i + 1..], env)
  {
    assert lines[i..][0] == lines[i] && lines[i..][1..] == lines[i + 1..];
  }

  /** The scraper as the loop it is written as: one pass over the lines,
      carrying the state from line to line. It computes exactly `Parse`. */
  method ParseStdout(stdout: string, env: Env) returns (r: Conversion)
    ensures r == Parse(stdout, env)
    ensures |r.bvecs| == |r.bvals|
  {
    var lines := SplitLines(stdout);
    var st := Init;
    var i := 0;
    while i < |lines|
      invariant 0 <= i <= |lines|
      invariant Wf(st)
      invariant Scrape(st, lines[i..], env) == Scrape(Init, lines, env)
    {
      ScrapeFrom(st, lines, i, env);
      st := Step(st, lines[i], env);
      i := i + 1;
    }
    r := Lists(st);
  }
}
