/** What the scraper promises, line by line and over a whole output. */
module ScraperProperties {
  import opened Optional
  import opened Text
  import Paths
  import opened Scraper

  /** Over any sequence of lines the lists only grow, by appending; the three
      image lists together gain at most one entry per line; b-vectors and
      b-values gain the same number of entries. */
  lemma {:induction false} ScrapeGrows(st: ScrapeState, lines: seq<string>, env: Env)
    requires Wf(st)
    ensures Extends(st, Scrape(st, lines, env))
    ensures Images(Scrape(st, lines, env)) <= Images(st) + |lines|
    ensures |Scrape(st, lines, env).bvecs| - |st.bvecs| == |Scrape(st, lines, env).bvals| - |st.bvals|
    decreases |lines|
  {
    if lines != [] {
      ScrapeGrows(Step(st, lines[0], env), lines[1..], env);
    }
  }

  /** The scrape is one forward pass: scraping `a + b` is scraping `b` from
      wherever scraping `a` left off. */
  lemma {:induction false} ScrapeAppend(st: ScrapeState, a: seq<string>, b: seq<string>, env: Env)
    requires Wf(st)
    ensures Scrape(st, a + b, env) == Scrape(Scrape(st, a, env), b, env)
    decreases |a|
  {
    if a == [] {
      assert a + b == b;
    } else {
      assert (a + b)[0] == a[0];
      assert (a + b)[1..] == a[1..] + b;
      ScrapeAppend(Step(st, a[0], env), a[1..], b, env);
    }
  }

  /** For a whole output: the converted, reoriented and cropped files
      together number at most the lines of output, and the b-vector and
      b-value lists have equal length. */
  lemma ParseBounds(stdout: string, env: Env)
    ensures var r := Parse(stdout, env);
      |r.converted| + |r.reoriented| + |r.cropped| <= |SplitLines(stdout)|
      && |r.bvecs| == |r.bvals|
  {
    ScrapeGrows(Init, SplitLines(stdout), env);
  }

  /** A "Saving X" line with non-empty X appends exactly X to the converted
      files and makes it the last added file; with empty X nothing changes. */
  lemma SavingLine(st: ScrapeState, x: string, env: Env)
    requires Wf(st) && st.mode == Normal
    ensures x != "" ==> Step(st, SAVING + x, env) == st.(converted := st.converted + [x], lastFile := Some(x))
    ensures x == "" ==> Step(st, SAVING + x, env) == st
  {
    var line := SAVING + x;
    assert StartsWith(line, SAVING) && line[|SAVING|..] == x;
    if x == "" {
      assert !StartsWith(line, REORIENTING) && !StartsWith(line, CROPPING) by {
        assert line == SAVING;
      }
    }
  }

  /** A "GZip...X" line appends X resolved against the effective output
      directory and made absolute, and makes it the last added file. */
  lemma GZipLine(st: ScrapeState, x: string, env: Env)
    requires Wf(st) && st.mode == Normal
    requires Paths.IsAbs(env.cwd)
    ensures var f := Paths.Abspath(Paths.Join(OutputDir(env), x), env.cwd);
      && Paths.IsAbs(f)
      && Step(st, GZIP + x, env) == st.(converted := st.converted + [f], lastFile := Some(f))
  {
    var line := GZIP + x;
    assert StartsWith(line, GZIP) && line[|GZIP|..] == x;
    assert !StartsWith(line, SAVING) by {
      if StartsWith(line, SAVING) { FirstChar(line, SAVING); FirstChar(line, GZIP); }
    }
  }

  /** A diffusion-directions line never touches the converted files or the
      last added file; it appends the sibling `.bvec` and `.bval` of the last
      added file exactly when some file was added before, and otherwise
      changes nothing. */
  lemma DiffusionLine(st: ScrapeState, line: string, env: Env)
    requires Wf(st) && st.mode == Normal
    requires StartsWith(line, DIFFUSION)
    ensures var st' := Step(st, line, env);
      && st'.converted == st.converted
      && st'.lastFile == st.lastFile
      && st'.reoriented == st.reoriented
      && st'.cropped == st.cropped
      && st'.mode == Normal
      && (|st.converted| > 0 ==>
            var last := st.converted[|st.converted| - 1];
            st'.bvecs == st.bvecs + [BvecPath(last)] && st'.bvals == st.bvals + [BvalPath(last)])
      && (|st.converted| == 0 ==> st' == st)
  {
    if |st.converted| > 0 {
      assert st.converted[|st.converted| - 1] != "";
    }
  }

  /** A line whose first character is not that of "Saving ", "GZip..." or
      the diffusion count, and which holds no arrow, is only tried against
      the reoriented and cropped prefixes. */
  lemma OnlyFallback(line: string, env: Env)
    requires line != [] && line[0] != 'S' && line[0] != 'G' && line[0] != 'N'
    requires forall j :: !ArrowAt(line, j)
    ensures Classify(line, env) == Fallback(line)
  {
    assert !StartsWith(line, SAVING) by { if StartsWith(line, SAVING) { FirstChar(line, SAVING); } }
    assert !StartsWith(line, GZIP) by { if StartsWith(line, GZIP) { FirstChar(line, GZIP); } }
    assert !StartsWith(line, DIFFUSION) by { if StartsWith(line, DIFFUSION) { FirstChar(line, DIFFUSION); } }
  }

  /** A "Reorienting as P" line without an arrow appends P to the reoriented
      files and switches to skipping the next line. */
  lemma ReorientingLine(st: ScrapeState, p: string, env: Env)
    requires Wf(st) && st.mode == Normal
    requires forall j :: !ArrowAt(REORIENTING + p, j)
    ensures Step(st, REORIENTING + p, env) == st.(reoriented := st.reoriented + [p], mode := SkipOne)
  {
    var line := REORIENTING + p;
    assert StartsWith(line, REORIENTING) && line[|REORIENTING|..] == p;
    FirstChar(line, REORIENTING);
    OnlyFallback(line, env);
  }

  /** The arrow pattern is tried before "Reorienting as ": such a line that
      holds an arrow goes to the converted files, as the output directory
      joined with the text after the last arrow, and not to the reoriented
      files, and nothing is skipped after it. */
  lemma ReorientingWithArrow(st: ScrapeState, line: string, env: Env)
    requires Wf(st) && st.mode == Normal
    requires StartsWith(line, REORIENTING)
    requires exists j :: ArrowAt(line, j)
    requires OutputDir(env) != ""
    ensures exists i :: (ArrowAt(line, i) && (forall j :: i < j ==> !ArrowAt(line, j))
      && var f := Paths.Join(OutputDir(env), line[i + |ARROW|..]);
         Step(st, line, env) == st.(converted := st.converted + [f], lastFile := Some(f)))
    ensures Step(st, line, env).reoriented == st.reoriented
    ensures Step(st, line, env).mode == Normal
  {
    var c := ArrowCapture(line).value;
    var f := Paths.Join(OutputDir(env), c);
    assert Classify(line, env) == Converted(f) by {
      FirstChar(line, REORIENTING);
      assert !StartsWith(line, SAVING) by { if StartsWith(line, SAVING) { FirstChar(line, SAVING); } }
      assert !StartsWith(line, GZIP) by { if StartsWith(line, GZIP) { FirstChar(line, GZIP); } }
      assert !StartsWith(line, DIFFUSION) by { if StartsWith(line, DIFFUSION) { FirstChar(line, DIFFUSION); } }
    }
    assert f != "" by {
      if !Paths.IsAbs(c) { Paths.JoinRelative(OutputDir(env), c); }
    }
    assert Step(st, line, env) == st.(converted := st.converted + [f], lastFile := Some(f));
    var i :| ArrowAt(line, i) && c == line[i + |ARROW|..] && forall j :: i < j ==> !ArrowAt(line, j);
  }

  /** The cropped path keeps the directory and prefixes the file name with
      "c": splitting it again gives the original directory and "c" followed
      by the original file name. */
  lemma CroppedPathParts(p: string)
    ensures Paths.Split(CroppedPath(p)) == (Paths.Dirname(p), "c" + Paths.Basename(p))
  {
    var c := "c";
    assert '/' !in c;
    Paths.SplitPrefixed(p, c);
  }

  /** The b-vector file of `f` lies in the directory of `f` and is named by
      the base name of `f` (its file name without the extension) followed by
      ".bvec". */
  lemma BvecParts(f: string)
    ensures Paths.Split(BvecPath(f)) == (Paths.Dirname(f), Paths.SplitFilename(f).1 + ".bvec")
  {
    var base := Paths.SplitFilename(f).1;
    assert BvecPath(f) == Paths.Join(Paths.Dirname(f), base + ".bvec");
    Paths.SlashFreeConcat(base, ".bvec");
    Paths.SplitUnderDirname(f, base + ".bvec");
  }

  /** The b-value file of `f`: same directory, base name followed by ".bval". */
  lemma BvalParts(f: string)
    ensures Paths.Split(BvalPath(f)) == (Paths.Dirname(f), Paths.SplitFilename(f).1 + ".bval")
  {
    var base := Paths.SplitFilename(f).1;
    assert BvalPath(f) == Paths.Join(Paths.Dirname(f), base + ".bval");
    Paths.SlashFreeConcat(base, ".bval");
    Paths.SplitUnderDirname(f, base + ".bval");
  }

  /** A "Cropping NIfTI/Analyze image P" line without an arrow is a cropped
      image, the cropped path of P. */
  lemma CroppingClassified(p: string, env: Env)
    requires forall j :: !ArrowAt(CROPPING + p, j)
    ensures Classify(CROPPING + p, env) == Cropped(CroppedPath(p))
  {
    var line := CROPPING + p;
    assert StartsWith(line, CROPPING) && line[|CROPPING|..] == p;
    FirstChar(line, CROPPING);
    OnlyFallback(line, env);
  }

  /** A "Cropping NIfTI/Analyze image P" line without an arrow appends the
      cropped path of P to the cropped files and skips the next line. */
  lemma CroppingLine(st: ScrapeState, p: string, env: Env)
    requires Wf(st) && st.mode == Normal
    requires forall j :: !ArrowAt(CROPPING + p, j)
    ensures Step(st, CROPPING + p, env) == st.(cropped := st.cropped + [CroppedPath(p)], mode := SkipOne)
    ensures Paths.Split(CroppedPath(p)) == (Paths.Dirname(p), "c" + Paths.Basename(p))
  {
    var line := CROPPING + p;
    CroppingClassified(p, env);
    var x := CroppedPath(p);
    assert Step(st, line, env) == Apply(st, Cropped(x));
    assert Apply(st, Cropped(x)) == st.(cropped := st.cropped + [x], mode := SkipOne);
    CroppedPathParts(p);
  }

  /** After a line that records a reoriented or cropped image, exactly the
      next line is ignored whatever it holds, and the line after that is
      classified as usual: the skip is one-shot, never cumulative. */
  lemma SkipOneShot(st: ScrapeState, l1: string, l2: string, l3: string, env: Env)
    requires Wf(st) && st.mode == Normal
    requires StartsWith(l1, REORIENTING) || StartsWith(l1, CROPPING)
    requires forall j :: !ArrowAt(l1, j)
    ensures var s1 := Step(st, l1, env);
      var s2 := Step(s1, l2, env);
      && s1.mode == SkipOne
      && Lists(s2) == Lists(s1)
      && s2.lastFile == st.lastFile
      && Step(s2, l3, env) == Apply(s2, Classify(l3, env))
  {
    if StartsWith(l1, REORIENTING) {
      assert l1 == REORIENTING + l1[|REORIENTING|..];
      ReorientingLine(st, l1[|REORIENTING|..], env);
    } else {
      assert l1 == CROPPING + l1[|CROPPING|..];
      CroppingLine(st, l1[|CROPPING|..], env);
    }
  }
}
