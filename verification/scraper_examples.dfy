/** Worked outputs of the scraper on short captured stdouts. */
module ScraperExamples {
  import opened Optional
  import opened Text
  import Paths
  import opened Scraper
  import opened ScraperProperties

  /** Two lines: `line` and the empty piece after the final newline. */
  lemma TwoPieces(line: string)
    requires '\n' !in line
    ensures SplitLines(line + "\n") == [line, ""]
  {
    assert JoinLines([line, ""]) == line + "\n";
    SplitJoinLines([line, ""]);
  }

  lemma EmptyLine(st: ScrapeState, env: Env)
    requires Wf(st) && st.mode == Normal
    ensures Step(st, "", env) == st
  {
    assert Classify("", env) == Unrecognised;
  }

  lemma ScrapeTwo(st: ScrapeState, a: string, b: string, env: Env)
    requires Wf(st)
    ensures Scrape(st, [a, b], env) == Step(Step(st, a, env), b, env)
  {
    var s1 := Step(st, a, env);
    assert [a, b][0] == a && [a, b][1..] == [b];
    assert Scrape(st, [a, b], env) == Scrape(s1, [b], env);
    assert [b][0] == b && [b][1..] == [];
    assert Scrape(s1, [b], env) == Scrape(Step(s1, b, env), [], env);
  }

  /** A stdout of one line and a final newline. */
  lemma ParseOneLine(line: string, env: Env)
    requires '\n' !in line
    ensures Parse(line + "\n", env) == Lists(Step(Step(Init, line, env), "", env))
  {
    TwoPieces(line);
    ScrapeTwo(Init, line, "", env);
  }

  /** A stdout of two lines and a final newline. */
  lemma ParseTwoLines(a: string, b: string, env: Env)
    requires '\n' !in a && '\n' !in b
    ensures Parse(a + "\n" + b + "\n", env)
         == Lists(Step(Step(Step(Init, a, env), b, env), "", env))
  {
    assert [a, b, ""][1..] == [b, ""];
    assert JoinLines([b, ""]) == b + "\n";
    assert JoinLines([a, b, ""]) == a + "\n" + (b + "\n");
    assert a + "\n" + (b + "\n") == a + "\n" + b + "\n";
    SplitJoinLines([a, b, ""]);
    var s1 := Step(Init, a, env);
    assert [a, b, ""][0] == a && [a, b, ""][1..] == [b, ""];
    assert Scrape(Init, [a, b, ""], env) == Scrape(s1, [b, ""], env);
    ScrapeTwo(s1, b, "", env);
  }

  lemma SavingExample(env: Env)
    ensures Parse(SAVING + "/tmp/out/img.nii" + "\n", env) == Conversion(["/tmp/out/img.nii"], [], [], [], [])
  {
    var x := "/tmp/out/img.nii";
    var l := SAVING + x;
    assert '\n' !in l;
    ParseOneLine(l, env);
    SavingLine(Init, x, env);
    EmptyLine(Init.(converted := [x], lastFile := Some(x)), env);
  }

  /** A line without '>' holds no arrow. */
  lemma NoArrow(line: string)
    requires '>' !in line
    ensures forall j :: !ArrowAt(line, j)
  {
    forall j
      ensures !ArrowAt(line, j)
    {
      if 0 <= j && j + |ARROW| <= |line| {
        assert line[j..j + |ARROW|][2] == line[j + 2] != '>';
      }
    }
  }

  /** A name without a dot has no extension. */
  lemma NoExtension(name: string)
    requires '.' !in name
    ensures Paths.ExtStart(name) == |name|
  {
    assert forall j :: 0 <= j < |name| ==> name[j] != '.';
  }

  /** A directory that does not end in a slash, a slash and a dot-free name:
      `split_filename` gives back the directory, the name and no extension. */
  lemma SplitFilenameUnder(d: string, name: string)
    requires d != [] && d[|d| - 1] != '/'
    requires '/' !in name && '.' !in name
    ensures Paths.SplitFilename(d + "/" + name) == (d, name, "")
  {
    assert !Paths.IsAbs(name) by { if name != [] { assert name[0] in name; } }
    assert Paths.Join(d, name) == d + "/" + name;
    Paths.SplitJoin(d, name);
    NoExtension(name);
    assert name[..|name|] == name && name[|name|..] == "";
  }

  /** Joining a relative part onto a directory that does not end in a slash
      puts exactly one slash between them. */
  lemma JoinUnder(d: string, v: string)
    requires d != [] && d[|d| - 1] != '/'
    requires !Paths.IsAbs(v)
    ensures Paths.Join(d, v) == d + "/" + v
  {
  }

  /** The diffusion files beside such an image are the image path with
      ".bvec" and ".bval" appended. */
  lemma SiblingsUnder(d: string, name: string)
    requires d != [] && d[|d| - 1] != '/'
    requires '/' !in name && '.' !in name
    ensures BvecPath(d + "/" + name) == d + "/" + name + ".bvec"
    ensures BvalPath(d + "/" + name) == d + "/" + name + ".bval"
  {
    var x := d + "/" + name;
    SplitFilenameUnder(d, name);
    assert BvecPath(x) == Paths.Join(d, name + ".bvec");
    assert BvalPath(x) == Paths.Join(d, name + ".bval");
    Paths.RelativeWithExt(name, ".bvec");
    Paths.RelativeWithExt(name, ".bval");
    JoinUnder(d, name + ".bvec");
    JoinUnder(d, name + ".bval");
    assert d + "/" + (name + ".bvec") == x + ".bvec";
    assert d + "/" + (name + ".bval") == x + ".bval";
  }

  /** The states a "Saving" line followed by a diffusion count passes through. */
  lemma DiffusionSteps(d: string, name: string, n: string, env: Env)
    requires d != [] && d[|d| - 1] != '/'
    requires '/' !in name && '.' !in name
    ensures var x := d + "/" + name;
      Step(Step(Step(Init, SAVING + x, env), DIFFUSION + n, env), "", env)
      == Init.(converted := [x], lastFile := Some(x), bvecs := [x + ".bvec"], bvals := [x + ".bval"])
  {
    var x := d + "/" + name;
    var s1 := Init.(converted := [x], lastFile := Some(x));
    var s2 := s1.(bvecs := [x + ".bvec"], bvals := [x + ".bval"]);
    assert Step(Init, SAVING + x, env) == s1 by {
      assert |x| >= |d| > 0;
      SavingLine(Init, x, env);
    }
    assert Step(s1, DIFFUSION + n, env) == s2 by {
      var b := DIFFUSION + n;
      assert StartsWith(b, DIFFUSION);
      DiffusionLine(s1, b, env);
      SiblingsUnder(d, name);
    }
    EmptyLine(s2, env);
  }

  /** An image saved as `d/name`, then its diffusion direction count: the
      image is converted and its ".bvec"/".bval" pair is recorded. */
  lemma DiffusionExample(d: string, name: string, n: string, env: Env)
    requires d != [] && d[|d| - 1] != '/'
    requires '/' !in name && '.' !in name
    requires '\n' !in d && '\n' !in name && '\n' !in n
    ensures var x := d + "/" + name;
      Parse(SAVING + x + "\n" + DIFFUSION + n + "\n", env)
      == Conversion([x], [], [], [x + ".bvec"], [x + ".bval"])
  {
    var x := d + "/" + name;
    var a, b := SAVING + x, DIFFUSION + n;
    assert '\n' !in a && '\n' !in b;
    assert a + "\n" + b == SAVING + x + "\n" + DIFFUSION + n;
    ParseTwoLines(a, b, env);
    DiffusionSteps(d, name, n, env);
    var s3 := Init.(converted := [x], lastFile := Some(x), bvecs := [x + ".bvec"], bvals := [x + ".bval"]);
    assert Lists(s3) == Conversion([x], [], [], [x + ".bvec"], [x + ".bval"]);
  }

  /** "/tmp/out/" followed by a slash-free name splits at the last slash. */
  lemma SplitUnderTmpOut(name: string)
    requires '/' !in name
    ensures Paths.Split("/tmp/out/" + name) == ("/tmp/out", name)
  {
    var d := "/tmp/out";
    assert Paths.CanonicalHead(d) by { assert d[|d| - 1] == 't'; }
    assert !Paths.IsAbs(name) by { if name != [] { assert name[0] in name; } }
    assert Paths.Join(d, name) == "/tmp/out/" + name;
    Paths.SplitJoin(d, name);
  }

  /** The states a "Reorienting as" line followed by any line passes through. */
  // The literal is a precondition rather than written into the ensures: the
  // solver settles the steps for a named path more cheaply than for a literal.
  lemma ReorientingSteps(p: string, b: string, env: Env)
    requires p == "/tmp/out/r_img"
    ensures Step(Step(Step(Init, REORIENTING + p, env), b, env), "", env)
         == Init.(reoriented := [p])
  {
    var a := REORIENTING + p;
    assert '>' !in a;
    NoArrow(a);
    ReorientingLine(Init, p, env);
    var s1 := Init.(reoriented := [p], mode := SkipOne);
    assert Step(s1, b, env) == Init.(reoriented := [p]);
    EmptyLine(Init.(reoriented := [p]), env);
  }

  lemma ReorientingExample(env: Env)
    requires env.outputDir == Some("/tmp/out")
    ensures Parse(REORIENTING + "/tmp/out/r_img" + "\n" + GZIP + "/tmp/out/ignored.nii.gz" + "\n", env)
         == Conversion([], ["/tmp/out/r_img"], [], [], [])
  {
    var a, b := REORIENTING + "/tmp/out/r_img", GZIP + "/tmp/out/ignored.nii.gz";
    assert a + "\n" + b + "\n"
        == REORIENTING + "/tmp/out/r_img" + "\n" + GZIP + "/tmp/out/ignored.nii.gz" + "\n";
    assert '\n' !in a && '\n' !in b;
    ParseTwoLines(a, b, env);
    ReorientingSteps("/tmp/out/r_img", b, env);
  }

  /** The cropped path of "/tmp/out/img.nii". */
  // The literal is a precondition rather than written into the ensures: the
  // solver settles the steps for a named path more cheaply than for a literal.
  lemma CroppedImg(p: string)
    requires p == "/tmp/out/img.nii"
    ensures CroppedPath(p) == "/tmp/out/cimg.nii"
  {
    var name := "img.nii";
    assert p == "/tmp/out/" + name;
    SplitUnderTmpOut(name);
    assert Paths.Join("/tmp/out", "c" + name) == "/tmp/out/" + ("c" + name);
  }

  /** The states a "Cropping" line followed by an empty line passes through. */
  // The literal is a precondition rather than written into the ensures: the
  // solver settles the steps for a named path more cheaply than for a literal.
  lemma CroppingSteps(p: string, env: Env)
    requires p == "/tmp/out/img.nii"
    ensures Step(Step(Init, CROPPING + p, env), "", env) == Init.(cropped := ["/tmp/out/cimg.nii"])
  {
    var l := CROPPING + p;
    assert '>' !in l;
    NoArrow(l);
    CroppingLine(Init, p, env);
    CroppedImg(p);
  }

  lemma CroppingExample(env: Env)
    ensures Parse(CROPPING + "/tmp/out/img.nii" + "\n", env) == Conversion([], [], ["/tmp/out/cimg.nii"], [], [])
  {
    var l := CROPPING + "/tmp/out/img.nii";
    assert '\n' !in l;
    ParseOneLine(l, env);
    CroppingSteps("/tmp/out/img.nii", env);
  }
}
