/** The assembled command line. The generic formatter and the ordering by
    position belong to the framework's base class, whose code is not part of
    this model; `BaseFormat` is the behaviour assumed for it, used for the
    yes/no rendering and to pin down the documented example command line. */
module CommandLine {
  import opened Optional
  import opened Arguments

  const CMD := "dcm2nii"

  /** Every option, by ascending declared position. */
  const ORDER: seq<Opt> := [
    Anonymize, ConfigFile, CollapseFolders, DateInFilename, EventsInFilename,
    SourceInFilename, GzipOutput, IdInFilename, NiiOutput, OutputDir,
    ProtocolInFilename, Reorient, SpmAnalyze, ConvertAllPars, ReorientAndCrop,
    Args, SourceNames]

  /** Options are rendered in declared position order, each exactly once. */
  lemma OrderByPosition()
    ensures forall i, j :: 0 <= i < j < |ORDER| ==> Position(ORDER[i]) < Position(ORDER[j])
    ensures forall o: Opt :: o in ORDER
  {
    forall o: Opt
      ensures o in ORDER
    {
      assert ORDER[Position(o)] == o;
    }
  }

  /** The value an option is rendered with: the user's value, else its
      default, else for the two generated options the generated name (the
      config file "config.ini", the working directory as output directory),
      else none, and the option is left out. */
  function EffectiveValue(inputs: map<Opt, Value>, o: Opt, cwd: string): (r: Option<Value>)
    ensures o in inputs ==> r == Some(inputs[o])
    ensures o !in inputs && Default(o).Some? ==> r == Default(o)
    ensures o !in inputs && o == ConfigFile ==> r == Some(StrVal("config.ini"))
    ensures o !in inputs && o == OutputDir ==> r == Some(StrVal(cwd))
    ensures r.None? <==> o !in inputs && o in {SourceNames, Reorient, SpmAnalyze, Args}
  {
    if o in inputs then Some(inputs[o])
    else if Default(o).Some? then Default(o)
    else if o == ConfigFile then Some(StrVal("config.ini"))
    else if o == OutputDir then Some(StrVal(cwd))
    else None
  }

  /** Assumed generic formatting: a true boolean is its bare flag, a false
      one is left out, a string fills the template, a list fills it with its
      items separated by spaces. */
  function BaseFormat(argstr: string, v: Value): Option<string> {
    match v
    case BoolVal(b) => if b then Some(argstr) else None
    case StrVal(s) => Some(Interpolate(argstr, s))
    case ListVal(items) => Some(Interpolate(argstr, Words(items)))
  }

  function Words(items: seq<string>): string {
    if items == [] then "" else if |items| == 1 then items[0] else items[0] + " " + Words(items[1..])
  }

  /** One option's contribution to the command line. */
  datatype Rendering =
    | Omitted              // left out
    | Token(text: string)  // rendered as one token
    | Fails                // formatting raises

  function Render(o: Opt, v: Value): Rendering {
    match FormatArg(o, v)
    case Rendered(text) => Token(text)
    case Delegated(argstr, value) =>
      (match BaseFormat(argstr, value)
       case None => Omitted
       case Some(text) => Token(text))
    case Failed(_) => Fails
  }

  /** With the assumed generic formatting, a yes/no option is never left out:
      false renders as the flag followed by "n", true as the flag followed by
      "y". */
  lemma YesNoAlwaysRendered(o: Opt, b: bool)
    requires YesNo(o)
    ensures Render(o, BoolVal(b)) == Token(ArgStr(o) + (if b then " y" else " n"))
  {
  }

  /** The tokens one option contributes: none when it has no value or is
      left out, one when rendered, or `None` when formatting fails. */
  function OptionTokens(inputs: map<Opt, Value>, o: Opt, cwd: string): Option<seq<string>> {
    match EffectiveValue(inputs, o, cwd)
    case None => Some([])
    case Some(v) =>
      match Render(o, v)
      case Fails => None
      case Omitted => Some([])
      case Token(t) => Some([t])
  }

  /** The tokens of `opts`, in order, or `None` if one of them fails. */
  function Tokens(inputs: map<Opt, Value>, opts: seq<Opt>, cwd: string): Option<seq<string>> {
    if opts == [] then Some([])
    else
      match OptionTokens(inputs, opts[0], cwd)
      case None => None
      case Some(first) =>
        match Tokens(inputs, opts[1..], cwd)
        case None => None
        case Some(rest) => Some(first + rest)
  }

  function Unwords(tokens: seq<string>): string {
    if tokens == [] then "" else " " + tokens[0] + Unwords(tokens[1..])
  }

  /** The full command line. */
  function Cmdline(inputs: map<Opt, Value>, cwd: string): Option<string> {
    match Tokens(inputs, ORDER, cwd)
    case None => None
    case Some(tokens) => Some(CMD + Unwords(tokens))
  }
}

/** The documented example command line, computed under the assumed generic
    formatting. */
module CommandLineExample {
  import opened Optional
  import opened Arguments
  import opened CommandLine

  /** The two templates with a placeholder take their value after the flag. */
  lemma Placeholders(x: string)
    ensures Interpolate(ArgStr(ConfigFile), x) == "-b " + x
    ensures Interpolate(ArgStr(OutputDir), x) == "-o " + x
  {
    assert "-b " + "%s" == ArgStr(ConfigFile);
    assert "-o " + "%s" == ArgStr(OutputDir);
    InterpolateTail("-b ", x);
    InterpolateTail("-o ", x);
  }

  /** The inputs of the documented example: two sources, gzip on, output
      directory ".". */
  const EXAMPLE: map<Opt, Value> := map[
    SourceNames := ListVal(["functional_1.dcm", "functional_2.dcm"]),
    GzipOutput := BoolVal(true),
    OutputDir := StrVal(".")]

  /** The tokens each option contributes in the documented example. */
  function Expected(o: Opt): seq<string> {
    match o
    case Anonymize => ["-a y"]
    case ConfigFile => ["-b config.ini"]
    case CollapseFolders => ["-c y"]
    case DateInFilename => ["-d y"]
    case EventsInFilename => ["-e y"]
    case SourceInFilename => ["-f n"]
    case GzipOutput => ["-g y"]
    case IdInFilename => ["-i n"]
    case NiiOutput => ["-n y"]
    case OutputDir => ["-o ."]
    case ProtocolInFilename => ["-p y"]
    case Reorient => []
    case SpmAnalyze => []
    case ConvertAllPars => ["-v y"]
    case ReorientAndCrop => ["-x n"]
    case Args => []
    case SourceNames => ["functional_1.dcm"]
  }

  lemma YesNoToken(o: Opt, b: bool, t: string, cwd: string)
    requires YesNo(o) && o !in EXAMPLE.Keys - {GzipOutput}
    requires (if o == GzipOutput then true else Default(o) == Some(BoolVal(b)))
    requires o == GzipOutput ==> b
    requires t == ArgStr(o) + (if b then " y" else " n")
    ensures OptionTokens(EXAMPLE, o, cwd) == Some([t])
  {
    YesNoAlwaysRendered(o, b);
  }

  /** An option whose value the override hands on and the generic
      formatter renders as `t`. */
  lemma DelegatedToken(inputs: map<Opt, Value>, o: Opt, cwd: string, v: Value, argstr: string, t: string)
    requires EffectiveValue(inputs, o, cwd) == Some(v)
    requires FormatArg(o, v) == Delegated(argstr, v)
    requires BaseFormat(argstr, v) == Some(t)
    ensures OptionTokens(inputs, o, cwd) == Some([t])
  {
  }

  lemma ConfigIni()
    ensures Interpolate("-b %s", "config.ini") == "-b config.ini"
  {
    assert "-b " + "%s" == "-b %s";
    InterpolateTail("-b ", "config.ini");
    var joined := "-b " + "config.ini";
    assert |joined| == 13;
    assert forall i | 0 <= i < 13 :: joined[i] == "-b config.ini"[i];
  }

  lemma DotDir()
    ensures Interpolate("-o %s", ".") == "-o ."
  {
    assert "-o " + "%s" == "-o %s";
    InterpolateTail("-o ", ".");
    assert "-o " + "." == "-o .";
  }

  lemma ConfigFileToken(cwd: string)
    ensures OptionTokens(EXAMPLE, ConfigFile, cwd) == Some(["-b config.ini"])
  {
    var v := StrVal("config.ini");
    assert EffectiveValue(EXAMPLE, ConfigFile, cwd) == Some(v);
    assert FormatArg(ConfigFile, v) == Delegated("-b %s", v);
    ConfigIni();
    DelegatedToken(EXAMPLE, ConfigFile, cwd, v, "-b %s", "-b config.ini");
  }

  lemma OutputDirToken(cwd: string)
    ensures OptionTokens(EXAMPLE, OutputDir, cwd) == Some(["-o ."])
  {
    var v := StrVal(".");
    assert EffectiveValue(EXAMPLE, OutputDir, cwd) == Some(v);
    assert FormatArg(OutputDir, v) == Delegated("-o %s", v);
    DotDir();
    DelegatedToken(EXAMPLE, OutputDir, cwd, v, "-o %s", "-o .");
  }

  lemma ExampleOption(o: Opt, cwd: string)
    ensures OptionTokens(EXAMPLE, o, cwd) == Some(Expected(o))
  {
    match o
    case Anonymize => YesNoToken(Anonymize, true, "-a y", cwd);
    case ConfigFile => ConfigFileToken(cwd);
    case CollapseFolders => YesNoToken(CollapseFolders, true, "-c y", cwd);
    case DateInFilename => YesNoToken(DateInFilename, true, "-d y", cwd);
    case EventsInFilename => YesNoToken(EventsInFilename, true, "-e y", cwd);
    case SourceInFilename => YesNoToken(SourceInFilename, false, "-f n", cwd);
    case GzipOutput => YesNoToken(GzipOutput, true, "-g y", cwd);
    case IdInFilename => YesNoToken(IdInFilename, false, "-i n", cwd);
    case NiiOutput => YesNoToken(NiiOutput, true, "-n y", cwd);
    case OutputDir => OutputDirToken(cwd);
    case ProtocolInFilename => YesNoToken(ProtocolInFilename, true, "-p y", cwd);
    case Reorient =>
    case SpmAnalyze =>
    case ConvertAllPars => YesNoToken(ConvertAllPars, true, "-v y", cwd);
    case ReorientAndCrop => YesNoToken(ReorientAndCrop, false, "-x n", cwd);
    case Args =>
    case SourceNames =>
  }

  /** The expected tokens of `opts`, in order. */
  function ExpectedAll(opts: seq<Opt>): seq<string> {
    if opts == [] then [] else Expected(opts[0]) + ExpectedAll(opts[1..])
  }

  lemma {:induction false} ExampleTokens(opts: seq<Opt>, cwd: string)
    ensures Tokens(EXAMPLE, opts, cwd) == Some(ExpectedAll(opts))
  {
    if opts != [] {
      ExampleOption(opts[0], cwd);
      ExampleTokens(opts[1..], cwd);
    }
  }

  const DOC_TOKENS: seq<string> := [
    "-a y", "-b config.ini", "-c y", "-d y", "-e y", "-f n", "-g y", "-i n", "-n y", "-o .",
    "-p y", "-v y", "-x n", "functional_1.dcm"]

  lemma {:induction false} ExpectedAllAppend(a: seq<Opt>, b: seq<Opt>)
    ensures ExpectedAll(a + b) == ExpectedAll(a) + ExpectedAll(b)
  {
    if a != [] {
      assert (a + b)[0] == a[0] && (a + b)[1..] == a[1..] + b;
      ExpectedAllAppend(a[1..], b);
    } else {
      assert a + b == b;
    }
  }

  // The documented tokens are pinned down a third of the option order at a
  // time: the solver does not settle the whole literal list in one step.
  const FIRST: seq<Opt> := [Anonymize, ConfigFile, CollapseFolders, DateInFilename, EventsInFilename]
  const SECOND: seq<Opt> := [SourceInFilename, GzipOutput, IdInFilename, NiiOutput, OutputDir]
  const THIRD: seq<Opt> := [ProtocolInFilename, Reorient, SpmAnalyze, ConvertAllPars, ReorientAndCrop, Args, SourceNames]

  lemma FirstTokens()
    ensures ExpectedAll(FIRST) == ["-a y", "-b config.ini", "-c y", "-d y", "-e y"]
  {
  }

  lemma SecondTokens()
    ensures ExpectedAll(SECOND) == ["-f n", "-g y", "-i n", "-n y", "-o ."]
  {
  }

  lemma ThirdTokens()
    ensures ExpectedAll(THIRD) == ["-p y", "-v y", "-x n", "functional_1.dcm"]
  {
  }

  lemma OrderInThirds()
    ensures ORDER == FIRST + SECOND + THIRD
  {
  }

  lemma DocTokensInThirds()
    ensures DOC_TOKENS == ["-a y", "-b config.ini", "-c y", "-d y", "-e y"]
                        + ["-f n", "-g y", "-i n", "-n y", "-o ."]
                        + ["-p y", "-v y", "-x n", "functional_1.dcm"]
  {
  }

  lemma AllTokens()
    ensures ExpectedAll(ORDER) == DOC_TOKENS
  {
    OrderInThirds();
    ExpectedAllAppend(FIRST + SECOND, THIRD);
    ExpectedAllAppend(FIRST, SECOND);
    FirstTokens();
    SecondTokens();
    ThirdTokens();
    DocTokensInThirds();
  }

  /** The documented example command line, whatever the working directory:
      "dcm2nii" followed by these tokens, each after one space, which is
      "dcm2nii -a y -b config.ini -c y -d y -e y -f n -g y -i n -n y -o . -p y
      -v y -x n functional_1.dcm" on one line. */
  lemma DocumentedCmdline(cwd: string)
    ensures Cmdline(EXAMPLE, cwd) == Some(CMD + Unwords(DOC_TOKENS))
  {
    ExampleTokens(ORDER, cwd);
    AllTokens();
  }
}
