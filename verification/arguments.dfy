/** The argument rendering of the dcm2nii wrapper: the options of its input
    specification, the `_format_arg` override (yes/no booleans, first source
    only), and, to pin the documented example command line, an assumed
    rendering of what the override hands on to the generic formatter. */
module Arguments {
  import opened Optional

  /** The options of the input specification. */
  datatype Opt =
    | SourceNames | Anonymize | ConfigFile | CollapseFolders | DateInFilename
    | EventsInFilename | SourceInFilename | GzipOutput | IdInFilename | NiiOutput
    | OutputDir | ProtocolInFilename | Reorient | SpmAnalyze | ConvertAllPars
    | ReorientAndCrop | Args

  /** An option value: a boolean, a string or path, or a list of paths. */
  datatype Value = BoolVal(b: bool) | StrVal(s: string) | ListVal(items: seq<string>)

  /** The flag template of each option. */
  function ArgStr(o: Opt): string {
    match o
    case SourceNames => "%s"
    case Anonymize => "-a"
    case ConfigFile => "-b %s"
    case CollapseFolders => "-c"
    case DateInFilename => "-d"
    case EventsInFilename => "-e"
    case SourceInFilename => "-f"
    case GzipOutput => "-g"
    case IdInFilename => "-i"
    case NiiOutput => "-n"
    case OutputDir => "-o %s"
    case ProtocolInFilename => "-p"
    case Reorient => "-r"
    case SpmAnalyze => "-s"
    case ConvertAllPars => "-v"
    case ReorientAndCrop => "-x"
    case Args => "%s"
  }

  /** The declared position of each option on the command line. */
  function Position(o: Opt): nat {
    match o
    case Anonymize => 0
    case ConfigFile => 1
    case CollapseFolders => 2
    case DateInFilename => 3
    case EventsInFilename => 4
    case SourceInFilename => 5
    case GzipOutput => 6
    case IdInFilename => 7
    case NiiOutput => 8
    case OutputDir => 9
    case ProtocolInFilename => 10
    case Reorient => 11
    case SpmAnalyze => 12
    case ConvertAllPars => 13
    case ReorientAndCrop => 14
    case Args => 15
    case SourceNames => 16
  }

  /** The value an option takes when the user sets none (`usedefault`). */
  function Default(o: Opt): Option<Value> {
    match o
    case Anonymize => Some(BoolVal(true))
    case CollapseFolders => Some(BoolVal(true))
    case DateInFilename => Some(BoolVal(true))
    case EventsInFilename => Some(BoolVal(true))
    case SourceInFilename => Some(BoolVal(false))
    case GzipOutput => Some(BoolVal(false))
    case IdInFilename => Some(BoolVal(false))
    case NiiOutput => Some(BoolVal(true))
    case ProtocolInFilename => Some(BoolVal(true))
    case ConvertAllPars => Some(BoolVal(true))
    case ReorientAndCrop => Some(BoolVal(false))
    case _ => None
  }

  /** The options the override renders as a flag followed by "y" or "n". */
  predicate YesNo(o: Opt) {
    o in {Anonymize, CollapseFolders, DateInFilename, EventsInFilename, SourceInFilename,
          GzipOutput, IdInFilename, NiiOutput, ProtocolInFilename, Reorient, SpmAnalyze,
          ConvertAllPars, ReorientAndCrop}
  }

  /** Python truthiness of a value. */
  predicate Truthy(v: Value) {
    match v
    case BoolVal(b) => b
    case StrVal(s) => s != []
    case ListVal(items) => items != []
  }

  /** `template % arg`: the first "%s" of the template replaced by `arg`. */
  function Interpolate(template: string, arg: string): (r: string)
    ensures '%' !in template ==> r == template
  {
    if |template| < 2 then template
    else if template[0] == '%' && template[1] == 's' then arg + template[2..]
    else
      assert '%' !in template ==> '%' !in template[1..];
      assert template == [template[0]] + template[1..];
      [template[0]] + Interpolate(template[1..], arg)
  }

  /** A template that ends in its only placeholder takes the argument in its
      place. */
  lemma {:induction false} InterpolateTail(prefix: string, arg: string)
    requires '%' !in prefix
    ensures Interpolate(prefix + "%s", arg) == prefix + arg
  {
    var t := prefix + "%s";
    if prefix == [] {
      assert t == "%s" && t[2..] == [];
    } else {
      assert t[0] == prefix[0] != '%';
      assert t[1..] == prefix[1..] + "%s";
      assert '%' !in prefix[1..];
      InterpolateTail(prefix[1..], arg);
      assert [prefix[0]] + (prefix[1..] + arg) == prefix + arg;
    }
  }

  /** The errors Python raises in the override. */
  datatype PyError = IndexError | TypeError

  /** What the override does with one option: it renders the source names
      itself, hands every other option (with a possibly changed template and
      value) to the generic formatter, or fails as Python would. */
  datatype Formatted =
    | Rendered(text: string)
    | Delegated(argstr: string, value: Value)
    | Failed(error: PyError)

  /** `Dcm2nii._format_arg`. */
  function FormatArg(o: Opt, v: Value): (r: Formatted)
    ensures YesNo(o) ==> r == Delegated(ArgStr(o) + (if Truthy(v) then " y" else " n"),
                                        if Truthy(v) then v else BoolVal(true))
    ensures YesNo(o) ==> r.Delegated? && Truthy(r.value)
    ensures o == SourceNames && v.ListVal? && v.items != [] ==> r == Rendered(v.items[0])
    ensures o == SourceNames && v.StrVal? && v.s != [] ==> r == Rendered([v.s[0]])
    ensures o == SourceNames && v.BoolVal? ==> r == Failed(TypeError)
    ensures o == SourceNames && !Truthy(v) ==> r.Failed?
    ensures o != SourceNames && !YesNo(o) ==> r == Delegated(ArgStr(o), v)
  {
    var (argstr, val) :=
      if YesNo(o) then
        if Truthy(v) then (ArgStr(o) + " y", v) else (ArgStr(o) + " n", BoolVal(true))
      else (ArgStr(o), v);
    if o == SourceNames then
      assert argstr == "%s";
      assert forall x :: Interpolate("%s", x) == x by {
        forall x ensures Interpolate("%s", x) == x { InterpolateTail([], x); assert [] + "%s" == "%s"; }
      }
      match val
      case ListVal(items) => if items == [] then Failed(IndexError) else Rendered(Interpolate(argstr, items[0]))
      case StrVal(s) => if s == [] then Failed(IndexError) else Rendered(Interpolate(argstr, [s[0]]))
      case BoolVal(_) => Failed(TypeError)
    else Delegated(argstr, val)
  }
}
