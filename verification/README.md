# dcm2nii wrapper: stdout scraper and argument rendering

A Dafny model of the core of nipype's `Dcm2nii` interface, which wraps
MRIcron's `dcm2nii` DICOM-to-NIfTI converter:

- **The stdout scraper** (`Dcm2nii._parse_stdout`). It makes one forward
  pass over the lines the converter printed. Each line is sorted by prefix
  ("Saving ", "GZip...", "Number of diffusion directions ", "Reorienting
  as ", "Cropping NIfTI/Analyze image ") or by the arrow pattern
  `.*-->(.*)`. The pass fills five ordered lists: converted files,
  reoriented files, reoriented-and-cropped files, b-vector files and
  b-value files. A reoriented or cropped line makes the scraper ignore the
  line after it.
- **The argument override** (`Dcm2nii._format_arg`). Thirteen boolean
  options are rendered as their flag followed by "y" or "n". Only the first
  of the source names is put on the command line. From these the model also
  assembles the documented example command line.

Modules:

| file | module | contents |
|---|---|---|
| optional.dfy | `Optional` | `Option` |
| text.dfy | `Text` | `str.startswith`, `str.split("\n")`, the arrow regular expression |
| paths.dfy | `Paths` | `posixpath.join`, `split`, `abspath`, and `split_filename` |
| scraper.dfy | `Scraper` | line classification, the scrape state and its invariant, the fold, the loop |
| scraper_properties.dfy | `ScraperProperties` | per-line behaviour and whole-output properties |
| scraper_examples.dfy | `ScraperExamples` | worked outputs for short captured stdouts |
| arguments.dfy | `Arguments` | the option table and `_format_arg` |
| command_line.dfy | `CommandLine`, `CommandLineExample` | the assembled command line and the documented example |

The scraper reads two things from its surroundings: the user's
`output_dir` (if set) and the working directory, which `_gen_filename`
returns when `output_dir` is unset. Both are the parameter `Env`. The
working directory is also what `abspath` resolves against.

## Model

| member | source | states |
|---|---|---|
| Text.SplitLines | nipype/interfaces/dcm2nii.py:100 | `stdout.split("\n")` always yields at least one piece, no piece holds a newline, and joining the pieces with newlines gives back the input |
| Text.SplitJoinLines | nipype/interfaces/dcm2nii.py:100 | the other half of the round trip: newline-free pieces joined with newlines split back into exactly those pieces |
| Text.ArrowCapture | nipype/interfaces/dcm2nii.py:118-120 | the pattern `.*-->(.*)` matches a line exactly when the line holds "-->", and then the group is everything after the last "-->" |
| Text.CaptureHasNoArrow | nipype/interfaces/dcm2nii.py:118-120 | the captured group never holds an arrow of its own |
| Paths.Join | nipype/interfaces/dcm2nii.py:111 | `os.path.join(a, b)`: an absolute `b` is the result; otherwise the result is `a`, then one slash exactly when `a` is non-empty and does not already end in one, then `b` (the lengths and the position of the slash pin it down) |
| Paths.SplitJoin | nipype/interfaces/dcm2nii.py:138-140 | `os.path.split` undoes `os.path.join` for a head as `split` produces it and a slash-free name |
| Paths.Split | nipype/interfaces/dcm2nii.py:138 | `os.path.split` gives a slash-free tail that is a suffix of the path and is either the whole path or preceded by a slash, so it is everything after the last slash; the head is empty, all slashes, or does not end in a slash |
| Paths.SplitHead | nipype/interfaces/dcm2nii.py:138 | the head is a prefix of the path and only slashes lie between it and the tail; when everything before the tail is slashes, the head is all of it |
| Paths.Abspath | nipype/interfaces/dcm2nii.py:111-112 | an absolute path is returned as it is; a relative one is the working directory, one slash when that does not already end in one, and the path; the result is absolute whenever the path or the working directory is |
| Paths.AbspathIdempotent | nipype/interfaces/dcm2nii.py:111-112 | for an absolute working directory, making a path absolute twice is the same as once |
| Paths.SplitExt | nipype/interfaces/dcm2nii.py:115 | `splitext` of a file name: base plus extension is the name; a non-empty extension starts at the last dot and some non-dot precedes it in the base; an empty extension means no dot follows a non-dot |
| Paths.SplitExtUnique | nipype/interfaces/dcm2nii.py:115 | any cut of a name that meets those conditions is the one `SplitExt` makes, so they determine it |
| Paths.SplitFilename | nipype/interfaces/dcm2nii.py:115 | the directory is the dirname; base plus extension is the file name; the base holds no slash; the extension obeys the `splitext` conditions above |
| Paths.SplitFilenameJoin | nipype/interfaces/dcm2nii.py:115-117 | round trip: a directory as `split` gives it, joined with a base and an extension that meet the `splitext` conditions, splits back into exactly those three parts |
| Paths.SplitPrefixed | nipype/interfaces/dcm2nii.py:138-140 | putting a slash-free prefix before a file name keeps it in its directory: the renamed path splits into the old directory and the prefixed name |
| Scraper.Fallback | nipype/interfaces/dcm2nii.py:133-142 | a line is reoriented exactly when it starts with "Reorienting as " (the path is the rest of the line), and cropped exactly when it starts with "Cropping NIfTI/Analyze image " (the path is the cropped path of the rest); nothing else is produced |
| Scraper.Classify | nipype/interfaces/dcm2nii.py:101-142 | a converted path is never empty; "Saving X" with non-empty X, "GZip...X" whose absolute joined path is non-empty, and a line of none of the three prefixes whose arrow capture joined to the output directory is non-empty each become that converted file, and a converted file arises in no other way; a line is a diffusion count exactly when it has that prefix; a reoriented line is "Reorienting as " plus its path; a cropped line starts with the cropping prefix |
| Scraper.SiblingPaths | nipype/interfaces/dcm2nii.py:115-117 | the b-vector and b-value paths of one file differ only in the final ".bvec" / ".bval" |
| Scraper.Apply | nipype/interfaces/dcm2nii.py:113-142 | one event keeps the invariant (paired sibling diffusion files, non-empty converted files, last added file = last converted file), only appends, adds at most one image, and adds the same number (0 or 1) of b-vectors and b-values |
| Scraper.Step | nipype/interfaces/dcm2nii.py:100-143 | the loop body keeps the same invariant and growth bounds; a line read in skip mode changes nothing but clears the skip |
| Scraper.Scrape | nipype/interfaces/dcm2nii.py:100-143 | the fold over all lines keeps the invariant |
| Scraper.Parse | nipype/interfaces/dcm2nii.py:92-144 | the five returned lists: b-vectors and b-values of equal length, pairwise siblings, no empty converted file |
| Scraper.ParseStdout | nipype/interfaces/dcm2nii.py:92-144 | the imperative loop over the lines computes exactly `Parse` |
| ScraperProperties.ScrapeGrows | nipype/interfaces/dcm2nii.py:100-143 | over any lines, every list only grows by appending; the three image lists together gain at most one entry per line; b-vectors and b-values gain equally |
| ScraperProperties.ScrapeAppend | nipype/interfaces/dcm2nii.py:100-143 | the scrape is a single forward pass: scraping `a + b` is scraping `b` from the state `a` left |
| ScraperProperties.ParseBounds | nipype/interfaces/dcm2nii.py:92-144 | the image lists together hold at most as many entries as the output has lines; b-vectors and b-values have equal length |
| ScraperProperties.SavingLine | nipype/interfaces/dcm2nii.py:103-104 | "Saving X" with non-empty X appends X to the converted files and makes it the last added file; with empty X nothing changes |
| ScraperProperties.GZipLine | nipype/interfaces/dcm2nii.py:105-112 | "GZip...X" appends X joined to the effective output directory and made absolute, and makes it the last added file |
| ScraperProperties.DiffusionLine | nipype/interfaces/dcm2nii.py:113-117 | a diffusion count leaves the converted files and the last added file alone; it appends the sibling ".bvec"/".bval" of the last added file exactly when a file was added before, else changes nothing |
| ScraperProperties.ReorientingLine | nipype/interfaces/dcm2nii.py:133-136 | "Reorienting as P" without an arrow appends P to the reoriented files and skips the next line |
| ScraperProperties.ReorientingWithArrow | nipype/interfaces/dcm2nii.py:118-136 | the arrow pattern wins over "Reorienting as ": such a line becomes a converted file (the output directory joined with the text after the last arrow), does not touch the reoriented files, and skips nothing |
| ScraperProperties.BvecParts | nipype/interfaces/dcm2nii.py:115-116 | the b-vector file of `f` splits into the directory of `f` and the base name of `f` followed by ".bvec" |
| ScraperProperties.BvalParts | nipype/interfaces/dcm2nii.py:115-117 | the b-value file of `f` splits into the directory of `f` and the base name of `f` followed by ".bval" |
| ScraperProperties.CroppedPathParts | nipype/interfaces/dcm2nii.py:138-140 | the cropped path keeps the directory and prefixes the file name with "c" |
| ScraperProperties.CroppingClassified | nipype/interfaces/dcm2nii.py:137-140 | a "Cropping NIfTI/Analyze image P" line without an arrow is classified as the cropped path of P |
| ScraperProperties.CroppingLine | nipype/interfaces/dcm2nii.py:137-142 | "Cropping NIfTI/Analyze image P" without an arrow appends the cropped path of P to the cropped files and skips the next line |
| ScraperProperties.SkipOneShot | nipype/interfaces/dcm2nii.py:133-143 | after a reoriented or cropped line exactly one line is ignored, whatever it holds, and the line after it is classified as usual |
| ScraperExamples.SavingExample | nipype/interfaces/dcm2nii.py:92-131 | "Saving /tmp/out/img.nii" and a final newline give that one converted file and nothing else |
| ScraperExamples.DiffusionExample | nipype/interfaces/dcm2nii.py:103-117 | a saved `d/name` followed by a diffusion count gives that converted file and `d/name.bvec`, `d/name.bval` |
| ScraperExamples.ReorientingExample | nipype/interfaces/dcm2nii.py:105-136 | a reoriented line followed by a "GZip..." line records the reoriented file, and the GZip line is skipped |
| ScraperExamples.CroppingExample | nipype/interfaces/dcm2nii.py:137-142 | "Cropping NIfTI/Analyze image /tmp/out/img.nii" records "/tmp/out/cimg.nii" |
| Arguments.InterpolateTail | nipype/interfaces/dcm2nii.py:23 | a template that ends in its only "%s" (as "-b %s" and "-o %s" do) takes the argument in its place |
| Arguments.FormatArg | nipype/interfaces/dcm2nii.py:68-81 | a yes/no option hands on its flag plus " y" when truthy, else plus " n" with the value turned to True, so it is never dropped; source names give their first element, and fail as Python does when empty; every other option is handed on unchanged |
| CommandLine.OrderByPosition | nipype/interfaces/dcm2nii.py:20-38 | the options are laid out by strictly increasing declared position, each of them once |
| CommandLine.EffectiveValue | nipype/interfaces/dcm2nii.py:22-164 | the user's value wins, then the declared default, then for the config file "config.ini" and for the output directory the working directory; exactly the options with no default and no generated name may have no value |
| CommandLine.YesNoAlwaysRendered | nipype/interfaces/dcm2nii.py:69-78 | a yes/no option is always rendered, as its flag followed by "y" or "n" |
| CommandLineExample.DocumentedCmdline | nipype/interfaces/dcm2nii.py:53-59 | the documented inputs (two sources, gzip on, output directory ".") give "dcm2nii -a y -b config.ini -c y -d y -e y -f n -g y -i n -n y -o . -p y -v y -x n functional_1.dcm" |

## Left out

- Running the converter (lines 83-90): it is an external process. The scraper is given its captured stdout.
- The output dictionary (lines 146-153): it only copies the five lists out.
- `_gen_filename('config_file')` writing "config.ini" (lines 158-164): it is file I/O. Only the returned name is modelled.
- The generic `_format_arg` and the command-line assembly of nipype's `CommandLine` base class are not part of this model. Eight members are assumed stand-ins for them; they pin the documented command line and state `YesNoAlwaysRendered`:
  - `CommandLine.BaseFormat`: a true boolean is its bare flag, a false boolean is dropped, a string fills the template.
  - `CommandLine.Render`: what the override hands on (`super()._format_arg`) goes through `BaseFormat`.
  - `CommandLine.EffectiveValue`: the user's value wins over the declared default, and the default over a generated name.
  - `CommandLine.OptionTokens`: an option with no value is left out, as the base class's input parsing skips undefined inputs.
  - `CommandLine.ORDER`: the options are laid out by their declared positions (`OrderByPosition` proves the order).
  - `CommandLine.Tokens`: each option gives at most one token.
  - `CommandLine.Unwords` and `CommandLine.Cmdline`: the executable and the tokens are joined with single spaces.
- Trait validation: `exists=True`, `mandatory`, `xor` between `spm_analyze` and `nii_output`, and the list coercion of `InputMultiPath`. A value of any shape may be given, and `FormatArg` reports the Python error for the shapes that fail.
- `%%` escapes and templates with several placeholders in `Interpolate`: no option template has them.
- `Paths.Abspath` does not normalise (`normpath`), so "." and ".." segments stay in the joined path.
- `Paths.SplitFilename` is `dirname` plus `splitext`. nipype's `split_filename` also treats multi-part extensions such as ".nii.gz" as one extension; that helper's code is not part of this model. For such names the b-vector path keeps ".nii" in the base name.
- The working directory is fixed for the whole scrape; the source reads it again on every line.
- `Text.ArrowCapture` models the pattern on newline-free lines only, which is all `split("\n")` produces. A carriage return is an ordinary character, as it is for `.` in Python.
- ScraperProperties.GZipLine: states an absolute result only for an absolute working directory, which `os.getcwd()` always returns.
- ScraperProperties.ReorientingWithArrow: requires a non-empty output directory. With an empty one, a line ending in "-->" yields an empty path and falls through to the reoriented rule; `Classify` and `Accept` model that case.
- ScraperExamples.DiffusionExample: states the result for a dot-free file name under a directory that does not end in a slash. Other names go through the general `DiffusionLine`.
