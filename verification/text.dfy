/** String helpers with the meaning Python gives them: `str.startswith`,
    `str.split("\n")`, and the one regular expression the scraper uses. */
module Text {
  import opened Optional

  /** `s.startswith(prefix)`. */
  predicate StartsWith(s: string, prefix: string) {
    |prefix| <= |s| && s[..|prefix|] == prefix
  }

  /** A string that starts with a non-empty prefix starts with its first
      character; lines with prefixes of different first characters are
      told apart by this. */
  lemma FirstChar(s: string, prefix: string)
    requires prefix != [] && StartsWith(s, prefix)
    ensures s[0] == prefix[0]
  {
    assert s[..|prefix|][0] == s[0];
  }

  /** Glues `lines` back together with a newline between neighbours. */
  function JoinLines(lines: seq<string>): string
    requires |lines| >= 1
  {
    if |lines| == 1 then lines[0] else lines[0] + "\n" + JoinLines(lines[1..])
  }

  /** `s.split("\n")`: always at least one piece, pieces hold no newline, and
      joining the pieces with newlines gives back `s`. */
  function SplitLines(s: string): (lines: seq<string>)
    ensures |lines| >= 1
    ensures forall i :: 0 <= i < |lines| ==> '\n' !in lines[i]
    ensures JoinLines(lines) == s
  {
    if s == [] then [""]
    else
      var rest := SplitLines(s[1..]);
      if s[0] == '\n' then
        assert ([""] + rest)[1..] == rest;
        [""] + rest
      else
        var lines := [[s[0]] + rest[0]] + rest[1..];
        assert |rest| > 1 ==> JoinLines(rest) == rest[0] + "\n" + JoinLines(rest[1..]);
        assert |rest| > 1 ==> lines[1..] == rest[1..];
        assert s == [s[0]] + s[1..];
        lines
  }

  /** A newline-free string is one piece. */
  lemma {:induction false} SplitSingle(a: string)
    requires '\n' !in a
    ensures SplitLines(a) == [a]
  {
    if a != [] {
      assert '\n' !in a[1..];
      SplitSingle(a[1..]);
      assert [a[0]] + a[1..] == a;
    }
  }

  /** Splitting a newline-free head followed by a newline peels off the head. */
  lemma {:induction false} SplitCons(a: string, t: string)
    requires '\n' !in a
    ensures SplitLines(a + "\n" + t) == [a] + SplitLines(t)
  {
    if a == [] {
      assert (a + "\n" + t)[1..] == t;
    } else {
      assert (a + "\n" + t)[1..] == a[1..] + "\n" + t;
      assert '\n' !in a[1..];
      SplitCons(a[1..], t);
      assert [a[0]] + a[1..] == a;
    }
  }

  /** The other half of the round trip: newline-free pieces joined with
      newlines split back into exactly those pieces. */
  lemma {:induction false} SplitJoinLines(lines: seq<string>)
    requires |lines| >= 1
    requires forall i :: 0 <= i < |lines| ==> '\n' !in lines[i]
    ensures SplitLines(JoinLines(lines)) == lines
  {
    if |lines| == 1 {
      SplitSingle(lines[0]);
    } else {
      assert '\n' !in lines[0];
      SplitCons(lines[0], JoinLines(lines[1..]));
      SplitJoinLines(lines[1..]);
      assert [lines[0]] + lines[1..] == lines;
    }
  }

  const ARROW := "-->"

  /** `s` holds the arrow "-->" starting at index `i`. */
  predicate ArrowAt(s: string, i: int) {
    0 <= i && i + |ARROW| <= |s| && s[i..i + |ARROW|] == ARROW
  }

  /** The last index below `n` at which an arrow starts. */
  function LastArrowBefore(s: string, n: nat): (r: Option<nat>)
    requires n <= |s|
    ensures r.Some? ==> r.value < n && ArrowAt(s, r.value)
    ensures r.Some? ==> forall j :: r.value < j < n ==> !ArrowAt(s, j)
    ensures r.None? ==> forall j :: j < n ==> !ArrowAt(s, j)
  {
    if n == 0 then None
    else if ArrowAt(s, n - 1) then Some(n - 1)
    else LastArrowBefore(s, n - 1)
  }

  /** The start of the last arrow in `s`, if any. */
  function LastArrow(s: string): (r: Option<nat>)
    ensures r.Some? ==> ArrowAt(s, r.value) && forall j :: r.value < j ==> !ArrowAt(s, j)
    ensures r.None? ==> forall j :: !ArrowAt(s, j)
  {
    LastArrowBefore(s, |s|)
  }

  /** `re.search('.*-->(.*)', line)` on a newline-free line: it matches
      exactly when the line holds an arrow, and since `.*` is greedy the group
      captures everything after the LAST arrow. */
  function ArrowCapture(line: string): (r: Option<string>)
    ensures r.None? <==> forall j :: !ArrowAt(line, j)
    ensures r.Some? ==> exists i :: ArrowAt(line, i) && r.value == line[i + |ARROW|..]
                                    && forall j :: i < j ==> !ArrowAt(line, j)
  {
    match LastArrow(line)
    case Some(i) => Some(line[i + |ARROW|..])
    case None => None
  }

  /** The capture never holds an arrow of its own. */
  lemma CaptureHasNoArrow(line: string)
    requires ArrowCapture(line).Some?
    ensures forall j :: !ArrowAt(ArrowCapture(line).value, j)
  {
    var i :| ArrowAt(line, i) && ArrowCapture(line).value == line[i + |ARROW|..]
             && forall j :: i < j ==> !ArrowAt(line, j);
    var c := ArrowCapture(line).value;
    forall j | ArrowAt(c, j)
      ensures false
    {
      assert c[j..j + |ARROW|] == line[i + |ARROW|..][j..j + |ARROW|];
      assert line[i + |ARROW|..][j..j + |ARROW|] == line[i + |ARROW| + j..i + |ARROW| + j + |ARROW|];
      assert ArrowAt(line, i + |ARROW| + j);
    }
  }
}
