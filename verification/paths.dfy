/** POSIX path helpers in the meaning of Python's `posixpath`: two-argument
    `join` and `split` exactly, `abspath` without normalisation, and
    `split_filename` as directory plus `splitext` of the file name. */
module Paths {
  import opened Text

  predicate IsAbs(p: string) {
    |p| > 0 && p[0] == '/'
  }

  predicate AllSlashes(s: string) {
    forall k :: 0 <= k < |s| ==> s[k] == '/'
  }

  /** A directory part as `split` hands it out: empty, all slashes, or not
      ending in a slash. */
  predicate CanonicalHead(h: string) {
    h == [] || AllSlashes(h) || h[|h| - 1] != '/'
  }

  /** `os.path.join(a, b)`: an absolute `b` wins, otherwise `b` is appended
      with one separator unless `a` is empty or already ends in one. */
  function Join(a: string, b: string): (r: string)
    ensures IsAbs(b) ==> r == b
    ensures !IsAbs(b) ==> StartsWith(r, a) && |b| <= |r| && r[|r| - |b|..] == b
    ensures !IsAbs(b) && (a == [] || a[|a| - 1] == '/') ==> |r| == |a| + |b|
    ensures !IsAbs(b) && a != [] && a[|a| - 1] != '/' ==> |r| == |a| + |b| + 1 && r[|a|] == '/'
  {
    if IsAbs(b) then b
    else if a == [] || a[|a| - 1] == '/' then a + b
    else a + "/" + b
  }

  /** What `join` puts in front of a relative second part. */
  function DirPrefix(a: string): string {
    if a == [] || a[|a| - 1] == '/' then a else a + "/"
  }

  lemma JoinRelative(a: string, b: string)
    requires !IsAbs(b)
    ensures Join(a, b) == DirPrefix(a) + b
  {
  }

  /** A slash-free name followed by an extension is relative. */
  lemma RelativeWithExt(name: string, ext: string)
    requires '/' !in name && ext != [] && ext[0] == '.'
    ensures !IsAbs(name + ext)
  {
    if name == [] { assert (name + ext)[0] == ext[0]; }
    else { assert (name + ext)[0] == name[0] && name[0] in name; }
  }

  /** Joining a slash-free name with an extension onto a directory: the
      extension ends up at the end of the joined path. */
  lemma JoinWithExt(a: string, name: string, ext: string)
    requires '/' !in name && ext != [] && ext[0] == '.'
    ensures Join(a, name + ext) == (DirPrefix(a) + name) + ext
  {
    RelativeWithExt(name, ext);
    JoinRelative(a, name + ext);
    assert DirPrefix(a) + (name + ext) == (DirPrefix(a) + name) + ext;
  }

  /** The index just past the last slash of `p` (0 when there is none). */
  function TailStart(p: string): (i: nat)
    ensures i <= |p|
    ensures i > 0 ==> p[i - 1] == '/'
    ensures forall j :: i <= j < |p| ==> p[j] != '/'
  {
    if p == [] then 0
    else if p[|p| - 1] == '/' then |p|
    else TailStart(p[..|p| - 1])
  }

  /** `s.rstrip('/')`. */
  function RStripSlashes(s: string): (r: string)
    ensures |r| <= |s| && r == s[..|r|]
    ensures r == [] || r[|r| - 1] != '/'
    ensures forall k :: |r| <= k < |s| ==> s[k] == '/'
  {
    if s != [] && s[|s| - 1] == '/' then RStripSlashes(s[..|s| - 1]) else s
  }

  /** `os.path.split(p)`: the tail is everything after the last slash, the
      head everything before it with trailing slashes removed unless the head
      is made only of slashes. */
  function Split(p: string): (r: (string, string))
    ensures '/' !in r.1
    ensures CanonicalHead(r.0)
    ensures |r.1| <= |p| && r.1 == p[|p| - |r.1|..]
    ensures |r.1| < |p| ==> p[|p| - |r.1| - 1] == '/'
  {
    var i := TailStart(p);
    var head := p[..i];
    var tail := p[i..];
    assert forall k :: 0 <= k < |tail| ==> tail[k] == p[i + k];
    if head != [] && !AllSlashes(head) then (RStripSlashes(head), tail) else (head, tail)
  }

  /** The head `split` gives is the part of the path before the tail with
      the trailing slashes removed, unless that part is all slashes, in which
      case it is kept whole. */
  lemma SplitHead(p: string)
    ensures var r := Split(p);
      && r.0 <= p && |r.0| <= |p| - |r.1| && AllSlashes(p[|r.0|..|p| - |r.1|])
      && (AllSlashes(p[..|p| - |r.1|]) ==> r.0 == p[..|p| - |r.1|])
  {
  }

  function Dirname(p: string): string { Split(p).0 }
  function Basename(p: string): string { Split(p).1 }

  lemma {:induction false} TailStartAfterDir(d: string, name: string)
    requires d == [] || d[|d| - 1] == '/'
    requires '/' !in name
    ensures TailStart(d + name) == |d|
  {
    if name != [] {
      var p := d + name;
      assert p[|p| - 1] == name[|name| - 1];
      assert p[..|p| - 1] == d + name[..|name| - 1];
      TailStartAfterDir(d, name[..|name| - 1]);
    } else {
      assert d + name == d;
    }
  }

  lemma RStripAfterNonSlash(h: string)
    requires h != [] && h[|h| - 1] != '/'
    ensures RStripSlashes(h + "/") == h
  {
    assert (h + "/")[..|h + "/"| - 1] == h;
  }

  /** Two slash-free parts make a slash-free name. */
  lemma SlashFreeConcat(a: string, b: string)
    requires '/' !in a && '/' !in b
    ensures '/' !in a + b
  {
    forall k | 0 <= k < |a + b| ensures (a + b)[k] != '/' {
      if k < |a| { assert (a + b)[k] == a[k] && a[k] in a; }
      else { assert (a + b)[k] == b[k - |a|] && b[k - |a|] in b; }
    }
  }

  /** A slash-free name joined onto the directory of any path splits back
      into that directory and the name. */
  lemma SplitUnderDirname(p: string, name: string)
    requires '/' !in name
    ensures Split(Join(Dirname(p), name)) == (Dirname(p), name)
  {
    SplitJoin(Dirname(p), name);
  }

  /** Renaming a file by putting a slash-free prefix before its name keeps
      it in the same directory: the renamed path splits into the original
      directory and the prefixed name. */
  lemma SplitPrefixed(p: string, prefix: string)
    requires '/' !in prefix
    ensures Split(Join(Dirname(p), prefix + Basename(p))) == (Dirname(p), prefix + Basename(p))
  {
    SlashFreeConcat(prefix, Basename(p));
    SplitUnderDirname(p, prefix + Basename(p));
  }

  /** Splitting a joined path gives back its parts: `split` inverts `join`
      for a head that `split` could have produced and a slash-free name. */
  lemma SplitJoin(head: string, name: string)
    requires CanonicalHead(head)
    requires '/' !in name
    ensures Split(Join(head, name)) == (head, name)
  {
    assert !IsAbs(name);
    if head == [] {
      TailStartAfterDir(head, name);
      assert head + name == name;
    } else if head[|head| - 1] == '/' {
      TailStartAfterDir(head, name);
      assert (head + name)[..|head|] == head;
      assert (head + name)[|head|..] == name;
    } else {
      var d := head + "/";
      TailStartAfterDir(d, name);
      assert head + "/" + name == d + name;
      assert (d + name)[..|d|] == d;
      assert (d + name)[|d|..] == name;
      assert !AllSlashes(d) by { assert d[|head| - 1] != '/'; }
      RStripAfterNonSlash(head);
    }
  }

  /** `os.path.abspath(p)` relative to the working directory `cwd`, without
      the normalisation of `.`, `..` and repeated slashes. */
  function Abspath(p: string, cwd: string): (r: string)
    ensures IsAbs(p) || IsAbs(cwd) ==> IsAbs(r)
    ensures IsAbs(p) ==> r == p
    ensures !IsAbs(p) ==> StartsWith(r, cwd) && |p| <= |r| && r[|r| - |p|..] == p
    ensures !IsAbs(p) && (cwd == [] || cwd[|cwd| - 1] == '/') ==> |r| == |cwd| + |p|
    ensures !IsAbs(p) && cwd != [] && cwd[|cwd| - 1] != '/' ==> |r| == |cwd| + |p| + 1 && r[|cwd|] == '/'
  {
    if IsAbs(p) then p else Join(cwd, p)
  }

  /** Making a path absolute twice is making it absolute once. */
  lemma AbspathIdempotent(p: string, cwd: string)
    requires IsAbs(cwd)
    ensures Abspath(Abspath(p, cwd), cwd) == Abspath(p, cwd)
  {
    var r := Abspath(p, cwd);
    assert IsAbs(r);
  }

  /** No dot of `name` comes after a non-dot. */
  predicate NoDotAfterNonDot(name: string) {
    forall k, j :: 0 <= k < j < |name| && name[k] != '.' ==> name[j] != '.'
  }

  /** Where `splitext` cuts `name`: at its last dot, provided some character
      other than a dot comes before that dot; otherwise at the end. */
  function ExtStart(name: string): (i: nat)
    ensures i <= |name|
    ensures i < |name| ==> name[i] == '.' && exists k :: 0 <= k < i && name[k] != '.'
    ensures i < |name| ==> forall j :: i < j < |name| ==> name[j] != '.'
    ensures i == |name| ==> NoDotAfterNonDot(name)
  {
    var n := LastDot(name, |name|);
    if n < |name| && exists k :: 0 <= k < n && name[k] != '.' then n else |name|
  }

  /** The last index below `n` holding a dot, or `|s|` when there is none. */
  function LastDot(s: string, n: nat): (i: nat)
    requires n <= |s|
    ensures i == |s| || (i < n && s[i] == '.')
    ensures i < |s| ==> forall j :: i < j < n ==> s[j] != '.'
    ensures i == |s| ==> forall j :: 0 <= j < n ==> s[j] != '.'
  {
    if n == 0 then |s|
    else if s[n - 1] == '.' then n - 1
    else LastDot(s, n - 1)
  }

  /** `os.path.splitext` of a file name: cut at the last dot when a
      character other than a dot comes before it, and nowhere otherwise. */
  function SplitExt(name: string): (r: (string, string))
    ensures r.0 + r.1 == name
    ensures r.1 == [] || r.1[0] == '.'
    ensures r.1 != [] ==> '.' !in r.1[1..] && exists k :: 0 <= k < |r.0| && r.0[k] != '.'
    ensures r.1 == [] ==> NoDotAfterNonDot(r.0)
  {
    var i := ExtStart(name);
    assert name == name[..i] + name[i..];
    if i < |name| then
      assert forall j :: 0 <= j < |name[i..][1..]| ==> name[i..][1..][j] == name[i + 1 + j];
      var k :| 0 <= k < i && name[k] != '.';
      assert name[..i][k] != '.';
      (name[..i], name[i..])
    else
      assert name[..i] == name && name[i..] == [];
      (name[..i], name[i..])
  }

  /** `split_filename(p)` as (directory, base name, extension): the file
      name is cut where `splitext` cuts it. */
  function SplitFilename(p: string): (r: (string, string, string))
    ensures r.0 == Dirname(p)
    ensures r.1 + r.2 == Basename(p)
    ensures r.2 == [] || r.2[0] == '.'
    ensures '/' !in r.1
    ensures r.2 != [] ==> '.' !in r.2[1..] && exists k :: 0 <= k < |r.1| && r.1[k] != '.'
    ensures r.2 == [] ==> NoDotAfterNonDot(r.1)
  {
    var (base, ext) := SplitExt(Basename(p));
    PrefixKeepsOut(base, ext, '/');
    (Dirname(p), base, ext)
  }

  /** A character absent from `a + b` is absent from `a`. */
  lemma PrefixKeepsOut(a: string, b: string, ch: char)
    requires ch !in a + b
    ensures ch !in a
  {
    forall k | 0 <= k < |a| ensures a[k] != ch {
      assert a[k] == (a + b)[k];
    }
  }

  /** The dot at `i` is the last one in `name`. */
  predicate LastDotAt(name: string, i: int) {
    0 <= i < |name| && name[i] == '.' && forall j :: i < j < |name| ==> name[j] != '.'
  }

  /** A cut with a non-empty extension puts the last dot of the name at the
      start of the extension, after a non-dot. */
  lemma CutAtLastDot(name: string, b: string, e: string)
    requires b + e == name && e != [] && e[0] == '.' && '.' !in e[1..]
    ensures LastDotAt(name, |b|)
  {
    forall j | |b| < j < |name| ensures name[j] != '.' {
      assert name[j] == e[1..][j - |b| - 1];
      assert e[1..][j - |b| - 1] in e[1..];
    }
  }

  /** Under the conditions of `SplitExt`, whether the extension is empty and
      where it starts depend on the name alone. */
  lemma CutIndex(name: string, b: string, e: string)
    requires b + e == name
    requires e == [] || e[0] == '.'
    requires e != [] ==> '.' !in e[1..] && exists k :: 0 <= k < |b| && b[k] != '.'
    requires e == [] ==> NoDotAfterNonDot(b)
    ensures e == [] <==> NoDotAfterNonDot(name)
    ensures e != [] ==> LastDotAt(name, |b|)
  {
    if e == [] {
      assert b == name;
    } else {
      CutAtLastDot(name, b, e);
      var k :| 0 <= k < |b| && b[k] != '.';
      assert name[k] == b[k] && name[|b|] == '.';
    }
  }

  /** The conditions of `SplitExt` single out one cut of a name. */
  lemma SplitExtUnique(name: string, b: string, e: string)
    requires b + e == name
    requires e == [] || e[0] == '.'
    requires e != [] ==> '.' !in e[1..] && exists k :: 0 <= k < |b| && b[k] != '.'
    requires e == [] ==> NoDotAfterNonDot(b)
    ensures SplitExt(name) == (b, e)
  {
    var (b', e') := SplitExt(name);
    CutIndex(name, b, e);
    CutIndex(name, b', e');
    if e == [] {
      assert b == name && b' == name;
    } else {
      assert |b| == |b'|;
      assert b == name[..|b|] && b' == name[..|b'|];
      assert e == name[|b|..] && e' == name[|b'|..];
    }
  }

  /** `split_filename` undoes joining a directory with a base name and an
      extension: for a directory as `split` hands it out, a slash-free base
      name, and either no extension and a base without a dot after a
      non-dot, or a single-dot extension after a base holding a non-dot. */
  lemma SplitFilenameJoin(d: string, b: string, e: string)
    requires CanonicalHead(d)
    requires '/' !in b && '/' !in e
    requires e == [] ==> NoDotAfterNonDot(b)
    requires e != [] ==> e[0] == '.' && '.' !in e[1..] && exists k :: 0 <= k < |b| && b[k] != '.'
    ensures SplitFilename(Join(d, b + e)) == (d, b, e)
  {
    var name := b + e;
    assert '/' !in name by {
      forall k | 0 <= k < |name| ensures name[k] != '/' {
        if k < |b| { assert name[k] == b[k] && b[k] in b; } else { assert name[k] == e[k - |b|] && e[k - |b|] in e; }
      }
    }
    SplitJoin(d, name);
    SplitExtUnique(name, b, e);
  }
}
