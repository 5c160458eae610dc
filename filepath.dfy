/**
 * The lexical path rules of Go's path/filepath package on a system whose
 * separator is '/': Clean, Join, Abs, Dir, Base and IsAbs. Nothing here looks
 * at a file system; `Abs` takes the process working directory as a
 * parameter instead of asking the operating system for it.
 *
 * A path is read as the list of its segments (the pieces between
 * separators). Cleaning drops empty and `.` segments, lets each `..` remove
 * the name before it, drops a `..` at the root of an absolute path and keeps
 * the leading `..` segments of a relative one.
 */
module FilePath {
  import opened Text

  const Separator: char := '/'

  /** filepath.IsAbs */
  predicate IsAbs(p: string) {
    |p| > 0 && p[0] == Separator
  }

  function Segments(p: string): (segs: seq<string>)
    ensures |segs| >= 1
    ensures forall i :: 0 <= i < |segs| ==> Separator !in segs[i]
  {
    SplitOn(p, Separator)
  }

  /** A segment that names a directory entry. */
  predicate IsName(s: string) {
    s != "" && s != "." && s != ".." && Separator !in s
  }

  /**
   * A cleaned list of segments: names, preceded in a relative path (and only
   * there) by any number of `..`.
   */
  predicate IsNormal(rooted: bool, st: seq<string>) {
    forall i :: 0 <= i < |st| ==>
      IsName(st[i]) || (st[i] == ".." && !rooted && forall j :: 0 <= j < i ==> st[j] == "..")
  }

  /** One segment of lexical cleaning applied to the segments kept so far. */
  function Step(rooted: bool, st: seq<string>, seg: string): seq<string> {
    if seg == "" || seg == "." then st
    else if seg == ".." then
      if |st| > 0 && st[|st| - 1] != ".." then st[..|st| - 1]
      else if rooted then st
      else st + [".."]
    else st + [seg]
  }

  /** Cleaning of the segments `segs`, starting from the kept segments `st`. */
  function Fold(rooted: bool, st: seq<string>, segs: seq<string>): seq<string>
    decreases |segs|
  {
    if segs == [] then st
    else Step(rooted, Fold(rooted, st, segs[..|segs| - 1]), segs[|segs| - 1])
  }

  function Normalize(rooted: bool, segs: seq<string>): seq<string> {
    Fold(rooted, [], segs)
  }

  /** The text of a list of kept segments. */
  function Render(rooted: bool, st: seq<string>): string {
    if rooted then [Separator] + JoinWith(st, Separator)
    else if st == [] then "."
    else JoinWith(st, Separator)
  }

  /** filepath.Clean */
  function Clean(p: string): string {
    if p == "" then "." else Render(IsAbs(p), Normalize(IsAbs(p), Segments(p)))
  }

  /** filepath.Join of two elements: empty elements are ignored, the rest joined and cleaned. */
  function Join(a: string, b: string): string {
    if a != "" then Clean(a + [Separator] + b)
    else if b != "" then Clean(b)
    else ""
  }

  /**
   * filepath.Abs with the working directory `cwd` as a parameter: an
   * absolute path is cleaned, a relative one is joined onto `cwd`.
   */
  function Abs(cwd: string, p: string): string {
    if IsAbs(p) then Clean(p) else Join(cwd, p)
  }

  /** Index of the last separator in `p`, or -1 when there is none. */
  function LastSeparator(p: string): (i: int)
    ensures -1 <= i < |p|
    ensures i >= 0 ==> p[i] == Separator
    ensures forall k :: i < k < |p| ==> p[k] != Separator
    decreases |p|
  {
    if p == [] then -1
    else if p[|p| - 1] == Separator then |p| - 1
    else LastSeparator(p[..|p| - 1])
  }

  /** filepath.Dir: everything up to the last separator, cleaned. */
  function Dir(p: string): string {
    Clean(p[..LastSeparator(p) + 1])
  }

  function TrimTrailingSeparators(p: string): (q: string)
    ensures |q| <= |p| && q == p[..|q|]
    ensures q == [] || q[|q| - 1] != Separator
    decreases |p|
  {
    if p != [] && p[|p| - 1] == Separator then TrimTrailingSeparators(p[..|p| - 1]) else p
  }

  /**
   * filepath.Base: the last element of the path once trailing separators are
   * removed; "." for the empty path and "/" for a path of separators only.
   */
  function Base(p: string): (r: string)
    ensures r != ""
    ensures r == "/" || Separator !in r
  {
    if p == "" then "."
    else
      var q := TrimTrailingSeparators(p);
      if q == "" then "/" else q[LastSeparator(q) + 1..]
  }

  // ---------------------------------------------------------------------
  // Lemmas: the shape of cleaned segment lists
  // ---------------------------------------------------------------------

  lemma StepNormal(rooted: bool, st: seq<string>, seg: string)
    requires IsNormal(rooted, st) && Separator !in seg
    ensures IsNormal(rooted, Step(rooted, st, seg))
  {
    if seg == ".." && !(|st| > 0 && st[|st| - 1] != "..") && !rooted {
      var r := st + [".."];
      forall i | 0 <= i < |r|
        ensures IsName(r[i]) || (r[i] == ".." && !rooted && forall j :: 0 <= j < i ==> r[j] == "..")
      {
        if i < |st| {
          assert r[i] == st[i];
        } else if |st| > 0 {
          assert st[|st| - 1] == "..";
        }
      }
    }
  }

  lemma {:induction false} FoldNormal(rooted: bool, st: seq<string>, segs: seq<string>)
    requires IsNormal(rooted, st)
    requires forall i :: 0 <= i < |segs| ==> Separator !in segs[i]
    ensures IsNormal(rooted, Fold(rooted, st, segs))
    decreases |segs|
  {
    if segs != [] {
      FoldNormal(rooted, st, segs[..|segs| - 1]);
      StepNormal(rooted, Fold(rooted, st, segs[..|segs| - 1]), segs[|segs| - 1]);
    }
  }

  /** The segments of any path clean to a normal list. */
  lemma NormalizeSegmentsNormal(rooted: bool, p: string)
    ensures IsNormal(rooted, Normalize(rooted, Segments(p)))
  {
    FoldNormal(rooted, [], Segments(p));
  }

  /** Cleaning in two parts: the segments of `b` continue from where those of `a` left off. */
  lemma {:induction false} FoldAppend(rooted: bool, st: seq<string>, a: seq<string>, b: seq<string>)
    ensures Fold(rooted, st, a + b) == Fold(rooted, Fold(rooted, st, a), b)
    decreases |b|
  {
    if b == [] {
      assert a + b == a;
    } else {
      assert (a + b)[..|a + b| - 1] == a + b[..|b| - 1];
      FoldAppend(rooted, st, a, b[..|b| - 1]);
    }
  }

  /** A list that is already clean is left as it is. */
  lemma {:induction false} FoldOfNormal(rooted: bool, st: seq<string>)
    requires IsNormal(rooted, st)
    ensures Fold(rooted, [], st) == st
    decreases |st|
  {
    if st != [] {
      var init := st[..|st| - 1];
      NormalInit(rooted, st);
      FoldOfNormal(rooted, init);
      StepOfNormal(rooted, st);
    }
  }

  /** Dropping the last segment of a clean list leaves a clean list. */
  lemma NormalInit(rooted: bool, st: seq<string>)
    requires IsNormal(rooted, st) && st != []
    ensures IsNormal(rooted, st[..|st| - 1])
  {
    var init := st[..|st| - 1];
    forall i | 0 <= i < |init|
      ensures IsName(init[i]) || (init[i] == ".." && !rooted && forall j :: 0 <= j < i ==> init[j] == "..")
    {
      assert init[i] == st[i];
    }
  }

  /** Cleaning the last segment of a clean list onto the rest gives the list back. */
  lemma StepOfNormal(rooted: bool, st: seq<string>)
    requires IsNormal(rooted, st) && st != []
    ensures Step(rooted, st[..|st| - 1], st[|st| - 1]) == st
  {
    var init := st[..|st| - 1];
    var last := st[|st| - 1];
    if last == ".." && |init| > 0 {
      assert init[|init| - 1] == st[|st| - 2];
    }
    assert init + [last] == st;
  }

  /** Segments without `..` only ever add the names among them. */
  function Names(segs: seq<string>): seq<string>
    decreases |segs|
  {
    if segs == [] then []
    else
      var last := segs[|segs| - 1];
      Names(segs[..|segs| - 1]) + (if last == "" || last == "." then [] else [last])
  }

  lemma {:induction false} FoldWithoutDotDot(rooted: bool, st: seq<string>, segs: seq<string>)
    requires ".." !in segs
    ensures Fold(rooted, st, segs) == st + Names(segs)
    decreases |segs|
  {
    if segs != [] {
      var init := segs[..|segs| - 1];
      assert forall k :: 0 <= k < |init| ==> init[k] == segs[k];
      FoldWithoutDotDot(rooted, st, init);
    }
  }

  /**
   * Cleaning the segments of a relative path first does not change what they
   * do on top of an absolute prefix: the leading `..` segments kept by the
   * relative cleaning remove the same names later.
   */
  lemma {:induction false} FoldOfRelativeNormalize(t: seq<string>, y: seq<string>)
    requires forall i :: 0 <= i < |y| ==> Separator !in y[i]
    ensures Fold(true, t, Normalize(false, y)) == Fold(true, t, y)
    decreases |y|
  {
    if y != [] {
      var y' := y[..|y| - 1];
      var s := y[|y| - 1];
      var m := Normalize(false, y');
      FoldOfRelativeNormalize(t, y');
      FoldNormal(false, [], y');
      if s == ".." {
        if |m| > 0 && m[|m| - 1] != ".." {
          var m' := m[..|m| - 1];
          assert IsName(m[|m| - 1]);
          assert m' + [m[|m| - 1]] == m;
        } else {
          assert (m + [".."])[..|m|] == m;
        }
      } else if s != "" && s != "." {
        assert (m + [s])[..|m|] == m;
      }
    }
  }

  // ---------------------------------------------------------------------
  // Lemmas: the text of cleaned paths
  // ---------------------------------------------------------------------

  /** A relative clean path never starts with the separator. */
  lemma RenderRelativeNotAbs(st: seq<string>)
    requires IsNormal(false, st)
    ensures !IsAbs(Render(false, st))
  {
    if st != [] {
      assert IsName(st[0]) || st[0] == "..";
      JoinWithHead(st, Separator);
    }
  }

  lemma SegmentsOfRender(rooted: bool, st: seq<string>)
    requires IsNormal(rooted, st)
    ensures Segments(Render(rooted, st))
         == (if rooted then [""] + (if st == [] then [""] else st)
             else if st == [] then ["."] else st)
  {
    assert forall i :: 0 <= i < |st| ==> Separator !in st[i];
    if rooted {
      assert Render(rooted, st) == [] + [Separator] + JoinWith(st, Separator);
      SplitOnAppend([], JoinWith(st, Separator), Separator);
      if st != [] {
        SplitJoin(st, Separator);
      }
    } else if st == [] {
      SplitOnNoSeparator(".", Separator);
    } else {
      SplitJoin(st, Separator);
    }
  }

  /** Clean keeps a path absolute or relative. */
  lemma CleanKeepsAbs(p: string)
    ensures IsAbs(Clean(p)) == IsAbs(p)
  {
    if p != "" && !IsAbs(p) {
      NormalizeSegmentsNormal(false, p);
      RenderRelativeNotAbs(Normalize(false, Segments(p)));
    }
  }

  /** The text of a clean segment list is clean. */
  lemma CleanOfRender(rooted: bool, st: seq<string>)
    requires IsNormal(rooted, st)
    ensures Clean(Render(rooted, st)) == Render(rooted, st)
  {
    var r := Render(rooted, st);
    SegmentsOfRender(rooted, st);
    if rooted {
      assert IsAbs(r);
      var segs := Segments(r);
      var rest := if st == [] then [""] else st;
      FoldAppend(true, [], [""], rest);
      assert Fold(true, [], [""]) == [];
      if st != [] {
        FoldOfNormal(true, st);
      }
    } else {
      RenderRelativeNotAbs(st);
      if st != [] {
        FoldOfNormal(false, st);
      }
    }
  }

  /** filepath.Clean is idempotent. */
  lemma CleanIdempotent(p: string)
    ensures Clean(Clean(p)) == Clean(p)
  {
    if p != "" {
      NormalizeSegmentsNormal(IsAbs(p), p);
      CleanOfRender(IsAbs(p), Normalize(IsAbs(p), Segments(p)));
    } else {
      CleanOfRender(false, []);
    }
  }

  /** The segments of `a/b` are those of `a` followed by those of `b`. */
  lemma SegmentsOfJoined(a: string, b: string)
    ensures Segments(a + [Separator] + b) == Segments(a) + Segments(b)
  {
    SplitOnAppend(a, b, Separator);
  }

  /** Clean of `a/b` for a non-empty `a`, in segment form. */
  lemma CleanJoined(a: string, b: string)
    requires a != ""
    ensures IsAbs(a + [Separator] + b) == IsAbs(a)
    ensures Clean(a + [Separator] + b)
         == Render(IsAbs(a), Normalize(IsAbs(a), Segments(a) + Segments(b)))
  {
    SegmentsOfJoined(a, b);
  }

  /** The result of Abs, for an absolute working directory, is absolute and clean. */
  lemma AbsIsCleanAbsolute(cwd: string, p: string)
    requires IsAbs(cwd)
    ensures IsAbs(Abs(cwd, p)) && Clean(Abs(cwd, p)) == Abs(cwd, p)
  {
    if IsAbs(p) {
      CleanKeepsAbs(p);
      CleanIdempotent(p);
    } else {
      CleanKeepsAbs(cwd + [Separator] + p);
      CleanIdempotent(cwd + [Separator] + p);
    }
  }

  /** Dir of a name without separators is the current directory. */
  lemma DirOfPlainName(p: string)
    requires Separator !in p
    ensures Dir(p) == "."
  {
  }

  /** Dir of `d/f` for a clean absolute `d` other than the root and a name `f` is `d`. */
  lemma DirOfChild(d: string, f: string)
    requires IsAbs(d) && Clean(d) == d && d != "/"
    requires IsName(f)
    ensures Dir(d + [Separator] + f) == d
  {
    var p := d + [Separator] + f;
    assert forall k :: |d| < k < |p| ==> p[k] == f[k - |d| - 1];
    assert p[|d|] == Separator;
    assert LastSeparator(p) == |d|;
    assert p[..|d| + 1] == d + [Separator] + "";
    CleanJoined(d, "");
    assert Segments("") == [""];
    FoldAppend(true, [], Segments(d), [""]);
  }
}
