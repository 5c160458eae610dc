/**
 * The compose sandbox: `SafeJoin` (compose.go and handlers/compose.go)
 * resolves a user-supplied name against the compose base directory and
 * accepts the result when the absolute base path is a literal string prefix
 * of it. The test has no separator guard, so a sibling directory whose name
 * starts with the base directory's last segment passes it; the lemmas below
 * state both what the test guarantees and that leak.
 *
 * The working directory that filepath.Abs consults is the parameter `cwd`;
 * os.Getwd always returns an absolute path, so the lemmas assume IsAbs(cwd).
 */
module Sandbox {
  import opened Text
  import opened FilePath

  const EscapesBase: string := "path escapes base"

  /**
   * SafeJoin(base, name): the absolute, cleaned join of `base` and `name`,
   * provided the absolute form of `base` is a prefix of it as a string.
   */
  function SafeJoin(cwd: string, base: string, name: string): (r: Result<string>)
    ensures r.Ok? ==> r.value == Abs(cwd, Join(base, name)) && HasPrefix(r.value, Abs(cwd, base))
    ensures r.Err? ==> r.error == EscapesBase && !HasPrefix(Abs(cwd, Join(base, name)), Abs(cwd, base))
  {
    var rp := Abs(cwd, Join(base, name));
    var rb := Abs(cwd, base);
    if |rp| < |rb| || rp[..|rb|] != rb then Err(EscapesBase) else Ok(rp)
  }

  /** `p` is `base` itself or lies below it, segment-wise. */
  predicate Within(p: string, base: string) {
    p == base || HasPrefix(p, base + [Separator])
  }

  /** The segments filepath.Abs cleans for `p`. */
  function Anchor(cwd: string, p: string): seq<string> {
    if IsAbs(p) then Segments(p) else Segments(cwd) + Segments(p)
  }

  lemma {:induction false} AbsAsSegments(cwd: string, p: string)
    requires IsAbs(cwd)
    ensures Abs(cwd, p) == Render(true, Normalize(true, Anchor(cwd, p)))
  {
    if !IsAbs(p) {
      CleanJoined(cwd, p);
    }
  }

  /** Abs of a join onto an absolute base, in segment form. */
  lemma {:induction false} AbsJoinAbsolute(cwd: string, base: string, name: string)
    requires IsAbs(base)
    ensures Abs(cwd, Join(base, name))
         == Render(true, Fold(true, Normalize(true, Segments(base)), Segments(name)))
  {
    var x := base + [Separator] + name;
    var c := Clean(x);
    assert Join(base, name) == c;
    CleanJoined(base, name);
    CleanKeepsAbs(x);
    CleanIdempotent(x);
    assert Abs(cwd, c) == c;
    FoldAppend(true, [], Segments(base), Segments(name));
  }

  /** Abs of a relative path continues the cleaning of `cwd` with its segments. */
  lemma {:induction false} AbsOfRelative(cwd: string, p: string)
    requires IsAbs(cwd) && !IsAbs(p)
    ensures Abs(cwd, p) == Render(true, Fold(true, Normalize(true, Segments(cwd)), Segments(p)))
  {
    if p != "" {
      CleanJoined(cwd, p);
      FoldAppend(true, [], Segments(cwd), Segments(p));
    } else {
      assert Join(cwd, p) == Clean(cwd + [Separator] + p);
      CleanJoined(cwd, p);
      FoldAppend(true, [], Segments(cwd), Segments(p));
    }
  }

  /** The text of a relative kept list, read back on top of an absolute prefix. */
  lemma {:induction false} FoldOfRenderRelative(t: seq<string>, n: seq<string>)
    requires IsNormal(false, n)
    ensures Fold(true, t, Segments(Render(false, n))) == Fold(true, t, n)
  {
    SegmentsOfRender(false, n);
    if n == [] {
      assert Segments(Render(false, n)) == ["."];
      assert Fold(true, t, ["."]) == Step(true, Fold(true, t, []), ".");
    }
  }

  /** Abs of a join onto a relative base, in segment form. */
  lemma {:induction false} AbsJoinRelative(cwd: string, base: string, name: string)
    requires IsAbs(cwd) && base != "" && !IsAbs(base)
    ensures Abs(cwd, Join(base, name))
         == Render(true, Fold(true, Normalize(true, Segments(cwd) + Segments(base)), Segments(name)))
  {
    AbsJoinRelativeFlat(cwd, base, name);
    FoldRegroup(Segments(cwd), Segments(base), Segments(name));
  }

  /** Cleaning c then continuing with a + b is cleaning c + a then continuing with b. */
  lemma {:induction false} FoldRegroup(c: seq<string>, a: seq<string>, b: seq<string>)
    ensures Fold(true, Normalize(true, c), a + b) == Fold(true, Normalize(true, c + a), b)
  {
    calc {
      Fold(true, Normalize(true, c), a + b);
      { FoldAppend(true, [], c, a + b); }
      Fold(true, [], c + (a + b));
      { assert c + (a + b) == (c + a) + b; }
      Fold(true, [], (c + a) + b);
      { FoldAppend(true, [], c + a, b); }
      Fold(true, Normalize(true, c + a), b);
    }
  }

  /** Abs of a join onto a relative base continues the cleaned `cwd` with both segment lists. */
  lemma {:induction false} AbsJoinRelativeFlat(cwd: string, base: string, name: string)
    requires IsAbs(cwd) && base != "" && !IsAbs(base)
    ensures Abs(cwd, Join(base, name))
         == Render(true, Fold(true, Normalize(true, Segments(cwd)), Segments(base) + Segments(name)))
  {
    var y := Segments(base) + Segments(name);
    var n := Normalize(false, y);
    var t := Normalize(true, Segments(cwd));
    CleanJoined(base, name);
    var cx := Join(base, name);
    assert cx == Render(false, n);
    FoldNormal(false, [], y);
    RenderRelativeNotAbs(n);
    AbsOfRelative(cwd, cx);
    FoldOfRenderRelative(t, n);
    FoldOfRelativeNormalize(t, y);
  }

  /**
   * The absolute form of Join(base, name) continues the cleaning of the
   * base's segments with the segments of `name`, whether `base` is absolute
   * or relative to `cwd`.
   */
  lemma {:induction false} AbsJoinAsSegments(cwd: string, base: string, name: string)
    requires IsAbs(cwd) && base != ""
    ensures Abs(cwd, Join(base, name))
         == Render(true, Fold(true, Normalize(true, Anchor(cwd, base)), Segments(name)))
  {
    if IsAbs(base) {
      AbsJoinAbsolute(cwd, base, name);
    } else {
      AbsJoinRelative(cwd, base, name);
    }
  }

  /** SafeJoin in segment form: clean the base, continue with the name, compare the texts. */
  lemma {:induction false} SafeJoinAsSegments(cwd: string, base: string, name: string)
    requires IsAbs(cwd) && base != ""
    ensures var b := Normalize(true, Anchor(cwd, base));
            var p := Render(true, Fold(true, b, Segments(name)));
            SafeJoin(cwd, base, name) == if HasPrefix(p, Render(true, b)) then Ok(p) else Err(EscapesBase)
  {
    AbsAsSegments(cwd, base);
    AbsJoinAsSegments(cwd, base, name);
  }

  /** What SafeJoin returns is absolute and already clean. */
  lemma {:induction false} SafeJoinResultClean(cwd: string, base: string, name: string)
    requires IsAbs(cwd)
    requires SafeJoin(cwd, base, name).Ok?
    ensures var r := SafeJoin(cwd, base, name).value;
            IsAbs(r) && Clean(r) == r
  {
    AbsIsCleanAbsolute(cwd, Join(base, name));
  }

  /**
   * A leading separator in `name` does not make it absolute: it is joined
   * under `base` exactly as the name without it.
   */
  lemma {:induction false} SafeJoinLeadingSeparator(cwd: string, base: string, name: string)
    requires base != ""
    ensures SafeJoin(cwd, base, [Separator] + name) == SafeJoin(cwd, base, name)
  {
    var a := Segments(base);
    var r := IsAbs(base);
    CleanJoined(base, [Separator] + name);
    CleanJoined(base, name);
    assert [Separator] + name == [] + [Separator] + name;
    SplitOnAppend([], name, Separator);
    assert Segments([Separator] + name) == [""] + Segments(name);
    FoldAppend(r, [], a, [""] + Segments(name));
    FoldAppend(r, Normalize(r, a), [""], Segments(name));
    assert Fold(r, Normalize(r, a), [""]) == Step(r, Fold(r, Normalize(r, a), []), "");
    FoldAppend(r, [], a, Segments(name));
    assert Join(base, [Separator] + name) == Join(base, name);
  }

  /**
   * A name none of whose segments is `..` is always accepted, and resolves to
   * the base followed by the name's own names.
   */
  lemma {:induction false} SafeJoinAcceptsDescending(cwd: string, base: string, name: string)
    requires IsAbs(cwd) && base != ""
    requires ".." !in Segments(name)
    ensures var b := Normalize(true, Anchor(cwd, base));
            SafeJoin(cwd, base, name) == Ok(Render(true, b + Names(Segments(name))))
  {
    var b := Normalize(true, Anchor(cwd, base));
    SafeJoinAsSegments(cwd, base, name);
    FoldWithoutDotDot(true, b, Segments(name));
    JoinWithPrefix(b, Names(Segments(name)), Separator);
  }

  /** A clean absolute path and its segment list. */
  lemma {:induction false} CleanAbsolute(st: seq<string>)
    requires IsNormal(true, st)
    ensures Clean(Render(true, st)) == Render(true, st)
    ensures Normalize(true, Segments(Render(true, st))) == st
  {
    CleanOfRender(true, st);
    SegmentsOfRender(true, st);
    var rest := if st == [] then [""] else st;
    FoldAppend(true, [], [""], rest);
    assert Fold(true, [], [""]) == Step(true, Fold(true, [], []), "");
    if st != [] {
      FoldOfNormal(true, st);
    }
  }

  /** The segment list of a clean absolute path. */
  lemma {:induction false} CleanAbsoluteSegments(base: string)
    requires IsAbs(base) && Clean(base) == base
    ensures var b := Normalize(true, Segments(base));
            IsNormal(true, b) && Render(true, b) == base && (base != "/" ==> b != [])
  {
    NormalizeSegmentsNormal(true, base);
  }

  lemma {:induction false} NamesOfNames(ns: seq<string>)
    requires forall i :: 0 <= i < |ns| ==> IsName(ns[i])
    ensures Names(ns) == ns
    decreases |ns|
  {
    if ns != [] {
      var init := ns[..|ns| - 1];
      var last := ns[|ns| - 1];
      assert forall i :: 0 <= i < |init| ==> init[i] == ns[i];
      NamesOfNames(init);
      assert IsName(last);
      assert init + [last] == ns;
    }
  }

  /**
   * A relative name made of plain names lands directly below a clean
   * absolute base: SafeJoin(base, "a/b") is base + "/a/b".
   */
  lemma {:induction false} SafeJoinChild(cwd: string, base: string, ns: seq<string>)
    requires IsAbs(cwd) && IsAbs(base) && Clean(base) == base && base != "/"
    requires |ns| >= 1 && forall i :: 0 <= i < |ns| ==> IsName(ns[i])
    ensures SafeJoin(cwd, base, JoinWith(ns, Separator)) == Ok(base + [Separator] + JoinWith(ns, Separator))
  {
    var b := Normalize(true, Segments(base));
    CleanAbsoluteSegments(base);
    ChildFold(b, ns);
    ChildRender(b, ns);
    SafeJoinOfSegments(cwd, base, JoinWith(ns, Separator), b + ns);
  }

  /** Plain names joined by separators fold onto `b` as themselves. */
  lemma {:induction false} ChildFold(b: seq<string>, ns: seq<string>)
    requires |ns| >= 1 && forall i :: 0 <= i < |ns| ==> IsName(ns[i])
    ensures Fold(true, b, Segments(JoinWith(ns, Separator))) == b + ns
  {
    assert forall i :: 0 <= i < |ns| ==> Separator !in ns[i] && ns[i] != "..";
    SplitJoin(ns, Separator);
    FoldWithoutDotDot(true, b, ns);
    NamesOfNames(ns);
  }

  /** The text of b + ns is the text of b, a separator, and the names joined. */
  lemma {:induction false} ChildRender(b: seq<string>, ns: seq<string>)
    requires |b| >= 1 && |ns| >= 1
    ensures Render(true, b + ns) == Render(true, b) + [Separator] + JoinWith(ns, Separator)
    ensures HasPrefix(Render(true, b + ns), Render(true, b))
  {
    JoinWithConcat(b, ns, Separator);
  }

  /** The segments of "../" followed by a join of pieces without separators. */
  lemma {:induction false} SegmentsOfClimb(ns: seq<string>)
    requires |ns| >= 1 && forall i :: 0 <= i < |ns| ==> Separator !in ns[i]
    ensures Segments(".." + [Separator] + JoinWith(ns, Separator)) == [".."] + ns
  {
    SplitOnNoSeparator("..", Separator);
    SplitJoin(ns, Separator);
    SplitOnAppend("..", JoinWith(ns, Separator), Separator);
  }

  /** One `..` drops the last name kept; names after it are appended. */
  lemma {:induction false} FoldClimbThenNames(b: seq<string>, ns: seq<string>)
    requires |b| >= 1 && IsName(b[|b| - 1])
    requires forall i :: 0 <= i < |ns| ==> IsName(ns[i])
    ensures Fold(true, b, [".."] + ns) == b[..|b| - 1] + ns
  {
    FoldAppend(true, b, [".."], ns);
    assert Fold(true, b, [".."]) == Step(true, Fold(true, b, []), "..");
    assert forall i :: 0 <= i < |ns| ==> ns[i] != "..";
    FoldWithoutDotDot(true, b[..|b| - 1], ns);
    NamesOfNames(ns);
  }

  /**
   * A name that climbs one level and names `y` resolves to the sibling `y` of
   * the base's last segment; whether it is accepted is the string test alone.
   */
  lemma {:induction false} SafeJoinClimbOne(cwd: string, base: string, y: string)
    requires IsAbs(cwd) && IsAbs(base) && Clean(base) == base && base != "/"
    requires IsName(y)
    ensures var b := Normalize(true, Segments(base));
            |b| >= 1 &&
            var p := Render(true, b[..|b| - 1] + [y]);
            SafeJoin(cwd, base, ".." + [Separator] + y) == if HasPrefix(p, base) then Ok(p) else Err(EscapesBase)
  {
    var b := Normalize(true, Segments(base));
    CleanAbsoluteSegments(base);
    assert Anchor(cwd, base) == Segments(base);
    assert JoinWith([y], Separator) == y;
    SegmentsOfClimb([y]);
    FoldClimbThenNames(b, [y]);
    SafeJoinAsSegments(cwd, base, ".." + [Separator] + y);
  }

  /** Renaming the last kept name x to x + t extends the rendered text by t. */
  lemma {:induction false} RenderExtendLast(b: seq<string>, t: string, rest: seq<string>)
    requires |b| >= 1
    ensures HasPrefix(Render(true, b[..|b| - 1] + [b[|b| - 1] + t] + rest), Render(true, b) + t)
  {
    var s := b[..|b| - 1];
    var x := b[|b| - 1];
    assert s + [x] == b;
    assert Render(true, s + [x + t]) == Render(true, b) + t by {
      if s == [] {
        assert JoinWith([x + t], Separator) == x + t;
        assert JoinWith([x], Separator) == x;
      } else {
        JoinWithExtendLast(s, x, t, Separator);
      }
    }
    JoinWithPrefix(s + [x + t], rest, Separator);
  }

  /** A name with more text glued on is still a name. */
  lemma {:induction false} NameExtended(x: string, t: string)
    requires IsName(x) && t != "" && Separator !in t
    ensures IsName(x + t)
  {
    var y := x + t;
    assert |y| == |x| + |t| >= 2;
    assert y[..|x|] == x;
    assert |x| == 1 ==> x == [y[0]];
    assert Separator !in y by {
      forall i | 0 <= i < |y| ensures y[i] != Separator {
        if i < |x| {
          assert y[i] == x[i];
        } else {
          assert y[i] == t[i - |x|];
        }
      }
    }
  }

  /** Names climbing one level to a sibling of the base's last name, as a segment list. */
  lemma {:induction false} SiblingNames(b: seq<string>, t: string, rest: seq<string>)
    requires |b| >= 1 && IsName(b[|b| - 1])
    requires t != "" && Separator !in t
    requires forall i :: 0 <= i < |rest| ==> IsName(rest[i])
    ensures var ns := [b[|b| - 1] + t] + rest;
            forall i :: 0 <= i < |ns| ==> IsName(ns[i])
  {
    var ns := [b[|b| - 1] + t] + rest;
    NameExtended(b[|b| - 1], t);
    forall i | 0 <= i < |ns| ensures IsName(ns[i]) {
      if i > 0 {
        assert ns[i] == rest[i - 1];
      }
    }
  }

  /** The last name of a base directory, once cleaned ("" for the root). */
  function LastName(base: string): string {
    var b := Normalize(true, Segments(base));
    if b == [] then "" else b[|b| - 1]
  }

  /** "../" followed by the base's last name with `t` glued on, then `rest`. */
  function SiblingName(base: string, t: string, rest: seq<string>): string {
    ".." + [Separator] + JoinWith([LastName(base) + t] + rest, Separator)
  }

  /**
   * The missing separator guard: for a clean absolute base whose last segment
   * is `x`, the name "../" + x + t (t non-empty, no separator) followed by
   * further names `rest` is accepted although it resolves to a sibling of the
   * base, not to the base or anything below it.
   */
  lemma {:induction false} SafeJoinSiblingLeak(cwd: string, base: string, t: string, rest: seq<string>)
    requires IsAbs(cwd) && IsAbs(base) && Clean(base) == base && base != "/"
    requires t != "" && Separator !in t
    requires forall i :: 0 <= i < |rest| ==> IsName(rest[i])
    ensures SafeJoin(cwd, base, SiblingName(base, t, rest)).Ok?
    ensures HasPrefix(SafeJoin(cwd, base, SiblingName(base, t, rest)).value, base + t)
    ensures !Within(SafeJoin(cwd, base, SiblingName(base, t, rest)).value, base)
  {
    var p := SiblingResolves(cwd, base, t, rest);
    NotWithinOfGlued(p, base, t);
  }

  /** A path that starts with base + t, t not starting with a separator, is not within base. */
  lemma NotWithinOfGlued(p: string, base: string, t: string)
    requires HasPrefix(p, base + t) && t != "" && t[0] != Separator
    ensures !Within(p, base)
  {
    assert p[|base|] == (base + t)[|base|] == t[0];
  }

  /** The sibling name resolves to a path that starts with base + t. */
  lemma {:induction false} SiblingResolves(cwd: string, base: string, t: string, rest: seq<string>)
    returns (p: string)
    requires IsAbs(cwd) && IsAbs(base) && Clean(base) == base && base != "/"
    requires t != "" && Separator !in t
    requires forall i :: 0 <= i < |rest| ==> IsName(rest[i])
    ensures SafeJoin(cwd, base, SiblingName(base, t, rest)) == Ok(p)
    ensures HasPrefix(p, base + t)
  {
    var b := Normalize(true, Segments(base));
    CleanAbsoluteSegments(base);
    var s, x := b[..|b| - 1], b[|b| - 1];
    assert LastName(base) == x;
    p := Render(true, s + [x + t] + rest);
    SiblingFold(b, t, rest);
    RenderExtendLast(b, t, rest);
    SafeJoinOfSegments(cwd, base, SiblingName(base, t, rest), s + [x + t] + rest);
  }

  /** SafeJoin onto a clean absolute base whose fold with the name's segments is `st`. */
  lemma {:induction false} SafeJoinOfSegments(cwd: string, base: string, name: string, st: seq<string>)
    requires IsAbs(cwd) && IsAbs(base) && Clean(base) == base
    requires Fold(true, Normalize(true, Segments(base)), Segments(name)) == st
    requires HasPrefix(Render(true, st), base)
    ensures SafeJoin(cwd, base, name) == Ok(Render(true, st))
  {
    CleanAbsoluteSegments(base);
    assert Anchor(cwd, base) == Segments(base);
    SafeJoinAsSegments(cwd, base, name);
  }

  /** Folding "../" + x + t followed by `rest` onto b, whose last name is x. */
  lemma {:induction false} SiblingFold(b: seq<string>, t: string, rest: seq<string>)
    requires |b| >= 1 && IsName(b[|b| - 1])
    requires t != "" && Separator !in t
    requires forall i :: 0 <= i < |rest| ==> IsName(rest[i])
    ensures var ns := [b[|b| - 1] + t] + rest;
            Fold(true, b, Segments(".." + [Separator] + JoinWith(ns, Separator))) == b[..|b| - 1] + ns
  {
    var ns := [b[|b| - 1] + t] + rest;
    SiblingNames(b, t, rest);
    SegmentsOfClimb(ns);
    FoldClimbThenNames(b, ns);
  }

  // ---------------------------------------------------------------------
  // Worked examples with the base directory /data/compose
  // ---------------------------------------------------------------------

  /** The base directory of the examples below, split into its names. */
  lemma {:induction false} ExampleBase(base: string)
    requires base == "/data/compose"
    ensures IsAbs(base) && Clean(base) == base && base != "/"
    ensures Normalize(true, Segments(base)) == ["data", "compose"]
  {
    var st := ["data", "compose"];
    assert st[1..] == ["compose"];
    assert Render(true, st) == base;
    CleanAbsolute(st);
  }

  /** "../secrets" climbs out of /data/compose and is rejected. */
  lemma {:induction false} ExampleClimbRejected(cwd: string, base: string, name: string)
    requires IsAbs(cwd) && base == "/data/compose" && name == "../secrets"
    ensures SafeJoin(cwd, base, name) == Err(EscapesBase)
  {
    ExampleBase(base);
    var y := "secrets";
    var p := Render(true, ["data", "compose"][..1] + [y]);
    assert !HasPrefix(p, base) by {
      var st := ["data", y];
      assert ["data", "compose"][..1] + [y] == st;
      assert st[1..] == [y];
      assert JoinWith(st, Separator) == "data" + [Separator] + y;
      assert p == "/data/secrets";
      assert p[6] != base[6];
    }
    assert ".." + [Separator] + y == name;
    assert IsName(y);
    SafeJoinClimbOne(cwd, base, y);
  }

  /** "../compose-x/f" reaches the sibling directory /data/compose-x and is accepted. */
  lemma {:induction false} ExampleSiblingAccepted(cwd: string, base: string, name: string)
    requires IsAbs(cwd) && base == "/data/compose" && name == "../compose-x/f"
    ensures SafeJoin(cwd, base, name).Ok?
    ensures HasPrefix(SafeJoin(cwd, base, name).value, "/data/compose-x")
    ensures !Within(SafeJoin(cwd, base, name).value, base)
  {
    ExampleBase(base);
    assert LastName(base) == "compose";
    var ns := ["compose" + "-x", "f"];
    assert ns[1..] == ["f"];
    assert ".." + [Separator] + JoinWith(ns, Separator) == name;
    assert ["compose" + "-x"] + ["f"] == ns;
    assert Separator !in "-x" && IsName("f");
    SafeJoinSiblingLeak(cwd, base, "-x", ["f"]);
    assert SiblingName(base, "-x", ["f"]) == name;
    assert base + "-x" == "/data/compose-x";
  }
}
