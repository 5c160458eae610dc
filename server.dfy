/**
 * The start-up configuration of main.go: splitAndTrim, the listening port
 * and the allowed CORS origins, read from the environment variables PORT
 * and CORS_ORIGINS (parameters here, "" when unset).
 */
module Server {
  import opened Text

  const DefaultPort: string := "8081"
  const LocalhostOrigin: string := "http://localhost:3000"
  const LoopbackOrigin: string := "http://127.0.0.1:3000"
  const DefaultOrigins: seq<string> := [LocalhostOrigin, LoopbackOrigin]
  const OriginSeparator: char := ','

  /** `f` applied to every part, in order. */
  function Map(f: string -> string, parts: seq<string>): (ts: seq<string>)
    ensures |ts| == |parts|
  {
    seq(|parts|, i requires 0 <= i < |parts| => f(parts[i]))
  }

  /** The i-th mapped part is `f` of the i-th part. */
  lemma MapAt(f: string -> string, parts: seq<string>)
    ensures forall i :: 0 <= i < |parts| ==> Map(f, parts)[i] == f(parts[i])
  {
  }

  /** One more part, once trimmed to `t`, adds `t` at the end unless it is empty. */
  lemma NonBlankSnoc(parts: seq<string>, x: string, t: string)
    requires t == TrimSpace(x)
    ensures NonBlank(parts + [x]) == NonBlank(parts) + (if t == "" then [] else [t])
  {
    MapAppend(TrimSpace, parts, [x]);
    assert Map(TrimSpace, [x]) == [t];
    NonEmptySnoc(Map(TrimSpace, parts), t);
  }

  /** The strings of `ts` that are not empty, in order. */
  function NonEmpty(ts: seq<string>): (r: seq<string>)
    ensures |r| <= |ts|
    decreases |ts|
  {
    if ts == [] then []
    else
      var last := ts[|ts| - 1];
      NonEmpty(ts[..|ts| - 1]) + (if last == "" then [] else [last])
  }

  /**
   * The trimmed forms of `parts` that are not empty, in order: what
   * splitAndTrim keeps of the pieces of its input.
   */
  function NonBlank(parts: seq<string>): (r: seq<string>)
    ensures |r| <= |parts|
  {
    NonEmpty(Map(TrimSpace, parts))
  }

  /** One more string is kept at the end unless it is empty. */
  lemma NonEmptySnoc(ts: seq<string>, x: string)
    ensures NonEmpty(ts + [x]) == NonEmpty(ts) + (if x == "" then [] else [x])
  {
    assert (ts + [x])[..|ts|] == ts;
  }

  /** Filtering a concatenation filters each part. */
  lemma {:induction false} NonEmptyAppend(a: seq<string>, b: seq<string>)
    ensures NonEmpty(a + b) == NonEmpty(a) + NonEmpty(b)
    decreases |b|
  {
    if b == [] {
      assert a + b == a;
    } else {
      var init, last := b[..|b| - 1], b[|b| - 1];
      assert a + b == (a + init) + [last];
      assert b == init + [last];
      NonEmptySnoc(a + init, last);
      NonEmptyAppend(a, init);
      NonEmptySnoc(init, last);
    }
  }

  /** What NonEmpty keeps is not empty, and trimmed when everything it filters is. */
  lemma {:induction false} NonEmptyKeeps(ts: seq<string>)
    requires forall i :: 0 <= i < |ts| ==> Trimmed(ts[i])
    ensures forall i :: 0 <= i < |NonEmpty(ts)| ==> NonEmpty(ts)[i] != "" && Trimmed(NonEmpty(ts)[i])
    decreases |ts|
  {
    if ts != [] {
      var init, last := ts[..|ts| - 1], ts[|ts| - 1];
      assert forall i :: 0 <= i < |init| ==> init[i] == ts[i];
      NonEmptyKeeps(init);
      var k := NonEmpty(init);
      var r := NonEmpty(ts);
      forall i | 0 <= i < |r| ensures r[i] != "" && Trimmed(r[i]) {
        if i < |k| {
          assert r[i] == k[i];
        } else {
          assert r[i] == last;
        }
      }
    }
  }

  /** A list of non-empty strings is kept whole. */
  lemma {:induction false} NonEmptyOfNonEmpty(ts: seq<string>)
    requires forall i :: 0 <= i < |ts| ==> ts[i] != ""
    ensures NonEmpty(ts) == ts
    decreases |ts|
  {
    if ts != [] {
      var init, last := ts[..|ts| - 1], ts[|ts| - 1];
      assert forall i :: 0 <= i < |init| ==> init[i] == ts[i];
      NonEmptyOfNonEmpty(init);
      assert init + [last] == ts;
    }
  }

  /** Mapping works part by part. */
  lemma MapAppend(f: string -> string, a: seq<string>, b: seq<string>)
    ensures Map(f, a + b) == Map(f, a) + Map(f, b)
  {
    var l, r := Map(f, a + b), Map(f, a) + Map(f, b);
    forall i | 0 <= i < |l| ensures l[i] == r[i] {
      if i < |a| {
        assert (a + b)[i] == a[i];
      } else {
        assert (a + b)[i] == b[i - |a|];
      }
    }
  }

  /** NonBlank works piece by piece: it maps a concatenation to the concatenation. */
  lemma NonBlankAppend(a: seq<string>, b: seq<string>)
    ensures NonBlank(a + b) == NonBlank(a) + NonBlank(b)
  {
    MapAppend(TrimSpace, a, b);
    NonEmptyAppend(Map(TrimSpace, a), Map(TrimSpace, b));
  }

  /** Every piece NonBlank keeps is trimmed and not empty. */
  lemma NonBlankPieces(parts: seq<string>)
    ensures forall i :: 0 <= i < |NonBlank(parts)| ==> NonBlank(parts)[i] != "" && Trimmed(NonBlank(parts)[i])
  {
    MapAt(TrimSpace, parts);
    NonEmptyKeeps(Map(TrimSpace, parts));
  }

  /** Pieces that are already trimmed and not empty are kept as they are. */
  lemma NonBlankOfNonBlank(parts: seq<string>)
    requires forall i :: 0 <= i < |parts| ==> parts[i] != "" && Trimmed(parts[i])
    ensures NonBlank(parts) == parts
  {
    var ts := Map(TrimSpace, parts);
    MapAt(TrimSpace, parts);
    forall i | 0 <= i < |parts| ensures ts[i] == parts[i] {
      TrimSpaceOfTrimmed(parts[i]);
    }
    assert ts == parts;
    NonEmptyOfNonEmpty(parts);
  }

  /** Splitting and trimming a second time changes nothing. */
  lemma NonBlankIdempotent(parts: seq<string>)
    ensures NonBlank(NonBlank(parts)) == NonBlank(parts)
  {
    NonBlankPieces(parts);
    NonBlankOfNonBlank(NonBlank(parts));
  }

  /** splitAndTrim(s, delim), for a one-character delimiter. */
  method SplitAndTrim(s: string, delim: char) returns (result: seq<string>)
    ensures result == NonBlank(SplitOn(s, delim))
  {
    var parts := SplitOn(s, delim);
    result := [];
    for i := 0 to |parts|
      invariant result == NonBlank(parts[..i])
    {
      assert parts[..i + 1] == parts[..i] + [parts[i]];
      var trimmed := TrimSpace(parts[i]);
      if trimmed != "" {
        result := result + [trimmed];
      }
      NonBlankSnoc(parts[..i], parts[i], trimmed);
    }
    assert parts[..|parts|] == parts;
  }

  /** The port: PORT, or "8081" when it is unset. */
  function Port(env: string): (p: string)
    ensures p != ""
    ensures env != "" ==> p == env
    ensures env == "" ==> p == "8081"
  {
    if env == "" then DefaultPort else env
  }

  /** The text the origins are read from: CORS_ORIGINS, or the two defaults. */
  function OriginsText(env: string): string {
    if env == "" then LocalhostOrigin + [OriginSeparator] + LoopbackOrigin else env
  }

  /** The loop that keeps the non-empty pieces: all of them, as splitAndTrim left none empty. */
  method KeepNonEmpty(pieces: seq<string>) returns (kept: seq<string>)
    requires forall j :: 0 <= j < |pieces| ==> pieces[j] != ""
    ensures kept == pieces
  {
    kept := [];
    for i := 0 to |pieces|
      invariant kept == pieces[..i]
    {
      if pieces[i] != "" {
        kept := kept + [pieces[i]];
      }
      assert pieces[..i + 1] == pieces[..i] + [pieces[i]];
    }
    assert pieces[..|pieces|] == pieces;
  }

  /**
   * The allowed origins read from `text`: its non-blank pieces, or the two
   * defaults when there is none; never empty.
   */
  method OriginList(text: string) returns (origins: seq<string>)
    ensures origins != []
    ensures var given := NonBlank(SplitOn(text, OriginSeparator));
            origins == if given == [] then DefaultOrigins else given
  {
    var pieces := SplitAndTrim(text, OriginSeparator);
    NonBlankPieces(SplitOn(text, OriginSeparator));
    origins := KeepNonEmpty(pieces);
    if |origins| == 0 {
      origins := DefaultOrigins;
    }
  }

  /** The allowed origins of CORS_ORIGINS, whose default is the two local origins. */
  method Origins(env: string) returns (origins: seq<string>)
    ensures origins != []
    ensures var given := NonBlank(SplitOn(OriginsText(env), OriginSeparator));
            origins == if given == [] then DefaultOrigins else given
  {
    var corsOrigins := env;
    if corsOrigins == "" {
      corsOrigins := LocalhostOrigin + [OriginSeparator] + LoopbackOrigin;
    }
    origins := OriginList(corsOrigins);
  }

  /** Two trimmed, non-empty origins joined by a comma read back as those two. */
  lemma {:induction false} TwoOrigins(a: string, b: string)
    requires a != "" && Trimmed(a) && OriginSeparator !in a
    requires b != "" && Trimmed(b) && OriginSeparator !in b
    ensures NonBlank(SplitOn(a + [OriginSeparator] + b, OriginSeparator)) == [a, b]
  {
    SplitOnAppend(a, b, OriginSeparator);
    SplitOnNoSeparator(a, OriginSeparator);
    SplitOnNoSeparator(b, OriginSeparator);
    assert SplitOn(a + [OriginSeparator] + b, OriginSeparator) == [a, b];
    assert forall i :: 0 <= i < 2 ==> [a, b][i] != "" && Trimmed([a, b][i]);
    NonBlankOfNonBlank([a, b]);
  }
}
