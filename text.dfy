/**
 * The string and number conversions of Go's standard library that the
 * request-translation layer relies on (strings.TrimSpace, strings.Split,
 * strings.Join, strings.Fields, strings.Contains, strings.HasPrefix,
 * strings.HasSuffix, strconv.ParseInt with base 10 and the decimal
 * formatting of fmt's %d verb), stated as pure functions over `string`.
 */
module Text {

  datatype Option<+T> = None | Some(value: T)

  datatype Result<+T> = Ok(value: T) | Err(error: string)

  // ---------------------------------------------------------------------
  // White space (Go's unicode.IsSpace)
  // ---------------------------------------------------------------------

  /** The characters Go's unicode.IsSpace reports as white space. */
  predicate IsSpace(c: char) {
    c == ' ' || c == '\t' || c == '\n' || c == '\r' || c == '\U{000B}' || c == '\U{000C}'
    || c == '\U{0085}' || c == '\U{00A0}' || c == '\U{1680}'
    || ('\U{2000}' <= c <= '\U{200A}')
    || c == '\U{2028}' || c == '\U{2029}' || c == '\U{202F}' || c == '\U{205F}' || c == '\U{3000}'
  }

  /** No character of `s` is white space. */
  predicate NoSpace(s: string) {
    forall i :: 0 <= i < |s| ==> !IsSpace(s[i])
  }

  /** `s` neither starts nor ends with white space. */
  predicate Trimmed(s: string) {
    s == [] || (!IsSpace(s[0]) && !IsSpace(s[|s| - 1]))
  }

  function TrimLeft(s: string): (r: string)
    ensures |r| <= |s| && r == s[|s| - |r|..]
    ensures r == [] || !IsSpace(r[0])
    ensures forall k :: 0 <= k < |s| - |r| ==> IsSpace(s[k])
  {
    if s != [] && IsSpace(s[0]) then TrimLeft(s[1..]) else s
  }

  function TrimRight(s: string): (r: string)
    ensures |r| <= |s| && r == s[..|r|]
    ensures r == [] || !IsSpace(r[|r| - 1])
    ensures forall k :: |r| <= k < |s| ==> IsSpace(s[k])
  {
    if s != [] && IsSpace(s[|s| - 1]) then TrimRight(s[..|s| - 1]) else s
  }

  /**
   * `r` is the piece of `s` that starts at index `i`, and everything of `s`
   * before and after that piece is white space.
   */
  predicate SpaceAround(s: string, i: int, r: string) {
    0 <= i <= |s| - |r| && r == s[i..i + |r|]
    && (forall k :: 0 <= k < i ==> IsSpace(s[k]))
    && (forall k :: i + |r| <= k < |s| ==> IsSpace(s[k]))
  }

  /** strings.TrimSpace: `s` without its leading and trailing white space. */
  function TrimSpace(s: string): (r: string)
    ensures Trimmed(r) && |r| <= |s|
  {
    var l := TrimLeft(s);
    var r := TrimRight(l);
    assert r != [] ==> r[0] == l[0];
    r
  }

  /** TrimSpace removes white space at either end and nothing else. */
  lemma TrimSpaceRemovesOnlySpace(s: string)
    ensures exists i :: SpaceAround(s, i, TrimSpace(s))
  {
    var l := TrimLeft(s);
    SpaceAroundOfTrims(s, l, TrimRight(l));
    assert TrimSpace(s) == TrimRight(l);
    assert SpaceAround(s, |s| - |l|, TrimSpace(s));
  }

  /** Space dropped from the front of `s` to give `l`, then from the back of `l` to give `r`. */
  lemma SpaceAroundOfTrims(s: string, l: string, r: string)
    requires |l| <= |s| && l == s[|s| - |l|..]
    requires forall k :: 0 <= k < |s| - |l| ==> IsSpace(s[k])
    requires |r| <= |l| && r == l[..|r|]
    requires forall k :: |r| <= k < |l| ==> IsSpace(l[k])
    ensures SpaceAround(s, |s| - |l|, r)
  {
    var i := |s| - |l|;
    forall k | i + |r| <= k < |s| ensures IsSpace(s[k]) {
      assert s[k] == l[k - i];
    }
  }

  /** Trimming a string that has no white space at either end changes nothing. */
  lemma TrimSpaceOfTrimmed(s: string)
    requires Trimmed(s)
    ensures TrimSpace(s) == s
  {
  }

  /** strings.TrimSpace is idempotent. */
  lemma TrimSpaceIdempotent(s: string)
    ensures TrimSpace(TrimSpace(s)) == TrimSpace(s)
  {
    TrimSpaceOfTrimmed(TrimSpace(s));
  }

  // ---------------------------------------------------------------------
  // Prefixes, suffixes, substrings
  // ---------------------------------------------------------------------

  predicate HasPrefix(s: string, p: string) {
    |p| <= |s| && s[..|p|] == p
  }

  predicate HasSuffix(s: string, x: string) {
    |x| <= |s| && s[|s| - |x|..] == x
  }

  /** `t` occurs in `s` at index `i`. */
  predicate OccursAt(s: string, t: string, i: int) {
    0 <= i && i + |t| <= |s| && s[i..i + |t|] == t
  }

  /** strings.Contains: `t` occurs in `s` at some position. */
  predicate Contains(s: string, t: string) {
    exists i :: 0 <= i <= |s| && OccursAt(s, t, i)
  }

  /** A string that contains `t` also contains it after anything is put around it. */
  lemma ContainsExtend(a: string, s: string, b: string, t: string)
    requires Contains(s, t)
    ensures Contains(a + s + b, t)
  {
    var i :| 0 <= i <= |s| && OccursAt(s, t, i);
    assert (a + s + b)[|a| + i..|a| + i + |t|] == t;
    assert OccursAt(a + s + b, t, |a| + i);
  }

  // ---------------------------------------------------------------------
  // Splitting on one character and joining with one character
  // ---------------------------------------------------------------------

  /**
   * strings.Split with a one-character separator: the pieces between the
   * occurrences of `c`, in order. There is always at least one piece, and
   * the empty string splits into one empty piece.
   */
  function SplitOn(s: string, c: char): (parts: seq<string>)
    ensures |parts| >= 1
    ensures forall i :: 0 <= i < |parts| ==> c !in parts[i]
    decreases |s|
  {
    if s == [] then [[]]
    else
      var rest := SplitOn(s[1..], c);
      if s[0] == c then [[]] + rest else [[s[0]] + rest[0]] + rest[1..]
  }

  /** strings.Join with a one-character separator. */
  function JoinWith(parts: seq<string>, c: char): string
    decreases |parts|
  {
    if |parts| == 0 then []
    else if |parts| == 1 then parts[0]
    else parts[0] + [c] + JoinWith(parts[1..], c)
  }

  /** A string without the separator is one piece. */
  lemma {:induction false} SplitOnNoSeparator(s: string, c: char)
    requires c !in s
    ensures SplitOn(s, c) == [s]
    decreases |s|
  {
    if s != [] {
      SplitOnNoSeparator(s[1..], c);
      assert s == [s[0]] + s[1..];
    }
  }

  /** Splitting distributes over one occurrence of the separator. */
  lemma {:induction false} SplitOnAppend(a: string, b: string, c: char)
    ensures SplitOn(a + [c] + b, c) == SplitOn(a, c) + SplitOn(b, c)
    decreases |a|
  {
    if a == [] {
      assert a + [c] + b == [c] + b;
      assert ([c] + b)[1..] == b;
    } else {
      assert (a + [c] + b)[1..] == a[1..] + [c] + b;
      SplitOnAppend(a[1..], b, c);
    }
  }

  /** Joining the pieces of a split gives the string back. */
  lemma {:induction false} JoinSplit(s: string, c: char)
    ensures JoinWith(SplitOn(s, c), c) == s
    decreases |s|
  {
    if s != [] {
      JoinSplit(s[1..], c);
      var rest := SplitOn(s[1..], c);
      if s[0] == c {
        assert s == [c] + s[1..];
      } else if |rest| == 1 {
        assert s == [s[0]] + s[1..];
      } else {
        assert rest == [rest[0]] + rest[1..];
        assert JoinWith(rest, c) == rest[0] + [c] + JoinWith(rest[1..], c);
        assert s == [s[0]] + s[1..];
      }
    }
  }

  /** Splitting a join of separator-free pieces gives the pieces back. */
  lemma {:induction false} SplitJoin(parts: seq<string>, c: char)
    requires |parts| >= 1
    requires forall i :: 0 <= i < |parts| ==> c !in parts[i]
    ensures SplitOn(JoinWith(parts, c), c) == parts
    decreases |parts|
  {
    if |parts| == 1 {
      SplitOnNoSeparator(parts[0], c);
    } else {
      SplitJoin(parts[1..], c);
      SplitOnNoSeparator(parts[0], c);
      SplitOnAppend(parts[0], JoinWith(parts[1..], c), c);
      assert [parts[0]] + parts[1..] == parts;
    }
  }

  /** Joining one more piece onto a non-empty list. */
  lemma {:induction false} JoinWithSnoc(parts: seq<string>, x: string, c: char)
    requires |parts| >= 1
    ensures JoinWith(parts + [x], c) == JoinWith(parts, c) + [c] + x
    decreases |parts|
  {
    if |parts| > 1 {
      assert (parts + [x])[1..] == parts[1..] + [x];
      JoinWithSnoc(parts[1..], x, c);
    }
  }

  /** Joining two non-empty lists puts one separator between their joins. */
  lemma {:induction false} JoinWithConcat(p: seq<string>, q: seq<string>, c: char)
    requires |p| >= 1 && |q| >= 1
    ensures JoinWith(p + q, c) == JoinWith(p, c) + [c] + JoinWith(q, c)
    decreases |p|
  {
    if |p| > 1 {
      assert (p + q)[1..] == p[1..] + q;
      JoinWithConcat(p[1..], q, c);
    } else {
      assert (p + q)[1..] == q;
    }
  }

  /** The join of a list starts with the join of any prefix of it. */
  lemma {:induction false} JoinWithPrefix(p: seq<string>, q: seq<string>, c: char)
    ensures HasPrefix(JoinWith(p + q, c), JoinWith(p, c))
    decreases |q|
  {
    if q == [] {
      assert p + q == p;
    } else if p == [] {
    } else {
      var q' := q[..|q| - 1];
      JoinWithPrefix(p, q', c);
      assert p + q == (p + q') + [q[|q| - 1]];
      JoinWithSnoc(p + q', q[|q| - 1], c);
    }
  }

  /** Text glued to the last piece of a join is glued to the join. */
  lemma JoinWithExtendLast(parts: seq<string>, x: string, t: string, c: char)
    requires |parts| >= 1
    ensures JoinWith(parts + [x + t], c) == JoinWith(parts + [x], c) + t
  {
    JoinWithSnoc(parts, x + t, c);
    JoinWithSnoc(parts, x, c);
  }

  /** A join of non-empty pieces none of which starts with `d` does not start with `d`. */
  lemma {:induction false} JoinWithHead(parts: seq<string>, c: char)
    requires |parts| >= 1 && parts[0] != []
    ensures JoinWith(parts, c) != [] && JoinWith(parts, c)[0] == parts[0][0]
    decreases |parts|
  {
  }

  // ---------------------------------------------------------------------
  // Fields (Go's strings.Fields)
  // ---------------------------------------------------------------------

  /** Length of the leading run of non-space characters. */
  function WordLength(s: string): (n: nat)
    ensures n <= |s|
    ensures forall k :: 0 <= k < n ==> !IsSpace(s[k])
    ensures n == |s| || IsSpace(s[n])
    decreases |s|
  {
    if s == [] || IsSpace(s[0]) then 0 else 1 + WordLength(s[1..])
  }

  /**
   * strings.Fields: the maximal runs of non-space characters of `s`, in
   * order. Every field is non-empty and free of white space.
   */
  function Fields(s: string): (fs: seq<string>)
    ensures forall i :: 0 <= i < |fs| ==> fs[i] != [] && NoSpace(fs[i])
    decreases |s|
  {
    if s == [] then []
    else if IsSpace(s[0]) then Fields(s[1..])
    else
      var n := WordLength(s);
      [s[..n]] + Fields(s[n..])
  }

  /** The fields of a string are those of its trimmed form. */
  lemma {:induction false} FieldsTrimLeft(s: string)
    ensures Fields(TrimLeft(s)) == Fields(s)
    decreases |s|
  {
    if s != [] && IsSpace(s[0]) {
      FieldsTrimLeft(s[1..]);
    }
  }

  /** The leading run of a word followed by white space (or nothing) is the word. */
  lemma {:induction false} WordLengthOfWord(w: string, rest: string)
    requires NoSpace(w)
    requires rest == [] || IsSpace(rest[0])
    ensures WordLength(w + rest) == |w|
    decreases |w|
  {
    if w != [] {
      assert (w + rest)[1..] == w[1..] + rest;
      WordLengthOfWord(w[1..], rest);
    }
  }

  /** The last character of a join of non-empty pieces is that of its last piece. */
  lemma {:induction false} JoinWithLast(parts: seq<string>, c: char)
    requires |parts| >= 1 && parts[|parts| - 1] != []
    ensures var s := JoinWith(parts, c); s != [] && s[|s| - 1] == parts[|parts| - 1][|parts[|parts| - 1]| - 1]
    decreases |parts|
  {
    if |parts| > 1 {
      JoinWithLast(parts[1..], c);
    }
  }

  /**
   * Words joined by single spaces split back into those words: Fields is
   * the inverse of joining with ' ' on non-empty words without white space.
   */
  lemma {:induction false} FieldsOfJoin(words: seq<string>)
    requires forall i :: 0 <= i < |words| ==> words[i] != [] && NoSpace(words[i])
    ensures Fields(JoinWith(words, ' ')) == words
    decreases |words|
  {
    if |words| == 1 {
      WordLengthOfWord(words[0], []);
      assert words[0] + [] == words[0];
      assert words[0][|words[0]|..] == [];
    } else if |words| > 1 {
      var rest := JoinWith(words[1..], ' ');
      var s := words[0] + [' '] + rest;
      assert s == words[0] + ([' '] + rest);
      WordLengthOfWord(words[0], [' '] + rest);
      assert s[..|words[0]|] == words[0];
      assert s[|words[0]|..] == [' '] + rest;
      assert ([' '] + rest)[1..] == rest;
      FieldsOfJoin(words[1..]);
      assert words == [words[0]] + words[1..];
    }
  }

  /** A join of non-empty words without white space is trimmed. */
  lemma JoinOfWordsTrimmed(words: seq<string>)
    requires |words| >= 1
    requires forall i :: 0 <= i < |words| ==> words[i] != [] && NoSpace(words[i])
    ensures Trimmed(JoinWith(words, ' '))
  {
    JoinWithHead(words, ' ');
    JoinWithLast(words, ' ');
  }

  // ---------------------------------------------------------------------
  // Decimal numbers (strconv.ParseInt base 10, bit size 64; fmt %d)
  // ---------------------------------------------------------------------

  const MaxInt64: int := 0x7FFF_FFFF_FFFF_FFFF

  /** Go's int and int64. */
  newtype Int64 = x: int | -MaxInt64 - 1 <= x <= MaxInt64

  predicate IsDigit(c: char) {
    '0' <= c <= '9'
  }

  predicate AllDigits(s: string) {
    forall i :: 0 <= i < |s| ==> IsDigit(s[i])
  }

  function DigitValue(c: char): (d: nat)
    requires IsDigit(c)
    ensures d < 10
  {
    (c as int) - ('0' as int)
  }

  function DigitChar(d: nat): (c: char)
    requires d < 10
    ensures IsDigit(c) && DigitValue(c) == d
  {
    ((d + '0' as int) as char)
  }

  /** The value of a string of decimal digits, most significant first. */
  function DecimalValue(s: string): nat
    requires AllDigits(s)
    decreases |s|
  {
    if s == [] then 0 else DecimalValue(s[..|s| - 1]) * 10 + DigitValue(s[|s| - 1])
  }

  /** The decimal digits of `n`, without leading zeros (fmt's %d on a non-negative value). */
  function FormatNat(n: nat): (s: string)
    ensures s != [] && AllDigits(s)
    ensures |s| > 1 ==> s[0] != '0'
    decreases n
  {
    if n < 10 then [DigitChar(n)] else FormatNat(n / 10) + [DigitChar(n % 10)]
  }

  /** Reading back the digits of `n` gives `n`. */
  lemma {:induction false} DecimalValueOfFormat(n: nat)
    ensures DecimalValue(FormatNat(n)) == n
    decreases n
  {
    if n >= 10 {
      DecimalValueOfFormat(n / 10);
      var s := FormatNat(n);
      assert s[..|s| - 1] == FormatNat(n / 10);
    }
  }

  /**
   * strconv.ParseInt(s, 10, 64): an optional '+' or '-' sign followed by at
   * least one decimal digit, whose value fits in a signed 64-bit integer.
   * Anything else is an error (None).
   */
  function ParseInt64(s: string): (r: Option<int>)
    ensures r.Some? ==> -MaxInt64 - 1 <= r.value <= MaxInt64
  {
    if s == [] then None
    else
      var negative := s[0] == '-';
      var digits := if s[0] == '+' || s[0] == '-' then s[1..] else s;
      if digits == [] || !AllDigits(digits) then None
      else
        var v: int := DecimalValue(digits);
        if negative then (if v <= MaxInt64 + 1 then Some(-v) else None)
        else (if v <= MaxInt64 then Some(v) else None)
  }

  /** Formatting then parsing a representable non-negative number is the identity. */
  lemma ParseFormatRoundTrip(n: nat)
    requires n <= MaxInt64
    ensures ParseInt64(FormatNat(n)) == Some(n)
  {
    DecimalValueOfFormat(n);
  }

  /** A string with a character that is neither a digit nor a leading sign does not parse. */
  lemma ParseInt64RejectsNonDigit(s: string, i: nat)
    requires i < |s| && !IsDigit(s[i])
    requires i > 0 || (s[0] != '+' && s[0] != '-')
    ensures ParseInt64(s) == None
  {
    if s[0] == '+' || s[0] == '-' {
      assert !IsDigit(s[1..][i - 1]);
    }
  }
}
