/**
  The JavaScript string operations the reminder system relies on, written
  out over `string` (a sequence of Unicode scalar values): decimal rendering of
  integers (`String(n)`), `padStart`, `replace` with a global literal pattern,
  `trim`, `split` on one character and `join`.
 */
module Text {
  import opened Wrappers

  // ---------------------------------------------------------------------------
  // Decimal numbers
  // ---------------------------------------------------------------------------

  predicate IsDigit(c: char) {
    '0' <= c <= '9'
  }

  predicate IsDigits(s: string) {
    forall i :: 0 <= i < |s| ==> IsDigit(s[i])
  }

  function DigitChar(d: int): (c: char)
    requires 0 <= d < 10
    ensures IsDigit(c)
  {
    (48 + d) as char
  }

  function DigitValue(c: char): (d: nat)
    requires IsDigit(c)
    ensures d < 10 && DigitChar(d) == c
  {
    (c as int) - 48
  }

  /** `String(n)` for a non-negative integer: its decimal digits, no leading zero. */
  function NatToString(n: nat): (s: string)
    ensures |s| >= 1 && IsDigits(s)
    ensures s[0] == '0' ==> n == 0
    decreases n
  {
    if n < 10 then [DigitChar(n)] else NatToString(n / 10) + [DigitChar(n % 10)]
  }

  /** `String(i)` for any integer: a minus sign before the digits of a negative value. */
  function IntToString(i: int): string {
    if i < 0 then "-" + NatToString(-i) else NatToString(i)
  }

  /** The value of a string of decimal digits (most significant first). */
  function DigitsValue(s: string): nat
    requires IsDigits(s)
    decreases |s|
  {
    if s == [] then 0 else DigitsValue(s[..|s| - 1]) * 10 + DigitValue(s[|s| - 1])
  }

  /** Reads back a non-empty string of digits. */
  function ParseNat(s: string): Option<nat> {
    if s != [] && IsDigits(s) then Some(DigitsValue(s)) else None
  }

  /** Reads back an optionally negative decimal integer. */
  function ParseInt(s: string): Option<int> {
    if s != [] && s[0] == '-' then
      match ParseNat(s[1..])
      case Some(n) => var v: int := n; Some(-v)
      case None => None
    else
      match ParseNat(s)
      case Some(n) => Some(n)
      case None => None
  }

  lemma {:induction false} NatToStringRoundTrip(n: nat)
    ensures ParseNat(NatToString(n)) == Some(n)
    decreases n
  {
    var s := NatToString(n);
    if n < 10 {
      assert s[..|s| - 1] == [];
      assert DigitValue(s[0]) == n;
      assert DigitsValue(s) == DigitsValue([]) * 10 + n;
    } else {
      NatToStringRoundTrip(n / 10);
      assert s[..|s| - 1] == NatToString(n / 10);
      assert DigitValue(s[|s| - 1]) == n % 10;
    }
  }

  lemma IntToStringRoundTrip(i: int)
    ensures ParseInt(IntToString(i)) == Some(i)
  {
    var s := IntToString(i);
    if i < 0 {
      NatToStringRoundTrip(-i);
      assert s[0] == '-' && s[1..] == NatToString(-i);
      assert ParseNat(s[1..]) == Some(-i);
    } else {
      NatToStringRoundTrip(i);
      assert s == NatToString(i);
      assert IsDigit(s[0]);
    }
  }

  /** Distinct integers are rendered as distinct strings. */
  lemma IntToStringInjective(a: int, b: int)
    requires IntToString(a) == IntToString(b)
    ensures a == b
  {
    IntToStringRoundTrip(a);
    IntToStringRoundTrip(b);
  }

  /** `s.padStart(width, fill)` with a one-character fill. */
  function PadStart(s: string, width: nat, fill: char): (r: string)
    ensures |r| == if |s| >= width then |s| else width
    ensures r[|r| - |s|..] == s
    ensures forall i :: 0 <= i < |r| - |s| ==> r[i] == fill
    decreases width - |s|
  {
    if |s| >= width then s else PadStart([fill] + s, width, fill)
  }

  // ---------------------------------------------------------------------------
  // Global replacement of a literal pattern
  // ---------------------------------------------------------------------------

  predicate IsPrefix(p: string, s: string) {
    |p| <= |s| && s[..|p|] == p
  }

  /** `pat` occurs somewhere in `s`. */
  predicate Occurs(pat: string, s: string) {
    exists i :: 0 <= i <= |s| && IsPrefix(pat, s[i..])
  }

  /**
    `s.replace(/pat/g, rep)` for a literal pattern: scanning left to right, every
    occurrence of `pat` that does not overlap an earlier replaced one becomes `rep`.
   */
  function ReplaceAll(s: string, pat: string, rep: string): string
    requires |pat| > 0
    decreases |s|
  {
    if s == [] then []
    else if IsPrefix(pat, s) then rep + ReplaceAll(s[|pat|..], pat, rep)
    else [s[0]] + ReplaceAll(s[1..], pat, rep)
  }

  /** Text without the pattern is left as it is. */
  lemma {:induction false} ReplaceAllAbsent(s: string, pat: string, rep: string)
    requires |pat| > 0 && !Occurs(pat, s)
    ensures ReplaceAll(s, pat, rep) == s
    decreases |s|
  {
    if s != [] {
      assert s[0..] == s;
      assert !IsPrefix(pat, s);
      forall i | 0 <= i <= |s[1..]|
        ensures !IsPrefix(pat, s[1..][i..])
      {
        assert s[1..][i..] == s[i + 1..];
      }
      ReplaceAllAbsent(s[1..], pat, rep);
    }
  }

  /** The first character of `pat` does not appear again inside it (true of `{days}`). */
  predicate HeadUnique(pat: string) {
    |pat| > 0 && forall k :: 0 < k < |pat| ==> pat[k] != pat[0]
  }

  /** An occurrence at the head is replaced and the scan goes on after it. */
  lemma ReplaceHit(s: string, pat: string, rep: string)
    requires |pat| > 0 && IsPrefix(pat, s)
    ensures ReplaceAll(s, pat, rep) == rep + ReplaceAll(s[|pat|..], pat, rep)
  {
  }

  /** A head that starts no occurrence is kept and the scan goes on one character later. */
  lemma ReplaceSkip(s: string, pat: string, rep: string)
    requires |pat| > 0 && s != [] && !IsPrefix(pat, s)
    ensures ReplaceAll(s, pat, rep) == [s[0]] + ReplaceAll(s[1..], pat, rep)
  {
  }

  /** A text that does not start with the pattern still does not once the pattern is appended. */
  lemma NoStraddle(a: string, pat: string, b: string)
    requires HeadUnique(pat) && a != [] && !IsPrefix(pat, a)
    ensures !IsPrefix(pat, a + pat + b)
  {
    var s := a + pat + b;
    if |a| < |pat| {
      assert s[..|pat|][|a|] == pat[0];
    } else {
      assert s[..|pat|] == a[..|pat|];
    }
  }

  /**
    Replacing around one occurrence: with a pattern whose head does not recur,
    no occurrence can straddle the boundary, so each side is replaced on its own.
   */
  lemma {:induction false} ReplaceAllAround(a: string, pat: string, rep: string, b: string)
    requires HeadUnique(pat)
    ensures ReplaceAll(a + pat + b, pat, rep) == ReplaceAll(a, pat, rep) + rep + ReplaceAll(b, pat, rep)
    decreases |a|, 1
  {
    if a == [] {
      var s := a + pat + b;
      assert s[..|pat|] == pat && s[|pat|..] == b;
      ReplaceHit(s, pat, rep);
    } else if IsPrefix(pat, a) {
      AroundAfterHit(a, pat, rep, b);
    } else {
      AroundAfterSkip(a, pat, rep, b);
    }
  }

  lemma {:induction false} AroundAfterHit(a: string, pat: string, rep: string, b: string)
    requires HeadUnique(pat) && IsPrefix(pat, a)
    ensures ReplaceAll(a + pat + b, pat, rep) == ReplaceAll(a, pat, rep) + rep + ReplaceAll(b, pat, rep)
    decreases |a|, 0
  {
    var s := a + pat + b;
    var rest := a[|pat|..];
    assert s[..|pat|] == pat && s[|pat|..] == rest + pat + b;
    ReplaceHit(s, pat, rep);
    ReplaceHit(a, pat, rep);
    ReplaceAllAround(rest, pat, rep, b);
  }

  lemma {:induction false} AroundAfterSkip(a: string, pat: string, rep: string, b: string)
    requires HeadUnique(pat) && a != [] && !IsPrefix(pat, a)
    ensures ReplaceAll(a + pat + b, pat, rep) == ReplaceAll(a, pat, rep) + rep + ReplaceAll(b, pat, rep)
    decreases |a|, 0
  {
    var s := a + pat + b;
    var tail := a[1..];
    NoStraddle(a, pat, b);
    assert s[0] == a[0] && s[1..] == tail + pat + b;
    ReplaceAllAround(tail, pat, rep, b);
    var x, y := ReplaceAll(tail, pat, rep), ReplaceAll(b, pat, rep);
    ReplaceSkip(s, pat, rep);
    assert ReplaceAll(s, pat, rep) == [a[0]] + (x + rep + y);
    ReplaceSkip(a, pat, rep);
    assert ReplaceAll(a, pat, rep) == [a[0]] + x;
  }

  /** `parts.join(sep)` for a separator string. */
  function JoinWith(parts: seq<string>, sep: string): string {
    if |parts| == 0 then ""
    else if |parts| == 1 then parts[0]
    else parts[0] + sep + JoinWith(parts[1..], sep)
  }

  /**
    Every occurrence of the pattern is replaced and no other text changes: a
    text made of pattern-free pieces joined by the pattern becomes the same
    pieces joined by the replacement.
   */
  lemma {:induction false} ReplaceAllJoined(parts: seq<string>, pat: string, rep: string)
    requires HeadUnique(pat)
    requires forall i :: 0 <= i < |parts| ==> !Occurs(pat, parts[i])
    ensures ReplaceAll(JoinWith(parts, pat), pat, rep) == JoinWith(parts, rep)
    decreases |parts|
  {
    if |parts| == 1 {
      ReplaceAllAbsent(parts[0], pat, rep);
    } else if |parts| > 1 {
      ReplaceAllAround(parts[0], pat, rep, JoinWith(parts[1..], pat));
      ReplaceAllAbsent(parts[0], pat, rep);
      ReplaceAllJoined(parts[1..], pat, rep);
    }
  }

  // ---------------------------------------------------------------------------
  // trim
  // ---------------------------------------------------------------------------

  /** The characters `String.prototype.trim` removes: white space and line terminators. */
  predicate IsJsWhitespace(c: char) {
    c == '\t' || c == '\n' || c == '\U{000B}' || c == '\U{000C}' || c == '\r' || c == ' '
    || c == '\U{00A0}' || c == '\U{1680}' || ('\U{2000}' <= c <= '\U{200A}')
    || c == '\U{2028}' || c == '\U{2029}' || c == '\U{202F}' || c == '\U{205F}'
    || c == '\U{3000}' || c == '\U{FEFF}'
  }

  function TrimStart(s: string): (r: string)
    ensures |r| <= |s| && r == s[|s| - |r|..]
    ensures forall k :: 0 <= k < |s| - |r| ==> IsJsWhitespace(s[k])
    ensures r == [] || !IsJsWhitespace(r[0])
    decreases |s|
  {
    if s != [] && IsJsWhitespace(s[0]) then TrimStart(s[1..]) else s
  }

  function TrimEnd(s: string): (r: string)
    ensures |r| <= |s| && r == s[..|r|]
    ensures forall k :: |r| <= k < |s| ==> IsJsWhitespace(s[k])
    ensures r == [] || !IsJsWhitespace(r[|r| - 1])
    decreases |s|
  {
    if s != [] && IsJsWhitespace(s[|s| - 1]) then TrimEnd(s[..|s| - 1]) else s
  }

  /** `s.trim()`: the longest slice of `s` without white space at either end. */
  function Trim(s: string): string {
    TrimEnd(TrimStart(s))
  }

  /** Leading white space, and only that, is removed from the front. */
  lemma {:induction false} TrimStartPadded(w: string, t: string)
    requires forall k :: 0 <= k < |w| ==> IsJsWhitespace(w[k])
    requires t == [] || !IsJsWhitespace(t[0])
    ensures TrimStart(w + t) == t
    decreases |w|
  {
    if w != [] {
      assert (w + t)[1..] == w[1..] + t;
      TrimStartPadded(w[1..], t);
    }
  }

  /** Trailing white space, and only that, is removed from the back. */
  lemma {:induction false} TrimEndPadded(t: string, w: string)
    requires forall k :: 0 <= k < |w| ==> IsJsWhitespace(w[k])
    requires t == [] || !IsJsWhitespace(t[|t| - 1])
    ensures TrimEnd(t + w) == t
    decreases |w|
  {
    if w != [] {
      assert (t + w)[..|t + w| - 1] == t + w[..|w| - 1];
      TrimEndPadded(t, w[..|w| - 1]);
    }
  }

  /**
    Trim removes exactly the white space around a text whose own ends are not
    white space: `(w1 + t + w2).trim() == t`.
   */
  lemma TrimPadded(w1: string, t: string, w2: string)
    requires forall k :: 0 <= k < |w1| ==> IsJsWhitespace(w1[k])
    requires forall k :: 0 <= k < |w2| ==> IsJsWhitespace(w2[k])
    requires t == [] || (!IsJsWhitespace(t[0]) && !IsJsWhitespace(t[|t| - 1]))
    ensures Trim(w1 + t + w2) == t
  {
    if t == [] {
      assert w1 + t + w2 == (w1 + w2) + t;
      forall k | 0 <= k < |w1 + w2| ensures IsJsWhitespace((w1 + w2)[k]) {
        if k >= |w1| { assert (w1 + w2)[k] == w2[k - |w1|]; }
      }
      TrimStartPadded(w1 + w2, t);
    } else {
      assert w1 + t + w2 == w1 + (t + w2);
      TrimStartPadded(w1, t + w2);
      TrimEndPadded(t, w2);
    }
  }

  // ---------------------------------------------------------------------------
  // split and join on one character
  // ---------------------------------------------------------------------------

  /** The position of the first `c` in `s`. */
  function IndexOf(s: string, c: char): (i: nat)
    requires c in s
    ensures i < |s| && s[i] == c && c !in s[..i]
    decreases |s|
  {
    if s[0] == c then 0 else 1 + IndexOf(s[1..], c)
  }

  /** `s.split(sep)` for a one-character separator: the pieces between separators. */
  function Split(s: string, sep: char): (parts: seq<string>)
    ensures |parts| >= 1
    ensures forall i :: 0 <= i < |parts| ==> sep !in parts[i]
    decreases |s|
  {
    if sep !in s then [s]
    else
      var i := IndexOf(s, sep);
      [s[..i]] + Split(s[i + 1..], sep)
  }

  /** `parts.join(sep)`. */
  function Join(parts: seq<string>, sep: char): string {
    if |parts| == 0 then ""
    else if |parts| == 1 then parts[0]
    else parts[0] + [sep] + Join(parts[1..], sep)
  }

  /** Joining a piece in front of at least one more puts one separator between them. */
  lemma JoinCons(p: string, rest: seq<string>, sep: char)
    requires |rest| >= 1
    ensures Join([p] + rest, sep) == p + [sep] + Join(rest, sep)
  {
    assert ([p] + rest)[1..] == rest;
  }

  /** Splitting loses nothing: joining the pieces gives the input back. */
  lemma {:induction false} JoinSplit(s: string, sep: char)
    ensures Join(Split(s, sep), sep) == s
    decreases |s|
  {
    if sep in s {
      var i := IndexOf(s, sep);
      var rest := s[i + 1..];
      assert Split(s, sep) == [s[..i]] + Split(rest, sep);
      JoinCons(s[..i], Split(rest, sep), sep);
      JoinSplit(rest, sep);
      assert s == s[..i] + [sep] + rest;
    }
  }

  /** Splitting the join of separator-free pieces gives the pieces back. */
  lemma {:induction false} SplitJoin(parts: seq<string>, sep: char)
    requires |parts| >= 1
    requires forall i :: 0 <= i < |parts| ==> sep !in parts[i]
    ensures Split(Join(parts, sep), sep) == parts
    decreases |parts|
  {
    if |parts| > 1 {
      var s := Join(parts, sep);
      var p := parts[0];
      assert s == p + [sep] + Join(parts[1..], sep);
      assert s[|p|] == sep;
      assert s[..|p|] == p;
      assert IndexOf(s, sep) == |p|;
      assert s[|p| + 1..] == Join(parts[1..], sep);
      SplitJoin(parts[1..], sep);
    }
  }

  /**
    The first piece is the text before the first separator and the remaining
    pieces, joined again, are the text after it.
   */
  lemma SplitFirst(s: string, sep: char)
    requires sep in s
    ensures var i := IndexOf(s, sep);
      |Split(s, sep)| >= 2 && Split(s, sep)[0] == s[..i]
      && Join(Split(s, sep)[1..], sep) == s[i + 1..]
  {
    var i := IndexOf(s, sep);
    JoinSplit(s[i + 1..], sep);
  }
}
