/**
 * String primitives of JavaScript that the controller and the middleware rely on:
 * `String.prototype.trim`, the regex class `\s`, `split` on a one-character
 * separator, `indexOf` of a pattern, and the decimal rendering of an integer in a
 * template literal.
 */
module Text {
  import opened Common

  /** The characters that `trim()` removes and that the regex class `\s` matches
      (ECMAScript WhiteSpace and LineTerminator). */
  predicate IsWhitespace(c: char) {
    c == ' ' || c == '\t' || c == '\n' || c == '\U{000B}' || c == '\U{000C}' || c == '\r'
    || c == '\U{00A0}' || c == '\U{1680}' || ('\U{2000}' <= c <= '\U{200A}')
    || c == '\U{2028}' || c == '\U{2029}' || c == '\U{202F}' || c == '\U{205F}'
    || c == '\U{3000}' || c == '\U{FEFF}'
  }

  predicate AllWhitespace(s: string) {
    forall k :: 0 <= k < |s| ==> IsWhitespace(s[k])
  }

  predicate NoWhitespace(s: string) {
    forall k :: 0 <= k < |s| ==> !IsWhitespace(s[k])
  }

  /** No whitespace at either end. */
  predicate IsTrimmed(s: string) {
    s == [] || (!IsWhitespace(s[0]) && !IsWhitespace(s[|s| - 1]))
  }

  /** Drops the leading whitespace: the result is the longest suffix that does not
      start with whitespace. */
  function TrimStart(s: string): (r: string)
    ensures |r| <= |s| && r == s[|s| - |r|..]
    ensures AllWhitespace(s[..|s| - |r|])
    ensures r == [] || !IsWhitespace(r[0])
  {
    if s != [] && IsWhitespace(s[0]) then
      var r := TrimStart(s[1..]);
      assert s[..|s| - |r|] == [s[0]] + s[1..][..|s| - 1 - |r|];
      r
    else s
  }

  /** The first position at or after `i` that holds no whitespace, or `|s|`. */
  function SkipWhitespace(s: string, i: nat): (k: nat)
    requires i <= |s|
    ensures i <= k <= |s|
    ensures forall j :: i <= j < k ==> IsWhitespace(s[j])
    ensures k < |s| ==> !IsWhitespace(s[k])
    decreases |s| - i
  {
    if i < |s| && IsWhitespace(s[i]) then SkipWhitespace(s, i + 1) else i
  }

  /** Moving down from `j`, but not below `lo`, the first position where the
      character before it is no whitespace. */
  function BackOverWhitespace(s: string, lo: nat, j: nat): (k: nat)
    requires lo <= j <= |s|
    ensures lo <= k <= j
    ensures forall t :: k <= t < j ==> IsWhitespace(s[t])
    ensures k > lo ==> !IsWhitespace(s[k - 1])
    decreases j
  {
    if j > lo && IsWhitespace(s[j - 1]) then BackOverWhitespace(s, lo, j - 1) else j
  }

  /** `r` is the piece of `s` that starts at `i`, and everything around it is
      whitespace. */
  predicate PieceAmidWhitespace(s: string, r: string, i: nat) {
    i + |r| <= |s| && r == s[i..i + |r|] && AllWhitespace(s[..i]) && AllWhitespace(s[i + |r|..])
  }

  /** `String.prototype.trim`: no whitespace is left at either end
      (`TrimIsPiece` says what is cut away). */
  function Trim(s: string): (r: string)
    ensures IsTrimmed(r)
    ensures |r| <= |s|
  {
    var a := SkipWhitespace(s, 0);
    var b := BackOverWhitespace(s, a, |s|);
    s[a..b]
  }

  /** The trimmed string is a contiguous piece of `s`, and everything cut away on
      either side is whitespace. */
  lemma TrimIsPiece(s: string)
    ensures exists i: nat :: PieceAmidWhitespace(s, Trim(s), i)
  {
    var a := SkipWhitespace(s, 0);
    var b := BackOverWhitespace(s, a, |s|);
    assert Trim(s) == s[a..b];
    assert AllWhitespace(s[..a]) by {
      forall k | 0 <= k < a ensures IsWhitespace(s[..a][k]) {
        assert s[..a][k] == s[k];
      }
    }
    assert AllWhitespace(s[b..]) by {
      forall k | 0 <= k < |s| - b ensures IsWhitespace(s[b..][k]) {
        assert s[b..][k] == s[b + k];
      }
    }
    assert PieceAmidWhitespace(s, Trim(s), a);
  }

  /** Trimming adds no character. */
  lemma TrimSubset(s: string)
    ensures forall c :: c in Trim(s) ==> c in s
  {
    var a := SkipWhitespace(s, 0);
    var b := BackOverWhitespace(s, a, |s|);
    var r := Trim(s);
    assert r == s[a..b];
    forall c | c in r
      ensures c in s
    {
      var k :| 0 <= k < |r| && r[k] == c;
      assert s[a + k] == c;
    }
  }

  /** Trimming a string that has no whitespace at its ends leaves it alone. */
  lemma TrimOfTrimmed(s: string)
    requires IsTrimmed(s)
    ensures Trim(s) == s
  {
    assert SkipWhitespace(s, 0) == 0;
    assert BackOverWhitespace(s, 0, |s|) == |s|;
    assert s[0..|s|] == s;
  }

  /** A string of one space trims to nothing. */
  lemma TrimBlank()
    ensures Trim(" ") == ""
  {
    assert SkipWhitespace(" ", 0) == SkipWhitespace(" ", 1) == 1;
  }

  /** The characters of `s` that satisfy `keep`, in order: what a global regex
      replacement of a character class by "" leaves. */
  function Keep(s: string, keep: char -> bool): (r: string)
    ensures |r| <= |s|
    ensures forall c :: c in r <==> c in s && keep(c)
  {
    if s == [] then []
    else if keep(s[0]) then [s[0]] + Keep(s[1..], keep)
    else Keep(s[1..], keep)
  }

  /** A single character is kept exactly when it passes the test. */
  lemma KeepOne(c: char, keep: char -> bool)
    ensures Keep([c], keep) == if keep(c) then [c] else []
  {
    assert [c][1..] == [];
  }

  /** Filtering distributes over concatenation; with `KeepOne` this fixes the
      result character by character, in order and with repetitions. */
  lemma {:induction false} KeepConcat(a: string, b: string, keep: char -> bool)
    ensures Keep(a + b, keep) == Keep(a, keep) + Keep(b, keep)
  {
    if a != [] {
      assert (a + b)[0] == a[0];
      assert (a + b)[1..] == a[1..] + b;
      KeepConcat(a[1..], b, keep);
    } else {
      assert a + b == b;
    }
  }

  /** Filtering by a test every character already passes changes nothing. */
  lemma {:induction false} KeepAll(s: string, keep: char -> bool)
    requires forall k :: 0 <= k < |s| ==> keep(s[k])
    ensures Keep(s, keep) == s
  {
    if s != [] {
      KeepAll(s[1..], keep);
    }
  }

  /* ---------- split on a one-character separator ---------- */

  /** `s.split(sep)` for a one-character separator: the pieces between consecutive
      separators, including empty ones; there is always at least one piece. */
  function Split(s: string, sep: char): (parts: seq<string>)
    ensures |parts| >= 1
    ensures forall i :: 0 <= i < |parts| ==> sep !in parts[i]
  {
    if s == [] then [[]]
    else
      var rest := Split(s[1..], sep);
      if s[0] == sep then [[]] + rest
      else [[s[0]] + rest[0]] + rest[1..]
  }

  /** `parts.join(sep)`. */
  function Join(parts: seq<string>, sep: char): string
    requires |parts| >= 1
  {
    if |parts| == 1 then parts[0] else parts[0] + [sep] + Join(parts[1..], sep)
  }

  /** Splitting loses nothing: joining the pieces back gives the original string. */
  lemma {:induction false} JoinSplit(s: string, sep: char)
    ensures Join(Split(s, sep), sep) == s
  {
    if s != [] {
      JoinSplit(s[1..], sep);
      var rest := Split(s[1..], sep);
      if s[0] != sep && |rest| > 1 {
        assert Split(s, sep)[1..] == rest[1..];
      }
    }
  }

  /** A string free of the separator is a single piece. */
  lemma {:induction false} SplitNoSeparator(a: string, sep: char)
    requires sep !in a
    ensures Split(a, sep) == [a]
  {
    if a != [] {
      SplitNoSeparator(a[1..], sep);
      assert [a[0]] + a[1..] == a;
    }
  }

  /** The first piece is everything before the first separator, and the remaining
      pieces are those of what follows it. */
  lemma {:induction false} SplitAtFirst(a: string, sep: char, b: string)
    requires sep !in a
    ensures Split(a + [sep] + b, sep) == [a] + Split(b, sep)
  {
    if a == [] {
      assert a + [sep] + b == [sep] + b;
      assert ([sep] + b)[1..] == b;
    } else {
      assert (a + [sep] + b)[1..] == a[1..] + [sep] + b;
      SplitAtFirst(a[1..], sep, b);
      assert [a[0]] + a[1..] == a;
    }
  }

  /* ---------- indexOf of a pattern ---------- */

  predicate OccursAt(s: string, pat: string, i: nat) {
    i + |pat| <= |s| && s[i..i + |pat|] == pat
  }

  predicate Occurs(s: string, pat: string) {
    exists i: nat :: i <= |s| && OccursAt(s, pat, i)
  }

  /** `s.indexOf(pat, from)`: the first position at or after `from` where `pat`
      occurs, or None when it occurs nowhere from there on. */
  function IndexOf(s: string, pat: string, from: nat): (r: Option<nat>)
    requires pat != []
    ensures r.Some? ==> from <= r.value && OccursAt(s, pat, r.value)
                        && forall k: nat :: from <= k < r.value ==> !OccursAt(s, pat, k)
    ensures r.None? ==> forall k: nat :: from <= k ==> !OccursAt(s, pat, k)
    decreases |s| - from
  {
    if from + |pat| > |s| then None
    else if s[from..from + |pat|] == pat then Some(from)
    else IndexOf(s, pat, from + 1)
  }

  /** `i` is the first occurrence of `sep` in `s` and `j` the next one after it, or
      the end of `s` when there is none: the second piece of the split runs from
      `i + |sep|` to `j`. */
  predicate SecondPieceBounds(s: string, sep: string, i: nat, j: nat) {
    && OccursAt(s, sep, i)
    && (forall k: nat :: k < i ==> !OccursAt(s, sep, k))
    && i + |sep| <= j <= |s|
    && (j == |s| || OccursAt(s, sep, j))
    && (forall k: nat :: i + |sep| <= k < j ==> !OccursAt(s, sep, k))
  }

  /** The bounds are those `indexOf` finds. */
  lemma BoundsFromIndexOf(s: string, sep: string, i: nat, j: nat)
    requires sep != [] && SecondPieceBounds(s, sep, i, j)
    ensures IndexOf(s, sep, 0) == Some(i)
    ensures IndexOf(s, sep, i + |sep|) == (if j == |s| then None else Some(j))
  {
  }

  lemma AllBoundsFromIndexOf(s: string, sep: string)
    requires sep != []
    ensures forall i: nat, j: nat :: SecondPieceBounds(s, sep, i, j) ==>
              IndexOf(s, sep, 0) == Some(i)
              && IndexOf(s, sep, i + |sep|) == (if j == |s| then None else Some(j))
  {
    forall i: nat, j: nat | SecondPieceBounds(s, sep, i, j)
      ensures IndexOf(s, sep, 0) == Some(i)
      ensures IndexOf(s, sep, i + |sep|) == (if j == |s| then None else Some(j))
    {
      BoundsFromIndexOf(s, sep, i, j);
    }
  }

  /** Whenever `sep` occurs, the bounds of the second piece exist. */
  lemma BoundsExist(s: string, sep: string)
    requires sep != [] && Occurs(s, sep)
    ensures exists i: nat, j: nat :: SecondPieceBounds(s, sep, i, j)
  {
    var w: nat :| w <= |s| && OccursAt(s, sep, w);
    var first := IndexOf(s, sep, 0);
    assert OccursAt(s, sep, w);
    var i := first.value;
    var next := IndexOf(s, sep, i + |sep|);
    var j := if next.None? then |s| else next.value;
    assert SecondPieceBounds(s, sep, i, j);
  }

  /** The second piece of `s.split(sep)`, i.e. `s.split(sep)[1]`: the text between the
      first and the second occurrence of `sep` (or the end); None (undefined) when
      `sep` does not occur. */
  function SecondPiece(s: string, sep: string): (r: Option<string>)
    requires sep != []
    ensures r.None? <==> !Occurs(s, sep)
    ensures forall i: nat, j: nat :: SecondPieceBounds(s, sep, i, j) ==> r == Some(s[i + |sep|..j])
  {
    AllBoundsFromIndexOf(s, sep);
    match IndexOf(s, sep, 0)
    case None => None
    case Some(i) =>
      var start := i + |sep|;
      match IndexOf(s, sep, start)
      case None => Some(s[start..|s|])
      case Some(j) => Some(s[start..j])
  }

  /** `s.lastIndexOf(c)` for one character. */
  function LastIndexOf(s: string, c: char): (r: Option<nat>)
    ensures r.Some? ==> r.value < |s| && s[r.value] == c
                        && forall j :: r.value < j < |s| ==> s[j] != c
    ensures r.None? ==> c !in s
  {
    if s == [] then None
    else if s[|s| - 1] == c then Some(|s| - 1)
    else LastIndexOf(s[..|s| - 1], c)
  }

  lemma SliceOfSlice(s: string, a: nat, b: nat, i: nat, j: nat)
    requires a <= b <= |s| && i <= j <= b - a
    ensures s[a..b][i..j] == s[a + i..a + j]
  {
    var u := s[a..b][i..j];
    var v := s[a + i..a + j];
    assert |u| == |v|;
    forall k | 0 <= k < |u| ensures u[k] == v[k] {
      assert u[k] == s[a..b][i + k] == s[a + i + k];
    }
  }

  /** A window of `s` in which no occurrence of `pat` starts (and fits) holds no `pat`. */
  lemma NoOccurrenceBetween(s: string, pat: string, a: nat, b: nat)
    requires a <= b <= |s|
    requires forall k: nat :: a <= k && k + |pat| <= b ==> !OccursAt(s, pat, k)
    ensures !Occurs(s[a..b], pat)
  {
    forall k: nat | k <= b - a
      ensures !OccursAt(s[a..b], pat, k)
    {
      if k + |pat| <= b - a {
        SliceOfSlice(s, a, b, k, k + |pat|);
        assert !OccursAt(s, pat, a + k);
      }
    }
  }

  /** The second piece never contains the separator. */
  lemma SecondPieceFree(s: string, sep: string, f: string)
    requires sep != [] && SecondPiece(s, sep) == Some(f)
    ensures !Occurs(f, sep)
  {
    var i := IndexOf(s, sep, 0).value;
    var start := i + |sep|;
    match IndexOf(s, sep, start)
    case None =>
      assert f == s[start..|s|];
      NoOccurrenceBetween(s, sep, start, |s|);
    case Some(j) =>
      assert f == s[start..j];
      NoOccurrenceBetween(s, sep, start, j);
  }

  /** An occurrence inside a window of `s` is an occurrence in the window's text. */
  lemma OccurrenceInWindow(s: string, pat: string, a: nat, b: nat, k: nat)
    requires a <= k && k + |pat| <= b <= |s|
    ensures OccursAt(s, pat, k) <==> OccursAt(s[a..b], pat, k - a)
  {
    SliceOfSlice(s, a, b, k - a, k - a + |pat|);
  }

  /** In `head + sep + name`, the first occurrence of `sep` starts right after
      `head`, provided none starts earlier inside `head + sep[..|sep| - 1]`. */
  lemma FirstAfterHead(head: string, sep: string, name: string)
    requires sep != []
    requires !Occurs(head + sep[..|sep| - 1], sep)
    ensures IndexOf(head + sep + name, sep, 0) == Some(|head|)
  {
    var s := head + sep + name;
    var front := head + sep[..|sep| - 1];
    assert s[|head|..|head| + |sep|] == sep;
    assert OccursAt(s, sep, |head|);
    assert s[0..|front|] == front;
    forall k: nat | k < |head|
      ensures !OccursAt(s, sep, k)
    {
      assert !OccursAt(front, sep, k);
      OccurrenceInWindow(s, sep, 0, |front|, k);
    }
  }

  /** Nothing after `head + sep` in `head + sep + name` holds `sep` when `name`
      does not. */
  lemma NoneInName(head: string, sep: string, name: string)
    requires sep != []
    requires !Occurs(name, sep)
    ensures IndexOf(head + sep + name, sep, |head| + |sep|).None?
  {
    var s := head + sep + name;
    var start := |head| + |sep|;
    assert s[start..|s|] == name;
    forall k: nat | start <= k
      ensures !OccursAt(s, sep, k)
    {
      if k + |sep| <= |s| {
        assert !OccursAt(name, sep, k - start);
        OccurrenceInWindow(s, sep, start, |s|, k);
      }
    }
  }

  /** The second piece of `head + sep + name`, when `sep` first occurs right after
      `head` and never inside `name`, is `name`. */
  lemma SecondPieceOfJoin(head: string, sep: string, name: string)
    requires sep != []
    requires !Occurs(head + sep[..|sep| - 1], sep)
    requires !Occurs(name, sep)
    ensures SecondPiece(head + sep + name, sep) == Some(name)
  {
    var s := head + sep + name;
    FirstAfterHead(head, sep, name);
    NoneInName(head, sep, name);
    assert s[|head| + |sep|..|s|] == name;
  }

  /* ---------- decimal rendering of a natural number ---------- */

  predicate IsDigit(c: char) {
    '0' <= c <= '9'
  }

  function DigitChar(d: nat): (c: char)
    requires d < 10
    ensures IsDigit(c) && (c as int) - ('0' as int) == d
  {
    (('0' as int) + d) as char
  }

  /** The decimal digits of `n` without leading zeros, as `${n}` prints an integer. */
  function NatToString(n: nat): (r: string)
    ensures r != []
    ensures forall k :: 0 <= k < |r| ==> IsDigit(r[k])
    ensures r[0] == '0' ==> n == 0
    ensures |r| > 1 ==> r[0] != '0'
  {
    if n < 10 then [DigitChar(n)] else NatToString(n / 10) + [DigitChar(n % 10)]
  }

  /** The number a string of decimal digits denotes. */
  function DecimalValue(s: string): nat
    requires forall k :: 0 <= k < |s| ==> IsDigit(s[k])
  {
    if s == [] then 0
    else
      assert IsDigit(s[|s| - 1]);
      DecimalValue(s[..|s| - 1]) * 10 + ((s[|s| - 1] as int) - ('0' as int))
  }

  /** Rendering then reading back gives the number: the rendering is injective. */
  lemma {:induction false} DecimalRoundTrip(n: nat)
    ensures DecimalValue(NatToString(n)) == n
  {
    if n >= 10 {
      DecimalRoundTrip(n / 10);
      var s := NatToString(n);
      assert s[..|s| - 1] == NatToString(n / 10);
    }
  }
}
