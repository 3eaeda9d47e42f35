/** The ECMAScript string built-ins the backup command relies on:
    `String.prototype.split` with a one-character separator,
    `String.prototype.trim`, `Array.prototype.join`, the `filter` that drops
    empty strings, and `Number.prototype.toString` on a non-negative integer.

    `trim` is parameterised on the whitespace predicate `ws`; `EcmaWhitespace`
    is the instance ECMAScript uses. */
module JsString {

  /* ------------------------------------------------------------------ */
  /* Whitespace                                                          */
  /* ------------------------------------------------------------------ */

  /** The code points `trim` removes: the WhiteSpace and LineTerminator
      productions of ECMA-262 (sections 12.2 and 12.3), with the Unicode
      "Zs" category as of Unicode 15. Every one of them lies in the Basic
      Multilingual Plane and is not a surrogate, so a UTF-16 code unit and a
      Unicode scalar value agree on it. */
  predicate EcmaWhitespace(c: char) {
    var n := c as int;
    || n == 0x09 || n == 0x0B || n == 0x0C || n == 0x20 || n == 0xA0 || n == 0xFEFF
    || n == 0x0A || n == 0x0D || n == 0x2028 || n == 0x2029
    || n == 0x1680 || (0x2000 <= n <= 0x200A) || n == 0x202F || n == 0x205F || n == 0x3000
  }

  /* ------------------------------------------------------------------ */
  /* split                                                               */
  /* ------------------------------------------------------------------ */

  /** Number of occurrences of `c` in `s`. */
  function Count(s: string, c: char): (n: nat)
    ensures n <= |s|
  {
    if |s| == 0 then 0
    else (if s[0] == c then 1 else 0) + Count(s[1..], c)
  }

  /** No occurrence is counted exactly when the character is absent. */
  lemma {:induction false} CountZeroIff(s: string, c: char)
    ensures Count(s, c) == 0 <==> c !in s
    decreases |s|
  {
    if |s| > 0 {
      CountZeroIff(s[1..], c);
      assert s == [s[0]] + s[1..];
    }
  }

  /** `s.split(sep)` for a one-character separator: the pieces between
      consecutive separators, in order. The empty string splits into `[""]`
      and a separator at either end yields an empty piece there. */
  function Split(s: string, sep: char): (r: seq<string>)
    ensures |r| > 0
    ensures forall i :: 0 <= i < |r| ==> sep !in r[i]
    decreases |s|
  {
    if |s| == 0 then [""]
    else
      var rest := Split(s[1..], sep);
      if s[0] == sep then [""] + rest
      else [[s[0]] + rest[0]] + rest[1..]
  }

  /** Splitting yields exactly one more piece than there are separators. */
  lemma {:induction false} SplitCount(s: string, sep: char)
    ensures |Split(s, sep)| == Count(s, sep) + 1
    decreases |s|
  {
    if |s| > 0 {
      SplitCount(s[1..], sep);
    }
  }

  /** The total length of the strings in `xs`. */
  function TotalLength(xs: seq<string>): nat {
    if |xs| == 0 then 0 else |xs[0]| + TotalLength(xs[1..])
  }

  /** `xs.join(sep)`: the elements with `sep` between consecutive ones. Its
      length counts every element and one separator per gap. */
  function Join(xs: seq<string>, sep: string): (r: string)
    ensures |xs| == 0 ==> r == ""
    ensures |xs| > 0 ==> |r| == TotalLength(xs) + (|xs| - 1) * |sep|
  {
    if |xs| == 0 then ""
    else if |xs| == 1 then xs[0]
    else xs[0] + sep + Join(xs[1..], sep)
  }

  /** With a non-empty separator, a join is empty only for no element or
      for a single empty one. */
  lemma JoinEmptyIff(xs: seq<string>, sep: string)
    requires sep != ""
    ensures Join(xs, sep) == "" <==> xs == [] || xs == [""]
  {
    if |xs| > 1 {
      assert |Join(xs, sep)| >= |sep|;
    }
  }

  /** A leading separator closes an empty first piece. */
  lemma SplitConsSeparator(t: string, sep: char)
    ensures Split([sep] + t, sep) == [""] + Split(t, sep)
  {
    assert ([sep] + t)[1..] == t;
  }

  /** Any other leading character starts the first piece of the rest. */
  lemma SplitConsOther(c: char, t: string, sep: char)
    requires c != sep
    ensures Split([c] + t, sep) == [[c] + Split(t, sep)[0]] + Split(t, sep)[1..]
  {
    assert ([c] + t)[1..] == t;
  }

  /** The inductive step of `SplitConcat`: a character in front of both
      sides joins the first piece, or closes an empty one. */
  lemma SplitConcatStep(c: char, t: string, b: string, sep: char)
    requires Split(t + [sep] + b, sep) == Split(t, sep) + Split(b, sep)
    ensures Split([c] + t + [sep] + b, sep) == Split([c] + t, sep) + Split(b, sep)
  {
    var left, right := Split(t, sep), Split(b, sep);
    assert [c] + t + [sep] + b == [c] + (t + [sep] + b);
    if c == sep {
      SplitConsSeparator(t + [sep] + b, sep);
      SplitConsSeparator(t, sep);
      assert [""] + (left + right) == ([""] + left) + right;
    } else {
      SplitConsOther(c, t + [sep] + b, sep);
      SplitConsOther(c, t, sep);
      SplitConsOtherConcat([c] + left[0], left, right);
    }
  }

  /** The list algebra behind the step: after the first piece is replaced,
      the right-hand pieces still follow. */
  lemma SplitConsOtherConcat(x: string, left: seq<string>, right: seq<string>)
    requires |left| > 0
    ensures [x] + (left + right)[1..] == ([x] + left[1..]) + right
  {
    assert (left + right)[1..] == left[1..] + right;
  }

  /** Splitting is a homomorphism: a separator splits the string into the
      pieces of its left part followed by the pieces of its right part. */
  lemma {:induction false} SplitConcat(a: string, b: string, sep: char)
    ensures Split(a + [sep] + b, sep) == Split(a, sep) + Split(b, sep)
    decreases |a|
  {
    if |a| == 0 {
      assert a + [sep] + b == [sep] + b;
      SplitConsSeparator(b, sep);
    } else {
      SplitConcat(a[1..], b, sep);
      SplitConcatStep(a[0], a[1..], b, sep);
      assert [a[0]] + a[1..] == a;
    }
  }

  /** A string without the separator is a single piece. */
  lemma {:induction false} SplitNoSeparator(s: string, sep: char)
    requires sep !in s
    ensures Split(s, sep) == [s]
    decreases |s|
  {
    if |s| > 0 {
      assert sep !in s[1..] by {
        forall k | 0 <= k < |s[1..]| ensures s[1..][k] != sep {
          assert s[1..][k] == s[k + 1];
        }
      }
      SplitNoSeparator(s[1..], sep);
      assert [s[0]] + s[1..] == s;
    }
  }

  /** A single element joins to itself, whatever the separator. */
  lemma JoinSingle(x: string, sep: string)
    ensures Join([x], sep) == x
  {
  }

  /** Joining two non-empty lists puts one separator between their joins.
      With `JoinSingle` this determines `join` for every separator. */
  lemma {:induction false} JoinAppend(xs: seq<string>, ys: seq<string>, sep: string)
    requires |xs| > 0 && |ys| > 0
    ensures Join(xs + ys, sep) == Join(xs, sep) + sep + Join(ys, sep)
    decreases |xs|
  {
    var zs := xs + ys;
    assert zs[0] == xs[0];
    if |xs| == 1 {
      assert zs[1..] == ys;
    } else {
      assert zs[1..] == xs[1..] + ys;
      JoinAppend(xs[1..], ys, sep);
    }
  }

  lemma JoinConsHead(a: string, xs: seq<string>, sep: string)
    requires |xs| >= 1
    ensures Join([a + xs[0]] + xs[1..], sep) == a + Join(xs, sep)
  {
    var ys := [a + xs[0]] + xs[1..];
    assert ys[1..] == xs[1..];
  }

  /** Joining the pieces back with the separator restores the string. */
  lemma {:induction false} JoinSplit(s: string, sep: char)
    ensures Join(Split(s, sep), [sep]) == s
    decreases |s|
  {
    if |s| > 0 {
      var rest := Split(s[1..], sep);
      JoinSplit(s[1..], sep);
      if s[0] == sep {
        var ys := [""] + rest;
        assert ys[1..] == rest;
        assert s == [sep] + s[1..];
      } else {
        JoinConsHead([s[0]], rest, [sep]);
        assert s == [s[0]] + s[1..];
      }
    }
  }

  /** Splitting a join of separator-free pieces gives the pieces back. */
  lemma {:induction false} SplitJoin(xs: seq<string>, sep: char)
    requires |xs| >= 1
    requires forall i :: 0 <= i < |xs| ==> sep !in xs[i]
    ensures Split(Join(xs, [sep]), sep) == xs
    decreases |xs|
  {
    SplitNoSeparator(xs[0], sep);
    if |xs| > 1 {
      SplitJoin(xs[1..], sep);
      SplitConcat(xs[0], Join(xs[1..], [sep]), sep);
      assert [xs[0]] + xs[1..] == xs;
    }
  }

  /* ------------------------------------------------------------------ */
  /* trim                                                                */
  /* ------------------------------------------------------------------ */

  /** `r` has no whitespace at either end. */
  predicate Trimmed(r: string, ws: char -> bool) {
    |r| == 0 || (!ws(r[0]) && !ws(r[|r| - 1]))
  }

  /** `r` is the slice of `s` starting at `i`, with only whitespace before
      and after it in `s`, and with no whitespace at either end itself. */
  predicate TrimAt(r: string, s: string, i: nat, ws: char -> bool) {
    && i + |r| <= |s|
    && (forall k :: 0 <= k < |r| ==> r[k] == s[i + k])
    && (forall k :: 0 <= k < i ==> ws(s[k]))
    && (forall k :: i + |r| <= k < |s| ==> ws(s[k]))
    && Trimmed(r, ws)
  }

  /** `r` is what remains of `s` once the whitespace at both ends is cut
      off. */
  ghost predicate IsTrimOf(r: string, s: string, ws: char -> bool) {
    exists i: nat :: TrimAt(r, s, i, ws)
  }

  /** The number of whitespace characters `s` starts with. */
  function LeadingWhitespace(s: string, ws: char -> bool): (n: nat)
    ensures n <= |s|
    ensures forall k :: 0 <= k < n ==> ws(s[k])
    ensures n < |s| ==> !ws(s[n])
    decreases |s|
  {
    if |s| > 0 && ws(s[0]) then
      var n := LeadingWhitespace(s[1..], ws);
      assert forall k :: 1 <= k < n + 1 ==> s[k] == s[1..][k - 1];
      n + 1
    else 0
  }

  /** The number of whitespace characters `s` ends with. */
  function TrailingWhitespace(s: string, ws: char -> bool): (n: nat)
    ensures n <= |s|
    ensures forall k :: |s| - n <= k < |s| ==> ws(s[k])
    ensures n < |s| ==> !ws(s[|s| - n - 1])
    decreases |s|
  {
    if |s| > 0 && ws(s[|s| - 1]) then TrailingWhitespace(s[..|s| - 1], ws) + 1
    else 0
  }

  /** `s.trimStart()`. */
  function TrimStart(s: string, ws: char -> bool): string {
    s[LeadingWhitespace(s, ws)..]
  }

  /** `s.trimEnd()`. */
  function TrimEnd(s: string, ws: char -> bool): string {
    s[..|s| - TrailingWhitespace(s, ws)]
  }

  /** `s.trim()`. */
  function Trim(s: string, ws: char -> bool): (r: string)
    ensures IsTrimOf(r, s, ws)
  {
    TrimIsSlice(s, ws);
    TrimEnd(TrimStart(s, ws), ws)
  }

  lemma TrimIsSlice(s: string, ws: char -> bool)
    ensures TrimAt(TrimEnd(TrimStart(s, ws), ws), s, LeadingWhitespace(s, ws), ws)
  {
    var i := LeadingWhitespace(s, ws);
    var t := s[i..];
    var j := TrailingWhitespace(t, ws);
    var r := t[..|t| - j];
    assert r == TrimEnd(TrimStart(s, ws), ws);
    forall k | 0 <= k < |r| ensures r[k] == s[i + k] {
      assert r[k] == t[k];
    }
    forall k | i + |r| <= k < |s| ensures ws(s[k]) {
      assert s[k] == t[k - i];
    }
    if |r| > 0 {
      assert r[0] == t[0] && r[|r| - 1] == t[|t| - j - 1];
    }
  }

  /** A character that `s` lacks, its trim lacks too. */
  lemma TrimKeepsOut(s: string, c: char, ws: char -> bool)
    requires c !in s
    ensures c !in Trim(s, ws)
  {
    var r := Trim(s, ws);
    var i: nat :| TrimAt(r, s, i, ws);
    forall k | 0 <= k < |r| ensures r[k] != c {
      assert r[k] == s[i + k];
    }
  }

  /** The trim of a string is determined by the characterisation alone:
      two trims of one string are equal. */
  lemma TrimUnique(r1: string, r2: string, s: string, ws: char -> bool)
    requires IsTrimOf(r1, s, ws) && IsTrimOf(r2, s, ws)
    ensures r1 == r2
  {
    var i1: nat :| TrimAt(r1, s, i1, ws);
    var i2: nat :| TrimAt(r2, s, i2, ws);
    // A non-empty trim starts at a non-whitespace character of `s`, so
    // the other trim cannot be empty either.
    if |r1| > 0 {
      assert s[i1] == r1[0];
    }
    if |r2| > 0 {
      assert s[i2] == r2[0];
    }
    if |r1| > 0 && |r2| > 0 {
      assert i1 == i2;
      assert r1[|r1| - 1] == s[i1 + |r1| - 1] && r2[|r2| - 1] == s[i2 + |r2| - 1];
      assert |r1| == |r2|;
      assert forall k :: 0 <= k < |r1| ==> r1[k] == r2[k];
    }
  }

  /** A string without whitespace at either end is its own trim. */
  lemma TrimmedIsOwnTrim(s: string, ws: char -> bool)
    requires Trimmed(s, ws)
    ensures IsTrimOf(s, s, ws)
  {
    assert TrimAt(s, s, 0, ws);
  }

  /** `trim` leaves a string unchanged exactly when it has no whitespace at
      either end. */
  lemma TrimFixedPoint(s: string, ws: char -> bool)
    ensures Trim(s, ws) == s <==> Trimmed(s, ws)
  {
    if Trimmed(s, ws) {
      TrimmedIsOwnTrim(s, ws);
      TrimUnique(Trim(s, ws), s, s, ws);
    }
  }

  /** `trim` is idempotent. */
  lemma TrimIdempotent(s: string, ws: char -> bool)
    ensures Trim(Trim(s, ws), ws) == Trim(s, ws)
  {
    TrimFixedPoint(Trim(s, ws), ws);
  }

  /** `trim` yields the empty string exactly when `s` is all whitespace. */
  lemma TrimEmptyIff(s: string, ws: char -> bool)
    ensures Trim(s, ws) == "" <==> forall k :: 0 <= k < |s| ==> ws(s[k])
  {
    var r := Trim(s, ws);
    var i: nat :| TrimAt(r, s, i, ws);
    if |r| > 0 {
      assert r[0] == s[i];
    }
  }

  /** Whitespace around a trimmed string is exactly what `trim` removes. */
  lemma TrimPadded(p: string, n: string, q: string, ws: char -> bool)
    requires forall k :: 0 <= k < |p| ==> ws(p[k])
    requires forall k :: 0 <= k < |q| ==> ws(q[k])
    requires Trimmed(n, ws)
    ensures Trim(p + n + q, ws) == n
  {
    var s := p + n + q;
    assert forall k :: 0 <= k < |n| ==> n[k] == s[|p| + k];
    assert forall k :: 0 <= k < |p| ==> s[k] == p[k];
    assert forall k :: |p| + |n| <= k < |s| ==> s[k] == q[k - |p| - |n|];
    assert TrimAt(n, s, |p|, ws);
    TrimUnique(Trim(s, ws), n, s, ws);
  }

  /* ------------------------------------------------------------------ */
  /* Trimming every piece, and dropping the empty ones                  */
  /* ------------------------------------------------------------------ */

  /** Every string of `xs` trimmed, in order. */
  function TrimAll(xs: seq<string>, ws: char -> bool): (r: seq<string>)
    ensures |r| == |xs|
    ensures forall i :: 0 <= i < |xs| ==> r[i] == Trim(xs[i], ws)
  {
    if |xs| == 0 then [] else [Trim(xs[0], ws)] + TrimAll(xs[1..], ws)
  }

  lemma {:induction false} TrimAllConcat(a: seq<string>, b: seq<string>, ws: char -> bool)
    ensures TrimAll(a + b, ws) == TrimAll(a, ws) + TrimAll(b, ws)
    decreases |a|
  {
    if |a| > 0 {
      assert (a + b)[1..] == a[1..] + b;
      TrimAllConcat(a[1..], b, ws);
    } else {
      assert a + b == b;
    }
  }

  /** Filtering on a positive length: the non-empty strings of `xs`, in
      order, repetitions included. */
  function DropEmpty(xs: seq<string>): (r: seq<string>)
    ensures |r| <= |xs|
    ensures forall i :: 0 <= i < |r| ==> r[i] != ""
    ensures forall x :: x in r <==> x in xs && x != ""
  {
    if |xs| == 0 then []
    else (if xs[0] == "" then [] else [xs[0]]) + DropEmpty(xs[1..])
  }

  /** Filtering distributes over concatenation, so it keeps the order. */
  lemma {:induction false} DropEmptyConcat(a: seq<string>, b: seq<string>)
    ensures DropEmpty(a + b) == DropEmpty(a) + DropEmpty(b)
    decreases |a|
  {
    if |a| > 0 {
      assert (a + b)[1..] == a[1..] + b;
      DropEmptyConcat(a[1..], b);
    } else {
      assert a + b == b;
    }
  }

  /** Filtering a list without empty strings removes nothing: in particular
      repeated elements are all kept. */
  lemma {:induction false} DropEmptyKeepsNonEmpty(xs: seq<string>)
    requires forall i :: 0 <= i < |xs| ==> xs[i] != ""
    ensures DropEmpty(xs) == xs
    decreases |xs|
  {
    if |xs| > 0 {
      DropEmptyKeepsNonEmpty(xs[1..]);
      assert [xs[0]] + xs[1..] == xs;
    }
  }

  /* ------------------------------------------------------------------ */
  /* Number.prototype.toString on a non-negative integer                */
  /* ------------------------------------------------------------------ */

  predicate IsDigits(s: string) {
    forall k :: 0 <= k < |s| ==> '0' <= s[k] <= '9'
  }

  function DigitChar(d: nat): (c: char)
    requires d < 10
    ensures '0' <= c <= '9' && c as int - '0' as int == d
  {
    (48 + d) as char
  }

  /** The decimal value a string of digits denotes, read left to right. */
  function DigitsValue(s: string): nat
    requires IsDigits(s)
  {
    if |s| == 0 then 0
    else 10 * DigitsValue(s[..|s| - 1]) + (s[|s| - 1] as int - '0' as int)
  }

  /** `n.toString()` for a non-negative integer up to 2^53, where every
      integer is exactly a double: the shortest decimal numeral, so it has
      no leading zero unless it is "0". Beyond 2^53 a double cannot hold
      every integer and ECMAScript prints the shortest digits that round
      back to the double, so the exact digits here no longer match. */
  function NumberToString(n: nat): (r: string)
    ensures |r| >= 1 && IsDigits(r)
    ensures r[0] == '0' <==> n == 0
    ensures n == 0 ==> r == "0"
    decreases n
  {
    if n < 10 then [DigitChar(n)]
    else NumberToString(n / 10) + [DigitChar(n % 10)]
  }

  /** Reading back the numeral gives the number. */
  lemma {:induction false} NumberToStringRoundTrip(n: nat)
    ensures DigitsValue(NumberToString(n)) == n
    decreases n
  {
    var r := NumberToString(n);
    if n >= 10 {
      NumberToStringRoundTrip(n / 10);
      assert r[..|r| - 1] == NumberToString(n / 10);
    }
  }
}
