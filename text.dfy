/** The JavaScript string operations the source relies on, over `string` (= `seq<char>`):
    rendering a non-negative integer in decimal (`String(n)` / template literals),
    `split` on a one-character separator, `slice`/`substring` with non-negative bounds,
    `toUpperCase` on ASCII letters and `includes`. */
module Text {

  predicate IsDigit(c: char) { '0' <= c <= '9' }

  predicate AllDigits(s: string) { forall i :: 0 <= i < |s| ==> IsDigit(s[i]) }

  function DigitChar(d: nat): (c: char)
    requires d < 10
    ensures IsDigit(c) && c as int - '0' as int == d
  {
    ('0' as int + d) as char
  }

  /** The decimal rendering of a non-negative integer: digits only, no leading zero. */
  function DecimalString(n: nat): (s: string)
    ensures 1 <= |s| && AllDigits(s)
    ensures |s| > 1 ==> s[0] != '0'
    decreases n
  {
    if n < 10 then [DigitChar(n)] else DecimalString(n / 10) + [DigitChar(n % 10)]
  }

  /** The number a string of decimal digits denotes (the inverse of DecimalString). */
  function DigitsValue(s: string): nat
    requires AllDigits(s)
  {
    if s == [] then 0 else DigitsValue(s[..|s| - 1]) * 10 + (s[|s| - 1] as int - '0' as int)
  }

  lemma {:induction false} DecimalRoundTrip(n: nat)
    ensures DigitsValue(DecimalString(n)) == n
    decreases n
  {
    if n >= 10 {
      DecimalRoundTrip(n / 10);
      var s := DecimalString(n);
      assert s[..|s| - 1] == DecimalString(n / 10);
    }
  }

  /** Two numbers with the same rendering are equal. */
  lemma DecimalInjective(a: nat, b: nat)
    ensures DecimalString(a) == DecimalString(b) ==> a == b
  {
    DecimalRoundTrip(a);
    DecimalRoundTrip(b);
  }

  function Pow10(k: nat): (p: nat)
    ensures p >= 1
  {
    if k == 0 then 1 else 10 * Pow10(k - 1)
  }

  /** A number at least 10^k has more than k digits. */
  lemma {:induction false} DecimalLength(n: nat, k: nat)
    requires n >= Pow10(k)
    ensures |DecimalString(n)| > k
  {
    if k > 0 {
      DecimalLength(n / 10, k - 1);
    }
  }

  /** `String(i)` for an integer, with a leading "-" when negative. */
  function IntString(i: int): string
  {
    if i < 0 then "-" + DecimalString(-i) else DecimalString(i)
  }

  /** Different integers render differently. */
  lemma IntStringInjective(a: int, b: int)
    ensures IntString(a) == IntString(b) ==> a == b
  {
    if IntString(a) == IntString(b) {
      if a < 0 && b < 0 {
        assert DecimalString(-a) == IntString(a)[1..] == IntString(b)[1..] == DecimalString(-b);
        DecimalInjective(-a, -b);
      } else if a >= 0 && b >= 0 {
        DecimalInjective(a, b);
      }
    }
  }

  /** `s.slice(start, end)` (equivalently `s.substring(start, end)`) for
      `0 <= start <= end`: both bounds are clamped to the length. */
  function Slice(s: string, start: nat, end: nat): (r: string)
    requires start <= end
    ensures |r| <= end - start && |r| <= |s|
    ensures end <= |s| ==> r == s[start..end]
    ensures forall i :: 0 <= i < |r| ==> start + i < |s| && r[i] == s[start + i]
  {
    var b := if end <= |s| then end else |s|;
    var a := if start <= b then start else b;
    s[a..b]
  }

  /** `s.slice(-k)`: the last k characters, or all of s when it is shorter. */
  function SliceLast(s: string, k: nat): (r: string)
    ensures |r| == if |s| <= k then |s| else k
    ensures r == s[|s| - |r|..]
  {
    if |s| <= k then s else s[|s| - k..]
  }

  function UpperChar(c: char): char
  {
    if 'a' <= c <= 'z' then (c as int - 32) as char else c
  }

  /** `s.toUpperCase()` on ASCII letters; other characters are kept. */
  function ToUpper(s: string): (r: string)
    ensures |r| == |s|
    ensures forall i :: 0 <= i < |s| ==> r[i] == UpperChar(s[i])
  {
    seq(|s|, i requires 0 <= i < |s| => UpperChar(s[i]))
  }

  /** `s.split(sep)` for a one-character separator: always at least one part,
      and no part contains the separator. */
  function Split(s: string, sep: char): (parts: seq<string>)
    ensures |parts| >= 1
    ensures forall i :: 0 <= i < |parts| ==> sep !in parts[i]
    decreases |s|
  {
    if |s| == 0 then [""]
    else
      var rest := Split(s[1..], sep);
      if s[0] == sep then [""] + rest
      else [[s[0]] + rest[0]] + rest[1..]
  }

  /** `parts.join(sep)`. */
  function Join(parts: seq<string>, sep: char): string
    requires |parts| >= 1
    decreases |parts|
  {
    if |parts| == 1 then parts[0] else parts[0] + [sep] + Join(parts[1..], sep)
  }

  /** A split yields a single part exactly when the separator does not occur. */
  lemma SplitSingle(s: string, sep: char)
    ensures |Split(s, sep)| == 1 <==> sep !in s
  {
    var parts := Split(s, sep);
    JoinSplit(s, sep);
    if |parts| > 1 {
      assert Join(parts, sep) == parts[0] + [sep] + Join(parts[1..], sep);
      assert Join(parts, sep)[|parts[0]|] == sep;
    }
  }

  /** Joining the parts of a split gives back the string. */
  lemma {:induction false} JoinSplit(s: string, sep: char)
    ensures Join(Split(s, sep), sep) == s
    decreases |s|
  {
    if |s| > 0 {
      JoinSplit(s[1..], sep);
      var rest := Split(s[1..], sep);
      if s[0] == sep {
        assert Split(s, sep) == [""] + rest;
        assert ([""] + rest)[1..] == rest;
      } else {
        var parts := [[s[0]] + rest[0]] + rest[1..];
        assert Split(s, sep) == parts;
        if |rest| > 1 {
          assert parts[1..] == rest[1..];
          assert Join(rest, sep) == rest[0] + [sep] + Join(rest[1..], sep);
        }
      }
    }
  }

  /** Splitting a string that starts with a separator-free prefix x. */
  lemma {:induction false} SplitPrefix(x: string, y: string, sep: char)
    requires sep !in x
    ensures Split(x + y, sep) == [x + Split(y, sep)[0]] + Split(y, sep)[1..]
    decreases |x|
  {
    if |x| > 0 {
      SplitPrefix(x[1..], y, sep);
      assert (x + y)[1..] == x[1..] + y;
      assert [x[0]] + (x[1..] + Split(y, sep)[0]) == x + Split(y, sep)[0];
    } else {
      var rest := Split(y, sep);
      assert x + y == y;
      assert x + rest[0] == rest[0];
      assert rest == [rest[0]] + rest[1..];
    }
  }

  /** Splitting a join of separator-free parts gives back the parts. */
  lemma {:induction false} SplitJoin(parts: seq<string>, sep: char)
    requires |parts| >= 1
    requires forall i :: 0 <= i < |parts| ==> sep !in parts[i]
    ensures Split(Join(parts, sep), sep) == parts
    decreases |parts|
  {
    if |parts| == 1 {
      SplitPrefix(parts[0], "", sep);
      assert Split("", sep) == [""];
      assert parts[0] + "" == parts[0];
    } else {
      var tail := Join(parts[1..], sep);
      SplitJoin(parts[1..], sep);
      SplitPrefix(parts[0], [sep] + tail, sep);
      assert parts[0] + [sep] + tail == parts[0] + ([sep] + tail);
      assert ([sep] + tail)[1..] == tail;
      assert Split([sep] + tail, sep) == [""] + parts[1..];
      assert parts[0] + "" == parts[0];
      assert [parts[0]] + parts[1..] == parts;
    }
  }

  /** The position of the first c in s, or |s| when there is none. */
  function IndexOf(s: string, c: char): (i: nat)
    ensures i <= |s| && (i < |s| <==> c in s)
    ensures i < |s| ==> s[i] == c
    ensures forall k :: 0 <= k < i ==> s[k] != c
    decreases |s|
  {
    if |s| == 0 then 0 else if s[0] == c then 0 else 1 + IndexOf(s[1..], c)
  }

  lemma {:induction false} IndexOfAfterPrefix(x: string, y: string, c: char)
    requires c !in x
    ensures IndexOf(x + [c] + y, c) == |x|
    decreases |x|
  {
    if |x| > 0 {
      IndexOfAfterPrefix(x[1..], y, c);
      assert (x + [c] + y)[1..] == x[1..] + [c] + y;
    }
  }

  /** The first part of a split is the text before the first separator, or
      the whole string when there is none. */
  lemma SplitFirst(s: string, sep: char)
    ensures Split(s, sep)[0] == s[..IndexOf(s, sep)]
  {
    var j := IndexOf(s, sep);
    if sep in s {
      SplitAtFirst(s, sep);
    } else {
      SplitSingle(s, sep);
      JoinSplit(s, sep);
      assert s[..j] == s;
    }
  }

  /** A string with a separator splits into the text before the first one,
      then the parts of what follows it. */
  lemma SplitAtFirst(s: string, sep: char)
    requires sep in s
    ensures var j := IndexOf(s, sep);
      Split(s, sep) == [s[..j]] + Split(s[j + 1..], sep)
  {
    var j := IndexOf(s, sep);
    var x, rest := s[..j], s[j + 1..];
    assert sep !in x by {
      assert forall k :: 0 <= k < |x| ==> x[k] == s[k];
    }
    assert s == x + ([sep] + rest);
    SplitPrefix(x, [sep] + rest, sep);
    assert ([sep] + rest)[1..] == rest;
    assert Split([sep] + rest, sep) == [""] + Split(rest, sep);
    assert x + "" == x;
  }

  /** A string is cut uniquely at the first occurrence of a character that the
      part before it does not contain. */
  lemma SeparatedUnique(x: string, y: string, x': string, y': string, c: char)
    requires c !in x && c !in x'
    requires x + [c] + y == x' + [c] + y'
    ensures x == x' && y == y'
  {
    var s := x + [c] + y;
    IndexOfAfterPrefix(x, y, c);
    IndexOfAfterPrefix(x', y', c);
    assert x == s[..|x|] == x';
    assert y == s[|x| + 1..] == y';
  }

  predicate StartsWith(s: string, prefix: string)
  {
    |prefix| <= |s| && s[..|prefix|] == prefix
  }

  /** sub occurs in s starting at position i. */
  predicate OccursAt(s: string, sub: string, i: int)
  {
    0 <= i && i + |sub| <= |s| && s[i..i + |sub|] == sub
  }

  /** `s.includes(sub)`. */
  predicate Contains(s: string, sub: string)
    decreases |s|
  {
    StartsWith(s, sub) || (|s| > 0 && Contains(s[1..], sub))
  }

  /** `includes` holds exactly when sub occurs at some position of s. */
  lemma {:induction false} ContainsAt(s: string, sub: string)
    ensures Contains(s, sub) <==> exists i :: OccursAt(s, sub, i)
    decreases |s|
  {
    if StartsWith(s, sub) {
      assert OccursAt(s, sub, 0);
    }
    if |s| > 0 {
      ContainsAt(s[1..], sub);
      if Contains(s[1..], sub) {
        var i :| OccursAt(s[1..], sub, i);
        assert s[i + 1..i + 1 + |sub|] == s[1..][i..i + |sub|];
        assert OccursAt(s, sub, i + 1);
      }
      if exists i :: OccursAt(s, sub, i) {
        var i :| OccursAt(s, sub, i);
        if i > 0 {
          assert s[1..][i - 1..i - 1 + |sub|] == s[i..i + |sub|];
          assert OccursAt(s[1..], sub, i - 1);
        }
      }
    } else if exists i :: OccursAt(s, sub, i) {
      var i :| OccursAt(s, sub, i);
      assert |sub| == 0;
    }
  }

  /** s cannot include sub when one of sub's characters is missing from s. */
  lemma NotContainsByChar(s: string, sub: string, j: nat)
    requires j < |sub| && sub[j] !in s
    ensures !Contains(s, sub)
  {
    ContainsAt(s, sub);
  }

  /** What a middle piece includes, the whole string includes. */
  lemma ContainsInfix(x: string, v: string, y: string, sub: string)
    requires Contains(v, sub)
    ensures Contains(x + v + y, sub)
  {
    ContainsAt(v, sub);
    ContainsAt(x + v + y, sub);
    var i :| OccursAt(v, sub, i);
    assert (x + v + y)[|x| + i..|x| + i + |sub|] == v[i..i + |sub|];
    assert OccursAt(x + v + y, sub, |x| + i);
  }

  /** A window whose k-th character differs from sub[k] is no occurrence. */
  lemma MismatchAt(s: string, sub: string, i: int, k: int)
    requires 0 <= i && i + |sub| <= |s| && 0 <= k < |sub| && s[i + k] != sub[k]
    ensures !OccursAt(s, sub, i)
  {
    assert s[i..i + |sub|][k] == s[i + k];
  }

  /** A window lying wholly in y is an occurrence in x + y exactly when it is
      one in y. */
  lemma OccursAtShift(x: string, y: string, sub: string, i: int)
    requires i >= |x|
    ensures OccursAt(x + y, sub, i) <==> OccursAt(y, sub, i - |x|)
  {
    if i + |sub| <= |x| + |y| {
      assert (x + y)[i..i + |sub|] == y[i - |x|..i - |x| + |sub|];
    }
  }

  /** sub cannot occur in x + [sub[j]] + y when it does not occur in y, sub[j]
      is not in x nor in sub[..j], and x does not end with sub[j - 1]. */
  lemma NotContainsAcross(x: string, y: string, sub: string, j: nat)
    requires 0 < j < |sub| && sub[j] !in x && sub[j] !in sub[..j]
    requires |x| > 0 ==> x[|x| - 1] != sub[j - 1]
    requires !Contains(y, sub)
    ensures !Contains(x + [sub[j]] + y, sub)
  {
    var s := x + [sub[j]] + y;
    ContainsAt(s, sub);
    ContainsAt(y, sub);
    forall i | 0 <= i && i + |sub| <= |s|
      ensures !OccursAt(s, sub, i)
    {
      if i > |x| {
        OccursAtShift(x + [sub[j]], y, sub, i);
      } else if i + j < |x| {
        assert s[i + j] == x[i + j];
        MismatchAt(s, sub, i, j);
      } else if i + j == |x| {
        assert s[i + j - 1] == x[|x| - 1];
        MismatchAt(s, sub, i, j - 1);
      } else {
        var k := |x| - i;
        assert sub[..j][k] == sub[k];
        assert s[i + k] == sub[j];
        MismatchAt(s, sub, i, k);
      }
    }
  }
}
