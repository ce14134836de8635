/** Option, the "maybe a value" wrapper used for Python's `None` results. */
module Wrappers {
  datatype Option<+T> = None | Some(value: T)
}

/**
 * The handful of Python `str` operations the core relies on, restricted to
 * ASCII where Python would consult Unicode tables (digits, case mapping,
 * word characters). Whitespace follows `str.isspace` exactly.
 */
module Text {
  import opened Wrappers

  predicate IsDigit(c: char) { '0' <= c <= '9' }

  predicate AllDigits(s: string) { forall i :: 0 <= i < |s| ==> IsDigit(s[i]) }

  /** `s.isdigit()`: non-empty and every character a digit. */
  predicate IsDigitString(s: string) { |s| > 0 && AllDigits(s) }

  function DigitValue(c: char): (v: nat)
    requires IsDigit(c)
    ensures v <= 9
  {
    c as int - '0' as int
  }

  /** `int(s)` for a string of digits (leading zeros allowed). */
  function Value(s: string): (v: nat)
    requires AllDigits(s)
    ensures |s| <= 1 ==> v < 10
    ensures |s| <= 2 ==> v < 100
    ensures |s| <= 3 ==> v < 1000
    ensures |s| <= 4 ==> v < 10000
  {
    if |s| == 0 then 0 else Value(s[..|s| - 1]) * 10 + DigitValue(s[|s| - 1])
  }

  function DigitChar(d: nat): (c: char)
    requires d <= 9
    ensures IsDigit(c) && DigitValue(c) == d
  {
    ('0' as int + d) as char
  }

  /** `str(n)` for a natural number. */
  function NatToString(n: nat): (s: string)
    ensures IsDigitString(s)
    ensures Value(s) == n
    decreases n
  {
    if n < 10 then [DigitChar(n)]
    else
      var prefix := NatToString(n / 10);
      var s := prefix + [DigitChar(n % 10)];
      assert s[..|s| - 1] == prefix;
      s
  }

  /** Python's `s[i:j]` for 0 <= i <= j: indices past the end are clipped. */
  function Slice(s: string, i: nat, j: nat): (r: string)
    requires i <= j
    ensures |r| == (if j <= |s| then j - i else if i <= |s| then |s| - i else 0)
    ensures i <= |s| ==> r == s[i..if j <= |s| then j else |s|]
  {
    if |s| <= i then [] else if |s| <= j then s[i..] else s[i..j]
  }

  predicate StartsWith(s: string, p: string) { |p| <= |s| && s[..|p|] == p }

  predicate EndsWith(s: string, p: string) { |p| <= |s| && s[|s| - |p|..] == p }

  /** `pat in s`, scanning from the left. */
  predicate Contains(s: string, pat: string)
    decreases |s|
  {
    StartsWith(s, pat) || (|s| > 0 && Contains(s[1..], pat))
  }

  ghost predicate OccursAt(s: string, pat: string, i: int)
  {
    0 <= i && i + |pat| <= |s| && s[i..i + |pat|] == pat
  }

  lemma {:induction false} OccursImpliesContains(s: string, pat: string, i: int)
    requires OccursAt(s, pat, i)
    ensures Contains(s, pat)
    decreases i
  {
    if i == 0 {
      assert s[..|pat|] == pat;
    } else {
      assert s[1..][i - 1..i - 1 + |pat|] == s[i..i + |pat|];
      OccursImpliesContains(s[1..], pat, i - 1);
    }
  }

  lemma {:induction false} ContainsImpliesOccurs(s: string, pat: string) returns (i: nat)
    requires Contains(s, pat)
    ensures OccursAt(s, pat, i)
    decreases |s|
  {
    if StartsWith(s, pat) {
      i := 0;
    } else {
      var j := ContainsImpliesOccurs(s[1..], pat);
      assert s[j + 1..j + 1 + |pat|] == s[1..][j..j + |pat|];
      i := j + 1;
    }
  }

  lemma ContainsIffOccurs(s: string, pat: string)
    ensures Contains(s, pat) <==> exists i :: OccursAt(s, pat, i)
  {
    if Contains(s, pat) {
      var i := ContainsImpliesOccurs(s, pat);
    }
    forall i | OccursAt(s, pat, i) ensures Contains(s, pat) {
      OccursImpliesContains(s, pat, i);
    }
  }

  /** `s.replace(pat, rep)`: leftmost, non-overlapping occurrences. */
  function ReplaceAll(s: string, pat: string, rep: string): string
    requires |pat| > 0
    decreases |s|
  {
    if |s| == 0 then []
    else if StartsWith(s, pat) then rep + ReplaceAll(s[|pat|..], pat, rep)
    else [s[0]] + ReplaceAll(s[1..], pat, rep)
  }

  lemma {:induction false} ReplaceAllAbsent(s: string, pat: string, rep: string)
    requires |pat| > 0
    requires forall i :: 0 <= i < |s| ==> s[i] != pat[0]
    ensures ReplaceAll(s, pat, rep) == s
    decreases |s|
  {
    if |s| > 0 {
      if |pat| <= |s| {
        assert s[..|pat|][0] != pat[0];
      }
      ReplaceAllAbsent(s[1..], pat, rep);
    }
  }

  /** Replacing in `s + pat` when `s` never holds `pat`'s first character. */
  lemma {:induction false} ReplaceAllTrailing(s: string, pat: string, rep: string)
    requires |pat| > 0
    requires forall i :: 0 <= i < |s| ==> s[i] != pat[0]
    ensures ReplaceAll(s + pat, pat, rep) == s + rep
    decreases |s|
  {
    if |s| == 0 {
      assert (s + pat)[..|pat|] == pat;
      assert (s + pat)[|pat|..] == [];
    } else {
      assert (s + pat)[1..] == s[1..] + pat;
      ReplaceAllTrailing(s[1..], pat, rep);
    }
  }

  /** Replacing skips a stretch that never holds the pattern's first character. */
  lemma {:induction false} ReplaceAllSkip(a: string, b: string, pat: string, rep: string)
    requires |pat| > 0 && pat[0] !in a
    ensures ReplaceAll(a + b, pat, rep) == a + ReplaceAll(b, pat, rep)
    decreases |a|
  {
    if |a| == 0 {
      assert a + b == b;
    } else {
      var s := a + b;
      assert s[0] == a[0];
      assert !StartsWith(s, pat);
      assert s[1..] == a[1..] + b;
      assert pat[0] !in a[1..];
      ReplaceAllSkip(a[1..], b, pat, rep);
      calc {
        ReplaceAll(s, pat, rep);
        [s[0]] + ReplaceAll(s[1..], pat, rep);
        [a[0]] + (a[1..] + ReplaceAll(b, pat, rep));
        { assert a == [a[0]] + a[1..]; }
        a + ReplaceAll(b, pat, rep);
      }
    }
  }

  /** `s.index(c)`: the first position holding `c`. */
  function IndexOf(s: string, c: char): (k: nat)
    requires c in s
    ensures k < |s| && s[k] == c && c !in s[..k]
  {
    if s[0] == c then 0
    else
      var k := IndexOf(s[1..], c) + 1;
      assert s[..k] == [s[0]] + s[1..][..k - 1];
      k
  }

  /** `s.split(sep)` for a one-character separator. */
  function Split(s: string, sep: char): (parts: seq<string>)
    ensures |parts| >= 1
    decreases |s|
  {
    if |s| == 0 then [""]
    else
      var rest := Split(s[1..], sep);
      if s[0] == sep then [""] + rest else [[s[0]] + rest[0]] + rest[1..]
  }

  lemma {:induction false} SplitNoSep(s: string, sep: char)
    requires forall i :: 0 <= i < |s| ==> s[i] != sep
    ensures Split(s, sep) == [s]
    decreases |s|
  {
    if |s| > 0 {
      SplitNoSep(s[1..], sep);
      assert [s[0]] + s[1..] == s;
    }
  }

  lemma {:induction false} SplitAround(a: string, sep: char, b: string)
    requires forall i :: 0 <= i < |a| ==> a[i] != sep
    ensures Split(a + [sep] + b, sep) == [a] + Split(b, sep)
    decreases |a|
  {
    if |a| == 0 {
      assert a + [sep] + b == [sep] + b;
      assert ([sep] + b)[1..] == b;
    } else {
      var s := a + [sep] + b;
      assert s[1..] == a[1..] + [sep] + b;
      SplitAround(a[1..], sep, b);
      assert [s[0]] + a[1..] == a;
    }
  }

  /** Upper-case ASCII letters, as `str.upper()` does for them. */
  function UpperChar(c: char): char { if 'a' <= c <= 'z' then (c as int - 32) as char else c }

  function LowerChar(c: char): char { if 'A' <= c <= 'Z' then (c as int + 32) as char else c }

  function Upper(s: string): (r: string)
    ensures |r| == |s| && forall i :: 0 <= i < |s| ==> r[i] == UpperChar(s[i])
  {
    if |s| == 0 then [] else [UpperChar(s[0])] + Upper(s[1..])
  }

  function Lower(s: string): (r: string)
    ensures |r| == |s| && forall i :: 0 <= i < |s| ==> r[i] == LowerChar(s[i])
  {
    if |s| == 0 then [] else [LowerChar(s[0])] + Lower(s[1..])
  }

  /** Upper-casing forgets an earlier lower-casing. */
  lemma UpperOfLower(s: string)
    ensures Upper(Lower(s)) == Upper(s)
  {
    var l := Lower(s);
    forall i | 0 <= i < |s| ensures Upper(l)[i] == Upper(s)[i] {
      assert l[i] == LowerChar(s[i]);
    }
  }

  /** Characters equal under ASCII case folding (`re.IGNORECASE`). */
  predicate SameLetter(a: char, b: char) { UpperChar(a) == UpperChar(b) }

  /** `str.isspace()` for one character (the complete Python list). */
  predicate IsSpace(c: char)
  {
    var n := c as int;
    (9 <= n <= 13) || (28 <= n <= 32) || n == 0x85 || n == 0xA0 || n == 0x1680
    || (0x2000 <= n <= 0x200A) || n == 0x2028 || n == 0x2029 || n == 0x202F
    || n == 0x205F || n == 0x3000
  }

  function TrimLeft(s: string): (r: string)
    ensures |r| <= |s| && r == s[|s| - |r|..]
    ensures |r| > 0 ==> !IsSpace(r[0])
  {
    if |s| > 0 && IsSpace(s[0]) then TrimLeft(s[1..]) else s
  }

  function TrimRight(s: string): (r: string)
    ensures |r| <= |s| && r == s[..|r|]
    ensures |r| > 0 ==> !IsSpace(r[|r| - 1])
  {
    if |s| > 0 && IsSpace(s[|s| - 1]) then TrimRight(s[..|s| - 1]) else s
  }

  /** `s.strip()`. */
  function Strip(s: string): (r: string)
    ensures |r| > 0 ==> !IsSpace(r[0]) && !IsSpace(r[|r| - 1])
  {
    TrimRight(TrimLeft(s))
  }

  /**
   * `a == b` on strings, compared character by character. The scans compare
   * normalised names this way; stating it recursively keeps the comparison
   * from being unfolded without bound inside quantified facts.
   */
  predicate SameText(a: string, b: string)
  {
    |a| == |b| && (|a| == 0 || (a[0] == b[0] && SameText(a[1..], b[1..])))
  }

  lemma {:induction false} SameTextIsEquality(a: string, b: string)
    ensures SameText(a, b) <==> a == b
    decreases |a|
  {
    if |a| > 0 && |a| == |b| {
      SameTextIsEquality(a[1..], b[1..]);
      assert a == [a[0]] + a[1..] && b == [b[0]] + b[1..];
    }
  }

  /** Replace every occurrence of one character by another (`s.replace("*", " ")`). */
  function MapChar(s: string, from: char, to: char): (r: string)
    ensures |r| == |s|
    ensures forall i :: 0 <= i < |s| ==> r[i] == if s[i] == from then to else s[i]
  {
    if |s| == 0 then [] else [if s[0] == from then to else s[0]] + MapChar(s[1..], from, to)
  }

  /** `sep.join(parts)`. */
  function Join(parts: seq<string>, sep: string): string
  {
    if |parts| == 0 then [] else if |parts| == 1 then parts[0] else parts[0] + sep + Join(parts[1..], sep)
  }

  /** Concatenation of all parts (`''.join(parts)`). */
  function Concat(parts: seq<string>): string
  {
    if |parts| == 0 then [] else parts[0] + Concat(parts[1..])
  }

  /** An occurrence in `b` is one in `a + b`, shifted by `|a|`. */
  lemma OccursShift(a: string, b: string, pat: string, k: nat)
    requires OccursAt(b, pat, k)
    ensures OccursAt(a + b, pat, |a| + k)
    ensures (a + b)[..|a| + k] == a + b[..k]
  {
    assert (a + b)[|a| + k..|a| + k + |pat|] == b[k..k + |pat|];
  }

  /** An occurrence in `b` is one in `b + c`, at the same place. */
  lemma OccursExtend(b: string, c: string, pat: string, k: nat)
    requires OccursAt(b, pat, k)
    ensures OccursAt(b + c, pat, k)
    ensures (b + c)[..k] == b[..k]
  {
    assert (b + c)[k..k + |pat|] == b[k..k + |pat|];
  }

  /** Every part shows up in `sep.join(parts)`; `k` is where. */
  lemma {:induction false} JoinOccurs(parts: seq<string>, sep: string, i: nat) returns (k: nat)
    requires i < |parts|
    ensures OccursAt(Join(parts, sep), parts[i], k)
    decreases |parts|
  {
    if |parts| == 1 {
      k := 0;
      assert Join(parts, sep)[..|parts[0]|] == parts[0];
    } else if i == 0 {
      k := 0;
      assert Join(parts, sep) == parts[0] + (sep + Join(parts[1..], sep));
      assert Join(parts, sep)[..|parts[0]|] == parts[0];
    } else {
      var j := JoinOccurs(parts[1..], sep, i - 1);
      var head, rest := parts[0] + sep, Join(parts[1..], sep);
      assert Join(parts, sep) == head + rest;
      k := |head| + j;
      assert (head + rest)[k..k + |parts[i]|] == rest[j..j + |parts[i]|];
    }
  }

  /** Every part shows up in `''.join(parts)`, after all the parts before it. */
  lemma {:induction false} ConcatOccurs(parts: seq<string>, i: nat) returns (k: nat)
    requires i < |parts|
    ensures OccursAt(Concat(parts), parts[i], k)
    ensures Concat(parts)[..k] == Concat(parts[..i])
    decreases |parts|
  {
    if i == 0 {
      k := 0;
      assert Concat(parts)[..|parts[0]|] == parts[0];
      assert parts[..0] == [];
    } else {
      var j := ConcatOccurs(parts[1..], i - 1);
      var rest := Concat(parts[1..]);
      k := |parts[0]| + j;
      assert (parts[0] + rest)[k..k + |parts[i]|] == rest[j..j + |parts[i]|];
      assert (parts[0] + rest)[..k] == parts[0] + rest[..j];
      assert parts[..i] == [parts[0]] + parts[1..][..i - 1];
    }
  }

  /** Code points of a string: Python orders strings by comparing these lexicographically. */
  function Codes(s: string): (k: seq<int>)
    ensures |k| == |s| && forall i :: 0 <= i < |s| ==> k[i] == s[i] as int
  {
    seq(|s|, i requires 0 <= i < |s| => s[i] as int)
  }

  lemma CodesInjective(a: string, b: string)
    requires Codes(a) == Codes(b)
    ensures a == b
  {
    assert |a| == |b|;
    forall i | 0 <= i < |a| ensures a[i] == b[i] {
      assert Codes(a)[i] == Codes(b)[i];
    }
  }
}
