/**
 * The identifier tests the scans apply to a file's content:
 *  - the literal `REF*OF*id~` / `REF*ABB*id~` substring test (ANTHEM);
 *  - the case-insensitive `REF\*(...)\*id<ending>` searches (AHH_AMO,
 *    TELADOC, SAVRX);
 *  - the two `NM1*IL*1*` segment captures collected with `findall`: the
 *    member name `NM1\*IL\*1\*(.+?)\*{3,}` and the SSN
 *    `NM1\*IL\*1\*.*?\*+34\*(\d{9})~`.
 * The regular expressions are written out as scanners with the semantics
 * Python's `re` gives these fixed patterns: leftmost matches, lazy
 * quantifiers stopping at the first place the rest matches, `.` refusing a
 * newline, and `findall` resuming at the end of the previous match.
 */
module Matcher {
  import opened Wrappers
  import opened Text

  // ---------------------------------------------------------------------
  // Member ids
  // ---------------------------------------------------------------------

  /** ANTHEM: `f"REF*OF*{id}~" in content or f"REF*ABB*{id}~" in content`. */
  predicate LiteralRef(content: string, id: string)
  {
    Contains(content, "REF*OF*" + id + "~") || Contains(content, "REF*ABB*" + id + "~")
  }

  /** What the pattern demands right after the id: `~`, or `(\*|~|\b)`. */
  datatype Ending = Tilde | StarTildeOrBoundary

  /** `REF\*(q1|q2|...)\*{re.escape(id)}<ending>` compiled with `re.IGNORECASE`. */
  datatype RefRule = RefRule(qualifiers: seq<string>, ending: Ending)

  /** AHH_AMO: `REF\*(0F|ABB)\*id(\*|~|\b)` (the qualifier is zero-F). */
  const AhhRule := RefRule(["0F", "ABB"], StarTildeOrBoundary)

  /** TELADOC: `REF\*(0F|OF|ABB)\*id~`. */
  const TeladocRule := RefRule(["0F", "OF", "ABB"], Tilde)

  /** SAVRX: `REF\*(0F|OF|ABB)\*id(\*|~|\b)`. */
  const SavRxRule := RefRule(["0F", "OF", "ABB"], StarTildeOrBoundary)

  /** `\w`, restricted to ASCII. */
  predicate IsWordChar(c: char) { 'a' <= c <= 'z' || 'A' <= c <= 'Z' || IsDigit(c) || c == '_' }

  predicate WordAt(s: string, j: int) { 0 <= j < |s| && IsWordChar(s[j]) }

  /** `\b` at position `p`: a word character on exactly one side. */
  predicate Boundary(s: string, p: int) { WordAt(s, p - 1) != WordAt(s, p) }

  /** `lit` occurs at `i` up to ASCII case. */
  predicate FoldedAt(s: string, lit: string, i: nat)
  {
    i + |lit| <= |s| && forall k :: 0 <= k < |lit| ==> SameLetter(s[i + k], lit[k])
  }

  predicate EndingAt(e: Ending, s: string, p: nat)
  {
    match e
    case Tilde => p < |s| && s[p] == '~'
    case StarTildeOrBoundary => (p < |s| && (s[p] == '*' || s[p] == '~')) || Boundary(s, p)
  }

  function RefText(q: string, id: string): string { "REF*" + q + "*" + id }

  /** The rule matches at position `i`, taking qualifier `q`. */
  predicate RefAt(rule: RefRule, s: string, id: string, q: string, i: nat)
  {
    q in rule.qualifiers && FoldedAt(s, RefText(q, id), i) && EndingAt(rule.ending, s, i + |RefText(q, id)|)
  }

  /** `pattern.search(content)` succeeds (equivalently, `findall` is non-empty). */
  predicate HasRef(rule: RefRule, s: string, id: string)
  {
    exists i: nat, q | i <= |s| && q in rule.qualifiers :: RefAt(rule, s, id, q, i)
  }

  lemma FoldedAtEqual(s: string, lit: string, i: nat)
    requires OccursAt(s, lit, i)
    ensures FoldedAt(s, lit, i)
  {
    forall k | 0 <= k < |lit| ensures SameLetter(s[i + k], lit[k]) {
      assert s[i..i + |lit|][k] == s[i + k];
    }
  }

  /** A file the ANTHEM literal test accepts is accepted by the TELADOC pattern. */
  lemma LiteralImpliesTeladoc(s: string, id: string)
    requires LiteralRef(s, id)
    ensures HasRef(TeladocRule, s, id)
  {
    var q := if Contains(s, "REF*OF*" + id + "~") then "OF" else "ABB";
    var lit := RefText(q, id) + "~";
    if q == "OF" {
      assert lit == "REF*OF*" + id + "~";
    } else {
      assert lit == "REF*ABB*" + id + "~";
    }
    var i := ContainsImpliesOccurs(s, lit);
    assert OccursAt(s, RefText(q, id), i) by {
      assert s[i..i + |RefText(q, id)|] == s[i..i + |lit|][..|RefText(q, id)|];
    }
    FoldedAtEqual(s, RefText(q, id), i);
    assert s[i + |RefText(q, id)|] == s[i..i + |lit|][|RefText(q, id)|];
    assert RefAt(TeladocRule, s, id, q, i);
  }

  /** Whatever the TELADOC pattern finds, the SAVRX pattern finds. */
  lemma TeladocImpliesSavRx(s: string, id: string)
    requires HasRef(TeladocRule, s, id)
    ensures HasRef(SavRxRule, s, id)
  {
    var i: nat, q :| i <= |s| && q in TeladocRule.qualifiers && RefAt(TeladocRule, s, id, q, i);
    assert RefAt(SavRxRule, s, id, q, i);
  }

  /** Whatever the AHH_AMO pattern finds, the SAVRX pattern finds. */
  lemma AhhImpliesSavRx(s: string, id: string)
    requires HasRef(AhhRule, s, id)
    ensures HasRef(SavRxRule, s, id)
  {
    var i: nat, q :| i <= |s| && q in AhhRule.qualifiers && RefAt(AhhRule, s, id, q, i);
    assert RefAt(SavRxRule, s, id, q, i);
  }

  /**
   * The AHH_AMO pattern spells its qualifier with a zero: a segment written
   * with the letter O, `REF*OF*id~`, is found by the ANTHEM, TELADOC and SAVRX
   * tests but not by the AHH_AMO one.
   */
  lemma AhhMissesLetterO(id: string)
    ensures var s := "REF*OF*" + id + "~";
      LiteralRef(s, id) && HasRef(TeladocRule, s, id) && HasRef(SavRxRule, s, id) && !HasRef(AhhRule, s, id)
  {
    var s := "REF*OF*" + id + "~";
    assert StartsWith(s, "REF*OF*" + id + "~");
    LiteralImpliesTeladoc(s, id);
    TeladocImpliesSavRx(s, id);
    forall i: nat, q | i <= |s| && q in AhhRule.qualifiers ensures !RefAt(AhhRule, s, id, q, i) {
      var lit := RefText(q, id);
      if i + |lit| <= |s| {
        if i == 0 {
          assert s[4] == 'O' && lit[4] != 'O' && lit[4] in "0A";
          assert !SameLetter(s[0 + 4], lit[4]);
        } else {
          assert i == 1 && s[1] == 'E' && lit[0] == 'R';
          assert !SameLetter(s[1 + 0], lit[0]);
        }
      }
    }
  }

  lemma UpperCharTwice(c: char)
    ensures UpperChar(UpperChar(c)) == UpperChar(c)
  {
  }

  /** The searches are blind to ASCII case: upper-casing the content changes nothing. */
  lemma RuleIgnoresCase(rule: RefRule, s: string, id: string)
    ensures HasRef(rule, Upper(s), id) <==> HasRef(rule, s, id)
  {
    var u := Upper(s);
    forall c: char ensures UpperChar(UpperChar(c)) == UpperChar(c) && (IsWordChar(UpperChar(c)) <==> IsWordChar(c)) {
      UpperCharTwice(c);
    }
    forall i: nat, q | i <= |s| && q in rule.qualifiers
      ensures RefAt(rule, u, id, q, i) <==> RefAt(rule, s, id, q, i)
    {
      var p := i + |RefText(q, id)|;
      assert Boundary(u, p) <==> Boundary(s, p);
    }
  }

  // ---------------------------------------------------------------------
  // `NM1*IL*1*` segment captures
  // ---------------------------------------------------------------------

  const SegmentStart := "NM1*IL*1*"

  /** Number of consecutive `*` from `p` (what a greedy `\*+` takes). */
  function StarRun(s: string, p: nat): (n: nat)
    requires p <= |s|
    ensures p + n <= |s|
    ensures forall j :: p <= j < p + n ==> s[j] == '*'
    ensures p + n == |s| || s[p + n] != '*'
    decreases |s| - p
  {
    if p < |s| && s[p] == '*' then 1 + StarRun(s, p + 1) else 0
  }

  predicate ThreeStars(s: string, k: nat) { k + 3 <= |s| && s[k..k + 3] == "***" }

  /**
   * The lazy `(.+?)` whose capture ends at `k`: the first `k` on from the
   * given one where `\*{3,}` matches, each character taken being no newline.
   */
  function NameStop(s: string, k: nat): (r: Option<nat>)
    requires 1 <= k
    ensures r.Some? ==> k <= r.value && ThreeStars(s, r.value)
    ensures r.Some? ==> forall j :: k - 1 <= j < r.value ==> s[j] != '\n'
    ensures r.Some? ==> forall j :: k <= j < r.value ==> !ThreeStars(s, j)
    decreases |s| - k
  {
    if k > |s| || s[k - 1] == '\n' then None
    else if ThreeStars(s, k) then Some(k)
    else NameStop(s, k + 1)
  }

  /** `\*+34\*(\d{9})~` matches at `p`. */
  predicate SsnTailAt(s: string, p: nat)
  {
    p < |s| && s[p] == '*' &&
    var q := p + StarRun(s, p);
    q + 13 <= |s| && s[q..q + 3] == "34*" && AllDigits(s[q + 3..q + 12]) && s[q + 12] == '~'
  }

  /** The lazy `.*?` from `p`: the first position where the SSN tail matches. */
  function SsnStop(s: string, p: nat): (r: Option<nat>)
    ensures r.Some? ==> p <= r.value && SsnTailAt(s, r.value)
    ensures r.Some? ==> forall j :: p <= j < r.value ==> s[j] != '\n' && !SsnTailAt(s, j)
    decreases |s| - p
  {
    if p >= |s| then None
    else if SsnTailAt(s, p) then Some(p)
    else if s[p] == '\n' then None
    else SsnStop(s, p + 1)
  }

  /** The two captured segments. */
  datatype Segment = MemberName | MemberSsn

  /** A match: its captured group and the position just after it. */
  datatype Hit = Hit(capture: string, end: nat)

  /** What a capture of each pattern looks like. */
  predicate WellShaped(g: Segment, c: string)
  {
    match g
    case MemberName => |c| >= 1 && '\n' !in c
    case MemberSsn => |c| == 9 && AllDigits(c)
  }

  predicate AtSegmentStart(s: string, i: nat) { i + 9 <= |s| && s[i..i + 9] == SegmentStart }

  /** The name pattern matched exactly at `i`. */
  function NameAt(s: string, i: nat): (r: Option<Hit>)
    ensures r.Some? ==> AtSegmentStart(s, i) && i < r.value.end <= |s| && WellShaped(MemberName, r.value.capture)
    ensures r.Some? ==>
              var k := i + 9 + |r.value.capture|;
              k <= |s| && s[i + 9..k] == r.value.capture && ThreeStars(s, k) && r.value.end == k + StarRun(s, k)
  {
    if !AtSegmentStart(s, i) then None
    else
      match NameStop(s, i + 10)
      case Some(k) => Some(Hit(s[i + 9..k], k + StarRun(s, k)))
      case None => None
  }

  /** The SSN pattern matched exactly at `i`. */
  function SsnAt(s: string, i: nat): (r: Option<Hit>)
    ensures r.Some? ==> AtSegmentStart(s, i) && i < r.value.end <= |s| && WellShaped(MemberSsn, r.value.capture)
    ensures r.Some? ==> 14 <= r.value.end && s[r.value.end - 14..r.value.end] == "*34*" + r.value.capture + "~"
  {
    if !AtSegmentStart(s, i) then None
    else
      match SsnStop(s, i + 9)
      case Some(p) =>
        var q := p + StarRun(s, p);
        assert s[q - 1] == '*';
        assert s[q - 1..q + 13] == [s[q - 1]] + s[q..q + 3] + s[q + 3..q + 12] + [s[q + 12]];
        Some(Hit(s[q + 3..q + 12], q + 13))
      case None => None
  }

  /** `pattern.match(s, i)`: the match of segment `g` starting exactly at `i`, if any. */
  function MatchAt(g: Segment, s: string, i: nat): (r: Option<Hit>)
    ensures r.Some? ==> i < r.value.end <= |s| && WellShaped(g, r.value.capture)
  {
    match g
    case MemberName => NameAt(s, i)
    case MemberSsn => SsnAt(s, i)
  }

  /** `pattern.findall(s[from:])` for a one-group pattern: the captures, left to right. */
  function FindAll(g: Segment, s: string, from: nat): (r: seq<string>)
    ensures forall k :: 0 <= k < |r| ==> WellShaped(g, r[k])
    decreases |s| - from
  {
    if from >= |s| then []
    else
      match MatchAt(g, s, from)
      case Some(h) => [h.capture] + FindAll(g, s, h.end)
      case None => FindAll(g, s, from + 1)
  }

  /** `MEMBER_NAME_PATTERN.findall(content)`. */
  function NameCaptures(content: string): seq<string> { FindAll(MemberName, content, 0) }

  /** `SSN_PATTERN.findall(content)`. */
  function SsnCaptures(content: string): seq<string> { FindAll(MemberSsn, content, 0) }

  // ---- findall from the scanner's point of view ----

  /** Positions where no segment starts contribute nothing to `findall`. */
  lemma {:induction false} FindAllSkips(g: Segment, s: string, lo: nat, hi: nat)
    requires lo <= hi <= |s|
    requires forall i :: lo <= i < hi ==> !AtSegmentStart(s, i)
    ensures FindAll(g, s, lo) == FindAll(g, s, hi)
    decreases hi - lo
  {
    if lo < hi {
      FindAllSkips(g, s, lo + 1, hi);
    }
  }

  /**
   * The lazy `.*?` stops where the SSN tail begins, whatever stars and text
   * precede it, so long as that text holds no newline and no `~`.
   */
  lemma {:induction false} SsnStopInSegment(s: string, p: nat, t: nat)
    requires p <= t && t + 14 <= |s|
    requires forall j :: p <= j < t ==> s[j] != '\n' && s[j] != '~'
    requires s[t] == '*' && s[t + 1..t + 4] == "34*" && AllDigits(s[t + 4..t + 13]) && s[t + 13] == '~'
    ensures SsnStop(s, p).Some? && SsnStop(s, p).value + StarRun(s, SsnStop(s, p).value) == t + 1
    decreases t - p
  {
    assert s[t + 1] == '3' && s[t + 2] == '4' && s[t + 3] == '*';
    assert SsnTailAt(s, t);
    forall j | p <= j < t + 13 ensures s[j] != '~' {
      if t + 4 <= j {
        assert s[j] == s[t + 4..t + 13][j - t - 4];
      }
    }
    if !SsnTailAt(s, p) {
      SsnStopInSegment(s, p + 1, t);
    }
  }

  /** A match at `from` puts its capture first. */
  lemma FindAllAt(g: Segment, s: string, from: nat, h: Hit)
    requires from < |s| && MatchAt(g, s, from) == Some(h)
    ensures FindAll(g, s, from) == [h.capture] + FindAll(g, s, h.end)
  {
  }

  /** The SSN match at a segment start, from where its lazy part stops. */
  lemma SsnAtStop(s: string, i: nat, p: nat)
    requires AtSegmentStart(s, i) && SsnStop(s, i + 9) == Some(p)
    ensures var q := p + StarRun(s, p); SsnAt(s, i) == Some(Hit(s[q + 3..q + 12], q + 13))
  {
  }

  /** The name match at a segment start, from where its lazy part stops. */
  lemma NameAtStop(s: string, i: nat, k: nat)
    requires AtSegmentStart(s, i) && NameStop(s, i + 10) == Some(k)
    ensures NameAt(s, i) == Some(Hit(s[i + 9..k], k + StarRun(s, k)))
  {
  }

  /** The SSN match at a segment start whose lazy part stops just before the tail at `t`. */
  lemma SsnHitAt(s: string, a: nat, t: nat, p: nat)
    requires AtSegmentStart(s, a) && SsnStop(s, a + 9) == Some(p) && p + StarRun(s, p) == t + 1
    ensures SsnAt(s, a) == Some(Hit(s[t + 4..t + 13], t + 14))
  {
    SsnAtStop(s, a, p);
  }

  /** With no segment start before `a`, the match at `a` gives the first capture. */
  lemma FirstCaptureAt(g: Segment, s: string, a: nat, h: Hit)
    requires a < |s| && forall i :: 0 <= i < a ==> !AtSegmentStart(s, i)
    requires MatchAt(g, s, a) == Some(h)
    ensures |FindAll(g, s, 0)| > 0 && FindAll(g, s, 0)[0] == h.capture
  {
    FindAllSkips(g, s, 0, a);
    FindAllAt(g, s, a, h);
  }

  /** The first SSN capture, located by positions in the content. */
  lemma SsnFirstCapture(s: string, a: nat, t: nat)
    requires a + 9 <= t && t + 14 <= |s|
    requires forall i :: 0 <= i < a ==> !AtSegmentStart(s, i)
    requires AtSegmentStart(s, a)
    requires forall j :: a + 9 <= j < t ==> s[j] != '\n' && s[j] != '~'
    requires s[t] == '*' && s[t + 1..t + 4] == "34*" && AllDigits(s[t + 4..t + 13]) && s[t + 13] == '~'
    ensures |SsnCaptures(s)| > 0 && SsnCaptures(s)[0] == s[t + 4..t + 13]
  {
    SsnStopInSegment(s, a + 9, t);
    SsnHitAt(s, a, t, SsnStop(s, a + 9).value);
    FirstCaptureAt(MemberSsn, s, a, Hit(s[t + 4..t + 13], t + 14));
  }

  /** Nothing before the segment can start one when it holds no `N`. */
  lemma NoSegmentIn(s: string, pre: string)
    requires 'N' !in pre && |pre| <= |s| && s[..|pre|] == pre
    ensures forall i :: 0 <= i < |pre| ==> !AtSegmentStart(s, i)
  {
    forall i | 0 <= i < |pre| ensures !AtSegmentStart(s, i) {
      assert s[i] == pre[i];
      if i + 9 <= |s| { assert s[i..i + 9][0] == s[i]; }
    }
  }

  /**
   * Completeness of the SSN capture: a segment `NM1*IL*1*` ... `*34*` SSN `~`
   * is found, and it is the first capture when nothing before it can start a
   * segment.
   */
  lemma SsnInSegment(pre: string, mid: string, ssn: string, post: string)
    requires 'N' !in pre && '\n' !in mid && '~' !in mid
    requires |ssn| == 9 && AllDigits(ssn)
    ensures var caps := SsnCaptures(pre + SegmentStart + mid + "*34*" + ssn + "~" + post);
      |caps| > 0 && caps[0] == ssn
  {
    var s := pre + SegmentStart + mid + "*34*" + ssn + "~" + post;
    var a := |pre|;
    var t := a + 9 + |mid|;
    assert s == pre + (SegmentStart + (mid + ("*34*" + (ssn + ("~" + post)))));
    assert s[..a] == pre;
    NoSegmentIn(s, pre);
    assert s[a..a + 9] == SegmentStart;
    forall j | a + 9 <= j < t ensures s[j] != '\n' && s[j] != '~' {
      assert s[j] == mid[j - a - 9];
    }
    assert s[t..t + 4] == "*34*";
    assert s[t] == '*' && s[t + 1..t + 4] == s[t..t + 4][1..];
    assert s[t + 4..t + 13] == ssn;
    assert s[t + 13] == '~';
    SsnFirstCapture(s, a, t);
  }

  /** The lazy `(.+?)` stops at the first `***` after a newline-free stretch. */
  lemma {:induction false} NameStopAt(s: string, k: nat, e: nat)
    requires 1 <= k <= e && ThreeStars(s, e)
    requires forall j :: k - 1 <= j < e ==> s[j] != '\n'
    requires forall j :: k <= j < e ==> !ThreeStars(s, j)
    ensures NameStop(s, k) == Some(e)
    decreases e - k
  {
    if k < e {
      NameStopAt(s, k + 1, e);
    }
  }

  /** The name never holds three stars in a row, nor ends in a star. */
  predicate NoStarStop(name: string)
  {
    forall j :: 0 <= j < |name| && name[j] == '*' ==> j + 1 < |name| && name[j + 1] != '*'
  }

  /** The first name capture, located by positions in the content. */
  lemma NameFirstCapture(s: string, a: nat, e: nat)
    requires a + 10 <= e && e + 3 <= |s|
    requires forall i :: 0 <= i < a ==> !AtSegmentStart(s, i)
    requires AtSegmentStart(s, a) && ThreeStars(s, e)
    requires forall j :: a + 9 <= j < e ==> s[j] != '\n'
    requires forall j :: a + 10 <= j < e ==> !ThreeStars(s, j)
    ensures |NameCaptures(s)| > 0 && NameCaptures(s)[0] == s[a + 9..e]
  {
    NameStopAt(s, a + 10, e);
    NameAtStop(s, a, e);
    FirstCaptureAt(MemberName, s, a, NameAt(s, a).value);
  }

  /**
   * Completeness of the name capture: the text between `NM1*IL*1*` and the
   * first run of three or more stars is captured, and it is the first
   * capture when nothing before it can start a segment.
   */
  lemma NameInSegment(pre: string, name: string, post: string)
    requires 'N' !in pre && |name| >= 1 && '\n' !in name && NoStarStop(name)
    ensures var caps := NameCaptures(pre + SegmentStart + name + "***" + post);
      |caps| > 0 && caps[0] == name
  {
    var s := pre + SegmentStart + name + "***" + post;
    var a := |pre|;
    var e := a + 9 + |name|;
    assert s == pre + (SegmentStart + (name + ("***" + post)));
    assert s[..a] == pre;
    NoSegmentIn(s, pre);
    assert s[a..a + 9] == SegmentStart;
    assert s[a + 9..e] == name;
    assert s[e..e + 3] == "***";
    forall j | a + 9 <= j < e ensures s[j] == name[j - a - 9] && s[j] != '\n' {
      assert s[j] == s[a + 9..e][j - a - 9];
    }
    forall j | a + 10 <= j < e ensures !ThreeStars(s, j) {
      assert s[j] != '*' || (j + 1 < e && s[j + 1] != '*');
      assert s[j] == s[j..j + 3][0] && s[j + 1] == s[j..j + 3][1];
    }
    NameFirstCapture(s, a, e);
  }

  // ---- what the scans do with the captures ----

  /**
   * `raw.replace("*", " ").strip().upper() == target.upper().strip()`:
   * stars read as spaces, then exact comparison ignoring ASCII case and
   * surrounding whitespace.
   */
  predicate NameMatches(raw: string, target: string)
  {
    SameText(Upper(Strip(MapChar(raw, '*', ' '))), Strip(Upper(target)))
  }

  lemma StripUnpadded(s: string)
    requires |s| > 0 && !IsSpace(s[0]) && !IsSpace(s[|s| - 1])
    ensures Strip(s) == s
  {
  }

  /** A text with no star and no space at either end. */
  predicate Word(w: string) { |w| > 0 && '*' !in w && !IsSpace(w[0]) && !IsSpace(w[|w| - 1]) }

  lemma StarJoinReadsAsSpace(last: string, first: string)
    requires '*' !in last && '*' !in first
    ensures MapChar(last + "*" + first, '*', ' ') == last + " " + first
  {
    var raw := last + "*" + first;
    var spaced := last + " " + first;
    forall i | 0 <= i < |raw| ensures MapChar(raw, '*', ' ')[i] == spaced[i] {
      if i < |last| {
        assert raw[i] == last[i] && spaced[i] == last[i];
      } else if i > |last| {
        assert raw[i] == first[i - |last| - 1] && spaced[i] == first[i - |last| - 1];
      }
    }
  }

  lemma UpperUnpadded(s: string)
    requires |s| > 0 && !IsSpace(s[0]) && !IsSpace(s[|s| - 1])
    ensures Strip(Upper(s)) == Upper(s)
  {
    var u := Upper(s);
    assert u[0] == UpperChar(s[0]) && u[|u| - 1] == UpperChar(s[|s| - 1]);
    StripUnpadded(u);
  }

  /** `LAST*FIRST` in a segment is the member `LAST FIRST`. */
  lemma StarsReadAsSpaces(last: string, first: string)
    requires Word(last) && Word(first)
    ensures NameMatches(last + "*" + first, last + " " + first)
  {
    var spaced := last + " " + first;
    StarJoinReadsAsSpace(last, first);
    assert spaced[0] == last[0] && spaced[|spaced| - 1] == first[|first| - 1];
    StripUnpadded(spaced);
    UpperUnpadded(spaced);
    SameTextIsEquality(Upper(spaced), Upper(spaced));
  }

  /** Matching is exact, not a substring test: a longer name is another member. */
  lemma ExtraWordsDoNotMatch(last: string, first: string, more: string)
    requires Word(last) && Word(first) && Word(more)
    ensures !NameMatches(last + "*" + first + "*" + more, last + " " + first)
  {
    var raw := last + "*" + first + "*" + more;
    var m := MapChar(raw, '*', ' ');
    assert m[0] == last[0] && m[|m| - 1] == more[|more| - 1] by {
      assert raw[0] == last[0] && raw[|raw| - 1] == more[|more| - 1];
    }
    StripUnpadded(m);
    var spaced := last + " " + first;
    var u := Upper(spaced);
    assert u[0] == UpperChar(last[0]) && u[|u| - 1] == UpperChar(first[|first| - 1]);
    StripUnpadded(u);
    assert |Upper(Strip(m))| != |Strip(u)|;
    SameTextIsEquality(Upper(Strip(m)), Strip(u));
  }

  /** The target's case does not matter. */
  lemma NameMatchIgnoresTargetCase(raw: string, target: string)
    ensures NameMatches(raw, Lower(target)) <==> NameMatches(raw, target)
  {
    UpperOfLower(target);
  }

  /** `match_count` in the SAVRX name scan: captures equal to the target. */
  function NameCount(caps: seq<string>, target: string): (n: nat)
    ensures n <= |caps|
  {
    if |caps| == 0 then 0
    else (if NameMatches(caps[0], target) then 1 else 0) + NameCount(caps[1..], target)
  }

  lemma {:induction false} NameCountPositive(caps: seq<string>, target: string)
    ensures NameCount(caps, target) > 0 <==> exists k :: 0 <= k < |caps| && NameMatches(caps[k], target)
  {
    if |caps| > 0 {
      NameCountPositive(caps[1..], target);
      if !NameMatches(caps[0], target) {
        forall k | 1 <= k < |caps| ensures caps[k] == caps[1..][k - 1] { }
      }
      if NameCount(caps[1..], target) > 0 {
        var k :| 0 <= k < |caps[1..]| && NameMatches(caps[1..][k], target);
        assert caps[k + 1] == caps[1..][k];
      }
    }
  }

  /** The SAVRX name scan's counting loop. */
  method CountNames(caps: seq<string>, target: string) returns (n: nat)
    ensures n == NameCount(caps, target)
    ensures n > 0 <==> exists k :: 0 <= k < |caps| && NameMatches(caps[k], target)
  {
    n := 0;
    var i := 0;
    while i < |caps|
      invariant 0 <= i <= |caps|
      invariant n + NameCount(caps[i..], target) == NameCount(caps, target)
    {
      assert caps[i..][1..] == caps[i + 1..];
      if NameMatches(caps[i], target) {
        n := n + 1;
      }
      i := i + 1;
    }
    NameCountPositive(caps, target);
  }

  /** A loop that stops at the first element satisfying `p`. */
  method AnyHolds<T>(xs: seq<T>, p: T -> bool) returns (found: bool)
    ensures found <==> exists k :: 0 <= k < |xs| && p(xs[k])
  {
    found := false;
    var i := 0;
    while i < |xs|
      invariant 0 <= i <= |xs|
      invariant forall k :: 0 <= k < i ==> !p(xs[k])
    {
      if p(xs[i]) {
        found := true;
        break;
      }
      i := i + 1;
    }
  }

  /** The other name scans' loop: stop at the first capture that matches. */
  method AnyNameMatches(caps: seq<string>, target: string) returns (found: bool)
    ensures found <==> exists k :: 0 <= k < |caps| && NameMatches(caps[k], target)
  {
    found := AnyHolds(caps, c => NameMatches(c, target));
  }

  /** The SAVRX SSN scan's `file_match_count` loop. */
  method CountSsn(caps: seq<string>, ssn: string) returns (n: nat)
    ensures n == multiset(caps)[ssn]
    ensures n > 0 <==> ssn in caps
  {
    n := 0;
    var i := 0;
    while i < |caps|
      invariant 0 <= i <= |caps|
      invariant n == multiset(caps[..i])[ssn]
    {
      assert caps[..i + 1] == caps[..i] + [caps[i]];
      if caps[i] == ssn {
        n := n + 1;
      }
      i := i + 1;
    }
    assert caps[..|caps|] == caps;
  }
}
