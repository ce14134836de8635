/**
 * What the filename codecs promise: each reads back the date a file was
 * named after, the TRI_MED scan is a plain left-to-right window search, and
 * the places where the two builds and the individual grammars differ.
 */
module CodecFacts {
  import opened Wrappers
  import opened Text
  import Calendar
  import opened Codec

  // ---------------------------------------------------------------------
  // Writing a date into a file name, the inverse of `Read`
  // ---------------------------------------------------------------------

  /** Dates a two-digit year can spell (the codecs put them in century 20). */
  predicate InCentury(d: Calendar.Date) { Calendar.Valid(d) && 2000 <= d.year <= 2099 }

  predicate Spellable(l: Layout, d: Calendar.Date)
  {
    Calendar.Valid(d) && (l != YearMonthDay ==> InCentury(d))
  }

  /** The digits a producer writes into a file name for day `d`. */
  function Encode(l: Layout, d: Calendar.Date): (s: string)
    requires Spellable(l, d)
    ensures AllDigits(s) && |s| == Needed(l)
  {
    match l
    case YearMonthDay => Calendar.Pad4(d.year) + Calendar.Pad2(d.month) + Calendar.Pad2(d.day)
    case ShortYearMonthDay => Calendar.Pad2(d.year - 2000) + Calendar.Pad2(d.month) + Calendar.Pad2(d.day)
    case MonthDayShortYear => Calendar.Pad2(d.month) + Calendar.Pad2(d.day) + Calendar.Pad2(d.year - 2000)
  }

  lemma CenturyDigits(y: nat)
    requires 2000 <= y <= 2099
    ensures Calendar.Pad4(y) == "20" + Calendar.Pad2(y - 2000)
  {
    assert y / 100 == 20 && y % 100 == y - 2000;
    assert Calendar.Pad2(20) == "20";
  }

  /** Reading the digits written for a day gives that day's `MM-DD-YYYY` text. */
  lemma ReadEncoded(l: Layout, d: Calendar.Date, tail: string)
    requires Spellable(l, d) && AllDigits(tail)
    ensures Read(l, Encode(l, d) + tail) == Calendar.MonthFirstText(d)
  {
    var s := Encode(l, d) + tail;
    var m, dd := Calendar.Pad2(d.month), Calendar.Pad2(d.day);
    match l
    case YearMonthDay =>
      var y := Calendar.Pad4(d.year);
      assert s[..4] == y && s[4..6] == m && s[6..8] == dd;
    case ShortYearMonthDay =>
      var y := Calendar.Pad2(d.year - 2000);
      CenturyDigits(d.year);
      assert s[..2] == y && s[2..4] == m && s[4..6] == dd;
    case MonthDayShortYear =>
      var y := Calendar.Pad2(d.year - 2000);
      CenturyDigits(d.year);
      assert s[..2] == m && s[2..4] == dd && s[4..6] == y;
  }

  /**
   * An anchored pattern finds the date written right after its prefix at
   * the end of a name, whatever comes before the prefix.
   */
  lemma AtEndRoundTrip(p: Pattern, head: string, d: Calendar.Date, tail: string)
    requires p.AtEnd? && WellFormed(p) && Spellable(p.layout, d)
    requires AllDigits(tail) && |tail| == p.width - Needed(p.layout)
    ensures MatchPattern(p, head + p.prefix + Encode(p.layout, d) + tail) == Some(Calendar.MonthFirstText(d))
  {
    var digits := Encode(p.layout, d) + tail;
    var name := head + p.prefix + Encode(p.layout, d) + tail;
    assert name == head + p.prefix + digits;
    var i := |name| - |p.prefix| - p.width;
    assert i == |head|;
    assert name[i..i + |p.prefix|] == p.prefix;
    assert name[i + |p.prefix|..] == digits;
    ReadEncoded(p.layout, d, tail);
  }

  // ---------------------------------------------------------------------
  // AHH_AMO
  // ---------------------------------------------------------------------

  /** Removing `.834` and `.TXT` from a dot-free stem plus one of those extensions leaves the stem. */
  lemma AhhStemOf(stem: string, ext: string)
    requires '.' !in stem
    requires ext == ".TXT" || ext == ".834"
    ensures AhhStem(stem + ext) == stem
  {
    ReplaceAllSkip(stem, ext, ".834", "");
    ReplaceAllSkip(stem, ReplaceAll(ext, ".834", ""), ".TXT", "");
    assert stem + [] == stem;
  }

  /**
   * An AHH_AMO file named `<stem><YYMMDD><HHMMSS>.TXT` (or `.834`) yields the
   * day it was named after.
   */
  lemma AhhAmoRoundTrip(stem: string, d: Calendar.Date, time: string, ext: string)
    requires '.' !in stem && InCentury(d)
    requires |time| == 6 && AllDigits(time)
    requires ext == ".TXT" || ext == ".834"
    ensures ExtractAhhAmo(stem + Encode(ShortYearMonthDay, d) + time + ext) == Some(Calendar.MonthFirstText(d))
  {
    var base := stem + Encode(ShortYearMonthDay, d) + time;
    assert '.' !in base;
    AhhStemOf(base, ext);
    assert base == stem + "" + Encode(ShortYearMonthDay, d) + time;
    AtEndRoundTrip(AtEnd("", 12, ShortYearMonthDay), stem, d, time);
  }

  /** The codec removes only an upper-case `.TXT`: a lower-case `.txt` name carries no date. */
  lemma AhhAmoLowerCaseTxt(stem: string, digits: string)
    requires '.' !in stem && AllDigits(digits)
    ensures ExtractAhhAmo(stem + digits + ".txt") == None
  {
    var base := stem + digits;
    assert '.' !in base;
    ReplaceAllSkip(base, ".txt", ".834", "");
    assert ReplaceAll(".txt", ".834", "") == ".txt";
    ReplaceAllSkip(base, ".txt", ".TXT", "");
    assert ReplaceAll(".txt", ".TXT", "") == ".txt";
    var stemmed := AhhStem(base + ".txt");
    assert stemmed == base + ".txt";
    assert !IsDigit(stemmed[|stemmed| - 1]);
  }

  // ---------------------------------------------------------------------
  // TELADOC
  // ---------------------------------------------------------------------

  /** Behind a digit-free lead-in, the first eight digits are the ones read. */
  lemma TeladocReadsFirstRun(head: string, digits: string, tail: string)
    requires forall k :: 0 <= k < |head| ==> !IsDigit(head[k])
    requires |digits| == 8 && AllDigits(digits)
    ensures ExtractTeladoc(head + digits + tail) == Some(Read(YearMonthDay, digits))
  {
    var name := head + digits + tail;
    assert name[|head|..|head| + 8] == digits;
    assert RunAt(name, "", 8, |head|);
    forall j | 0 <= j < |head| ensures !RunAt(name, "", 8, j) {
      assert name[j..j + 8][0] == head[j];
    }
    assert FirstRun(name, "", 8, 0) == Some(|head|);
  }

  /** A digit-free lead-in followed by YYYYMMDD: the codec reads that day. */
  lemma TeladocRoundTrip(head: string, d: Calendar.Date, tail: string)
    requires Calendar.Valid(d)
    requires forall k :: 0 <= k < |head| ==> !IsDigit(head[k])
    ensures ExtractTeladoc(head + Encode(YearMonthDay, d) + tail) == Some(Calendar.MonthFirstText(d))
  {
    TeladocReadsFirstRun(head, Encode(YearMonthDay, d), tail);
    assert Encode(YearMonthDay, d) == Encode(YearMonthDay, d) + [];
    ReadEncoded(YearMonthDay, d, []);
  }

  /** The documented TELADOC names `MEITD_20240115.834` and `TEST_MEITD_20240115.834`. */
  lemma TeladocExample()
    ensures ExtractTeladoc("MEITD_20240115.834") == Some("01-15-2024")
    ensures ExtractTeladoc("TEST_MEITD_20240115.834") == Some("01-15-2024")
  {
    var d := "20240115";
    assert d[4..6] == "01" && d[6..8] == "15" && d[..4] == "2024";
    assert Read(YearMonthDay, d) == Stamp("01", "15", "2024") == "01-15-2024";
    assert "MEITD_20240115.834" == "MEITD_" + d + ".834";
    TeladocReadsFirstRun("MEITD_", d, ".834");
    assert "TEST_MEITD_20240115.834" == "TEST_MEITD_" + d + ".834";
    TeladocReadsFirstRun("TEST_MEITD_", d, ".834");
  }

  /** The codec does no range check: a month field of 99 comes through. */
  lemma TeladocKeepsImpossibleMonth()
    ensures ExtractTeladoc("MEITD_20249901.834") == Some("99-01-2024")
  {
    assert Read(YearMonthDay, "20249901") == "99-01-2024" by {
      var d := "20249901";
      assert d[4..6] == "99" && d[6..8] == "01" && d[..4] == "2024";
    }
    assert "MEITD_20249901.834" == "MEITD_" + "20249901" + ".834";
    TeladocReadsFirstRun("MEITD_", "20249901", ".834");
  }

  /** ... and the sort key of the scans cannot parse it. */
  lemma MonthNinetyNineDoesNotParse()
    ensures Calendar.ParseMonthFirst("99-01-2024").None?
  {
    StampFields("99", "01", "2024");
    assert "99-01-2024" == Stamp("99", "01", "2024");
    assert Value("99") == 99 by {
      assert "99"[..1] == "9";
      assert Value("9") == 9;
    }
    assert !Calendar.MonthField("99");
  }

  // ---------------------------------------------------------------------
  // SAVRX
  // ---------------------------------------------------------------------

  lemma UpperIdempotent(s: string)
    ensures Upper(Upper(s)) == Upper(s)
  {
  }

  /** SAVRX codecs ignore letter case. */
  lemma SavRxIgnoresCase(folder: string, filename: string)
    ensures ExtractSavRx(folder, Upper(filename)) == ExtractSavRx(folder, filename)
  {
    UpperIdempotent(filename);
  }

  /** SAVRX codecs ignore everything from the first `.` on. */
  lemma SavRxIgnoresExtension(folder: string, stem: string, ext: string)
    requires '.' !in stem
    ensures ExtractSavRx(folder, stem + "." + ext) == ExtractSavRx(folder, stem)
  {
    var u := Upper(stem);
    assert '.' !in u by {
      forall k | 0 <= k < |u| ensures u[k] != '.' {
        assert stem[k] != '.';
      }
    }
    assert Upper(stem + "." + ext) == u + ['.'] + Upper(ext);
    SplitAround(u, '.', Upper(ext));
    SplitNoSep(u, '.');
  }

  /**
   * Two anchored patterns cannot both match one name when the first has the
   * shorter (or equally long) run and its prefix ends in a non-digit that the
   * other pattern cannot have at that position.
   */
  lemma AtEndExclusive(p: Pattern, q: Pattern, name: string)
    requires p.AtEnd? && q.AtEnd? && WellFormed(p) && WellFormed(q)
    requires |p.prefix| > 0 && !IsDigit(p.prefix[|p.prefix| - 1])
    requires p.width < q.width
          || (p.width == q.width && |q.prefix| > 0 && q.prefix[|q.prefix| - 1] != p.prefix[|p.prefix| - 1])
    ensures !(MatchPattern(p, name).Some? && MatchPattern(q, name).Some?)
  {
    if MatchPattern(p, name).Some? {
      var i := |name| - |p.prefix| - p.width;
      var k := |name| - p.width - 1;
      assert !IsDigit(name[k]) by {
        assert name[i..i + |p.prefix|][|p.prefix| - 1] == name[k];
      }
      var j := |name| - |q.prefix| - q.width;
      if 0 <= j && p.width < q.width {
        assert !AllDigits(name[j + |q.prefix|..j + |q.prefix| + q.width]) by {
          assert name[j + |q.prefix|..j + |q.prefix| + q.width][k - j - |q.prefix|] == name[k];
        }
      } else if 0 <= j {
        assert name[j..j + |q.prefix|] != q.prefix by {
          assert name[j..j + |q.prefix|][|q.prefix| - 1] == name[k];
        }
      }
      assert !RunAt(name, q.prefix, q.width, j);
    }
  }

  /**
   * Within every SAVRX grammar at most one anchored pattern matches a name,
   * so their order matters only for OEW, whose second pattern is not anchored.
   */
  lemma SavRxAnchoredPatternsExclusive(folder: string, i: nat, j: nat, name: string)
    requires Grammar(folder).Some?
    requires i < j < |Grammar(folder).value|
    requires Grammar(folder).value[i].AtEnd? && Grammar(folder).value[j].AtEnd?
    ensures !(MatchPattern(Grammar(folder).value[i], name).Some? && MatchPattern(Grammar(folder).value[j], name).Some?)
  {
    var g := Grammar(folder).value;
    if g[i].width <= g[j].width {
      AtEndExclusive(g[i], g[j], name);
    } else {
      AtEndExclusive(g[j], g[i], name);
    }
  }

  lemma UpperConcat(a: string, b: string)
    ensures Upper(a + b) == Upper(a) + Upper(b)
  {
  }

  lemma UpperDigits(s: string)
    requires AllDigits(s)
    ensures Upper(s) == s
  {
  }

  lemma UpperNoDot(s: string)
    requires '.' !in s
    ensures '.' !in Upper(s)
  {
    forall k | 0 <= k < |s| ensures Upper(s)[k] != '.' {
      assert s[k] != '.';
    }
  }

  lemma UpperStamped(stem: string, digits: string)
    requires AllDigits(digits)
    ensures Upper(stem + "_" + digits) == Upper(stem) + "_" + digits
  {
    UpperConcat(stem, "_");
    UpperConcat(stem + "_", digits);
    UpperDigits(digits);
  }

  lemma UpperDotted(x: string, ext: string)
    ensures Upper(x + "." + ext) == Upper(x) + ['.'] + Upper(ext)
  {
    UpperConcat(x, ".");
    UpperConcat(x + ".", ext);
  }

  lemma StampedNoDot(stem: string, digits: string)
    requires '.' !in stem && AllDigits(digits)
    ensures '.' !in Upper(stem) + "_" + digits
  {
    UpperNoDot(stem);
    assert '.' !in digits by {
      forall k | 0 <= k < |digits| ensures digits[k] != '.' {
        assert IsDigit(digits[k]);
      }
    }
  }

  /** The normalised SAVRX name is what precedes the first dot. */
  lemma SavRxNameBeforeDot(name: string, u: string, rest: string)
    requires Upper(name) == u + ['.'] + rest && '.' !in u
    ensures SavRxName(name) == u
  {
    SplitAround(u, '.', rest);
  }

  /** The normalised SAVRX name of `<stem>_<digits>.<ext>` is the upper-cased stem, `_` and the digits. */
  lemma SavRxNameOfStamped(stem: string, digits: string, ext: string)
    requires '.' !in stem && AllDigits(digits)
    ensures SavRxName(stem + "_" + digits + "." + ext) == Upper(stem) + "_" + digits
  {
    UpperStamped(stem, digits);
    UpperDotted(stem + "_" + digits, ext);
    StampedNoDot(stem, digits);
    SavRxNameBeforeDot(stem + "_" + digits + "." + ext, Upper(stem) + "_" + digits, Upper(ext));
  }

  /** The J84-specific patterns cannot match a name whose seventh character from the end is `_`. */
  lemma J84EdiPatternsMiss(name: string)
    requires |name| >= 7 && name[|name| - 7] == '_'
    ensures MatchPattern(AtEnd("J84_EDI", 6, MonthDayShortYear), name).None?
    ensures MatchPattern(AtEnd("J84_EDI", 12, ShortYearMonthDay), name).None?
  {
    if |name| >= 13 {
      var i := |name| - 13;
      assert name[i..i + 7][6] == name[|name| - 7];
    }
    if |name| >= 19 {
      var i := |name| - 19;
      assert name[i + 7..i + 19][5] == name[|name| - 7];
    }
  }

  /** A name ending `_MMDDYY`: the grammar of MEI, TRI and TRI_NONMEDICARE, and that of J84, read it. */
  lemma TrailingGrammarsRead(name: string, d: Calendar.Date)
    requires InCentury(d)
    requires EndsWith(name, "_" + Encode(MonthDayShortYear, d))
    ensures FirstMatch(TrailingStampGrammar, name) == Some(Calendar.MonthFirstText(d))
    ensures FirstMatch(Grammar("J84").value, name) == Some(Calendar.MonthFirstText(d))
  {
    var stamp := Encode(MonthDayShortYear, d);
    var head := name[..|name| - 7];
    assert name == head + "_" + stamp + [];
    AtEndRoundTrip(AtEnd("_", 6, MonthDayShortYear), head, d, []);
    assert name[|name| - 7] == '_';
    J84EdiPatternsMiss(name);
    var g := Grammar("J84").value;
    assert FirstMatch(g, name) == FirstMatch(g[1..], name);
    assert FirstMatch(g[1..], name) == FirstMatch(g[2..], name);
  }

  /** MEI, TRI, TRI_NONMEDICARE and J84: a name ending `_MMDDYY` yields that day. */
  lemma SavRxTrailingMmDdYy(folder: string, stem: string, d: Calendar.Date, ext: string)
    requires folder == "MEI" || folder == "TRI" || folder == "TRI_NONMEDICARE" || folder == "J84"
    requires '.' !in stem && InCentury(d)
    ensures ExtractSavRx(folder, stem + "_" + Encode(MonthDayShortYear, d) + "." + ext)
            == Some(Calendar.MonthFirstText(d))
  {
    var stamp := Encode(MonthDayShortYear, d);
    var f := stem + "_" + stamp + "." + ext;
    SavRxNameOfStamped(stem, stamp, ext);
    var name := Upper(stem) + "_" + stamp;
    assert SavRxName(f) == name;
    assert EndsWith(name, "_" + stamp) by {
      assert name == Upper(stem) + ("_" + stamp);
    }
    TrailingGrammarsRead(name, d);
    if folder == "J84" {
      SavRxUnfold(folder, f);
    } else {
      TrailingFolders(folder);
      SavRxUnfold(folder, f);
    }
  }

  lemma TrailingFolders(folder: string)
    requires folder == "MEI" || folder == "TRI" || folder == "TRI_NONMEDICARE"
    ensures Grammar(folder) == Some(TrailingStampGrammar)
  {
  }

  lemma SavRxUnfold(folder: string, filename: string)
    requires Grammar(folder).Some?
    ensures ExtractSavRx(folder, filename) == FirstMatch(Grammar(folder).value, SavRxName(filename))
  {
  }

  /** A name with no dot and no lower-case letter is its own normalised SAVRX name. */
  lemma PlainSavRxName(head: string, stamp: string, time: string)
    requires '.' !in head && forall k :: 0 <= k < |head| ==> 'a' > head[k] || head[k] > 'z'
    requires AllDigits(stamp) && AllDigits(time)
    ensures SavRxName(head + "_" + stamp + time) == head + "_" + stamp + time
  {
    var plain := head + "_" + stamp + time;
    assert forall k :: |head| < k < |plain| ==> IsDigit(plain[k]) by {
      forall k | |head| < k < |plain| ensures IsDigit(plain[k]) {
        if k < |head| + 1 + |stamp| {
          assert plain[k] == stamp[k - |head| - 1];
        } else {
          assert plain[k] == time[k - |head| - 1 - |stamp|];
        }
      }
    }
    assert Upper(plain) == plain by {
      forall k | 0 <= k < |plain| ensures UpperChar(plain[k]) == plain[k] {
        if k < |head| {
          assert plain[k] == head[k];
        }
      }
    }
    assert '.' !in plain by {
      forall k | 0 <= k < |plain| ensures plain[k] != '.' {
        if k < |head| {
          assert plain[k] == head[k];
        }
      }
    }
    SplitNoSep(plain, '.');
  }

  /** OEW's anchored pattern, when it matches, decides. */
  lemma OewFirstPattern(filename: string)
    requires MatchPattern(AtEnd("_", 12, ShortYearMonthDay), SavRxName(filename)).Some?
    ensures ExtractSavRx("OEW", filename) == MatchPattern(AtEnd("_", 12, ShortYearMonthDay), SavRxName(filename))
  {
  }

  /**
   * OEW tries the trailing timestamp first: a name ending `_YYMMDDHHMMSS`
   * yields that day even when an earlier `_YYYYMMDD` is present.
   */
  lemma OewPrefersTrailingTimestamp(head: string, d: Calendar.Date, time: string)
    requires '.' !in head && InCentury(d)
    requires forall k :: 0 <= k < |head| ==> 'a' > head[k] || head[k] > 'z'
    requires |time| == 6 && AllDigits(time)
    ensures ExtractSavRx("OEW", head + "_" + Encode(ShortYearMonthDay, d) + time)
            == Some(Calendar.MonthFirstText(d))
  {
    var stamp := Encode(ShortYearMonthDay, d);
    PlainSavRxName(head, stamp, time);
    AtEndRoundTrip(AtEnd("_", 12, ShortYearMonthDay), head, d, time);
    OewFirstPattern(head + "_" + stamp + time);
  }

  /** When OEW's anchored pattern misses, its searched pattern decides. */
  lemma OewSecondPattern(filename: string)
    requires MatchPattern(AtEnd("_", 12, ShortYearMonthDay), SavRxName(filename)).None?
    ensures ExtractSavRx("OEW", filename) == MatchPattern(Anywhere("_", 8, YearMonthDay), SavRxName(filename))
  {
    var ps, name := Grammar("OEW").value, SavRxName(filename);
    var rest := ps[1..];
    assert rest == [Anywhere("_", 8, YearMonthDay)];
    assert FirstMatch(ps, name) == FirstMatch(rest, name);
    assert FirstMatch(rest[1..], name) == None;
  }

  /** OEW's searched pattern reads the first `_YYYYMMDD` when the lead-in holds no `_`. */
  lemma OewEmbeddedRun(head: string, digits: string, tail: string)
    requires '_' !in head && |digits| == 8 && AllDigits(digits)
    ensures MatchPattern(Anywhere("_", 8, YearMonthDay), head + "_" + digits + tail) == Some(Read(YearMonthDay, digits))
  {
    var name := head + "_" + digits + tail;
    assert name[|head|..|head| + 1] == "_";
    assert name[|head| + 1..|head| + 9] == digits;
    assert RunAt(name, "_", 8, |head|);
    forall j | 0 <= j < |head| ensures !RunAt(name, "_", 8, j) {
      assert name[j..j + 1][0] == head[j];
    }
    assert FirstRun(name, "_", 8, 0) == Some(|head|);
  }

  /** With a single `_`, followed by other than twelve digits, OEW's anchored pattern misses. */
  lemma OewNoTrailingStamp(head: string, digits: string, tail: string)
    requires '_' !in head && |digits| == 8 && AllDigits(digits) && AllDigits(tail) && |tail| != 4
    ensures MatchPattern(AtEnd("_", 12, ShortYearMonthDay), head + "_" + digits + tail).None?
  {
    var name := head + "_" + digits + tail;
    var i := |name| - 13;
    if 0 <= i {
      assert name[i..i + 1][0] == name[i];
      if i < |head| {
        assert name[i] == head[i];
      } else if i < |head| + 9 {
        assert name[i] == digits[i - |head| - 1];
      } else {
        assert name[i] == tail[i - |head| - 9];
      }
    }
  }

  /**
   * Without a trailing twelve-digit stamp, OEW reads the first `_YYYYMMDD`:
   * a name `<head>_<YYYYMMDD><digits>` yields that day unless exactly four
   * digits follow, which would make a twelve-digit stamp.
   */
  lemma OewReadsEmbeddedDate(head: string, d: Calendar.Date, tail: string)
    requires '.' !in head && '_' !in head && forall k :: 0 <= k < |head| ==> 'a' > head[k] || head[k] > 'z'
    requires Calendar.Valid(d) && AllDigits(tail) && |tail| != 4
    ensures ExtractSavRx("OEW", head + "_" + Encode(YearMonthDay, d) + tail) == Some(Calendar.MonthFirstText(d))
  {
    var stamp := Encode(YearMonthDay, d);
    PlainSavRxName(head, stamp, tail);
    OewNoTrailingStamp(head, stamp, tail);
    OewEmbeddedRun(head, stamp, tail);
    assert stamp == stamp + [];
    ReadEncoded(YearMonthDay, d, []);
    OewSecondPattern(head + "_" + stamp + tail);
  }

  // ---------------------------------------------------------------------
  // ANTHEM_ABC_MUSGROW: the TRI_MED scan
  // ---------------------------------------------------------------------

  /** Windows of `x + y` from past `x` on are the windows of `y`. */
  lemma {:induction false} WindowsShift(x: string, y: string, j: nat)
    ensures ScanWindows(x + y, |x| + j) == ScanWindows(y, j)
    decreases |y| - j
  {
    if j + 6 <= |y| {
      assert (x + y)[|x| + j..|x| + j + 6] == y[j..j + 6];
      WindowsShift(x, y, j + 1);
    }
  }

  /** One step of the window scan. */
  lemma ScanWindowsAt(s: string, i: nat)
    requires i + 6 <= |s|
    ensures ScanWindows(s, i)
            == if WindowDate(s[i..i + 6]).Some? then WindowDate(s[i..i + 6]) else ScanWindows(s, i + 1)
  {
  }

  /** The window `part[t:t+6]` exists and reads as a date. */
  predicate DateWindow(part: string, t: int)
  {
    0 <= t && t + 6 <= |part| && WindowDate(part[t..t + 6]).Some?
  }

  /** The scan returns the first window from `i` on that reads as a date. */
  lemma {:induction false} ScanWindowsIsFirst(part: string, i: nat, j: nat)
    requires i <= j && DateWindow(part, j)
    requires forall t :: i <= t < j ==> !DateWindow(part, t)
    ensures ScanWindows(part, i) == WindowDate(part[j..j + 6])
    decreases j - i
  {
    if i < j {
      assert !DateWindow(part, i);
      ScanWindowsIsFirst(part, i + 1, j);
    }
  }

  /** The scan finds nothing exactly when no window from `i` on reads as a date. */
  lemma {:induction false} ScanWindowsNone(part: string, i: nat)
    ensures ScanWindows(part, i).None? <==> forall t :: i <= t ==> !DateWindow(part, t)
    decreases |part| - i
  {
    if i + 6 <= |part| {
      ScanWindowsNone(part, i + 1);
      assert DateWindow(part, i) <==> WindowDate(part[i..i + 6]).Some?;
    } else {
      forall t | i <= t ensures !DateWindow(part, t) {
      }
    }
  }

  /** A window holding a `_` reads as no date. */
  lemma WindowWithUnderscore(w: string, k: nat)
    requires |w| == 6 && k < 6 && w[k] == '_'
    ensures WindowDate(w).None?
  {
    assert !IsDigit(w[k]);
  }

  /**
   * Scanning across a `_`: the windows inside `a` come first, those that
   * straddle the `_` hold no date, and then come the windows of `b`.
   */
  lemma {:induction false} WindowsAcross(a: string, b: string, i: nat)
    requires '_' !in a && i <= |a| + 1
    ensures ScanWindows(a + "_" + b, i) == FirstOf(ScanWindows(a, i), ScanWindows(b, 0))
    decreases |a| + 1 - i
  {
    var s := a + "_" + b;
    if i == |a| + 1 {
      assert s == (a + "_") + b;
      WindowsShift(a + "_", b, 0);
    } else if i + 6 <= |a| {
      assert s[i..i + 6] == a[i..i + 6];
      WindowsAcross(a, b, i + 1);
      ScanWindowsAt(s, i);
      ScanWindowsAt(a, i);
    } else if i + 6 <= |s| {
      assert s[i..i + 6][|a| - i] == '_';
      WindowWithUnderscore(s[i..i + 6], |a| - i);
      WindowsAcross(a, b, i + 1);
      ScanWindowsAt(s, i);
    } else {
      assert |b| < 6;
    }
  }

  /**
   * The TRI_MED scan over the `_`-separated parts finds exactly the first
   * six-character window of the whole remainder that reads as a date.
   */
  lemma {:induction false} TriMedScanIsFirstWindow(rest: string)
    ensures ScanParts(Split(rest, '_')) == ScanWindows(rest, 0)
    decreases |rest|
  {
    if '_' !in rest {
      SplitNoSep(rest, '_');
      assert Split(rest, '_')[1..] == [];
    } else {
      var k := IndexOf(rest, '_');
      var a, b := rest[..k], rest[k + 1..];
      assert rest == a + "_" + b;
      SplitAround(a, '_', b);
      var parts := Split(rest, '_');
      assert parts[0] == a && parts[1..] == Split(b, '_');
      TriMedScanIsFirstWindow(b);
      WindowsAcross(a, b, 0);
    }
  }

  // ---------------------------------------------------------------------
  // ANTHEM_ABC_MUSGROW: the prefix-and-digits readings
  // ---------------------------------------------------------------------

  lemma AnthemFolderHasNoDot(folder: string)
    requires folder in AnthemFolders
    ensures '.' !in folder
  {
  }

  /** Removing `.834` from a dot-free stem plus `.834` leaves the stem. */
  lemma AnthemNameOf(stem: string)
    requires '.' !in stem
    ensures AnthemName(stem + ".834") == stem
  {
    ReplaceAllSkip(stem, ".834", ".834", "");
    assert stem + [] == stem;
  }

  /** The text the codec reads after the folder prefix of `<folder><digits>.834`. */
  lemma AnthemRestOf(folder: string, digits: string)
    requires folder in AnthemFolders && AllDigits(digits)
    ensures AnthemName(folder + digits + ".834") == folder + digits
    ensures StartsWith(folder + digits, folder)
    ensures (folder + digits)[|folder|..] == digits
  {
    AnthemFolderHasNoDot(folder);
    assert '.' !in folder + digits;
    AnthemNameOf(folder + digits);
    assert (folder + digits)[..|folder|] == folder;
  }

  /** The Anthem codec on `<folder><digits>.834`, with the name handling peeled off. */
  lemma AnthemOnDigits(build: Build, folder: string, digits: string)
    requires folder in AnthemFolders && AllDigits(digits)
    ensures ExtractAnthem(build, folder + digits + ".834", folder)
            == if build == Hosted && ReadLong(digits).Some? then Found(ReadLong(digits).value)
               else ReadShort(build, folder, digits)
  {
    AnthemRestOf(folder, digits);
  }

  /** The three two-digit fields of a YYMMDD spelling. */
  lemma ShortYearFields(d: Calendar.Date)
    requires InCentury(d)
    ensures var six := Encode(ShortYearMonthDay, d);
      six[..2] == Calendar.Pad2(d.year - 2000) && six[2..4] == Calendar.Pad2(d.month) && six[4..6] == Calendar.Pad2(d.day)
  {
  }

  /** A valid day's padded fields pass the month/day check unchanged. */
  lemma ValidFieldsAccepted(d: Calendar.Date)
    requires Calendar.Valid(d)
    ensures CheckMonthDay(Calendar.Pad2(d.month), Calendar.Pad2(d.day))
            == Accept(Calendar.Pad2(d.month), Calendar.Pad2(d.day))
  {
    Calendar.Pad2Value(d.month);
    Calendar.Pad2Value(d.day);
  }

  /** The stamp of a day of this century is its `MM-DD-YYYY` text. */
  lemma CenturyStamp(d: Calendar.Date)
    requires InCentury(d)
    ensures Stamp(Calendar.Pad2(d.month), Calendar.Pad2(d.day), "20" + Calendar.Pad2(d.year - 2000))
            == Calendar.MonthFirstText(d)
  {
    CenturyDigits(d.year);
  }

  /**
   * Both builds read a file named `<folder><YYMMDD>.834` as the day it was
   * named after.
   */
  lemma AnthemRoundTrip(build: Build, folder: string, d: Calendar.Date)
    requires folder in AnthemFolders && InCentury(d)
    ensures ExtractAnthem(build, folder + Encode(ShortYearMonthDay, d) + ".834", folder)
            == Found(Calendar.MonthFirstText(d))
  {
    var six := Encode(ShortYearMonthDay, d);
    AnthemOnSix(build, folder, six);
    ReadShortSix(build, folder, six);
    ShortYearFields(d);
    ValidFieldsAccepted(d);
    CenturyStamp(d);
  }

  /** The YYMMDD reading of exactly six digits. */
  lemma ReadShortSix(build: Build, folder: string, six: string)
    requires |six| == 6 && AllDigits(six)
    ensures ReadShort(build, folder, six)
            == match CheckMonthDay(six[2..4], six[4..6])
               case Accept(m, d) => Found(Stamp(m, d, "20" + six[..2]))
               case _ => if build == Desktop then NoDate else TriMedFallback(folder, six)
  {
    assert Slice(six, 0, 6) == six;
    assert Slice(six, 2, 4) == six[2..4] && Slice(six, 4, 6) == six[4..6] && Slice(six, 0, 2) == six[..2];
  }

  /** `<folder><six digits>.834` with the fourteen-digit reading ruled out. */
  lemma AnthemOnSix(build: Build, folder: string, six: string)
    requires folder in AnthemFolders && |six| == 6 && AllDigits(six)
    ensures ExtractAnthem(build, folder + six + ".834", folder) == ReadShort(build, folder, six)
  {
    AnthemOnDigits(build, folder, six);
    assert ReadLong(six).None?;
  }

  /**
   * YYDDMM names: when the month field exceeds 12 and the day field does
   * not, the two are swapped.
   */
  lemma AnthemSwapsOverflowingMonth(build: Build, folder: string, six: string)
    requires folder in AnthemFolders && |six| == 6 && AllDigits(six)
    requires 12 < Value(six[2..4]) <= 31 && 1 <= Value(six[4..6]) <= 12
    ensures ExtractAnthem(build, folder + six + ".834", folder) == Found(Stamp(six[4..6], six[2..4], "20" + six[..2]))
  {
    AnthemOnSix(build, folder, six);
    ReadShortSix(build, folder, six);
  }

  /**
   * Six digits whose month and day fields both exceed 12 are no date to the
   * codec, in either build, outside TRI_MED.
   */
  lemma AnthemRejectsTwoOverflowingFields(build: Build, folder: string, six: string)
    requires folder in AnthemFolders && folder != "TRI_MED" && |six| == 6 && AllDigits(six)
    requires Value(six[2..4]) > 12 && Value(six[4..6]) > 12
    ensures ExtractAnthem(build, folder + six + ".834", folder) == NoDate
  {
    AnthemOnSix(build, folder, six);
    ReadShortSix(build, folder, six);
  }

  /**
   * One to four digits after the prefix make `int('')` raise (unless the
   * month field is `0` or `00`, which is rejected before the day is read):
   * the codec does not return at all.
   */
  lemma AnthemShortRunRaises(build: Build, folder: string, digits: string)
    requires folder in AnthemFolders
    requires 1 <= |digits| <= 4 && AllDigits(digits)
    requires |digits| <= 2 || Value(digits[2..]) >= 1
    ensures ExtractAnthem(build, folder + digits + ".834", folder) == Raised
  {
    AnthemOnDigits(build, folder, digits);
    assert ReadLong(digits).None?;
    assert Slice(digits, 0, 6) == digits;
    if |digits| > 2 {
      assert Slice(digits, 2, 4) == digits[2..];
    }
  }

  /** A file whose name is just `<folder>.834` carries no date; it does not raise. */
  lemma AnthemBareFolder(build: Build, folder: string)
    requires folder in AnthemFolders && folder != "TRI_MED"
    ensures ExtractAnthem(build, folder + ".834", folder) == NoDate
  {
    assert folder + "" == folder;
    AnthemOnDigits(build, folder, "");
    assert Slice("", 0, 6) == "";
  }

  /**
   * The codec checks the day against 31, not against the month: February 31
   * comes through in either build ...
   */
  lemma AnthemFebruaryThirtyFirst(build: Build, folder: string, yy: string)
    requires folder in AnthemFolders && |yy| == 2 && AllDigits(yy)
    ensures ExtractAnthem(build, folder + (yy + "0231") + ".834", folder) == Found(Stamp("02", "31", "20" + yy))
  {
    var six := yy + "0231";
    assert six[2..4] == "02" && six[4..6] == "31" && six[..2] == yy;
    Calendar.ValueTwo("02");
    Calendar.ValueTwo("31");
    AnthemSwapFree(build, folder, six);
  }

  /** Six digits whose month field is 1..12 and day field 1..31 are read as they stand. */
  lemma AnthemSwapFree(build: Build, folder: string, six: string)
    requires folder in AnthemFolders && |six| == 6 && AllDigits(six)
    requires 1 <= Value(six[2..4]) <= 12 && 1 <= Value(six[4..6]) <= 31
    ensures ExtractAnthem(build, folder + six + ".834", folder) == Found(Stamp(six[2..4], six[4..6], "20" + six[..2]))
  {
    AnthemOnSix(build, folder, six);
    ReadShortSix(build, folder, six);
  }

  /** ... and no `MM-DD-YYYY` text for February 31 parses, so the scans' sort key fails on it. */
  lemma FebruaryThirtyFirstDoesNotParse(yyyy: string)
    requires |yyyy| == 4 && AllDigits(yyyy)
    ensures Calendar.ParseMonthFirst(Stamp("02", "31", yyyy)).None?
  {
    StampFields("02", "31", yyyy);
    Calendar.MonthFirstOfFields(Stamp("02", "31", yyyy), "02", "31", yyyy);
    FebruaryThirtyFirstRejected(yyyy);
  }

  lemma FebruaryThirtyFirstRejected(yyyy: string)
    requires Calendar.YearField(yyyy)
    ensures Calendar.MonthField("02") && Calendar.DayField("31") && Calendar.FromFields(yyyy, "02", "31").None?
  {
    Calendar.ValueTwo("02");
    Calendar.ValueTwo("31");
  }

  /** The hosted build reads fourteen digits YYYYMMDDHHMMSS after the prefix. */
  lemma HostedFourteen(folder: string, digits: string)
    requires folder in AnthemFolders && |digits| == 14 && AllDigits(digits)
    requires 1 <= Value(digits[4..6]) <= 12 && 1 <= Value(digits[6..8]) <= 31
    ensures ExtractAnthem(Hosted, folder + digits + ".834", folder)
            == Found(Stamp(digits[4..6], digits[6..8], digits[..4]))
  {
    AnthemOnDigits(Hosted, folder, digits);
    assert Slice(digits, 0, 14) == digits;
  }

  /** The desktop build reads only the first six of them. */
  lemma DesktopFourteen(folder: string, digits: string)
    requires folder in AnthemFolders && |digits| == 14 && AllDigits(digits)
    ensures ExtractAnthem(Desktop, folder + digits + ".834", folder) == ReadShort(Desktop, folder, digits[..6])
  {
    AnthemOnDigits(Desktop, folder, digits);
    assert Slice(digits, 0, 6) == digits[..6];
    assert Slice(digits[..6], 0, 6) == digits[..6];
  }

  /**
   * The builds disagree on fourteen-digit names: for `OCU20220106152506`
   * the hosted build reads January 6, 2022, while the desktop build reads
   * `202201` as year 20, day 22, month 01 and gets January 22, 2020.
   */
  lemma FourteenDigitsDisagree(folder: string, digits: string)
    requires folder in AnthemFolders && |digits| == 14 && AllDigits(digits)
    requires 1 <= Value(digits[4..6]) <= 12 && 1 <= Value(digits[6..8]) <= 31
    requires 12 < Value(digits[2..4]) <= 31
    ensures ExtractAnthem(Hosted, folder + digits + ".834", folder)
            == Found(Stamp(digits[4..6], digits[6..8], digits[..4]))
    ensures ExtractAnthem(Desktop, folder + digits + ".834", folder)
            == Found(Stamp(digits[4..6], digits[2..4], "20" + digits[..2]))
  {
    HostedFourteen(folder, digits);
    DesktopFourteen(folder, digits);
    var six := digits[..6];
    assert six[2..4] == digits[2..4] && six[4..6] == digits[4..6] && six[..2] == digits[..2];
    ReadShortSix(Desktop, folder, six);
  }

  /** Name handling for `TRI_MED<rest>.834` with a dot-free remainder. */
  lemma TriMedRest(build: Build, rest: string)
    requires '.' !in rest
    ensures ExtractAnthem(build, "TRI_MED" + rest + ".834", "TRI_MED")
            == if build == Hosted && ReadLong(rest).Some? then Found(ReadLong(rest).value)
               else ReadShort(build, "TRI_MED", rest)
  {
    var name := "TRI_MED" + rest;
    assert '.' !in name;
    AnthemNameOf(name);
    assert name[..7] == "TRI_MED" && name[7..] == rest;
  }

  /**
   * When six digits after TRI_MED fail the test, the desktop build gives up
   * while the hosted build goes on to the window scan of the whole remainder.
   */
  lemma TriMedRejectedDigits(build: Build, six: string, tail: string)
    requires |six| == 6 && AllDigits(six) && '.' !in tail && |tail| > 0 && !IsDigit(tail[0])
    requires CheckMonthDay(six[2..4], six[4..6]) == Reject
    ensures ExtractAnthem(build, "TRI_MED" + (six + tail) + ".834", "TRI_MED")
            == if build == Desktop then NoDate
               else match ScanWindows(six + tail, 0) case Some(d) => Found(d) case None => NoDate
  {
    var rest := six + tail;
    assert '.' !in rest;
    TriMedRest(build, rest);
    assert Slice(rest, 0, 14)[6] == tail[0];
    assert ReadLong(rest).None?;
    assert Slice(rest, 0, 6) == six;
    ReadShortSix(build, "TRI_MED", six);
    assert ReadShort(build, "TRI_MED", rest) == ReadShort(build, "TRI_MED", six) || build == Hosted;
    TriMedScanIsFirstWindow(rest);
  }

  /** A rejected six-digit part, `_`, and an accepted one: the scan finds the second. */
  lemma ScanSkipsRejectedPart(six: string, w: string)
    requires |six| == 6 && AllDigits(six) && CheckMonthDay(six[2..4], six[4..6]) == Reject
    requires |w| == 6 && WindowDate(w).Some?
    ensures ScanWindows(six + ("_" + w), 0) == WindowDate(w)
  {
    assert six + ("_" + w) == six + "_" + w;
    WindowsAcross(six, w, 0);
    SingleWindow(six);
    SingleWindow(w);
  }

  /** A six-character text holds one window. */
  lemma SingleWindow(w: string)
    requires |w| == 6
    ensures ScanWindows(w, 0) == WindowDate(w)
  {
    ScanWindowsAt(w, 0);
    assert w[0..6] == w;
  }

  lemma UnderscoreThenDigits(w: string)
    requires |w| == 6 && WindowDate(w).Some?
    ensures '.' !in "_" + w && !IsDigit(("_" + w)[0])
  {
    assert AllDigits(w);
    forall k | 0 <= k < 6 ensures w[k] != '.' {
      assert IsDigit(w[k]);
    }
  }

  /**
   * `TRI_MED<YYMMDD>_<YYMMDD>.834` whose first six digits fail the test
   * (`TRI_MED991399_240115.834`, say): no date to the desktop build, the
   * second group to the hosted build.
   */
  lemma AnthemBuildsDifferOnRejectedDigits(six: string, w: string)
    requires |six| == 6 && AllDigits(six) && CheckMonthDay(six[2..4], six[4..6]) == Reject
    requires |w| == 6 && WindowDate(w).Some?
    ensures ExtractAnthem(Desktop, "TRI_MED" + (six + ("_" + w)) + ".834", "TRI_MED") == NoDate
    ensures ExtractAnthem(Hosted, "TRI_MED" + (six + ("_" + w)) + ".834", "TRI_MED") == Found(WindowDate(w).value)
  {
    UnderscoreThenDigits(w);
    TriMedRejectedDigits(Desktop, six, "_" + w);
    TriMedRejectedDigits(Hosted, six, "_" + w);
    ScanSkipsRejectedPart(six, w);
  }
}
