/**
 * Filename date codecs: each company's archive names files after the day
 * they were produced, and each codec reads that day back out of a file name
 * as an `MM-DD-YYYY` string (or reports that the name carries none).
 */
module Codec {
  import opened Wrappers
  import opened Text
  import Calendar

  /** The two shipped builds of the logic module (desktop and hosted server). */
  datatype Build = Desktop | Hosted

  /** The `f"{mm}-{dd}-{yyyy}"` text every codec returns. */
  function Stamp(mm: string, dd: string, yyyy: string): string
  {
    mm + "-" + dd + "-" + yyyy
  }

  /** `MM-DD-YYYY` made of digits, with no check on the ranges. */
  predicate Shaped(s: string)
  {
    var p := Split(s, '-');
    |p| == 3 && |p[0]| == 2 && |p[1]| == 2 && |p[2]| == 4
    && AllDigits(p[0]) && AllDigits(p[1]) && AllDigits(p[2])
  }

  /** Digit fields month-day-year with month in 1..12, day in 1..31 and a four-digit year. */
  predicate InRangeText(s: string)
  {
    var p := Split(s, '-');
    |p| == 3 && AllDigits(p[0]) && AllDigits(p[1]) && AllDigits(p[2]) && |p[2]| == 4
    && 1 <= Value(p[0]) <= 12 && 1 <= Value(p[1]) <= 31
  }

  lemma StampFields(mm: string, dd: string, yyyy: string)
    requires AllDigits(mm) && AllDigits(dd) && AllDigits(yyyy)
    ensures Split(Stamp(mm, dd, yyyy), '-') == [mm, dd, yyyy]
  {
    Calendar.SplitThree(mm, dd, yyyy);
  }

  // ---------------------------------------------------------------------
  // Fixed-position digit runs, shared by the AHH_AMO, TELADOC and SAVRX codecs
  // ---------------------------------------------------------------------

  /** How a run of digits spells a date. */
  datatype Layout =
    | YearMonthDay        // YYYYMMDD
    | ShortYearMonthDay   // YYMMDD, century 20
    | MonthDayShortYear   // MMDDYY, century 20

  function Needed(l: Layout): nat
  {
    if l == YearMonthDay then 8 else 6
  }

  /** Read the date at the front of a digit run. */
  function Read(l: Layout, d: string): (r: string)
    requires AllDigits(d) && |d| >= Needed(l)
    ensures Shaped(r)
  {
    match l
    case YearMonthDay =>
      StampFields(d[4..6], d[6..8], d[..4]);
      Stamp(d[4..6], d[6..8], d[..4])
    case ShortYearMonthDay =>
      StampFields(d[2..4], d[4..6], "20" + d[..2]);
      Stamp(d[2..4], d[4..6], "20" + d[..2])
    case MonthDayShortYear =>
      StampFields(d[..2], d[2..4], "20" + d[4..6]);
      Stamp(d[..2], d[2..4], "20" + d[4..6])
  }

  /**
   * One regular expression of a codec: a literal prefix followed by `width`
   * digits whose front spells the date, either anchored at the end of the
   * name (`PREFIX(\d{n})$`, `PREFIX(\d{6})\d{6}$`) or searched for from the
   * left (`PREFIX(\d{8})`).
   */
  datatype Pattern =
    | AtEnd(prefix: string, width: nat, layout: Layout)
    | Anywhere(prefix: string, width: nat, layout: Layout)

  predicate WellFormed(p: Pattern) { p.width >= Needed(p.layout) }

  /** `lit` followed by `n` digits starts at position `i` of `s`. */
  predicate RunAt(s: string, lit: string, n: nat, i: int)
  {
    0 <= i && i + |lit| + n <= |s| && s[i..i + |lit|] == lit && AllDigits(s[i + |lit|..i + |lit| + n])
  }

  /** `re.search`: the leftmost position at or after `from` where the run starts. */
  function FirstRun(s: string, lit: string, n: nat, from: nat): (r: Option<nat>)
    ensures r.Some? ==> from <= r.value && RunAt(s, lit, n, r.value)
    ensures r.Some? ==> forall j :: from <= j < r.value ==> !RunAt(s, lit, n, j)
    ensures r.None? ==> forall j :: from <= j ==> !RunAt(s, lit, n, j)
    decreases |s| - from
  {
    if from + |lit| + n > |s| then None
    else if RunAt(s, lit, n, from) then Some(from)
    else FirstRun(s, lit, n, from + 1)
  }

  function MatchPattern(p: Pattern, name: string): (r: Option<string>)
    requires WellFormed(p)
    ensures r.Some? ==> Shaped(r.value)
    ensures p.AtEnd? ==> (r.Some? <==> RunAt(name, p.prefix, p.width, |name| - |p.prefix| - p.width))
    ensures p.Anywhere? ==> (r.Some? <==> exists i :: RunAt(name, p.prefix, p.width, i))
  {
    match p
    case AtEnd(lit, n, l) =>
      var i := |name| - |lit| - n;
      if RunAt(name, lit, n, i) then Some(Read(l, name[i + |lit|..])) else None
    case Anywhere(lit, n, l) =>
      match FirstRun(name, lit, n, 0)
      case Some(i) => Some(Read(l, name[i + |lit|..i + |lit| + n]))
      case None => None
  }

  /** The first pattern of the list that matches wins. */
  function FirstMatch(ps: seq<Pattern>, name: string): (r: Option<string>)
    requires forall k :: 0 <= k < |ps| ==> WellFormed(ps[k])
    ensures r.Some? ==> Shaped(r.value)
    ensures r.Some? <==> exists k :: 0 <= k < |ps| && MatchPattern(ps[k], name).Some?
    ensures r.Some? ==> exists k :: 0 <= k < |ps| && r == MatchPattern(ps[k], name)
                                    && forall j :: 0 <= j < k ==> MatchPattern(ps[j], name).None?
  {
    if |ps| == 0 then None
    else if MatchPattern(ps[0], name).Some? then MatchPattern(ps[0], name)
    else
      var r := FirstMatch(ps[1..], name);
      assert forall k :: 1 <= k < |ps| ==> ps[k] == ps[1..][k - 1];
      r
  }

  // ---------------------------------------------------------------------
  // AHH_AMO
  // ---------------------------------------------------------------------

  /** The name with `.834` and then `.TXT` removed. */
  function AhhStem(filename: string): string
  {
    ReplaceAll(ReplaceAll(filename, ".834", ""), ".TXT", "")
  }

  /** `extract_date_ahh_amo`: `(\d{6})\d{6}$` on the stem, read YYMMDD. */
  function ExtractAhhAmo(filename: string): (r: Option<string>)
    ensures r.Some? ==> Shaped(r.value)
    ensures r.Some? <==> |AhhStem(filename)| >= 12 && AllDigits(AhhStem(filename)[|AhhStem(filename)| - 12..])
  {
    var stem := AhhStem(filename);
    var r := MatchPattern(AtEnd("", 12, ShortYearMonthDay), stem);
    assert RunAt(stem, "", 12, |stem| - 12) <==> |stem| >= 12 && AllDigits(stem[|stem| - 12..]);
    r
  }

  // ---------------------------------------------------------------------
  // TELADOC
  // ---------------------------------------------------------------------

  /** `extract_date_teladoc`: the leftmost eight-digit run, read YYYYMMDD. */
  function ExtractTeladoc(filename: string): (r: Option<string>)
    ensures r.Some? ==> Shaped(r.value)
    ensures r.Some? <==> exists i :: RunAt(filename, "", 8, i)
  {
    MatchPattern(Anywhere("", 8, YearMonthDay), filename)
  }

  // ---------------------------------------------------------------------
  // SAVRX
  // ---------------------------------------------------------------------

  /** The patterns each SAVRX folder tries, in order; `None` for an unknown folder. */
  function Grammar(folder: string): (g: Option<seq<Pattern>>)
    ensures g.Some? ==> forall k :: 0 <= k < |g.value| ==> WellFormed(g.value[k])
  {
    match folder
    case "480" => Some([AtEnd("IBEW480_", 8, YearMonthDay), AtEnd("IBEW480_", 12, ShortYearMonthDay)])
    case "521" => Some([AtEnd("PP521_", 8, YearMonthDay), AtEnd("PP521_", 12, ShortYearMonthDay)])
    case "J84" => Some([AtEnd("J84_EDI", 6, MonthDayShortYear), AtEnd("J84_EDI", 12, ShortYearMonthDay),
                        AtEnd("_", 6, MonthDayShortYear)])
    case "L82" => Some([AtEnd("L82EDI_", 8, YearMonthDay), AtEnd("L82EDI_", 12, ShortYearMonthDay)])
    case "MEI" => Some(TrailingStampGrammar)
    case "TRI" => Some(TrailingStampGrammar)
    case "TRI_NONMEDICARE" => Some(TrailingStampGrammar)
    case "OEW" => Some([AtEnd("_", 12, ShortYearMonthDay), Anywhere("_", 8, YearMonthDay)])
    case _ => None
  }

  /** MEI, TRI and TRI_NONMEDICARE: `_MMDDYY` at the end, else `_YYMMDDHHMMSS` at the end. */
  const TrailingStampGrammar := [AtEnd("_", 6, MonthDayShortYear), AtEnd("_", 12, ShortYearMonthDay)]

  /** Upper-cased, and cut at the first `.`. */
  function SavRxName(filename: string): string
  {
    Split(Upper(filename), '.')[0]
  }

  /** `extract_date_savrx`: the folder's grammar on the normalised name. */
  function ExtractSavRx(folder: string, filename: string): (r: Option<string>)
    ensures Grammar(folder).None? ==> r.None?
    ensures r.Some? ==> Shaped(r.value)
  {
    match Grammar(folder)
    case None => None
    case Some(ps) => FirstMatch(ps, SavRxName(filename))
  }

  // ---------------------------------------------------------------------
  // ANTHEM_ABC_MUSGROW
  // ---------------------------------------------------------------------

  /** The Anthem sub-folders, each of which prefixes its file names. */
  const AnthemFolders: seq<string> :=
    ["152", "480", "521", "HWL", "IWU", "J84", "L82", "L480", "LAF", "LBU", "OCU", "OEW",
     "P42", "S98", "TRI", "TRI_MED"]

  /** The name with every `.834` removed. */
  function AnthemName(filename: string): string
  {
    ReplaceAll(filename, ".834", "")
  }

  /** Outcome of the month/day test: accepted fields, rejected, or `int('')` raising. */
  datatype Check = Accept(mm: string, dd: string) | Reject | Crash

  /**
   * The month/day test of the Anthem codec: swap the fields when the month
   * exceeds 12 and the day does not, then demand month 1..12 and day 1..31.
   * Python converts the fields with `int()` left to right, lazily, and
   * `int('')` raises.
   */
  function CheckMonthDay(mm: string, dd: string): (r: Check)
    requires AllDigits(mm) && AllDigits(dd)
    ensures r.Crash? <==> |mm| == 0 || (|dd| == 0 && Value(mm) >= 1)
    ensures r.Accept? ==> AllDigits(r.mm) && AllDigits(r.dd)
    ensures r.Accept? ==> 1 <= Value(r.mm) <= 12 && 1 <= Value(r.dd) <= 31
    ensures r.Accept? ==> if Value(mm) > 12 then r.mm == dd && r.dd == mm else r.mm == mm && r.dd == dd
  {
    if |mm| == 0 then Crash
    else if Value(mm) > 12 && |dd| == 0 then Crash
    else
      var swap := Value(mm) > 12 && Value(dd) <= 12;
      var m := if swap then dd else mm;
      var d := if swap then mm else dd;
      if Value(m) < 1 || Value(m) > 12 then Reject
      else if |d| == 0 then Crash
      else if Value(d) < 1 || Value(d) > 31 then Reject
      else Accept(m, d)
  }

  /** A six-character window read YYMMDD (with the swap), as the TRI_MED scan does. */
  function WindowDate(chunk: string): (r: Option<string>)
    requires |chunk| == 6
    ensures r.Some? ==> InRangeText(r.value)
  {
    if !AllDigits(chunk) then None
    else
      match CheckMonthDay(chunk[2..4], chunk[4..6])
      case Accept(m, d) =>
        StampFields(m, d, "20" + chunk[..2]);
        Some(Stamp(m, d, "20" + chunk[..2]))
      case _ => None
  }

  /** The windows `part[i:i+6]` for `i` in `range(len(part) - 5)`, from `i` on; the first date wins. */
  function ScanWindows(part: string, i: nat): (r: Option<string>)
    ensures r.Some? ==> InRangeText(r.value)
    decreases |part| - i
  {
    if i + 6 > |part| then None
    else if WindowDate(part[i..i + 6]).Some? then WindowDate(part[i..i + 6])
    else ScanWindows(part, i + 1)
  }

  function FirstOf(a: Option<string>, b: Option<string>): Option<string>
  {
    if a.Some? then a else b
  }

  /** The TRI_MED scan: each `_`-separated part in turn, each window of it in turn. */
  function ScanParts(parts: seq<string>): (r: Option<string>)
    ensures r.Some? ==> InRangeText(r.value)
  {
    if |parts| == 0 then None else FirstOf(ScanWindows(parts[0], 0), ScanParts(parts[1..]))
  }

  /** What is left when the six-digit reading gives nothing: the TRI_MED scan, for that folder only. */
  function TriMedFallback(folder: string, rest: string): (r: Extraction)
    ensures r.Found? ==> folder == "TRI_MED" && InRangeText(r.date)
    ensures !r.Raised?
  {
    if folder != "TRI_MED" then NoDate
    else match ScanParts(Split(rest, '_'))
      case Some(date) => Found(date)
      case None => NoDate
  }

  /** Result of the Anthem codec: a date, no date (`None`), or an exception escaping it. */
  datatype Extraction = Found(date: string) | NoDate | Raised

  /** The YYYYMMDDHHMMSS reading only the hosted build has. */
  function ReadLong(rest: string): (r: Option<string>)
    ensures r.Some? ==> InRangeText(r.value)
  {
    var long := Slice(rest, 0, 14);
    if |long| == 14 && AllDigits(long) && 1 <= Value(long[4..6]) <= 12 && 1 <= Value(long[6..8]) <= 31 then
      StampFields(long[4..6], long[6..8], long[..4]);
      Some(Stamp(long[4..6], long[6..8], long[..4]))
    else None
  }

  /**
   * The YYMMDD reading of the text after the folder prefix, and what follows
   * when it fails: the desktop build stops, the hosted build goes on to the
   * TRI_MED scan.
   */
  function ReadShort(build: Build, folder: string, rest: string): (r: Extraction)
    ensures r.Found? ==> InRangeText(r.date)
    ensures r.Raised? ==> 1 <= |rest| <= 4 && AllDigits(rest)
  {
    var date := Slice(rest, 0, 6);
    if IsDigitString(date) then
      match CheckMonthDay(Slice(date, 2, 4), Slice(date, 4, 6))
      case Accept(m, d) =>
        StampFields(m, d, "20" + Slice(date, 0, 2));
        Found(Stamp(m, d, "20" + Slice(date, 0, 2)))
      case Crash => Raised
      case Reject => if build == Desktop then NoDate else TriMedFallback(folder, rest)
    else TriMedFallback(folder, rest)
  }

  /**
   * `extract_date(filename, folder)`: the folder must be known and must
   * prefix the name; then (hosted build only) fourteen digits YYYYMMDDHHMMSS;
   * then six digits YYMMDD; then, for TRI_MED, the window scan.
   */
  function ExtractAnthem(build: Build, filename: string, folder: string): (r: Extraction)
    ensures folder !in AnthemFolders || !StartsWith(AnthemName(filename), folder) ==> r == NoDate
    ensures r.Found? ==> InRangeText(r.date)
    ensures r.Raised? ==> var rest := AnthemName(filename)[|folder|..]; 1 <= |rest| <= 4 && AllDigits(rest)
  {
    var name := AnthemName(filename);
    if folder !in AnthemFolders || !StartsWith(name, folder) then NoDate
    else
      var rest := name[|folder|..];
      if build == Hosted && ReadLong(rest).Some? then Found(ReadLong(rest).value)
      else ReadShort(build, folder, rest)
  }
}
