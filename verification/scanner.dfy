/**
 * The classification scans: `find_member_id_*`, `find_member_name_*` and
 * `find_ssn_*` (present/absent records sorted by date) and
 * `find_all_ssns_in_date_range*` (every SSN captured in the files dated
 * within a range, sorted).
 *
 * Directory listing and file reading become an input: the archive maps each
 * folder to the files of its `backups` directory, in listing order, each with
 * its content. A folder the archive does not hold has no `backups` directory
 * and is passed over. AHH_AMO keeps its files directly in `backups`; the
 * archive holds them under the folder name `AhhBackups`.
 */
module Scanner {
  import opened Wrappers
  import opened Text
  import Order
  import Calendar
  import Codec
  import Matcher
  import Config

  datatype ArchiveFile = ArchiveFile(name: string, content: string)

  type Archive = map<string, seq<ArchiveFile>>

  /** Where the AHH_AMO files are found in the archive. */
  const AhhBackups := ""

  /** A row of the result: the file's date (`None` when it has none) and its name. */
  datatype Record = Record(date: Option<string>, filename: string)

  /** What a presence scan looks for. */
  datatype Target = ById(id: string) | ByName(name: string) | BySsn(ssn: string)

  /** The two kinds of scan: presence of a target, or collection of SSNs in a date range. */
  datatype Flow = Presence(target: Target) | DateRange

  /** The folders a scan visits: AHH_AMO ignores the folder list. */
  function Visited(c: Config.Company, folders: seq<string>): seq<string>
  {
    if c == Config.AhhAmo then [AhhBackups] else folders
  }

  /**
   * The extension filter each scan applies first: `.834` (case-sensitive) for
   * ANTHEM and TELADOC; `.txt` or `.834` in any case for AHH_AMO, except the
   * AHH_AMO SSN presence scan, which has none; none for SAVRX.
   */
  predicate Admitted(c: Config.Company, flow: Flow, filename: string)
  {
    match c
    case Anthem => EndsWith(filename, ".834")
    case Teladoc => EndsWith(filename, ".834")
    case AhhAmo =>
      (flow.Presence? && flow.target.BySsn?)
      || EndsWith(Lower(filename), ".txt") || EndsWith(Lower(filename), ".834")
    case SavRx => true
  }

  /** The date a company's codec reads from a file name. */
  function FileDate(build: Codec.Build, c: Config.Company, folder: string, filename: string): (r: Codec.Extraction)
    ensures r.Raised? ==> c == Config.Anthem
    ensures r.Found? ==> Codec.Shaped(r.date) || (c == Config.Anthem && Codec.InRangeText(r.date))
  {
    match c
    case Anthem => Codec.ExtractAnthem(build, filename, folder)
    case AhhAmo => Found(Codec.ExtractAhhAmo(filename))
    case Teladoc => Found(Codec.ExtractTeladoc(filename))
    case SavRx => Found(Codec.ExtractSavRx(folder, filename))
  }

  /** `None` becomes `NoDate`. */
  function Found(d: Option<string>): (r: Codec.Extraction)
    ensures r.Raised? == false
    ensures r.Found? <==> d.Some?
    ensures r.Found? ==> r.date == d.value
  {
    match d
    case None => Codec.NoDate
    case Some(x) => Codec.Found(x)
  }

  /** Whether a file's content holds the target, by each company's test. */
  predicate Holds(c: Config.Company, t: Target, content: string)
  {
    match t
    case ById(id) =>
      (match c
       case Anthem => Matcher.LiteralRef(content, id)
       case AhhAmo => Matcher.HasRef(Matcher.AhhRule, content, id)
       case Teladoc => Matcher.HasRef(Matcher.TeladocRule, content, id)
       case SavRx => Matcher.HasRef(Matcher.SavRxRule, content, id))
    case ByName(name) =>
      var caps := Matcher.NameCaptures(content);
      exists k :: 0 <= k < |caps| && Matcher.NameMatches(caps[k], name)
    case BySsn(ssn) => ssn in Matcher.SsnCaptures(content)
  }

  /** The per-file test as each scan runs it. */
  method Check(c: Config.Company, t: Target, content: string) returns (held: bool)
    ensures held == Holds(c, t, content)
  {
    match t
    case ById(id) =>
      held := match c
        case Anthem => Matcher.LiteralRef(content, id)
        case AhhAmo => Matcher.HasRef(Matcher.AhhRule, content, id)
        case Teladoc => Matcher.HasRef(Matcher.TeladocRule, content, id)
        case SavRx => Matcher.HasRef(Matcher.SavRxRule, content, id);
    case ByName(name) =>
      var caps := Matcher.NameCaptures(content);
      if c == Config.SavRx {
        var n := Matcher.CountNames(caps, name);
        held := n > 0;
      } else {
        held := Matcher.AnyNameMatches(caps, name);
      }
    case BySsn(ssn) =>
      var caps := Matcher.SsnCaptures(content);
      if c == Config.SavRx {
        var n := Matcher.CountSsn(caps, ssn);
        held := n > 0;
      } else {
        held := ssn in caps;
      }
  }

  // ---------------------------------------------------------------------
  // Presence scans
  // ---------------------------------------------------------------------

  /** A classified file: its record and whether the target was found in it. */
  datatype Entry = Entry(record: Record, held: bool)

  /** What one listed file contributes. */
  datatype Step = Skip | Keep(entry: Entry) | Fail

  /**
   * One file of a presence scan: filtered out; skipped for want of a date
   * (ANTHEM only); an exception from the date codec; or classified.
   */
  function Inspect(build: Codec.Build, c: Config.Company, t: Target, folder: string, f: ArchiveFile): (r: Step)
    ensures r.Keep? ==> r.entry.record.filename == f.name && r.entry.held == Holds(c, t, f.content)
    ensures r.Keep? && c == Config.Anthem ==> r.entry.record.date.Some?
    ensures r.Fail? ==> c == Config.Anthem
  {
    if !Admitted(c, Presence(t), f.name) then Skip
    else
      match FileDate(build, c, folder, f.name)
      case Raised => Fail
      case NoDate =>
        if c == Config.Anthem then Skip else Keep(Entry(Record(None, f.name), Holds(c, t, f.content)))
      case Found(d) => Keep(Entry(Record(Some(d), f.name), Holds(c, t, f.content)))
  }

  /** How a scan judges one file of a folder. */
  type Inspector = (string, ArchiveFile) -> Step

  /** The presence scan's judgement, for one company and target. */
  function Inspection(build: Codec.Build, c: Config.Company, t: Target): Inspector
  {
    (folder: string, f: ArchiveFile) => Inspect(build, c, t, folder, f)
  }

  /** The entries of one listing in order; `None` once a file raises. */
  function Entries(inspect: Inspector, folder: string, files: seq<ArchiveFile>): Option<seq<Entry>>
  {
    if |files| == 0 then Some([])
    else
      match Entries(inspect, folder, files[..|files| - 1])
      case None => None
      case Some(es) =>
        match inspect(folder, files[|files| - 1])
        case Fail => None
        case Skip => Some(es)
        case Keep(e) => Some(es + [e])
  }

  /** The entries of all visited folders, folder by folder. */
  function AllEntries(inspect: Inspector, archive: Archive, folders: seq<string>): Option<seq<Entry>>
  {
    if |folders| == 0 then Some([])
    else
      var folder := folders[|folders| - 1];
      match AllEntries(inspect, archive, folders[..|folders| - 1])
      case None => None
      case Some(es) =>
        if folder !in archive then Some(es)
        else
          match Entries(inspect, folder, archive[folder])
          case None => None
          case Some(more) => Some(es + more)
  }

  /** The records of the entries whose `held` is `h`, in order. */
  function Held(es: seq<Entry>, h: bool): (r: seq<Record>)
    ensures |r| <= |es|
  {
    if |es| == 0 then []
    else Held(es[..|es| - 1], h) + (if es[|es| - 1].held == h then [es[|es| - 1].record] else [])
  }

  /** The records of all entries, in order. */
  function Records(es: seq<Entry>): (r: seq<Record>)
    ensures |r| == |es|
  {
    if |es| == 0 then [] else Records(es[..|es| - 1]) + [es[|es| - 1].record]
  }

  // ---- sorting by date ----

  /**
   * The sort key of a record: `strptime(date, "%m-%d-%Y")`, or `datetime.min`
   * when the date is `None`; `None` when `strptime` raises.
   */
  function DateKey(r: Record): Option<seq<int>>
  {
    match r.date
    case None => Some(Calendar.Key(Calendar.MinDate))
    case Some(d) =>
      match Calendar.ParseMonthFirst(d)
      case None => None
      case Some(x) => Some(Calendar.Key(x))
  }

  /** The records paired with their keys; `None` when some key raises. */
  function KeyedRecords(rs: seq<Record>): (r: Option<seq<Order.Keyed<Record>>>)
    ensures r.Some? ==> |r.value| == |rs|
    ensures r.Some? ==> forall i :: 0 <= i < |rs| ==> r.value[i].item == rs[i] && Some(r.value[i].key) == DateKey(rs[i])
  {
    if |rs| == 0 then Some([])
    else
      match (KeyedRecords(rs[..|rs| - 1]), DateKey(rs[|rs| - 1]))
      case (Some(ks), Some(k)) => Some(ks + [Order.Keyed(k, rs[|rs| - 1])])
      case _ => None
  }

  /** `sorted(records, key=...)`; `None` when a key raises. */
  function SortByDate(rs: seq<Record>): Option<seq<Record>>
  {
    match KeyedRecords(rs)
    case None => None
    case Some(ks) => Some(Order.Items(Order.Sort(ks)))
  }

  /** The outcome of a presence scan: the sorted lists, or an exception. */
  datatype Scan = Scanned(present: seq<Record>, absent: seq<Record>) | Crashed

  function PresenceScan(build: Codec.Build, c: Config.Company, t: Target, archive: Archive, folders: seq<string>): Scan
  {
    match AllEntries(Inspection(build, c, t), archive, Visited(c, folders))
    case None => Crashed
    case Some(es) =>
      match (SortByDate(Held(es, true)), SortByDate(Held(es, false)))
      case (Some(p), Some(a)) => Scanned(p, a)
      case _ => Crashed
  }

  // ---- the scan as the source runs it ----

  lemma {:induction false} EntriesCrashPersists(inspect: Inspector, folder: string, files: seq<ArchiveFile>, j: nat)
    requires j <= |files| && Entries(inspect, folder, files[..j]).None?
    ensures Entries(inspect, folder, files).None?
    decreases |files| - j
  {
    if j < |files| {
      assert files[..j + 1][..j] == files[..j];
      EntriesCrashPersists(inspect, folder, files, j + 1);
    } else {
      assert files[..j] == files;
    }
  }

  lemma {:induction false} AllEntriesCrashPersists(inspect: Inspector, archive: Archive, folders: seq<string>, i: nat)
    requires i <= |folders| && AllEntries(inspect, archive, folders[..i]).None?
    ensures AllEntries(inspect, archive, folders).None?
    decreases |folders| - i
  {
    if i < |folders| {
      assert folders[..i + 1][..i] == folders[..i];
      AllEntriesCrashPersists(inspect, archive, folders, i + 1);
    } else {
      assert folders[..i] == folders;
    }
  }

  lemma {:induction false} KeyedCrashPersists(rs: seq<Record>, i: nat)
    requires i <= |rs| && KeyedRecords(rs[..i]).None?
    ensures KeyedRecords(rs).None?
    decreases |rs| - i
  {
    if i < |rs| {
      assert rs[..i + 1][..i] == rs[..i];
      KeyedCrashPersists(rs, i + 1);
    } else {
      assert rs[..i] == rs;
    }
  }

  /** `sorted(records, key=...)`: every key is computed first, then the stable sort. */
  method SortRecordsByDate(rs: seq<Record>) returns (r: Option<seq<Record>>)
    ensures r == SortByDate(rs)
  {
    var ks: seq<Order.Keyed<Record>> := [];
    var i := 0;
    while i < |rs|
      invariant 0 <= i <= |rs|
      invariant KeyedRecords(rs[..i]) == Some(ks)
    {
      assert rs[..i + 1][..i] == rs[..i];
      var k := DateKey(rs[i]);
      if k.None? {
        KeyedCrashPersists(rs, i + 1);
        return None;
      }
      ks := ks + [Order.Keyed(k.value, rs[i])];
      i := i + 1;
    }
    assert rs[..|rs|] == rs;
    return Some(Order.Items(Order.Sort(ks)));
  }

  lemma HeldSnoc(es: seq<Entry>, e: Entry, h: bool)
    ensures Held(es + [e], h) == Held(es, h) + (if e.held == h then [e.record] else [])
  {
    assert (es + [e])[..|es|] == es;
  }

  /** The loop over one folder's listing, appending to the present and absent lists. */
  method ScanListing(inspect: Inspector, folder: string, files: seq<ArchiveFile>,
                     present0: seq<Record>, absent0: seq<Record>, ghost es: seq<Entry>)
    returns (ok: bool, present: seq<Record>, absent: seq<Record>)
    requires present0 == Held(es, true) && absent0 == Held(es, false)
    ensures ok <==> Entries(inspect, folder, files).Some?
    ensures ok ==> present == Held(es + Entries(inspect, folder, files).value, true)
    ensures ok ==> absent == Held(es + Entries(inspect, folder, files).value, false)
  {
    present, absent := present0, absent0;
    ghost var more: seq<Entry> := [];
    assert es + more == es;
    var j := 0;
    while j < |files|
      invariant 0 <= j <= |files|
      invariant Entries(inspect, folder, files[..j]) == Some(more)
      invariant present == Held(es + more, true) && absent == Held(es + more, false)
    {
      assert files[..j + 1][..j] == files[..j];
      var step := inspect(folder, files[j]);
      if step.Fail? {
        EntriesCrashPersists(inspect, folder, files, j + 1);
        return false, present, absent;
      }
      if step.Keep? {
        var e := step.entry;
        if e.held {
          present := present + [e.record];
        } else {
          absent := absent + [e.record];
        }
        HeldSnoc(es + more, e, true);
        HeldSnoc(es + more, e, false);
        assert es + more + [e] == es + (more + [e]);
        more := more + [e];
      }
      j := j + 1;
    }
    assert files[..|files|] == files;
    return true, present, absent;
  }

  /** The loop over the visited folders; a folder without a listing is passed over. */
  method ScanFolders(inspect: Inspector, archive: Archive, folders: seq<string>)
    returns (ok: bool, present: seq<Record>, absent: seq<Record>)
    ensures ok <==> AllEntries(inspect, archive, folders).Some?
    ensures ok ==> present == Held(AllEntries(inspect, archive, folders).value, true)
    ensures ok ==> absent == Held(AllEntries(inspect, archive, folders).value, false)
  {
    present, absent := [], [];
    ghost var es: seq<Entry> := [];
    var i := 0;
    while i < |folders|
      invariant 0 <= i <= |folders|
      invariant AllEntries(inspect, archive, folders[..i]) == Some(es)
      invariant present == Held(es, true) && absent == Held(es, false)
    {
      var folder := folders[i];
      assert folders[..i + 1][..i] == folders[..i];
      if folder in archive {
        ok, present, absent := ScanListing(inspect, folder, archive[folder], present, absent, es);
        if !ok {
          AllEntriesCrashPersists(inspect, archive, folders, i + 1);
          return false, present, absent;
        }
        es := es + Entries(inspect, folder, archive[folder]).value;
      }
      i := i + 1;
    }
    assert folders[..|folders|] == folders;
    return true, present, absent;
  }

  /**
   * `find_member_id_*`, `find_member_name_*` and `find_ssn_*`: visit the
   * folders and their files, append each classified file to the present or
   * absent list, then sort both lists by date.
   */
  method FindAllDates(build: Codec.Build, c: Config.Company, t: Target, archive: Archive, folders: seq<string>)
    returns (r: Scan)
    ensures r == PresenceScan(build, c, t, archive, folders)
  {
    var ok, present, absent := ScanFolders(Inspection(build, c, t), archive, Visited(c, folders));
    if !ok {
      return Crashed;
    }
    var p := SortRecordsByDate(present);
    if p.None? {
      return Crashed;
    }
    var a := SortRecordsByDate(absent);
    if a.None? {
      return Crashed;
    }
    return Scanned(p.value, a.value);
  }

  // ---- what the presence scan promises ----

  /** Every kept record is on exactly one side. */
  lemma {:induction false} HeldPartition(es: seq<Entry>)
    ensures multiset(Held(es, true)) + multiset(Held(es, false)) == multiset(Records(es))
  {
    if |es| > 0 {
      HeldPartition(es[..|es| - 1]);
    }
  }

  /** A record on side `h` comes from an entry judged `h`. */
  lemma {:induction false} HeldSource(es: seq<Entry>, h: bool, r: Record) returns (k: nat)
    requires r in Held(es, h)
    ensures k < |es| && es[k].held == h && es[k].record == r
  {
    var n := |es| - 1;
    if r in Held(es[..n], h) {
      k := HeldSource(es[..n], h, r);
      assert es[k] == es[..n][k];
    } else {
      k := n;
    }
  }

  /** An entry judged `h` puts its record on side `h`. */
  lemma {:induction false} HeldComplete(es: seq<Entry>, k: nat)
    requires k < |es|
    ensures es[k].record in Held(es, es[k].held)
  {
    var n := |es| - 1;
    if k < n {
      HeldComplete(es[..n], k);
      assert es[..n][k] == es[k];
    }
  }

  /** Every entry of a listing is the judgement of one of its files. */
  lemma {:induction false} EntriesSource(inspect: Inspector, folder: string, files: seq<ArchiveFile>, e: Entry)
    returns (j: nat)
    requires Entries(inspect, folder, files).Some? && e in Entries(inspect, folder, files).value
    ensures j < |files| && inspect(folder, files[j]) == Keep(e)
  {
    var n := |files| - 1;
    var es := Entries(inspect, folder, files[..n]).value;
    if e in es {
      j := EntriesSource(inspect, folder, files[..n], e);
      assert files[..n][j] == files[j];
    } else {
      j := n;
    }
  }

  /** Every file judged `Keep` contributes its entry. */
  lemma {:induction false} EntriesComplete(inspect: Inspector, folder: string, files: seq<ArchiveFile>, j: nat)
    requires j < |files| && inspect(folder, files[j]).Keep?
    requires Entries(inspect, folder, files).Some?
    ensures inspect(folder, files[j]).entry in Entries(inspect, folder, files).value
  {
    var n := |files| - 1;
    if j < n {
      assert files[..n][j] == files[j];
      EntriesComplete(inspect, folder, files[..n], j);
    }
  }

  /** One file judged `Fail` fails the listing. */
  lemma {:induction false} EntriesFail(inspect: Inspector, folder: string, files: seq<ArchiveFile>, j: nat)
    requires j < |files| && inspect(folder, files[j]).Fail?
    ensures Entries(inspect, folder, files).None?
  {
    var n := |files| - 1;
    if j < n {
      assert files[..n][j] == files[j];
      EntriesFail(inspect, folder, files[..n], j);
    }
  }

  /** Every entry of a scan is the judgement of a file of a visited folder. */
  lemma {:induction false} AllEntriesSource(inspect: Inspector, archive: Archive, folders: seq<string>, e: Entry)
    returns (i: nat, j: nat)
    requires AllEntries(inspect, archive, folders).Some? && e in AllEntries(inspect, archive, folders).value
    ensures i < |folders| && folders[i] in archive && j < |archive[folders[i]]|
    ensures inspect(folders[i], archive[folders[i]][j]) == Keep(e)
  {
    var n := |folders| - 1;
    var es := AllEntries(inspect, archive, folders[..n]).value;
    if e in es {
      i, j := AllEntriesSource(inspect, archive, folders[..n], e);
      assert folders[..n][i] == folders[i];
    } else {
      i := n;
      j := EntriesSource(inspect, folders[n], archive[folders[n]], e);
    }
  }

  lemma {:induction false} AllEntriesComplete(inspect: Inspector, archive: Archive, folders: seq<string>, i: nat, j: nat)
    requires i < |folders| && folders[i] in archive && j < |archive[folders[i]]|
    requires inspect(folders[i], archive[folders[i]][j]).Keep?
    requires AllEntries(inspect, archive, folders).Some?
    ensures inspect(folders[i], archive[folders[i]][j]).entry in AllEntries(inspect, archive, folders).value
  {
    var n := |folders| - 1;
    if i < n {
      assert folders[..n][i] == folders[i];
      AllEntriesComplete(inspect, archive, folders[..n], i, j);
    } else {
      EntriesComplete(inspect, folders[n], archive[folders[n]], j);
    }
  }

  lemma {:induction false} AllEntriesFail(inspect: Inspector, archive: Archive, folders: seq<string>, i: nat, j: nat)
    requires i < |folders| && folders[i] in archive && j < |archive[folders[i]]|
    requires inspect(folders[i], archive[folders[i]][j]).Fail?
    ensures AllEntries(inspect, archive, folders).None?
  {
    var n := |folders| - 1;
    if i < n {
      assert folders[..n][i] == folders[i];
      AllEntriesFail(inspect, archive, folders[..n], i, j);
    } else {
      EntriesFail(inspect, folders[n], archive[folders[n]], j);
    }
  }

  // ---- sorting by date ----

  /** Records in date order: every date parses, and dates never decrease. */
  predicate DatedInOrder(rs: seq<Record>)
  {
    (forall i :: 0 <= i < |rs| ==> DateKey(rs[i]).Some?)
    && forall i, j :: 0 <= i < j < |rs| ==> Order.LexLe(DateKey(rs[i]).value, DateKey(rs[j]).value)
  }

  lemma {:induction false} KeyedRecordsFail(rs: seq<Record>)
    ensures KeyedRecords(rs).None? <==> exists k :: 0 <= k < |rs| && DateKey(rs[k]).None?
  {
    if |rs| > 0 {
      var n := |rs| - 1;
      KeyedRecordsFail(rs[..n]);
      if exists k :: 0 <= k < n && DateKey(rs[..n][k]).None? {
        var k :| 0 <= k < n && DateKey(rs[..n][k]).None?;
        assert rs[..n][k] == rs[k];
      }
      if exists k :: 0 <= k < |rs| && DateKey(rs[k]).None? {
        var k :| 0 <= k < |rs| && DateKey(rs[k]).None?;
        if k < n {
          assert rs[..n][k] == rs[k];
        }
      }
    }
  }

  /** Each sorted record carries its own date as key. */
  lemma SortedRecordKeys(rs: seq<Record>, ks: seq<Order.Keyed<Record>>)
    requires KeyedRecords(rs) == Some(ks)
    ensures var sorted := Order.Sort(ks);
            forall i :: 0 <= i < |sorted| ==> DateKey(sorted[i].item) == Some(sorted[i].key)
  {
    var sorted := Order.Sort(ks);
    Order.SortCorrect(ks);
    forall i | 0 <= i < |sorted| ensures DateKey(sorted[i].item) == Some(sorted[i].key) {
      assert sorted[i] in multiset(sorted);
      assert sorted[i] in ks;
      var m :| 0 <= m < |ks| && ks[m] == sorted[i];
    }
  }

  /** The records whose sort key is `k`, in their order. */
  function WithDateKey(rs: seq<Record>, k: seq<int>): seq<Record>
  {
    if |rs| == 0 then [] else (if DateKey(rs[0]) == Some(k) then [rs[0]] else []) + WithDateKey(rs[1..], k)
  }

  /** Records with equal sort keys appear in the same order in `a` as in `b`. */
  ghost predicate SameDateOrder(a: seq<Record>, b: seq<Record>)
  {
    forall k :: WithDateKey(a, k) == WithDateKey(b, k)
  }

  /** Selecting one key class commutes with dropping the keys, when each key is its record's date key. */
  lemma {:induction false} ItemsWithKey(ks: seq<Order.Keyed<Record>>, k: seq<int>)
    requires forall i :: 0 <= i < |ks| ==> DateKey(ks[i].item) == Some(ks[i].key)
    ensures Order.Items(Order.WithKey(ks, k)) == WithDateKey(Order.Items(ks), k)
  {
    if |ks| > 0 {
      var head: seq<Order.Keyed<Record>> := if ks[0].key == k then [ks[0]] else [];
      ItemsWithKey(ks[1..], k);
      Order.ItemsAppend(head, Order.WithKey(ks[1..], k));
      assert Order.Items(ks)[1..] == Order.Items(ks[1..]);
      assert Order.Items(head) == (if DateKey(ks[0].item) == Some(k) then [ks[0].item] else []);
    }
  }

  /** `sorted` is stable: records with equal dates keep their listing order. */
  lemma SortByDateStable(rs: seq<Record>)
    requires SortByDate(rs).Some?
    ensures SameDateOrder(SortByDate(rs).value, rs)
  {
    var ks := KeyedRecords(rs).value;
    var sorted := Order.Sort(ks);
    Order.SortCorrect(ks);
    SortedRecordKeys(rs, ks);
    assert Order.Items(ks) == rs;
    forall k ensures WithDateKey(Order.Items(sorted), k) == WithDateKey(rs, k) {
      ItemsWithKey(sorted, k);
      ItemsWithKey(ks, k);
    }
  }

  /**
   * The sort raises exactly when some date does not parse; otherwise it
   * returns the same records, in date order, records with equal dates in
   * their listing order.
   */
  lemma SortByDateCorrect(rs: seq<Record>)
    ensures SortByDate(rs).None? <==> exists k :: 0 <= k < |rs| && DateKey(rs[k]).None?
    ensures SortByDate(rs).Some? ==> multiset(SortByDate(rs).value) == multiset(rs)
    ensures SortByDate(rs).Some? ==> DatedInOrder(SortByDate(rs).value)
    ensures SortByDate(rs).Some? ==> SameDateOrder(SortByDate(rs).value, rs)
  {
    KeyedRecordsFail(rs);
    if KeyedRecords(rs).Some? {
      SortByDateStable(rs);
      var ks := KeyedRecords(rs).value;
      var sorted := Order.Sort(ks);
      Order.SortCorrect(ks);
      Order.ItemsPermutation(sorted, ks);
      assert Order.Items(ks) == rs;
      SortedRecordKeys(rs, ks);
    }
  }

  /**
   * In a list in date order a record without a date (sorted as
   * `datetime.min`) is preceded only by records without a date or dated
   * 01-01-0001.
   */
  lemma UndatedFirst(rs: seq<Record>, i: nat, j: nat)
    requires DatedInOrder(rs) && i < j < |rs| && rs[j].date.None?
    ensures rs[i].date.None? || Calendar.ParseMonthFirst(rs[i].date.value) == Some(Calendar.MinDate)
  {
    assert Order.LexLe(DateKey(rs[i]).value, DateKey(rs[j]).value);
    if rs[i].date.Some? {
      Calendar.MinDateIsLeast(Calendar.ParseMonthFirst(rs[i].date.value).value);
    }
  }

  // ---- the presence scan's result ----

  /**
   * Both lists are the entries judged present and absent, each in date
   * order, entries with equal dates in the order they were listed.
   */
  lemma ScanSplitsEntries(build: Codec.Build, c: Config.Company, t: Target, archive: Archive, folders: seq<string>)
    requires PresenceScan(build, c, t, archive, folders).Scanned?
    ensures var es := AllEntries(Inspection(build, c, t), archive, Visited(c, folders)).value;
            var scan := PresenceScan(build, c, t, archive, folders);
            && multiset(scan.present) == multiset(Held(es, true))
            && multiset(scan.absent) == multiset(Held(es, false))
            && multiset(scan.present) + multiset(scan.absent) == multiset(Records(es))
            && DatedInOrder(scan.present) && DatedInOrder(scan.absent)
            && SameDateOrder(scan.present, Held(es, true)) && SameDateOrder(scan.absent, Held(es, false))
  {
    var es := AllEntries(Inspection(build, c, t), archive, Visited(c, folders)).value;
    SortByDateCorrect(Held(es, true));
    SortByDateCorrect(Held(es, false));
    HeldPartition(es);
  }

  /**
   * Where a listed record comes from: a visited file with that name, passed
   * by the extension filter, with the record's date read from its name, and
   * whose content holds the target exactly when the record is on the present
   * side.
   */
  lemma ScanRecordSource(build: Codec.Build, c: Config.Company, t: Target, archive: Archive, folders: seq<string>,
                         h: bool, r: Record)
    returns (i: nat, j: nat)
    requires PresenceScan(build, c, t, archive, folders).Scanned?
    requires r in (if h then PresenceScan(build, c, t, archive, folders).present
                   else PresenceScan(build, c, t, archive, folders).absent)
    ensures i < |Visited(c, folders)| && Visited(c, folders)[i] in archive
    ensures j < |archive[Visited(c, folders)[i]]|
    ensures var folder := Visited(c, folders)[i];
            var f := archive[folder][j];
            var date := FileDate(build, c, folder, f.name);
            && f.name == r.filename
            && Admitted(c, Presence(t), f.name)
            && Holds(c, t, f.content) == h
            && (date.Found? ==> r.date == Some(date.date))
            && (!date.Found? ==> date.NoDate? && c != Config.Anthem && r.date.None?)
  {
    var inspect := Inspection(build, c, t);
    var visited := Visited(c, folders);
    var es := AllEntries(inspect, archive, visited).value;
    ScanSplitsEntries(build, c, t, archive, folders);
    var scan := PresenceScan(build, c, t, archive, folders);
    var side := if h then scan.present else scan.absent;
    assert multiset(side) == multiset(Held(es, h));
    assert r in multiset(side);
    var k := HeldSource(es, h, r);
    i, j := AllEntriesSource(inspect, archive, visited, es[k]);
    assert Inspect(build, c, t, visited[i], archive[visited[i]][j]) == Keep(Entry(r, h));
  }

  /** ANTHEM files without a date are skipped, so every ANTHEM record is dated. */
  lemma AnthemRecordsDated(build: Codec.Build, t: Target, archive: Archive, folders: seq<string>, h: bool, r: Record)
    requires PresenceScan(build, Config.Anthem, t, archive, folders).Scanned?
    requires r in (if h then PresenceScan(build, Config.Anthem, t, archive, folders).present
                   else PresenceScan(build, Config.Anthem, t, archive, folders).absent)
    ensures r.date.Some? && Codec.InRangeText(r.date.value)
  {
    var i, j := ScanRecordSource(build, Config.Anthem, t, archive, folders, h, r);
  }

  /**
   * Every visited file that passes the filter and whose date does not raise
   * (and, for ANTHEM, is found) is listed, on the side its content decides.
   */
  lemma KeptFileIsListed(build: Codec.Build, c: Config.Company, t: Target, archive: Archive, folders: seq<string>,
                         i: nat, j: nat)
    requires PresenceScan(build, c, t, archive, folders).Scanned?
    requires i < |Visited(c, folders)| && Visited(c, folders)[i] in archive
    requires j < |archive[Visited(c, folders)[i]]|
    requires var f := archive[Visited(c, folders)[i]][j];
             var date := FileDate(build, c, Visited(c, folders)[i], f.name);
             Admitted(c, Presence(t), f.name) && (date.Found? || (date.NoDate? && c != Config.Anthem))
    ensures var folder := Visited(c, folders)[i];
            var f := archive[folder][j];
            var date := FileDate(build, c, folder, f.name);
            var scan := PresenceScan(build, c, t, archive, folders);
            Record(if date.Found? then Some(date.date) else None, f.name)
              in (if Holds(c, t, f.content) then scan.present else scan.absent)
  {
    var inspect := Inspection(build, c, t);
    var visited := Visited(c, folders);
    var f := archive[visited[i]][j];
    var es := AllEntries(inspect, archive, visited).value;
    assert inspect(visited[i], f) == Inspect(build, c, t, visited[i], f);
    AllEntriesComplete(inspect, archive, visited, i, j);
    var date := FileDate(build, c, visited[i], f.name);
    var e := Entry(Record(if date.Found? then Some(date.date) else None, f.name), Holds(c, t, f.content));
    assert Inspect(build, c, t, visited[i], f) == Keep(e);
    var k :| 0 <= k < |es| && es[k] == e;
    HeldComplete(es, k);
    ScanSplitsEntries(build, c, t, archive, folders);
    var scan := PresenceScan(build, c, t, archive, folders);
    var side := if e.held then scan.present else scan.absent;
    assert e.record in multiset(Held(es, e.held));
    assert e.record in multiset(side);
  }

  /** A visited ANTHEM file whose name makes the date codec raise ends the whole scan. */
  lemma RaisingFileCrashesScan(build: Codec.Build, c: Config.Company, t: Target, archive: Archive, folders: seq<string>,
                               i: nat, j: nat)
    requires i < |Visited(c, folders)| && Visited(c, folders)[i] in archive
    requires j < |archive[Visited(c, folders)[i]]|
    requires var f := archive[Visited(c, folders)[i]][j];
             Admitted(c, Presence(t), f.name) && FileDate(build, c, Visited(c, folders)[i], f.name).Raised?
    ensures c == Config.Anthem && PresenceScan(build, c, t, archive, folders) == Crashed
  {
    var inspect := Inspection(build, c, t);
    var visited := Visited(c, folders);
    assert inspect(visited[i], archive[visited[i]][j]).Fail?;
    AllEntriesFail(inspect, archive, visited, i, j);
  }

  /** A listed record whose date does not parse as `%m-%d-%Y` makes the final sort raise. */
  lemma UnparseableDateCrashesScan(build: Codec.Build, c: Config.Company, t: Target, archive: Archive, folders: seq<string>,
                                   i: nat, j: nat)
    requires AllEntries(Inspection(build, c, t), archive, Visited(c, folders)).Some?
    requires i < |Visited(c, folders)| && Visited(c, folders)[i] in archive
    requires j < |archive[Visited(c, folders)[i]]|
    requires var f := archive[Visited(c, folders)[i]][j];
             var date := FileDate(build, c, Visited(c, folders)[i], f.name);
             Admitted(c, Presence(t), f.name) && date.Found? && Calendar.ParseMonthFirst(date.date).None?
    ensures PresenceScan(build, c, t, archive, folders) == Crashed
  {
    var inspect := Inspection(build, c, t);
    var visited := Visited(c, folders);
    var f := archive[visited[i]][j];
    var es := AllEntries(inspect, archive, visited).value;
    assert inspect(visited[i], f) == Inspect(build, c, t, visited[i], f);
    AllEntriesComplete(inspect, archive, visited, i, j);
    var e := Inspect(build, c, t, visited[i], f).entry;
    var k :| 0 <= k < |es| && es[k] == e;
    HeldComplete(es, k);
    var side := Held(es, e.held);
    var m :| 0 <= m < |side| && side[m] == e.record;
    SortByDateCorrect(side);
  }

  // ---- what a file must hold to be found ----

  /** A file whose first member segment carries the SSN holds it, for every company. */
  lemma SsnSegmentIsFound(c: Config.Company, pre: string, mid: string, ssn: string, post: string)
    requires 'N' !in pre && '\n' !in mid && '~' !in mid
    requires |ssn| == 9 && AllDigits(ssn)
    ensures Holds(c, BySsn(ssn), pre + Matcher.SegmentStart + mid + "*34*" + ssn + "~" + post)
  {
    Matcher.SsnInSegment(pre, mid, ssn, post);
  }

  /** `last*first` is a name capture can end at the following `***`. */
  lemma JoinedNameShape(last: string, first: string)
    requires Matcher.Word(last) && Matcher.Word(first)
    requires '\n' !in last && '\n' !in first
    ensures Matcher.NoStarStop(last + "*" + first) && '\n' !in last + "*" + first
  {
    var name := last + "*" + first;
    forall j | 0 <= j < |name| ensures name[j] != '\n' && (name[j] == '*' ==> j + 1 < |name| && name[j + 1] != '*') {
      if j < |last| {
        assert name[j] == last[j];
      } else if j > |last| {
        assert name[j] == first[j - |last| - 1];
      } else {
        assert name[j + 1] == first[0];
      }
    }
  }

  /**
   * A file whose first member segment names `last*first` holds the name
   * `last first`, for every company.
   */
  lemma NameSegmentIsFound(c: Config.Company, pre: string, last: string, first: string, post: string)
    requires 'N' !in pre && Matcher.Word(last) && Matcher.Word(first)
    requires '\n' !in last && '\n' !in first
    ensures Holds(c, ByName(last + " " + first), pre + Matcher.SegmentStart + last + "*" + first + "***" + post)
  {
    var name := last + "*" + first;
    var content := pre + Matcher.SegmentStart + last + "*" + first + "***" + post;
    assert content == pre + Matcher.SegmentStart + name + "***" + post;
    JoinedNameShape(last, first);
    Matcher.NameInSegment(pre, name, post);
    Matcher.StarsReadAsSpaces(last, first);
    var caps := Matcher.NameCaptures(content);
    assert Matcher.NameMatches(caps[0], last + " " + first);
  }

  // ---------------------------------------------------------------------
  // Date-range collection
  // ---------------------------------------------------------------------

  /** How a collection treats one file of a folder: its SSNs, or `None` when it raises. */
  type Collector = (string, ArchiveFile) -> Option<seq<string>>

  /**
   * One file of `find_all_ssns_in_date_range*`: filtered out, skipped for a
   * falsy date or a date outside the range, an exception from the date codec,
   * or every SSN capture of its content.
   */
  function CollectFile(build: Codec.Build, c: Config.Company, startDate: string, endDate: string,
                       folder: string, f: ArchiveFile): (r: Option<seq<string>>)
    ensures r.None? ==> c == Config.Anthem
  {
    if !Admitted(c, DateRange, f.name) then Some([])
    else
      match FileDate(build, c, folder, f.name)
      case Raised => None
      case NoDate => Some([])
      case Found(d) =>
        if d == "" || !Calendar.IsDateInRange(d, startDate, endDate) then Some([])
        else Some(Matcher.SsnCaptures(f.content))
  }

  function Collection(build: Codec.Build, c: Config.Company, startDate: string, endDate: string): Collector
  {
    (folder: string, f: ArchiveFile) => CollectFile(build, c, startDate, endDate, folder, f)
  }

  /** The SSNs of one listing, file after file; `None` once a file raises. */
  function Gathered(collect: Collector, folder: string, files: seq<ArchiveFile>): Option<seq<string>>
  {
    if |files| == 0 then Some([])
    else
      match (Gathered(collect, folder, files[..|files| - 1]), collect(folder, files[|files| - 1]))
      case (Some(xs), Some(ys)) => Some(xs + ys)
      case _ => None
  }

  /** The SSNs of all visited folders, folder after folder. */
  function AllGathered(collect: Collector, archive: Archive, folders: seq<string>): Option<seq<string>>
  {
    if |folders| == 0 then Some([])
    else
      var folder := folders[|folders| - 1];
      match AllGathered(collect, archive, folders[..|folders| - 1])
      case None => None
      case Some(xs) =>
        if folder !in archive then Some(xs)
        else
          match Gathered(collect, folder, archive[folder])
          case None => None
          case Some(ys) => Some(xs + ys)
  }

  /** Each string keyed by its code points. */
  function StringKeys(xs: seq<string>): (ks: seq<Order.Keyed<string>>)
    ensures |ks| == |xs| && forall i :: 0 <= i < |xs| ==> ks[i] == Order.Keyed(Codes(xs[i]), xs[i])
  {
    seq(|xs|, i requires 0 <= i < |xs| => Order.Keyed(Codes(xs[i]), xs[i]))
  }

  /** `sorted` on strings: code-point order, duplicates kept. */
  function SortStrings(xs: seq<string>): seq<string>
  {
    Order.Items(Order.Sort(StringKeys(xs)))
  }

  /** The result of a date-range collection; `None` when it raises. */
  function SsnsInRange(build: Codec.Build, c: Config.Company, archive: Archive, folders: seq<string>,
                       startDate: string, endDate: string): Option<seq<string>>
  {
    match AllGathered(Collection(build, c, startDate, endDate), archive, Visited(c, folders))
    case None => None
    case Some(xs) => Some(SortStrings(xs))
  }

  lemma {:induction false} GatheredCrashPersists(collect: Collector, folder: string, files: seq<ArchiveFile>, j: nat)
    requires j <= |files| && Gathered(collect, folder, files[..j]).None?
    ensures Gathered(collect, folder, files).None?
    decreases |files| - j
  {
    if j < |files| {
      assert files[..j + 1][..j] == files[..j];
      GatheredCrashPersists(collect, folder, files, j + 1);
    } else {
      assert files[..j] == files;
    }
  }

  lemma {:induction false} AllGatheredCrashPersists(collect: Collector, archive: Archive, folders: seq<string>, i: nat)
    requires i <= |folders| && AllGathered(collect, archive, folders[..i]).None?
    ensures AllGathered(collect, archive, folders).None?
    decreases |folders| - i
  {
    if i < |folders| {
      assert folders[..i + 1][..i] == folders[..i];
      AllGatheredCrashPersists(collect, archive, folders, i + 1);
    } else {
      assert folders[..i] == folders;
    }
  }

  /** The loop over one folder's listing, appending every SSN of every collected file. */
  method GatherListing(collect: Collector, folder: string, files: seq<ArchiveFile>, found0: seq<string>)
    returns (ok: bool, found: seq<string>)
    ensures ok <==> Gathered(collect, folder, files).Some?
    ensures ok ==> found == found0 + Gathered(collect, folder, files).value
  {
    found := found0;
    ghost var more: seq<string> := [];
    var j := 0;
    while j < |files|
      invariant 0 <= j <= |files|
      invariant Gathered(collect, folder, files[..j]) == Some(more)
      invariant found == found0 + more
    {
      assert files[..j + 1][..j] == files[..j];
      var matches := collect(folder, files[j]);
      if matches.None? {
        GatheredCrashPersists(collect, folder, files, j + 1);
        return false, found;
      }
      var k := 0;
      while k < |matches.value|
        invariant 0 <= k <= |matches.value|
        invariant found == found0 + more + matches.value[..k]
      {
        found := found + [matches.value[k]];
        assert matches.value[..k + 1] == matches.value[..k] + [matches.value[k]];
        k := k + 1;
      }
      assert matches.value[..k] == matches.value;
      more := more + matches.value;
      j := j + 1;
    }
    assert files[..|files|] == files;
    return true, found;
  }

  /** The loop over the visited folders. */
  method GatherFolders(collect: Collector, archive: Archive, folders: seq<string>) returns (ok: bool, found: seq<string>)
    ensures ok <==> AllGathered(collect, archive, folders).Some?
    ensures ok ==> found == AllGathered(collect, archive, folders).value
  {
    found := [];
    var i := 0;
    while i < |folders|
      invariant 0 <= i <= |folders|
      invariant AllGathered(collect, archive, folders[..i]) == Some(found)
    {
      var folder := folders[i];
      assert folders[..i + 1][..i] == folders[..i];
      if folder in archive {
        ok, found := GatherListing(collect, folder, archive[folder], found);
        if !ok {
          AllGatheredCrashPersists(collect, archive, folders, i + 1);
          return false, found;
        }
      }
      i := i + 1;
    }
    assert folders[..|folders|] == folders;
    return true, found;
  }

  /** `find_all_ssns_in_date_range*`: collect every SSN of the files dated in range, then sort. */
  method FindAllSsnsInDateRange(build: Codec.Build, c: Config.Company, archive: Archive, folders: seq<string>,
                                startDate: string, endDate: string)
    returns (r: Option<seq<string>>)
    ensures r == SsnsInRange(build, c, archive, folders, startDate, endDate)
  {
    var ok, found := GatherFolders(Collection(build, c, startDate, endDate), archive, Visited(c, folders));
    if !ok {
      return None;
    }
    return Some(SortStrings(found));
  }

  // ---- what the date-range collection promises ----

  /** `sorted` keeps every string, duplicates included, in code-point order. */
  lemma SortStringsCorrect(xs: seq<string>)
    ensures multiset(SortStrings(xs)) == multiset(xs)
    ensures forall i, j :: 0 <= i < j < |SortStrings(xs)| ==> Order.LexLe(Codes(SortStrings(xs)[i]), Codes(SortStrings(xs)[j]))
  {
    var ks := StringKeys(xs);
    var sorted := Order.Sort(ks);
    Order.SortCorrect(ks);
    Order.ItemsPermutation(sorted, ks);
    assert Order.Items(ks) == xs;
    var r := SortStrings(xs);
    assert r == Order.Items(sorted);
    forall i, j | 0 <= i < j < |r| ensures Order.LexLe(Codes(r[i]), Codes(r[j])) {
      SortedKeyIsCodes(ks, xs, sorted, i);
      SortedKeyIsCodes(ks, xs, sorted, j);
    }
  }

  /** An element of the sorted keys is keyed by its own code points. */
  lemma SortedKeyIsCodes(ks: seq<Order.Keyed<string>>, xs: seq<string>, sorted: seq<Order.Keyed<string>>, i: nat)
    requires ks == StringKeys(xs) && multiset(sorted) == multiset(ks) && i < |sorted|
    ensures sorted[i].key == Codes(sorted[i].item)
  {
    var e := sorted[i];
    assert e in multiset(sorted);
    assert e in multiset(ks);
    var k :| 0 <= k < |ks| && ks[k] == e;
  }

  lemma {:induction false} GatheredSource(collect: Collector, folder: string, files: seq<ArchiveFile>, x: string)
    returns (j: nat)
    requires Gathered(collect, folder, files).Some? && x in Gathered(collect, folder, files).value
    ensures j < |files| && collect(folder, files[j]).Some? && x in collect(folder, files[j]).value
  {
    var n := |files| - 1;
    if x in Gathered(collect, folder, files[..n]).value {
      j := GatheredSource(collect, folder, files[..n], x);
      assert files[..n][j] == files[j];
    } else {
      j := n;
    }
  }

  lemma {:induction false} AllGatheredSource(collect: Collector, archive: Archive, folders: seq<string>, x: string)
    returns (i: nat, j: nat)
    requires AllGathered(collect, archive, folders).Some? && x in AllGathered(collect, archive, folders).value
    ensures i < |folders| && folders[i] in archive && j < |archive[folders[i]]|
    ensures collect(folders[i], archive[folders[i]][j]).Some? && x in collect(folders[i], archive[folders[i]][j]).value
  {
    var n := |folders| - 1;
    if x in AllGathered(collect, archive, folders[..n]).value {
      i, j := AllGatheredSource(collect, archive, folders[..n], x);
      assert folders[..n][i] == folders[i];
    } else {
      i := n;
      j := GatheredSource(collect, folders[n], archive[folders[n]], x);
    }
  }

  lemma {:induction false} GatheredComplete(collect: Collector, folder: string, files: seq<ArchiveFile>, j: nat, x: string)
    requires j < |files| && collect(folder, files[j]).Some? && x in collect(folder, files[j]).value
    requires Gathered(collect, folder, files).Some?
    ensures x in Gathered(collect, folder, files).value
  {
    var n := |files| - 1;
    if j < n {
      assert files[..n][j] == files[j];
      GatheredComplete(collect, folder, files[..n], j, x);
    }
  }

  lemma {:induction false} AllGatheredComplete(collect: Collector, archive: Archive, folders: seq<string>, i: nat, j: nat, x: string)
    requires i < |folders| && folders[i] in archive && j < |archive[folders[i]]|
    requires collect(folders[i], archive[folders[i]][j]).Some? && x in collect(folders[i], archive[folders[i]][j]).value
    requires AllGathered(collect, archive, folders).Some?
    ensures x in AllGathered(collect, archive, folders).value
  {
    var n := |folders| - 1;
    if i < n {
      assert folders[..n][i] == folders[i];
      AllGatheredComplete(collect, archive, folders[..n], i, j, x);
    } else {
      GatheredComplete(collect, folders[n], archive[folders[n]], j, x);
    }
  }

  lemma {:induction false} GatheredFail(collect: Collector, folder: string, files: seq<ArchiveFile>, j: nat)
    requires j < |files| && collect(folder, files[j]).None?
    ensures Gathered(collect, folder, files).None?
  {
    var n := |files| - 1;
    if j < n {
      assert files[..n][j] == files[j];
      GatheredFail(collect, folder, files[..n], j);
    }
  }

  lemma {:induction false} AllGatheredFail(collect: Collector, archive: Archive, folders: seq<string>, i: nat, j: nat)
    requires i < |folders| && folders[i] in archive && j < |archive[folders[i]]|
    requires collect(folders[i], archive[folders[i]][j]).None?
    ensures AllGathered(collect, archive, folders).None?
  {
    var n := |folders| - 1;
    if i < n {
      assert folders[..n][i] == folders[i];
      AllGatheredFail(collect, archive, folders[..n], i, j);
    } else {
      GatheredFail(collect, folders[n], archive[folders[n]], j);
    }
  }

  /** The result is every collected SSN, duplicates kept, in sorted order. */
  lemma RangeResultSorted(build: Codec.Build, c: Config.Company, archive: Archive, folders: seq<string>,
                          startDate: string, endDate: string)
    requires SsnsInRange(build, c, archive, folders, startDate, endDate).Some?
    ensures var r := SsnsInRange(build, c, archive, folders, startDate, endDate).value;
            && multiset(r) == multiset(AllGathered(Collection(build, c, startDate, endDate), archive, Visited(c, folders)).value)
            && forall i, j :: 0 <= i < j < |r| ==> Order.LexLe(Codes(r[i]), Codes(r[j]))
  {
    SortStringsCorrect(AllGathered(Collection(build, c, startDate, endDate), archive, Visited(c, folders)).value);
  }

  /**
   * Every SSN in the result is nine digits captured from a visited file that
   * passes the filter and whose date lies in the range.
   */
  lemma RangeSsnSource(build: Codec.Build, c: Config.Company, archive: Archive, folders: seq<string>,
                       startDate: string, endDate: string, x: string)
    returns (i: nat, j: nat)
    requires SsnsInRange(build, c, archive, folders, startDate, endDate).Some?
    requires x in SsnsInRange(build, c, archive, folders, startDate, endDate).value
    ensures |x| == 9 && AllDigits(x)
    ensures i < |Visited(c, folders)| && Visited(c, folders)[i] in archive
    ensures j < |archive[Visited(c, folders)[i]]|
    ensures var folder := Visited(c, folders)[i];
            var f := archive[folder][j];
            var date := FileDate(build, c, folder, f.name);
            && Admitted(c, DateRange, f.name)
            && date.Found? && Calendar.IsDateInRange(date.date, startDate, endDate)
            && x in Matcher.SsnCaptures(f.content)
  {
    var collect := Collection(build, c, startDate, endDate);
    var visited := Visited(c, folders);
    var xs := AllGathered(collect, archive, visited).value;
    SortStringsCorrect(xs);
    assert x in multiset(SortStrings(xs));
    i, j := AllGatheredSource(collect, archive, visited, x);
    var f := archive[visited[i]][j];
    assert collect(visited[i], f) == CollectFile(build, c, startDate, endDate, visited[i], f);
    var caps := Matcher.SsnCaptures(f.content);
    var m :| 0 <= m < |caps| && caps[m] == x;
    assert Matcher.WellShaped(Matcher.MemberSsn, caps[m]);
  }

  /** Every SSN captured from a visited, admitted file dated in range is in the result. */
  lemma RangeFileIsCollected(build: Codec.Build, c: Config.Company, archive: Archive, folders: seq<string>,
                             startDate: string, endDate: string, i: nat, j: nat, x: string)
    requires SsnsInRange(build, c, archive, folders, startDate, endDate).Some?
    requires i < |Visited(c, folders)| && Visited(c, folders)[i] in archive
    requires j < |archive[Visited(c, folders)[i]]|
    requires var f := archive[Visited(c, folders)[i]][j];
             var date := FileDate(build, c, Visited(c, folders)[i], f.name);
             && Admitted(c, DateRange, f.name)
             && date.Found? && Calendar.IsDateInRange(date.date, startDate, endDate)
             && x in Matcher.SsnCaptures(f.content)
    ensures x in SsnsInRange(build, c, archive, folders, startDate, endDate).value
  {
    var collect := Collection(build, c, startDate, endDate);
    var visited := Visited(c, folders);
    var f := archive[visited[i]][j];
    var date := FileDate(build, c, visited[i], f.name);
    assert collect(visited[i], f) == CollectFile(build, c, startDate, endDate, visited[i], f);
    AllGatheredComplete(collect, archive, visited, i, j, x);
    var xs := AllGathered(collect, archive, visited).value;
    SortStringsCorrect(xs);
    assert x in multiset(xs);
  }

  /** A visited, admitted file whose date raises ends the whole collection. */
  lemma RangeRaisingFileCrashes(build: Codec.Build, c: Config.Company, archive: Archive, folders: seq<string>,
                                startDate: string, endDate: string, i: nat, j: nat)
    requires i < |Visited(c, folders)| && Visited(c, folders)[i] in archive
    requires j < |archive[Visited(c, folders)[i]]|
    requires var f := archive[Visited(c, folders)[i]][j];
             Admitted(c, DateRange, f.name) && FileDate(build, c, Visited(c, folders)[i], f.name).Raised?
    ensures c == Config.Anthem && SsnsInRange(build, c, archive, folders, startDate, endDate).None?
  {
    var collect := Collection(build, c, startDate, endDate);
    var visited := Visited(c, folders);
    assert collect(visited[i], archive[visited[i]][j]).None?;
    AllGatheredFail(collect, archive, visited, i, j);
  }
}
