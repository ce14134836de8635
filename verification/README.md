# Member-file presence checker: a Dafny model of its core

The system answers one question for a payer's enrollment archive: in which
daily files does a member appear, and where are the gaps? Four companies
(AHH_AMO, ANTHEM_ABC_MUSGROW, TELADOC and SAVRX) drop X12 834 enrollment files
into per-folder `backups` directories. Each file is named after the day it was
produced. The core does five things:

1. **Filename date codecs.** Each company has one, and SAVRX has one per
   folder. Each reads an `MM-DD-YYYY` day from a file name, or reports that
   the name carries none.
2. **Identifier tests.** These decide whether a file's content carries a
   member id (a `REF*…*id` segment), a member name or an SSN (captured from
   the `NM1*IL*1*` segment).
3. **Classification scans.** These walk the folders, file every record as
   present or absent and sort both lists by date. A date-range variant
   collects every SSN of the files dated within an inclusive range.
4. **Company configuration.** This selects the company's base path, its
   active folders and the variant flags.
5. **Timeline summary.** This turns the present and absent records into an
   HTML list of events: Started, Missing, Restarted, the closing missing
   block and the last present date.

The system ships as two builds of the same logic module: the desktop build
(`logic.py`) and the hosted server build (`Hosted_Project/logic.py`). The
model keeps one copy of everything the builds share and takes a
`Codec.Build` parameter (`Desktop` or `Hosted`) where they differ:
- the ANTHEM date codec: the hosted build reads fourteen digits first, and
  falls through to the TRI_MED scan when six digits fail the test;
- the text of a long missing block;
- the closing event's label;
- which present records the last present date is taken from.

The finder functions are textually the same in both builds.

Modules, one file each:

- `Text` and `Wrappers` (`text.dfy`): Python's string operations, restricted to ASCII.
- `Order` (`order.dfy`): the stable `sorted(key=…)`.
- `Calendar` (`calendar.dfy`): `strptime` for `%m-%d-%Y` and `%d-%m-%Y`, and `is_date_in_range`.
- `Codec` (`codec.dfy`) and `CodecFacts` (`codec_facts.dfy`): the date codecs and what they promise.
- `Matcher` (`matcher.dfy`): the identifier tests and the two `findall` captures.
- `Config` (`config.dfy`): `get_company_config`.
- `Scanner` (`scanner.dfy`): the scans.
- `Timeline` (`timeline.dfy`): the summaries.

Behaviour that makes Python raise is modelled as an explicit outcome
(`Raised`, `Crashed`, `None`). Examples:
- `int('')` in the ANTHEM codec;
- a sort key whose `strptime` fails;
- `ValueError` for an unknown company.

The model follows the code. The AHH_AMO id pattern spells its qualifier `0F` (zero), so a
segment written `REF*OF*…` is not found for AHH_AMO (`Matcher.AhhMissesLetterO`).
The AHH_AMO SSN presence scan applies no extension filter. The hosted
member-id timeline closes with the label "Last File But SSN Absent : ", as
the SSN timeline does.

## Model

| member | source | states |
|---|---|---|
| Calendar.ParseMonthFirstRoundTrip | logic.py:502 | `strptime(…, "%m-%d-%Y")` on the `MM-DD-YYYY` rendering of any valid date gives back that date |
| Calendar.ParseDayFirstRoundTrip | logic.py:503-504 | `strptime(…, "%d-%m-%Y")` on the `DD-MM-YYYY` rendering of any valid date gives back that date |
| Calendar.BoundRoundTrip | logic.py:503-504 | a range bound rendered `DD-MM-YYYY` reads back as its date after `strip()` |
| Calendar.IsDateInRange | logic.py:493-509 | the range check is false whenever the file date or either stripped bound fails to parse (the `except` branch) |
| Calendar.InRangeIsInclusive | logic.py:506 | for well-formed texts the range check holds exactly when start ≤ file ≤ end in calendar order, both bounds inclusive |
| Calendar.InRangeAtBounds | logic.py:506 | a file dated on the day that is both bounds is in range |
| Calendar.MinDateIsLeast | logic.py:727 | `datetime.min`, the key of an undated record, is at or before every valid date, and only 01-01-0001 is at or before it |
| Codec.StampFields | logic.py:84 | the `f"{mm}-{dd}-20{yy}"` text splits on `-` back into its three digit fields |
| Codec.Read | logic.py:82-84 | reading a digit run in any layout gives an `MM-DD-YYYY` text made of digits |
| Codec.FirstRun | logic.py:169 | `re.search` finds the leftmost start at or after `from` of the literal followed by `n` digits; there is none before it; `None` means there is none at all |
| Codec.MatchPattern | logic.py:199 | an anchored pattern matches exactly when prefix and digits end the name; a searched pattern matches exactly when the run occurs anywhere; a match is an `MM-DD-YYYY` digit text |
| Codec.FirstMatch | logic.py:194-222 | trying the patterns in order yields a date exactly when one of them matches the name; the date is the reading of the first pattern that matches, and an `MM-DD-YYYY` digit text |
| Codec.ExtractAhhAmo | logic.py:67-84 | after removing `.834` and `.TXT`, a date is returned exactly when the name ends in twelve digits |
| Codec.ExtractTeladoc | logic.py:160-178 | a date is returned exactly when the name holds eight consecutive digits |
| Codec.Grammar | logic.py:429-448 | every pattern of a folder's grammar is well formed (its digit run is long enough for its layout) |
| Codec.ExtractSavRx | logic.py:429-448 | an unknown folder gives `None`; any result is an `MM-DD-YYYY` digit text |
| Codec.CheckMonthDay | logic.py:117-126 | `int('')` raises exactly when the month field is empty, or the day field is empty and the month is not zero; accepted fields are month 1..12 and day 1..31, swapped exactly when the month field exceeds 12 |
| Codec.WindowDate | logic.py:138-150 | a six-digit window accepted by the TRI_MED scan gives a date with month 1..12 and day 1..31 |
| Codec.ScanWindows | logic.py:137-150 | any date the window scan of one part returns has month 1..12 and day 1..31 |
| Codec.ScanParts | logic.py:131-152 | any date the scan over the `_`-separated parts returns has month 1..12 and day 1..31 |
| Codec.TriMedFallback | logic.py:130-152 | the fallback finds a date only for folder TRI_MED, in range, and never raises (it runs under `try`) |
| Codec.ReadLong | Hosted_Project/logic.py:170-182 | the fourteen-digit reading returns only month 1..12 and day 1..31 |
| Codec.ReadShort | Hosted_Project/logic.py:187-223 | the six-digit reading returns only in-range dates; it raises only when one to four digits follow the prefix |
| Codec.ExtractAnthem | logic.py:96-152 | an unknown folder or a name not starting with the folder gives `None`; every date has month 1..12 and day 1..31; an exception escapes only when one to four digits follow the prefix |
| CodecFacts.ReadEncoded | logic.py:82-84 | reading the digits written for a day, in any layout, gives that day's `MM-DD-YYYY` text |
| CodecFacts.AtEndRoundTrip | logic.py:199 | an anchored pattern reads back the day written after its prefix at the end of a name, whatever precedes the prefix |
| CodecFacts.AhhAmoRoundTrip | logic.py:67-84 | `<stem><YYMMDD><HHMMSS>.TXT` (or `.834`) yields the day it was named after |
| CodecFacts.AhhStemOf | logic.py:76 | removing `.834` and `.TXT` from a dot-free stem plus one of them leaves the stem |
| CodecFacts.AhhAmoLowerCaseTxt | logic.py:76-80 | only an upper-case `.TXT` is removed, so a `.txt` name carries no date |
| CodecFacts.TeladocReadsFirstRun | logic.py:169-178 | behind a digit-free lead-in, the first eight digits are read as YYYYMMDD |
| CodecFacts.TeladocRoundTrip | logic.py:160-178 | a digit-free lead-in followed by YYYYMMDD yields that day |
| CodecFacts.TeladocExample | logic.py:163-164 | `MEITD_20240115.834` and, with a lead-in, `TEST_MEITD_20240115.834` both give `01-15-2024` |
| CodecFacts.TeladocKeepsImpossibleMonth | logic.py:173-178 | there is no range check: `MEITD_20249901.834` gives `99-01-2024` |
| CodecFacts.MonthNinetyNineDoesNotParse | logic.py:853 | that text does not parse as `%m-%d-%Y`, so the sort key of the scans raises on it |
| CodecFacts.SavRxIgnoresCase | logic.py:195 | SAVRX codecs give the same result for a name and its upper-cased form |
| CodecFacts.SavRxIgnoresExtension | logic.py:196 | SAVRX codecs ignore everything from the first `.` on |
| CodecFacts.SavRxNameOfStamped | logic.py:195-196 | the normalised name of `<stem>_<digits>.<ext>` is the upper-cased stem, `_` and the digits |
| CodecFacts.AtEndExclusive | logic.py:199-206 | two anchored patterns with different run lengths cannot both match one name when the shorter one's prefix ends in a non-digit |
| CodecFacts.SavRxAnchoredPatternsExclusive | Hosted_Project/logic.py:384-485 | within every SAVRX grammar, no two anchored patterns match the same name, so their order does not matter |
| CodecFacts.J84EdiPatternsMiss | logic.py:257-266 | the `J84_EDI` patterns miss a name whose seventh character from the end is `_` |
| CodecFacts.TrailingFolders | logic.py:319-424 | MEI, TRI and TRI_NONMEDICARE share one grammar: `_MMDDYY` at the end, else `_YYMMDDHHMMSS` at the end |
| CodecFacts.TrailingGrammarsRead | logic.py:274-281 | a name ending `_MMDDYY` is read as that day by that grammar and by the J84 grammar's generic fallback |
| CodecFacts.SavRxTrailingMmDdYy | logic.py:252-283 | in MEI, TRI, TRI_NONMEDICARE and J84, a file `<stem>_<MMDDYY>.<ext>` yields that day |
| CodecFacts.OewSecondPattern | logic.py:352-366 | when the trailing-stamp pattern misses, OEW's result is that of the `_` and eight digits search |
| CodecFacts.OewEmbeddedRun | logic.py:360-366 | behind a lead-in without `_`, the search reads the eight digits after the first `_` as YYYYMMDD |
| CodecFacts.OewNoTrailingStamp | logic.py:352 | a name with one `_` followed by other than twelve digits has no trailing stamp |
| CodecFacts.OewReadsEmbeddedDate | logic.py:348-368 | an OEW name `<head>_<YYYYMMDD><digits>` without a trailing twelve-digit stamp yields that day |
| CodecFacts.OewPrefersTrailingTimestamp | logic.py:348-368 | OEW tries the trailing `_YYMMDDHHMMSS` first, so such a name yields its day even when it also holds `_` and eight digits |
| CodecFacts.ScanWindowsIsFirst | logic.py:136-150 | the window scan of a part returns the reading of the first six-character window that is accepted |
| CodecFacts.ScanWindowsNone | logic.py:136-150 | the window scan of a part finds nothing exactly when no window is accepted |
| CodecFacts.TriMedScanIsFirstWindow | logic.py:133-150 | the scan over the `_`-separated parts returns the first six-character window of the whole remainder that reads as a date |
| CodecFacts.ScanSkipsRejectedPart | logic.py:136-150 | when a rejected six-digit part is followed by `_` and an accepted one, the scan returns the second |
| CodecFacts.AnthemRoundTrip | logic.py:96-128 | in both builds, `<folder><YYMMDD>.834` yields the day it was named after |
| CodecFacts.AnthemSwapsOverflowingMonth | logic.py:120-122 | YYDDMM digits whose month field exceeds 12 and whose day field does not are read with the two swapped |
| CodecFacts.AnthemRejectsTwoOverflowingFields | logic.py:124-126 | outside TRI_MED, six digits whose month and day fields both exceed 12 give no date, in either build |
| CodecFacts.AnthemSwapFree | logic.py:117-128 | six digits with month 1..12 and day 1..31 are read as they stand |
| CodecFacts.AnthemShortRunRaises | logic.py:115-121 | one to four digits after the prefix make `int('')` raise, unless the month field is zero |
| CodecFacts.AnthemBareFolder | logic.py:115-117 | outside TRI_MED, a file named just `<folder>.834` carries no date and does not raise |
| CodecFacts.AnthemFebruaryThirtyFirst | logic.py:125 | the day is checked against 31, not against the month, so February 31 comes through |
| CodecFacts.FebruaryThirtyFirstDoesNotParse | logic.py:601 | no `02-31-YYYY` text parses, so the ANTHEM scans' final sort raises on it |
| CodecFacts.HostedFourteen | Hosted_Project/logic.py:173-182 | the hosted build reads fourteen digits with month 1..12 and day 1..31 as YYYYMMDD |
| CodecFacts.DesktopFourteen | logic.py:115-128 | the desktop build reads only the first six of those digits, as YYMMDD |
| CodecFacts.FourteenDigitsDisagree | Hosted_Project/logic.py:170-198 | when digits three and four exceed 12, the builds disagree: the hosted build reads `OCU20220106152506` as January 6 2022, the desktop build as January 22 2020 |
| CodecFacts.TriMedRejectedDigits | Hosted_Project/logic.py:187-220 | when six digits after TRI_MED fail the test, the desktop build gives no date and the hosted build runs the window scan on the remainder |
| CodecFacts.AnthemBuildsDifferOnRejectedDigits | Hosted_Project/logic.py:185-223 | for `TRI_MED<rejected six>_<good six>.834`, the desktop build gives no date and the hosted build gives the second group's date |
| Matcher.LiteralImpliesTeladoc | logic.py:581-584 | a file the ANTHEM literal test accepts is accepted by the TELADOC pattern |
| Matcher.TeladocImpliesSavRx | logic.py:943-946 | whatever the TELADOC pattern finds, the SAVRX pattern finds |
| Matcher.AhhImpliesSavRx | logic.py:679-682 | whatever the AHH_AMO pattern finds, the SAVRX pattern finds |
| Matcher.AhhMissesLetterO | logic.py:679-682 | `REF*OF*id~` is found by the ANTHEM, TELADOC and SAVRX tests but not by the AHH_AMO one (qualifier `0F`) |
| Matcher.RuleIgnoresCase | logic.py:805-808 | the `re.IGNORECASE` searches give the same answer on the upper-cased content |
| Matcher.StarRun | logic.py:1545 | the greedy `\*+` takes exactly the stars that follow, up to the first non-star |
| Matcher.NameStop | logic.py:1016 | the lazy `(.+?)` stops at the first `***` at or after its minimum, with no newline taken |
| Matcher.SsnStop | logic.py:1543-1545 | the lazy `.*?` stops at the first place the SSN tail matches, with no newline taken |
| Matcher.NameAt | logic.py:1016 | a name match starts with `NM1*IL*1*`, and its capture is followed by at least three stars |
| Matcher.SsnAt | logic.py:1543-1545 | an SSN match starts with `NM1*IL*1*` and ends `*34*` + the nine-digit capture + `~` |
| Matcher.FindAll | logic.py:1653 | every `findall` capture has its pattern's shape (nine digits for the SSN) |
| Matcher.SsnFirstCapture | logic.py:1653 | the first SSN capture is the digits of the first segment's `*34*` tail |
| Matcher.SsnInSegment | logic.py:1543-1545 | a segment `NM1*IL*1*`…`*34*`SSN`~` on one line is captured, and is the first capture when nothing before it starts a segment |
| Matcher.NameFirstCapture | logic.py:1101 | the first name capture is the text between the first `NM1*IL*1*` and the next `***` |
| Matcher.NameInSegment | logic.py:1016 | the text between `NM1*IL*1*` and the first run of three or more stars is captured, and is the first capture when nothing before it starts a segment |
| Matcher.StarsReadAsSpaces | logic.py:1106-1109 | a capture `LAST*FIRST` matches the target `LAST FIRST` |
| Matcher.ExtraWordsDoNotMatch | logic.py:1109 | matching is equality, not containment: `LAST*FIRST*MORE` does not match `LAST FIRST` |
| Matcher.NameMatchIgnoresTargetCase | logic.py:1076 | the target's letter case does not matter |
| Matcher.NameCountPositive | logic.py:1494-1513 | the SAVRX match count is positive exactly when some capture matches the target |
| Matcher.CountNames | logic.py:1494-1501 | the SAVRX counting loop returns the number of matching captures, positive exactly when one matches |
| Matcher.AnyNameMatches | logic.py:1103-1111 | the early-exit loop finds a match exactly when some capture matches the target |
| Matcher.CountSsn | logic.py:2011-2017 | the SAVRX SSN loop counts the occurrences of the SSN among the captures, positive exactly when it is captured |
| Config.Name | logic.py:11-16 | every company's name is in `COMPANIES` |
| Config.CompanyOf | logic.py:2315-2319 | a selection names a company exactly when it is in `COMPANIES`, and that company's name is the selection |
| Config.CompanyNamesRoundTrip | logic.py:11-16 | looking up a company's name gives the company back |
| Config.AllFolders | logic.py:2325-2360 | every company has at least one folder |
| Config.GetCompanyConfig | logic.py:2313-2382 | an unknown company raises; otherwise the config names the company and its base path; the active folders are `[sub]` exactly when `sub` is truthy and one of the company's folders, and the whole list otherwise; each flag is set exactly for its company |
| Config.FlagsExclusive | logic.py:2371-2373 | at most one variant flag is set, and none for ANTHEM |
| Config.ActiveFoldersKnown | logic.py:2326-2365 | the active folders are never empty and are drawn from the company's list |
| Config.FoldersHaveCodecs | logic.py:19-23 | every ANTHEM folder is a known codec prefix, and every SAVRX folder has a grammar |
| Order.SortCorrect | logic.py:598-607 | `sorted` returns the elements, permuted, ordered by key, with equal keys in their original order |
| Scanner.FileDate | logic.py:571 | only the ANTHEM codec can raise; every date found is an `MM-DD-YYYY` digit text |
| Scanner.Check | logic.py:1656 | the per-file test, as each scan runs it (early-exit loop, SAVRX counting loops), holds exactly when the content holds the target by the company's test |
| Scanner.Inspect | logic.py:566-593 | a kept file's record carries its own name and is present exactly when the content holds the target; ANTHEM keeps only dated files; only ANTHEM can raise |
| Scanner.KeyedRecords | logic.py:727 | each record is keyed by `strptime` of its date, or `datetime.min` when it has none |
| Scanner.SortRecordsByDate | logic.py:724-733 | computing every key and then sorting gives the stable date sort, or the exception |
| Scanner.ScanListing | logic.py:566-593 | the loop over one listing appends each kept file to the present or absent list, in order; it fails exactly when a file raises |
| Scanner.ScanFolders | logic.py:558-593 | the loop over the folders gives the present and absent records of every kept file of every existing folder |
| Scanner.FindAllDates | logic.py:554-607 | the scan's result is the specified presence scan |
| Scanner.HeldPartition | logic.py:581-593 | every kept record lands on exactly one side |
| Scanner.KeyedRecordsFail | logic.py:601 | computing the keys fails exactly when some record's date does not parse |
| Scanner.SortByDateStable | logic.py:598-607 | records with equal dates keep their listing order |
| Scanner.SortByDateCorrect | logic.py:598-607 | the sort raises exactly when some date does not parse; otherwise it returns the same records in date order, records with equal dates in their listing order (the sort is stable) |
| Scanner.UndatedFirst | logic.py:1789 | in date order, an undated record is preceded only by undated records or ones dated 01-01-0001 |
| Scanner.ScanSplitsEntries | logic.py:554-607 | a completed scan returns the records judged present and those judged absent, each sorted by date, entries with equal dates in the order they were listed |
| Scanner.ScanRecordSource | logic.py:1639-1679 | every listed record comes from a visited file that passes the filter, with the record's date read from its name; it is present exactly when its content holds the target |
| Scanner.AnthemRecordsDated | logic.py:1644-1646 | ANTHEM files without a date are skipped, so every ANTHEM record is dated, with month 1..12 and day 1..31 |
| Scanner.KeptFileIsListed | logic.py:1746-1781 | every visited file that passes the filter and whose date does not raise is listed, on the side its content decides |
| Scanner.RaisingFileCrashesScan | logic.py:571 | an ANTHEM file whose name makes the codec raise ends the whole scan |
| Scanner.UnparseableDateCrashesScan | logic.py:1789-1793 | a listed record whose date does not parse makes the final sort raise |
| Scanner.SsnSegmentIsFound | logic.py:1653-1656 | a file whose first member segment carries the SSN holds it, for every company |
| Scanner.NameSegmentIsFound | logic.py:1101-1111 | a file whose first member segment names `LAST*FIRST` holds the name `LAST FIRST`, for every company |
| Scanner.CollectFile | logic.py:2073-2093 | only an ANTHEM file can make the collection raise |
| Scanner.GatherListing | logic.py:2073-2093 | the loop over one listing appends every SSN of every collected file, in order |
| Scanner.GatherFolders | logic.py:2067-2093 | the loop over the folders gives every collected SSN, folder by folder |
| Scanner.FindAllSsnsInDateRange | logic.py:2058-2095 | the collection's result is the specified one, sorted |
| Scanner.SortStringsCorrect | logic.py:2095 | `sorted` keeps every SSN, duplicates included, in code-point order |
| Scanner.RangeResultSorted | logic.py:2139 | the result is every collected SSN, duplicates kept, in sorted order |
| Scanner.RangeSsnSource | logic.py:2114-2137 | every SSN in the result is nine digits captured from a visited file that passes the filter and whose date lies in the range |
| Scanner.RangeFileIsCollected | logic.py:2166-2181 | every SSN captured from a visited, admitted file dated in range is in the result |
| Scanner.RangeRaisingFileCrashes | logic.py:2078 | an admitted ANTHEM file whose name makes the codec raise ends the whole collection |
| Timeline.DistinctCorrect | logic.py:2394-2402 | the keys of `all_dates` hold each date of the records once |
| Timeline.CollectPresent | logic.py:2396-2398 | the first loop records every truthy present date once, in order, as present |
| Timeline.CollectAbsent | logic.py:2400-2402 | the second loop adds the truthy absent dates not seen yet, as absent; a date is present exactly when it was seen among the present dates |
| Timeline.AddAbsent | logic.py:2401-2402 | after one truthy absent date the keys are the distinct dates seen so far, that date included; every key has a state, and a state is present exactly when its date is a present date |
| Timeline.CollectDates | logic.py:2394-2402 | `all_dates` holds each truthy date once, in first-occurrence order, present exactly when a present record carries it |
| Timeline.ParsedKeysFail | logic.py:2408-2412 | the chronological sort raises exactly when some date does not parse |
| Timeline.SortDatesCorrect | logic.py:2408-2415 | the dates are permuted, never lost or repeated; they come out in date order when all parse, and in code-point order otherwise |
| Timeline.RunTimeline | logic.py:2426-2462 | the loop computes the specified state machine run |
| Timeline.RunState | logic.py:2426-2462 | after the loop the state is the last date's state, and the missing block is empty exactly while present |
| Timeline.FeedEffect | logic.py:2430-2462 | one turn announces a present date that opens a run, and appends an absent date to the missing dates |
| Timeline.RunBlocks | logic.py:2439-2456 | the missing blocks emitted, with the block still open, are exactly the absent dates in order |
| Timeline.RunOpens | logic.py:2430-2458 | the Started and Restarted dates are exactly the present dates that open a run |
| Timeline.RunOrder | logic.py:2426-2462 | Started can only be the first event, exactly when the earliest date is present; each Restarted directly follows a Missing |
| Timeline.CloseEndsMissing | logic.py:2465-2468 | the closing event is there exactly when the latest date is absent |
| Timeline.LatestDefined | logic.py:2473-2476 | `max` has a result exactly when the list is non-empty and every date parses |
| Timeline.LatestIsFirstMaximum | logic.py:2473-2476 | `max` returns the date of the first record whose date is not before any other |
| Timeline.UsableRecordsMembers | Hosted_Project/logic.py:1748-1751 | the hosted filter keeps exactly the records whose date is truthy and not `-` |
| Timeline.LastPresentIsLatest | Hosted_Project/logic.py:1745-1762 | a shown last present date is a present record's date that is no earlier than any candidate's |
| Timeline.LastPresentDefined | logic.py:2471-2479 | the desktop build shows a last present date exactly when there are present records and all their dates parse; the hosted build, exactly when there are usable ones and all of those parse |
| Timeline.SummaryOutcome | logic.py:2390-2405 | "No records found." exactly when both lists are empty; "No valid dated records found." exactly when there are records but none has a date |
| Timeline.SummaryDates | logic.py:2394-2415 | the events are computed from the distinct dates in sorted order; a date is listed exactly when a record carries it, and is present exactly when a present record carries it |
| Timeline.ChronicleDates | logic.py:2426-2468 | the summary's missing blocks hold exactly the absent dates in order; its Started and Restarted dates are exactly the present dates that open a run |
| Timeline.AbsentDatesFirst | logic.py:2430-2436 | the earliest date is announced first: as Started when present, otherwise at the head of a missing block |
| Timeline.ChronicleShape | logic.py:2426-2479 | the summary is never empty; it opens with Started exactly when the earliest date is present; each Restarted follows a Missing; it closes with a missing block exactly when the latest date is absent; the last present date, when shown, is the final item |
| Timeline.BlockTextShowsDates | logic.py:2455 | a block of fewer than five dates shows every date; a longer one shows its first and last |
| Timeline.EventShowsDate | logic.py:2432 | a Started, Restarted or last-present item shows its date in bold |
| Timeline.EventShowsBlock | logic.py:2456 | a missing-block item shows the block's first date |
| Timeline.ListInOrder | logic.py:2481 | every item appears in the list, preceded exactly by the items before it |
| Timeline.RenderInOrder | logic.py:2423-2424 | each event becomes one list item, and the items keep the events' order |
| Timeline.GenerateTimelineSummary | logic.py:2388-2481 | the generator returns the rendering of the specified summary, for either build and either subject |
| Timeline.OneGapTimeline | Hosted_Project/logic.py:1649-1763 | present on the first and third of three dates and absent on the second gives exactly Started, Missing (one date), Restarted and the third date as last present |

## Left out

- Directory listing, `os.path.exists`, `os.path.join` and file reading are
  not modelled. The archive is an input map from folder to the files of its
  `backups` directory, with their contents in listing order. `ROOT_PATH` and
  base paths are kept as path components.
- `open(…, errors="ignore")` decoding is not modelled: contents are given as
  already-decoded text.
- Non-ASCII text is not modelled. Digits, `\d`, `\w`, case mapping and
  whitespace are their ASCII versions.
- Regex `$` before a trailing newline is not modelled: `$` is taken as the
  end of the name, since file names carry no newline.
- Directory entries that are sub-directories are not modelled: every
  listed name is a file.
- `strptime` leniency beyond its field patterns (for example, a `%d` of
  `" 1"`) is modelled only as far as `Calendar.DayField` states it.
- Debug `print` calls and the commented-out legacy functions are left out.
  They have no effect on results.
- `safe_parse_date` and `_fmt_date` are left out: the core never calls them.
- app.py and Hosted_Project/app.py are not part of this model. That covers
  the UI and transport, the input trimming and the de-duplicating `set`.
- Scanner.Check: the scan loops do not call it. The model keeps the
  per-file test as the predicate `Holds`, and `Check` shows that the loops
  the source runs (early exit, SAVRX counting) compute it.
- Timeline.GenerateTimelineSummary: `summary_parts` are kept as event values
  and rendered to `<li>` text at the end, not appended as text one by one.
  The rendered HTML is the same.
- Codec.ExtractSavRx: the contract states only the unknown-folder case and
  the shape. What the grammars read is stated by CodecFacts lemmas for the
  trailing-stamp folders, J84's `_MMDDYY` fallback and both OEW patterns.
  J84's two `J84_EDI` patterns and the 480, 521 and L82 prefixed patterns
  are covered only by the generic `CodecFacts.AtEndRoundTrip`.
