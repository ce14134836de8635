/**
 * `generate_ssn_timeline_summary` and `generate_member_id_timeline_summary`:
 * the distinct dates of the present and absent records, in date order, read
 * as a run of states; every change of state becomes an event of the HTML
 * summary, followed by the last date on which the target was present.
 *
 * The two builds share the state machine and differ in how a long missing
 * block is written, in the label of the closing missing block, and in which
 * present records the last present date is taken from.
 */
module Timeline {
  import opened Wrappers
  import opened Text
  import Order
  import Calendar
  import Codec
  import Scanner

  datatype State = Present | Absent

  /** Which of the two summaries: they differ only in the opening label. */
  datatype Subject = SsnTimeline | MemberIdTimeline

  /** The entries of `summary_parts`, before rendering. */
  datatype Event =
    | Started(date: string)
    | Missing(block: seq<string>)
    | Restarted(date: string)
    | EndsMissing(block: seq<string>)
    | LastPresent(date: string)

  datatype Summary = NoRecords | NoDatedRecords | Timeline(events: seq<Event>)

  // ---------------------------------------------------------------------
  // all_dates
  // ---------------------------------------------------------------------

  /** `if r["date"]`: a date that is neither `None` nor empty. */
  predicate Truthy(d: Option<string>) { d.Some? && d.value != "" }

  /** The truthy dates of the records, in order, repeats kept. */
  function DatesOf(rs: seq<Scanner.Record>): (ds: seq<string>)
    ensures |ds| <= |rs|
  {
    if |rs| == 0 then []
    else DatesOf(rs[..|rs| - 1]) + (if Truthy(rs[|rs| - 1].date) then [rs[|rs| - 1].date.value] else [])
  }

  /** The elements of `s` in order of first occurrence. */
  function Distinct(s: seq<string>): seq<string>
  {
    if |s| == 0 then []
    else
      var p := Distinct(s[..|s| - 1]);
      if s[|s| - 1] in p then p else p + [s[|s| - 1]]
  }

  /**
   * The keys of `all_dates` in insertion order: the present dates, then the
   * absent dates not already present, each once.
   */
  function DateKeys(present: seq<Scanner.Record>, absent: seq<Scanner.Record>): seq<string>
  {
    Distinct(DatesOf(present) + DatesOf(absent))
  }

  /** The value of `all_dates[d]`: a date of any present record counts as present. */
  function StateOf(present: seq<Scanner.Record>, d: string): State
  {
    if d in DatesOf(present) then Present else Absent
  }

  /** `Distinct` keeps every element once. */
  lemma {:induction false} DistinctCorrect(s: seq<string>)
    ensures forall x :: x in Distinct(s) <==> x in s
    ensures forall i, j :: 0 <= i < j < |Distinct(s)| ==> Distinct(s)[i] != Distinct(s)[j]
  {
    if |s| > 0 {
      DistinctCorrect(s[..|s| - 1]);
      assert s == s[..|s| - 1] + [s[|s| - 1]];
    }
  }

  lemma {:induction false} DistinctHas(s: seq<string>, x: string)
    ensures x in Distinct(s) <==> x in s
  {
    if |s| > 0 {
      DistinctHas(s[..|s| - 1], x);
      assert s == s[..|s| - 1] + [s[|s| - 1]];
    }
  }

  lemma DistinctSnoc(s: seq<string>, x: string)
    ensures Distinct(s + [x]) == if x in Distinct(s) then Distinct(s) else Distinct(s) + [x]
  {
    assert (s + [x])[..|s|] == s;
  }

  lemma DatesOfSnoc(rs: seq<Scanner.Record>, i: nat)
    requires i < |rs|
    ensures DatesOf(rs[..i + 1]) == DatesOf(rs[..i]) + (if Truthy(rs[i].date) then [rs[i].date.value] else [])
  {
    assert rs[..i + 1][..i] == rs[..i];
  }

  /** The first loop: every truthy present date, marked present. */
  method CollectPresent(present: seq<Scanner.Record>) returns (keys: seq<string>, states: map<string, State>)
    ensures keys == Distinct(DatesOf(present))
    ensures forall d :: d in states <==> d in keys
    ensures forall d :: d in states ==> states[d] == Present
  {
    keys, states := [], map[];
    var i := 0;
    while i < |present|
      invariant 0 <= i <= |present|
      invariant keys == Distinct(DatesOf(present[..i]))
      invariant forall d :: d in states <==> d in keys
      invariant forall d :: d in states ==> states[d] == Present
    {
      DatesOfSnoc(present, i);
      if Truthy(present[i].date) {
        var d := present[i].date.value;
        DistinctSnoc(DatesOf(present[..i]), d);
        if d !in states {
          keys := keys + [d];
        }
        states := states[d := Present];
      } else {
        assert DatesOf(present[..i + 1]) == DatesOf(present[..i]);
      }
      i := i + 1;
    }
    assert present[..|present|] == present;
  }

  /** One truthy absent date of the second loop: added, as absent, when it is new. */
  method AddAbsent(ghost seen: seq<string>, ghost all: seq<string>, keys0: seq<string>, states0: map<string, State>, d: string)
    returns (keys: seq<string>, states: map<string, State>)
    requires keys0 == Distinct(all) && forall x :: x in seen ==> x in all
    requires forall x :: x in states0 <==> x in keys0
    requires forall x :: x in states0 ==> (states0[x] == Present <==> x in seen)
    ensures keys == Distinct(all + [d])
    ensures forall x :: x in states <==> x in keys
    ensures forall x :: x in states ==> (states[x] == Present <==> x in seen)
  {
    keys, states := keys0, states0;
    DistinctSnoc(all, d);
    if d !in states {
      DistinctHas(all, d);
      keys := keys + [d];
      states := states[d := Absent];
    }
  }

  /** The second loop: every truthy absent date not seen yet, marked absent. */
  method CollectAbsent(seen: seq<string>, absent: seq<Scanner.Record>, keys0: seq<string>, states0: map<string, State>)
    returns (keys: seq<string>, states: map<string, State>)
    requires keys0 == Distinct(seen)
    requires forall d :: d in states0 <==> d in keys0
    requires forall d :: d in states0 ==> states0[d] == Present
    ensures keys == Distinct(seen + DatesOf(absent))
    ensures forall d :: d in states <==> d in keys
    ensures forall d :: d in states ==> (states[d] == Present <==> d in seen)
  {
    keys, states := keys0, states0;
    forall x | x in states ensures x in seen {
      DistinctHas(seen, x);
    }
    ghost var all := seen;
    assert seen + DatesOf(absent[..0]) == all;
    var k := 0;
    while k < |absent|
      invariant 0 <= k <= |absent|
      invariant all == seen + DatesOf(absent[..k])
      invariant keys == Distinct(all)
      invariant forall d :: d in states <==> d in keys
      invariant forall d :: d in states ==> (states[d] == Present <==> d in seen)
    {
      DatesOfSnoc(absent, k);
      if Truthy(absent[k].date) {
        var d := absent[k].date.value;
        keys, states := AddAbsent(seen, all, keys, states, d);
        all := all + [d];
      }
      k := k + 1;
    }
    assert absent[..|absent|] == absent;
  }

  /**
   * The two loops that fill `all_dates`: each truthy date once, in first
   * occurrence order, present when any present record carries it.
   */
  method CollectDates(present: seq<Scanner.Record>, absent: seq<Scanner.Record>)
    returns (keys: seq<string>, states: map<string, State>)
    ensures keys == DateKeys(present, absent)
    ensures forall d :: d in states <==> d in keys
    ensures forall d :: d in states ==> states[d] == StateOf(present, d)
  {
    keys, states := CollectPresent(present);
    keys, states := CollectAbsent(DatesOf(present), absent, keys, states);
  }

  // ---------------------------------------------------------------------
  // sorted_dates
  // ---------------------------------------------------------------------

  /** Each date keyed by `strptime(d, "%m-%d-%Y")`; `None` when one does not parse. */
  function ParsedKeys(ds: seq<string>): (r: Option<seq<Order.Keyed<string>>>)
    ensures r.Some? ==> |r.value| == |ds|
    ensures r.Some? ==> forall i :: 0 <= i < |ds| ==>
                          (r.value[i].item == ds[i] && Calendar.ParseMonthFirst(ds[i]).Some?
                           && r.value[i].key == Calendar.Key(Calendar.ParseMonthFirst(ds[i]).value))
  {
    if |ds| == 0 then Some([])
    else
      match (ParsedKeys(ds[..|ds| - 1]), Calendar.ParseMonthFirst(ds[|ds| - 1]))
      case (Some(ks), Some(d)) => Some(ks + [Order.Keyed(Calendar.Key(d), ds[|ds| - 1])])
      case _ => None
  }

  /** `sorted(keys, key=strptime)`, or plain `sorted(keys)` when a key raises. */
  function SortDates(ds: seq<string>): seq<string>
  {
    match ParsedKeys(ds)
    case Some(ks) => Order.Items(Order.Sort(ks))
    case None => Scanner.SortStrings(ds)
  }

  lemma {:induction false} ParsedKeysFail(ds: seq<string>)
    ensures ParsedKeys(ds).None? <==> exists k :: 0 <= k < |ds| && Calendar.ParseMonthFirst(ds[k]).None?
  {
    if |ds| > 0 {
      var n := |ds| - 1;
      ParsedKeysFail(ds[..n]);
      if exists k :: 0 <= k < n && Calendar.ParseMonthFirst(ds[..n][k]).None? {
        var k :| 0 <= k < n && Calendar.ParseMonthFirst(ds[..n][k]).None?;
        assert ds[..n][k] == ds[k];
      }
      if exists k :: 0 <= k < |ds| && Calendar.ParseMonthFirst(ds[k]).None? {
        var k :| 0 <= k < |ds| && Calendar.ParseMonthFirst(ds[k]).None?;
        if k < n {
          assert ds[..n][k] == ds[k];
        }
      }
    }
  }

  /** Each sorted date carries its own parsed date as key. */
  lemma SortedDateKeys(ds: seq<string>, ks: seq<Order.Keyed<string>>)
    requires ParsedKeys(ds) == Some(ks)
    ensures var sorted := Order.Sort(ks);
            forall i :: 0 <= i < |sorted| ==>
              (Calendar.ParseMonthFirst(sorted[i].item).Some?
               && sorted[i].key == Calendar.Key(Calendar.ParseMonthFirst(sorted[i].item).value))
  {
    var sorted := Order.Sort(ks);
    Order.SortCorrect(ks);
    forall i | 0 <= i < |sorted|
      ensures Calendar.ParseMonthFirst(sorted[i].item).Some?
      ensures sorted[i].key == Calendar.Key(Calendar.ParseMonthFirst(sorted[i].item).value)
    {
      assert sorted[i] in multiset(sorted);
      assert sorted[i] in ks;
      var m :| 0 <= m < |ks| && ks[m] == sorted[i];
    }
  }

  /**
   * The dates are rearranged, never lost or repeated; when every one parses
   * they come out in chronological order, otherwise in code-point order.
   */
  lemma SortDatesCorrect(ds: seq<string>)
    ensures multiset(SortDates(ds)) == multiset(ds)
    ensures (forall k :: 0 <= k < |ds| ==> Calendar.ParseMonthFirst(ds[k]).Some?) ==>
              (forall i, j :: 0 <= i < j < |ds| ==>
                 Calendar.ParseMonthFirst(SortDates(ds)[i]).Some? && Calendar.ParseMonthFirst(SortDates(ds)[j]).Some?
                 && Order.LexLe(Calendar.Key(Calendar.ParseMonthFirst(SortDates(ds)[i]).value),
                                Calendar.Key(Calendar.ParseMonthFirst(SortDates(ds)[j]).value)))
    ensures (exists k :: 0 <= k < |ds| && Calendar.ParseMonthFirst(ds[k]).None?) ==>
              (forall i, j :: 0 <= i < j < |ds| ==> Order.LexLe(Codes(SortDates(ds)[i]), Codes(SortDates(ds)[j])))
  {
    ParsedKeysFail(ds);
    match ParsedKeys(ds)
    case Some(ks) =>
      Order.SortCorrect(ks);
      Order.ItemsPermutation(Order.Sort(ks), ks);
      assert Order.Items(ks) == ds;
      SortedDateKeys(ds, ks);
    case None =>
      Scanner.SortStringsCorrect(ds);
  }

  // ---------------------------------------------------------------------
  // The state machine
  // ---------------------------------------------------------------------

  /** `summary_parts` (as events), `current_state` and `missing_block`. */
  datatype Machine = Machine(events: seq<Event>, current: Option<State>, block: seq<string>)

  /** One turn of the loop over the sorted dates; `first` is `idx == 0`. */
  function Feed(m: Machine, first: bool, date: string, st: State): Machine
  {
    if first then
      if st == Present then Machine(m.events + [Started(date)], Some(Present), m.block)
      else Machine(m.events, Some(Absent), [date])
    else if m.current == Some(st) then
      if st == Absent then Machine(m.events, m.current, m.block + [date]) else m
    else if m.current == Some(Present) && st == Absent then
      Machine(m.events, Some(Absent), [date])
    else if m.current == Some(Absent) && st == Present then
      Machine(m.events + (if |m.block| > 0 then [Missing(m.block)] else []) + [Restarted(date)], Some(Present), [])
    else m
  }

  /** The machine after the loop has seen `dates`. */
  function Run(dates: seq<string>, states: map<string, State>): Machine
    requires forall d :: d in dates ==> d in states
  {
    if |dates| == 0 then Machine([], None, [])
    else Feed(Run(dates[..|dates| - 1], states), |dates| == 1, dates[|dates| - 1], states[dates[|dates| - 1]])
  }

  /** After the loop: a trailing missing block becomes the closing event. */
  function Close(m: Machine): seq<Event>
  {
    if m.current == Some(Absent) && |m.block| > 0 then m.events + [EndsMissing(m.block)] else m.events
  }

  /** The state machine loop as the source runs it. */
  method RunTimeline(dates: seq<string>, states: map<string, State>)
    returns (events: seq<Event>, current: Option<State>, block: seq<string>)
    requires forall d :: d in dates ==> d in states
    ensures Machine(events, current, block) == Run(dates, states)
  {
    events, current, block := [], None, [];
    var idx := 0;
    while idx < |dates|
      invariant 0 <= idx <= |dates|
      invariant Machine(events, current, block) == Run(dates[..idx], states)
    {
      assert dates[..idx + 1][..idx] == dates[..idx];
      var date := dates[idx];
      var state := states[date];
      if idx == 0 {
        if state == Present {
          events := events + [Started(date)];
        } else {
          block := [date];
        }
        current := Some(state);
      } else if current == Some(state) {
        if state == Absent {
          block := block + [date];
        }
      } else if current == Some(Present) && state == Absent {
        block := [date];
        current := Some(Absent);
      } else if current == Some(Absent) && state == Present {
        if |block| > 0 {
          events := events + [Missing(block)];
        }
        events := events + [Restarted(date)];
        block := [];
        current := Some(Present);
      }
      idx := idx + 1;
    }
    assert dates[..|dates|] == dates;
  }

  // ---- what the machine produces ----

  /** The absent dates, in order. */
  function AbsentDates(dates: seq<string>, states: map<string, State>): seq<string>
    requires forall d :: d in dates ==> d in states
  {
    if |dates| == 0 then []
    else
      var d := dates[|dates| - 1];
      AbsentDates(dates[..|dates| - 1], states) + (if states[d] == Absent then [d] else [])
  }

  /** The present dates that open a run: the first date, or one after an absent date. */
  function RunStarts(dates: seq<string>, states: map<string, State>): seq<string>
    requires forall d :: d in dates ==> d in states
  {
    if |dates| == 0 then []
    else
      var n := |dates| - 1;
      var opens := states[dates[n]] == Present && (n == 0 || states[dates[n - 1]] == Absent);
      RunStarts(dates[..n], states) + (if opens then [dates[n]] else [])
  }

  /** The dates of the missing blocks of the events, in order. */
  function Blocks(es: seq<Event>): seq<string>
  {
    if |es| == 0 then []
    else
      var e := es[|es| - 1];
      Blocks(es[..|es| - 1]) + (if e.Missing? || e.EndsMissing? then e.block else [])
  }

  /** The dates of the Started and Restarted events, in order. */
  function Starts(es: seq<Event>): seq<string>
  {
    if |es| == 0 then []
    else
      var e := es[|es| - 1];
      Starts(es[..|es| - 1]) + (if e.Started? || e.Restarted? then [e.date] else [])
  }

  lemma EventsSnoc(es: seq<Event>, e: Event)
    ensures Blocks(es + [e]) == Blocks(es) + (if e.Missing? || e.EndsMissing? then e.block else [])
    ensures Starts(es + [e]) == Starts(es) + (if e.Started? || e.Restarted? then [e.date] else [])
  {
    assert (es + [e])[..|es|] == es;
  }

  /** The machine's state tracks the last date's state; the block is empty exactly while present. */
  lemma {:induction false} RunState(dates: seq<string>, states: map<string, State>)
    requires |dates| > 0 && forall d :: d in dates ==> d in states
    ensures Run(dates, states).current == Some(states[dates[|dates| - 1]])
    ensures Run(dates, states).current == Some(Present) ==> Run(dates, states).block == []
    ensures Run(dates, states).current == Some(Absent) ==> |Run(dates, states).block| > 0
  {
    var n := |dates| - 1;
    if n > 0 {
      RunState(dates[..n], states);
    }
  }

  /** The block still open at the end of a turn: the missing dates not yet in an event. */
  function Open(m: Machine): seq<string>
  {
    if m.current == Some(Absent) then m.block else []
  }

  /**
   * One turn: a present date that opens a run is announced, and an absent
   * date joins the missing dates, in order.
   */
  lemma FeedEffect(m: Machine, first: bool, d: string, st: State)
    requires first ==> m == Machine([], None, [])
    requires !first ==> m.current.Some?
    requires m.current == Some(Present) ==> m.block == []
    requires m.current == Some(Absent) ==> |m.block| > 0
    ensures Starts(Feed(m, first, d, st).events)
            == Starts(m.events) + (if st == Present && (first || m.current == Some(Absent)) then [d] else [])
    ensures Blocks(Feed(m, first, d, st).events) + Open(Feed(m, first, d, st))
            == Blocks(m.events) + Open(m) + (if st == Absent then [d] else [])
  {
    FeedStarts(m, first, d, st);
    FeedBlocks(m, first, d, st);
  }

  lemma FeedStarts(m: Machine, first: bool, d: string, st: State)
    requires first ==> m == Machine([], None, [])
    requires !first ==> m.current.Some?
    requires m.current == Some(Absent) ==> |m.block| > 0
    ensures Starts(Feed(m, first, d, st).events)
            == Starts(m.events) + (if st == Present && (first || m.current == Some(Absent)) then [d] else [])
  {
    if first && st == Present {
      EventsSnoc([], Started(d));
      assert Feed(m, first, d, st).events == [] + [Started(d)];
    } else if !first && m.current == Some(Absent) && st == Present {
      EventsSnoc(m.events, Missing(m.block));
      EventsSnoc(m.events + [Missing(m.block)], Restarted(d));
      assert Feed(m, first, d, st).events == m.events + [Missing(m.block)] + [Restarted(d)];
    } else {
      assert Feed(m, first, d, st).events == m.events;
    }
  }

  lemma FeedBlocks(m: Machine, first: bool, d: string, st: State)
    requires first ==> m == Machine([], None, [])
    requires !first ==> m.current.Some?
    requires m.current == Some(Present) ==> m.block == []
    requires m.current == Some(Absent) ==> |m.block| > 0
    ensures Blocks(Feed(m, first, d, st).events) + Open(Feed(m, first, d, st))
            == Blocks(m.events) + Open(m) + (if st == Absent then [d] else [])
  {
    if first {
      FeedBlocksFirst(d, st);
    } else if m.current == Some(Absent) && st == Present {
      FeedBlocksRestart(m, d);
    } else if m.current == Some(Absent) {
      FeedBlocksGrow(m, d);
    } else if st == Absent {
      assert m.current.value != Absent;
      FeedBlocksOpen(m, d);
    } else {
      assert Feed(m, first, d, st) == m;
    }
  }

  lemma FeedBlocksFirst(d: string, st: State)
    ensures var m := Machine([], None, []);
      Blocks(Feed(m, true, d, st).events) + Open(Feed(m, true, d, st)) == (if st == Absent then [d] else [])
  {
    if st == Present {
      EventsSnoc([], Started(d));
      assert Feed(Machine([], None, []), true, d, st).events == [] + [Started(d)];
    }
  }

  lemma FeedBlocksRestart(m: Machine, d: string)
    requires m.current == Some(Absent) && |m.block| > 0
    ensures Blocks(Feed(m, false, d, Present).events) + Open(Feed(m, false, d, Present)) == Blocks(m.events) + Open(m)
  {
    EventsSnoc(m.events, Missing(m.block));
    EventsSnoc(m.events + [Missing(m.block)], Restarted(d));
    assert Feed(m, false, d, Present).events == m.events + [Missing(m.block)] + [Restarted(d)];
  }

  lemma FeedBlocksGrow(m: Machine, d: string)
    requires m.current == Some(Absent)
    ensures Blocks(Feed(m, false, d, Absent).events) + Open(Feed(m, false, d, Absent)) == Blocks(m.events) + Open(m) + [d]
  {
    assert Feed(m, false, d, Absent) == Machine(m.events, m.current, m.block + [d]);
    assert Blocks(m.events) + (m.block + [d]) == Blocks(m.events) + m.block + [d];
  }

  lemma FeedBlocksOpen(m: Machine, d: string)
    requires m.current == Some(Present)
    ensures Blocks(Feed(m, false, d, Absent).events) + Open(Feed(m, false, d, Absent)) == Blocks(m.events) + Open(m) + [d]
  {
    assert Feed(m, false, d, Absent) == Machine(m.events, Some(Absent), [d]);
    assert Open(m) == [];
  }

  /**
   * The missing blocks, together with the block still open, hold exactly
   * the absent dates in order.
   */
  lemma {:induction false} RunBlocks(dates: seq<string>, states: map<string, State>)
    requires forall d :: d in dates ==> d in states
    ensures Blocks(Run(dates, states).events) + Open(Run(dates, states)) == AbsentDates(dates, states)
  {
    if |dates| > 0 {
      var n := |dates| - 1;
      var p := dates[..n];
      RunBlocks(p, states);
      if n > 0 {
        RunState(p, states);
      }
      FeedEffect(Run(p, states), n == 0, dates[n], states[dates[n]]);
    }
  }

  /** The Started and Restarted dates are exactly the dates that open a present run. */
  lemma {:induction false} RunOpens(dates: seq<string>, states: map<string, State>)
    requires forall d :: d in dates ==> d in states
    ensures Starts(Run(dates, states).events) == RunStarts(dates, states)
  {
    if |dates| > 0 {
      var p := dates[..|dates| - 1];
      RunOpens(p, states);
      RunOpensStep(dates, states);
    }
  }

  /** One more date keeps the Started and Restarted dates equal to the opening dates. */
  lemma RunOpensStep(dates: seq<string>, states: map<string, State>)
    requires |dates| > 0 && forall d :: d in dates ==> d in states
    requires Starts(Run(dates[..|dates| - 1], states).events) == RunStarts(dates[..|dates| - 1], states)
    ensures Starts(Run(dates, states).events) == RunStarts(dates, states)
  {
    var n := |dates| - 1;
    var p := dates[..n];
    var m, d := Run(p, states), dates[n];
    if n > 0 {
      RunState(p, states);
      assert dates[n - 1] == p[n - 1];
    }
    assert Run(dates, states) == Feed(m, n == 0, d, states[d]);
    RunStartsLast(dates, states);
    FeedStarts(m, n == 0, d, states[d]);
  }

  lemma RunStartsLast(dates: seq<string>, states: map<string, State>)
    requires |dates| > 0 && forall d :: d in dates ==> d in states
    ensures var n := |dates| - 1;
      RunStarts(dates, states) == RunStarts(dates[..n], states)
        + (if states[dates[n]] == Present && (n == 0 || states[dates[n - 1]] == Absent) then [dates[n]] else [])
  {
  }

  /**
   * Started can only be the first event, and is exactly when the earliest
   * date is present; every Restarted directly follows a Missing; the loop
   * emits no closing or last-present event.
   */
  lemma {:induction false} RunOrder(dates: seq<string>, states: map<string, State>)
    requires |dates| > 0 && forall d :: d in dates ==> d in states
    ensures var es := Run(dates, states).events;
            && (states[dates[0]] == Present ==> |es| > 0)
            && (forall k :: 0 <= k < |es| ==> (es[k].Started? <==> k == 0 && states[dates[0]] == Present))
            && (forall k :: 0 <= k < |es| && es[k].Restarted? ==> k > 0 && es[k - 1].Missing?)
            && (forall k :: 0 <= k < |es| ==> !es[k].EndsMissing? && !es[k].LastPresent?)
  {
    var n := |dates| - 1;
    if n > 0 {
      var p := dates[..n];
      assert p[0] == dates[0];
      RunOrder(p, states);
      RunState(p, states);
    }
  }

  /** The closing event is there exactly when the latest date is absent. */
  lemma CloseEndsMissing(dates: seq<string>, states: map<string, State>)
    requires |dates| > 0 && forall d :: d in dates ==> d in states
    ensures var es := Close(Run(dates, states));
            (states[dates[|dates| - 1]] == Absent <==> |es| > 0 && es[|es| - 1].EndsMissing?)
  {
    RunState(dates, states);
    RunOrder(dates, states);
  }

  // ---------------------------------------------------------------------
  // The last present date
  // ---------------------------------------------------------------------

  /** `strptime(r["date"], "%m-%d-%Y")` as a sort key; `None` where it raises. */
  function RecordKey(r: Scanner.Record): (k: Option<seq<int>>)
    ensures k.Some? ==> r.date.Some? && Calendar.ParseMonthFirst(r.date.value).Some?
                        && k.value == Calendar.Key(Calendar.ParseMonthFirst(r.date.value).value)
  {
    if r.date.None? then None
    else match Calendar.ParseMonthFirst(r.date.value)
      case Some(d) => Some(Calendar.Key(d))
      case None => None
  }

  /**
   * `max(rs, key=...)["date"]`, with its key: the first record with the
   * latest date; `None` for an empty list or when some key raises.
   */
  function Latest(rs: seq<Scanner.Record>): Option<Order.Keyed<string>>
  {
    if |rs| == 0 then None
    else
      var n := |rs| - 1;
      match (Latest(rs[..n]), RecordKey(rs[n]))
      case (_, None) => None
      case (None, Some(k)) => if n == 0 then Some(Order.Keyed(k, rs[n].date.value)) else None
      case (Some(best), Some(k)) =>
        if Order.LexLe(k, best.key) then Some(best) else Some(Order.Keyed(k, rs[n].date.value))
  }

  /** `max` has a result exactly when the list is non-empty and every date parses. */
  lemma {:induction false} LatestDefined(rs: seq<Scanner.Record>)
    ensures Latest(rs).Some? <==> |rs| > 0 && forall i :: 0 <= i < |rs| ==> RecordKey(rs[i]).Some?
  {
    if |rs| > 1 {
      var n := |rs| - 1;
      LatestDefined(rs[..n]);
      assert forall i :: 0 <= i < n ==> rs[..n][i] == rs[i];
    }
  }

  /**
   * The result of `max` is the date of record `i`, whose date is not before
   * any other and strictly after every record before `i`.
   */
  lemma {:induction false} LatestIsFirstMaximum(rs: seq<Scanner.Record>) returns (i: nat)
    requires Latest(rs).Some?
    ensures i < |rs| && rs[i].date == Some(Latest(rs).value.item)
    ensures RecordKey(rs[i]) == Some(Latest(rs).value.key)
    ensures forall j :: 0 <= j < |rs| ==>
              RecordKey(rs[j]).Some? && Order.LexLe(RecordKey(rs[j]).value, Latest(rs).value.key)
    ensures forall j :: 0 <= j < i ==> !Order.LexLe(Latest(rs).value.key, RecordKey(rs[j]).value)
  {
    var n := |rs| - 1;
    var k := RecordKey(rs[n]).value;
    if n == 0 {
      i := 0;
      Order.LexLeReflexive(k);
    } else {
      var p := rs[..n];
      var best := Latest(p).value;
      var i' := LatestIsFirstMaximum(p);
      assert forall j :: 0 <= j < n ==> p[j] == rs[j];
      if Order.LexLe(k, best.key) {
        i := i';
      } else {
        i := n;
        Order.LexLeTotal(k, best.key);
        forall j | 0 <= j < n
          ensures Order.LexLe(RecordKey(rs[j]).value, k)
          ensures !Order.LexLe(k, RecordKey(rs[j]).value)
        {
          Order.LexLeTransitive(RecordKey(rs[j]).value, best.key, k);
          if Order.LexLe(k, RecordKey(rs[j]).value) {
            Order.LexLeTransitive(k, RecordKey(rs[j]).value, best.key);
          }
        }
        Order.LexLeReflexive(k);
      }
    }
  }

  /** The hosted build's filter: `r["date"] and r["date"] != "-"`. */
  predicate Usable(r: Scanner.Record) { Truthy(r.date) && r.date.value != "-" }

  function UsableRecords(rs: seq<Scanner.Record>): seq<Scanner.Record>
  {
    if |rs| == 0 then []
    else UsableRecords(rs[..|rs| - 1]) + (if Usable(rs[|rs| - 1]) then [rs[|rs| - 1]] else [])
  }

  lemma {:induction false} UsableRecordsMembers(rs: seq<Scanner.Record>)
    ensures forall r :: r in UsableRecords(rs) <==> r in rs && Usable(r)
  {
    if |rs| > 0 {
      UsableRecordsMembers(rs[..|rs| - 1]);
      assert rs == rs[..|rs| - 1] + [rs[|rs| - 1]];
    }
  }

  /**
   * The date shown as "Last Present Date", if any. The desktop build takes
   * the maximum over every present record and shows nothing when one date
   * is missing or does not parse; the hosted build first drops the records
   * without a usable date.
   */
  function LastPresentDate(build: Codec.Build, present: seq<Scanner.Record>): Option<string>
  {
    var candidates := if build == Codec.Desktop then present else UsableRecords(present);
    match Latest(candidates)
    case Some(best) => Some(best.item)
    case None => None
  }

  /**
   * When shown, the last present date is the date of a present record that
   * is no earlier than any candidate record; it is shown exactly when there
   * is a candidate and every candidate's date parses.
   */
  lemma LastPresentIsLatest(build: Codec.Build, present: seq<Scanner.Record>) returns (i: nat)
    requires LastPresentDate(build, present).Some?
    ensures i < |present| && present[i].date == Some(LastPresentDate(build, present).value)
    ensures RecordKey(present[i]).Some?
    ensures forall j :: 0 <= j < |present| && (build == Codec.Desktop || Usable(present[j])) ==>
              RecordKey(present[j]).Some? && Order.LexLe(RecordKey(present[j]).value, RecordKey(present[i]).value)
  {
    var candidates := if build == Codec.Desktop then present else UsableRecords(present);
    var c := LatestIsFirstMaximum(candidates);
    UsableRecordsMembers(present);
    assert candidates[c] in present;
    i :| 0 <= i < |present| && present[i] == candidates[c];
    forall j | 0 <= j < |present| && (build == Codec.Desktop || Usable(present[j]))
      ensures RecordKey(present[j]).Some? && Order.LexLe(RecordKey(present[j]).value, RecordKey(present[i]).value)
    {
      assert present[j] in candidates;
      var m :| 0 <= m < |candidates| && candidates[m] == present[j];
    }
  }

  lemma LastPresentDefined(build: Codec.Build, present: seq<Scanner.Record>)
    ensures build == Codec.Desktop ==>
              (LastPresentDate(build, present).Some?
               <==> |present| > 0 && forall j :: 0 <= j < |present| ==> RecordKey(present[j]).Some?)
    ensures build == Codec.Hosted ==>
              (LastPresentDate(build, present).Some?
               <==> (exists j :: 0 <= j < |present| && Usable(present[j]))
                    && forall j :: 0 <= j < |present| && Usable(present[j]) ==> RecordKey(present[j]).Some?)
  {
    var candidates := if build == Codec.Desktop then present else UsableRecords(present);
    LatestDefined(candidates);
    UsableRecordsMembers(present);
    if build == Codec.Hosted {
      if exists j :: 0 <= j < |present| && Usable(present[j]) {
        var j :| 0 <= j < |present| && Usable(present[j]);
        assert present[j] in candidates;
      }
      if |candidates| > 0 {
        assert candidates[0] in present;
      }
      if forall j :: 0 <= j < |present| && Usable(present[j]) ==> RecordKey(present[j]).Some? {
        forall m | 0 <= m < |candidates| ensures RecordKey(candidates[m]).Some? {
          assert candidates[m] in present;
        }
      }
      if forall m :: 0 <= m < |candidates| ==> RecordKey(candidates[m]).Some? {
        forall j | 0 <= j < |present| && Usable(present[j]) ensures RecordKey(present[j]).Some? {
          assert present[j] in candidates;
        }
      }
    }
  }

  // ---------------------------------------------------------------------
  // The summary
  // ---------------------------------------------------------------------

  /** `all_dates` as a map. */
  function States(present: seq<Scanner.Record>, keys: seq<string>): map<string, State>
  {
    map d | d in keys :: StateOf(present, d)
  }

  /** Sorting the dates loses none and adds none. */
  lemma SortDatesKeeps(ds: seq<string>)
    ensures forall d :: d in SortDates(ds) <==> d in ds
  {
    SortDatesCorrect(ds);
    forall d ensures d in SortDates(ds) <==> d in ds {
      assert d in SortDates(ds) <==> d in multiset(SortDates(ds));
      assert d in ds <==> d in multiset(ds);
    }
  }

  /** The closing item, when a last present date is shown. */
  function Tail(last: Option<string>): seq<Event>
  {
    if last.Some? then [LastPresent(last.value)] else []
  }

  /** The events for dates in order, their states and the last present date. */
  function Chronicle(dates: seq<string>, states: map<string, State>, last: Option<string>): seq<Event>
    requires forall d :: d in dates ==> d in states
  {
    Close(Run(dates, states)) + Tail(last)
  }

  /** What the generator reports, before rendering. */
  function Summarize(build: Codec.Build, present: seq<Scanner.Record>, absent: seq<Scanner.Record>): Summary
  {
    if |present| == 0 && |absent| == 0 then NoRecords
    else
      var keys := DateKeys(present, absent);
      if |keys| == 0 then NoDatedRecords
      else
        SortDatesKeeps(keys);
        Timeline(Chronicle(SortDates(keys), States(present, keys), LastPresentDate(build, present)))
  }

  lemma {:induction false} DatesOfEmpty(rs: seq<Scanner.Record>)
    ensures DatesOf(rs) == [] <==> forall i :: 0 <= i < |rs| ==> !Truthy(rs[i].date)
  {
    if |rs| > 0 {
      var n := |rs| - 1;
      DatesOfEmpty(rs[..n]);
      assert forall i :: 0 <= i < n ==> rs[..n][i] == rs[i];
    }
  }

  /** A date is among the truthy dates exactly when some record carries it. */
  lemma {:induction false} DatesOfHas(rs: seq<Scanner.Record>, d: string)
    ensures d in DatesOf(rs) <==> exists i :: 0 <= i < |rs| && Truthy(rs[i].date) && rs[i].date.value == d
  {
    if |rs| > 0 {
      var n := |rs| - 1;
      DatesOfHas(rs[..n], d);
      assert forall i :: 0 <= i < n ==> rs[..n][i] == rs[i];
    }
  }

  /**
   * "No records found." exactly when both lists are empty; "No valid dated
   * records found." exactly when there are records but none has a date.
   */
  lemma SummaryOutcome(build: Codec.Build, present: seq<Scanner.Record>, absent: seq<Scanner.Record>)
    ensures Summarize(build, present, absent).NoRecords? <==> |present| == 0 && |absent| == 0
    ensures Summarize(build, present, absent).NoDatedRecords? <==>
              (|present| > 0 || |absent| > 0)
              && (forall i :: 0 <= i < |present| ==> !Truthy(present[i].date))
              && (forall i :: 0 <= i < |absent| ==> !Truthy(absent[i].date))
  {
    var all := DatesOf(present) + DatesOf(absent);
    DatesOfEmpty(present);
    DatesOfEmpty(absent);
    if |all| > 0 {
      DistinctHas(all, all[0]);
    }
  }

  /**
   * A summary with events lists, in date order, every distinct dated record
   * date once: present when some present record carries it, absent
   * otherwise.
   */
  lemma SummaryDates(build: Codec.Build, present: seq<Scanner.Record>, absent: seq<Scanner.Record>, d: string)
    requires Summarize(build, present, absent).Timeline?
    ensures var keys := DateKeys(present, absent);
            var dates := SortDates(keys);
            && |dates| > 0
            && (forall x :: x in dates <==> x in keys)
            && Summarize(build, present, absent).events
               == Chronicle(dates, States(present, keys), LastPresentDate(build, present))
            && (d in dates <==> d in DatesOf(present) || d in DatesOf(absent))
            && (d in dates ==> (States(present, keys)[d] == Present <==> d in DatesOf(present)))
  {
    var keys := DateKeys(present, absent);
    SortDatesKeeps(keys);
    DistinctHas(DatesOf(present) + DatesOf(absent), d);
  }

  // ---- what a chronicle says ----

  lemma CloseBlocks(dates: seq<string>, states: map<string, State>)
    requires |dates| > 0 && forall d :: d in dates ==> d in states
    ensures Blocks(Close(Run(dates, states))) == Blocks(Run(dates, states).events) + Open(Run(dates, states))
    ensures Starts(Close(Run(dates, states))) == Starts(Run(dates, states).events)
  {
    var m := Run(dates, states);
    RunState(dates, states);
    if m.current == Some(Absent) {
      EventsSnoc(m.events, EndsMissing(m.block));
    }
  }

  /**
   * Reading the chronicle back: its missing blocks hold exactly the absent
   * dates, in order, and its Started and Restarted dates are exactly the
   * present dates that open a run.
   */
  lemma ChronicleDates(dates: seq<string>, states: map<string, State>, last: Option<string>)
    requires |dates| > 0 && forall d :: d in dates ==> d in states
    ensures Blocks(Chronicle(dates, states, last)) == AbsentDates(dates, states)
    ensures Starts(Chronicle(dates, states, last)) == RunStarts(dates, states)
  {
    var closed := Close(Run(dates, states));
    CloseBlocks(dates, states);
    RunBlocks(dates, states);
    RunOpens(dates, states);
    if last.Some? {
      EventsSnoc(closed, LastPresent(last.value));
    } else {
      assert Chronicle(dates, states, last) == closed;
    }
  }

  /** The earliest date is announced first, as Started when present, otherwise inside a missing block. */
  lemma {:induction false} AbsentDatesFirst(dates: seq<string>, states: map<string, State>)
    requires |dates| > 0 && forall d :: d in dates ==> d in states
    ensures states[dates[0]] == Absent ==> |AbsentDates(dates, states)| > 0 && AbsentDates(dates, states)[0] == dates[0]
    ensures states[dates[0]] == Present ==> |RunStarts(dates, states)| > 0 && RunStarts(dates, states)[0] == dates[0]
  {
    var n := |dates| - 1;
    if n > 0 {
      assert dates[..n][0] == dates[0];
      AbsentDatesFirst(dates[..n], states);
    }
  }

  /**
   * The shape of the chronicle: it is never empty; it opens with Started
   * exactly when the earliest date is present, and Started appears nowhere
   * else; every Restarted directly follows a Missing; it carries a closing
   * missing block exactly when the latest date is absent, and that block
   * comes after every other missing block and restart; the last present
   * date, when shown, is the final item.
   */
  lemma ChronicleShape(dates: seq<string>, states: map<string, State>, last: Option<string>)
    requires |dates| > 0 && forall d :: d in dates ==> d in states
    ensures var es := Chronicle(dates, states, last);
            && |es| > 0
            && (es[0].Started? <==> states[dates[0]] == Present)
            && (forall k :: 0 < k < |es| ==> !es[k].Started?)
            && (forall k :: 0 <= k < |es| && es[k].Restarted? ==> k > 0 && es[k - 1].Missing?)
            && ((exists k :: 0 <= k < |es| && es[k].EndsMissing?) <==> states[dates[|dates| - 1]] == Absent)
            && (forall k :: 0 <= k < |es| && es[k].EndsMissing? ==> k == |es| - 1 - |Tail(last)|)
            && (forall k :: 0 <= k < |es| && es[k].LastPresent? ==> last.Some? && k == |es| - 1)
            && (last.Some? ==> es[|es| - 1] == LastPresent(last.value))
  {
    var m := Run(dates, states);
    var closed := Close(m);
    var es := closed + Tail(last);
    RunOrder(dates, states);
    RunState(dates, states);
    CloseEndsMissing(dates, states);
    if states[dates[0]] == Absent && |m.events| == 0 {
      // the earliest date is still in the open block, so the run ends absent
      RunBlocks(dates, states);
      AbsentDatesFirst(dates, states);
      assert Blocks(m.events) == [];
    }
    assert |closed| > 0;
    assert forall k :: 0 <= k < |closed| ==> es[k] == closed[k];
  }

  // ---------------------------------------------------------------------
  // Rendering
  // ---------------------------------------------------------------------

  /** The end of a long block's text: the count in the desktop build, a full stop in the hosted one. */
  function LongTail(build: Codec.Build, n: nat): string
  {
    if build == Codec.Desktop then " (" + NatToString(n) + " dates)" else "."
  }

  /** `dates_str`: every date when fewer than five, else the first and the last. */
  function BlockText(build: Codec.Build, block: seq<string>): string
  {
    if |block| < 5 then Join(block, ", ")
    else block[0] + " ... " + block[|block| - 1] + LongTail(build, |block|)
  }

  /** A short block names every date; a long one names its first and its last. */
  lemma BlockTextShowsDates(build: Codec.Build, block: seq<string>, i: nat) returns (k: nat)
    requires i < |block| && (|block| < 5 || i == 0 || i == |block| - 1)
    ensures OccursAt(BlockText(build, block), block[i], k)
  {
    var n := |block|;
    if n < 5 {
      k := JoinOccurs(block, ", ", i);
    } else {
      var head := block[0] + " ... ";
      var tail := LongTail(build, n);
      if i == 0 {
        k := 0;
        assert OccursAt(block[0], block[0], 0);
        OccursExtend(block[0], " ... ", block[0], 0);
        OccursExtend(head, block[n - 1], block[0], 0);
        OccursExtend(head + block[n - 1], tail, block[0], 0);
      } else {
        k := |head|;
        assert OccursAt(block[n - 1], block[n - 1], 0);
        OccursShift(head, block[n - 1], block[n - 1], 0);
        OccursExtend(head + block[n - 1], tail, block[n - 1], k);
      }
    }
  }

  /** The class suffix of each kind of item. */
  function Tone(e: Event): string
  {
    match e
    case Started(_) => "success"
    case Restarted(_) => "success"
    case Missing(_) => "warning"
    case EndsMissing(_) => "danger"
    case LastPresent(_) => "info"
  }

  /** The label each kind of item opens with. */
  function Lead(build: Codec.Build, subject: Subject, e: Event): string
  {
    match e
    case Started(_) => if subject == MemberIdTimeline then "Member ID Started on " else "Started on "
    case Missing(_) => "Missing: "
    case Restarted(_) => "Restarted on "
    case EndsMissing(_) => if build == Codec.Desktop then "Ends with Missing: " else "Last File But SSN Absent : "
    case LastPresent(_) => "Last Present Date: "
  }

  function Bold(d: string): string { "<b>" + d + "</b>" }

  /** The text of an item: its label, then its date in bold or its block. */
  function Caption(build: Codec.Build, subject: Subject, e: Event): string
  {
    Lead(build, subject, e) + (if e.Missing? || e.EndsMissing? then BlockText(build, e.block) else Bold(e.date))
  }

  function Opening(e: Event): string { "<li class='summary-" + Tone(e) + "'>" }

  /** `add_event(text, type)`: one list item. */
  function EventHtml(build: Codec.Build, subject: Subject, e: Event): string
  {
    Opening(e) + Caption(build, subject, e) + "</li>"
  }

  /** What occurs in an item's caption occurs in the item, after its opening tag. */
  lemma OccursInItem(build: Codec.Build, subject: Subject, e: Event, pat: string, j: nat) returns (k: nat)
    requires OccursAt(Caption(build, subject, e), pat, j)
    ensures OccursAt(EventHtml(build, subject, e), pat, k)
  {
    var caption := Caption(build, subject, e);
    k := |Opening(e)| + j;
    OccursShift(Opening(e), caption, pat, j);
    OccursExtend(Opening(e) + caption, "</li>", pat, k);
  }

  lemma CaptionShowsDate(build: Codec.Build, subject: Subject, e: Event) returns (j: nat)
    requires e.Started? || e.Restarted? || e.LastPresent?
    ensures OccursAt(Caption(build, subject, e), Bold(e.date), j)
  {
    var lead, shown := Lead(build, subject, e), Bold(e.date);
    assert Caption(build, subject, e) == lead + shown;
    assert OccursAt(shown, shown, 0);
    OccursShift(lead, shown, shown, 0);
    j := |lead|;
  }

  lemma CaptionShowsBlock(build: Codec.Build, subject: Subject, e: Event) returns (j: nat)
    requires (e.Missing? || e.EndsMissing?) && |e.block| > 0
    ensures OccursAt(Caption(build, subject, e), e.block[0], j)
  {
    var lead, text := Lead(build, subject, e), BlockText(build, e.block);
    assert Caption(build, subject, e) == lead + text;
    var i := BlockTextShowsDates(build, e.block, 0);
    OccursShift(lead, text, e.block[0], i);
    j := |lead| + i;
  }

  /** An item with a date shows that date in bold. */
  lemma EventShowsDate(build: Codec.Build, subject: Subject, e: Event) returns (k: nat)
    requires e.Started? || e.Restarted? || e.LastPresent?
    ensures OccursAt(EventHtml(build, subject, e), Bold(e.date), k)
  {
    var j := CaptionShowsDate(build, subject, e);
    k := OccursInItem(build, subject, e, Bold(e.date), j);
  }

  /** An item with a missing block shows the block's first date. */
  lemma EventShowsBlock(build: Codec.Build, subject: Subject, e: Event) returns (k: nat)
    requires (e.Missing? || e.EndsMissing?) && |e.block| > 0
    ensures OccursAt(EventHtml(build, subject, e), e.block[0], k)
  {
    var j := CaptionShowsBlock(build, subject, e);
    k := OccursInItem(build, subject, e, e.block[0], j);
  }

  /** `summary_parts`: one item per event. */
  function Items(build: Codec.Build, subject: Subject, es: seq<Event>): seq<string>
  {
    seq(|es|, i requires 0 <= i < |es| => EventHtml(build, subject, es[i]))
  }

  const ListOpen := "<ul class='timeline-list'>"

  /** The list around the items. */
  function ListHtml(items: seq<string>): string
  {
    ListOpen + Concat(items) + "</ul>"
  }

  /** Every item appears in the list, after exactly the items before it. */
  lemma ListInOrder(items: seq<string>, i: nat) returns (k: nat)
    requires i < |items|
    ensures OccursAt(ListHtml(items), items[i], k)
    ensures ListHtml(items)[..k] == ListOpen + Concat(items[..i])
  {
    var c := ConcatOccurs(items, i);
    OccursShift(ListOpen, Concat(items), items[i], c);
    k := |ListOpen| + c;
    OccursExtend(ListOpen + Concat(items), "</ul>", items[i], k);
  }

  function Render(build: Codec.Build, subject: Subject, s: Summary): string
  {
    match s
    case NoRecords => "No records found."
    case NoDatedRecords => "No valid dated records found."
    case Timeline(es) => ListHtml(Items(build, subject, es))
  }

  /** Each event becomes one list item, and the items keep the order of the events. */
  lemma RenderInOrder(build: Codec.Build, subject: Subject, es: seq<Event>, i: nat) returns (k: nat)
    requires i < |es|
    ensures OccursAt(Render(build, subject, Timeline(es)), EventHtml(build, subject, es[i]), k)
    ensures Render(build, subject, Timeline(es))[..k] == ListOpen + Concat(Items(build, subject, es[..i]))
  {
    var items := Items(build, subject, es);
    k := ListInOrder(items, i);
    assert items[..i] == Items(build, subject, es[..i]);
  }

  // ---------------------------------------------------------------------
  // The generators
  // ---------------------------------------------------------------------

  /**
   * `generate_ssn_timeline_summary` (subject `SsnTimeline`) and
   * `generate_member_id_timeline_summary` (subject `MemberIdTimeline`).
   */
  method GenerateTimelineSummary(build: Codec.Build, subject: Subject,
                                 present: seq<Scanner.Record>, absent: seq<Scanner.Record>)
    returns (html: string)
    ensures html == Render(build, subject, Summarize(build, present, absent))
  {
    if |present| == 0 && |absent| == 0 {
      return "No records found.";
    }
    var keys, states := CollectDates(present, absent);
    if |keys| == 0 {
      return "No valid dated records found.";
    }
    assert states == States(present, keys);
    var sorted := SortDates(keys);
    SortDatesKeeps(keys);
    var events, current, block := RunTimeline(sorted, states);
    var parts := Close(Machine(events, current, block));
    var last := LastPresentDate(build, present);
    if last.Some? {
      parts := parts + [LastPresent(last.value)];
    }
    assert parts == Chronicle(sorted, states, last);
    assert Summarize(build, present, absent) == Timeline(parts);
    html := Render(build, subject, Timeline(parts));
  }

  /** Three keys in strictly increasing order, listed first, third, second, sort back into order. */
  lemma SortThree(ka: seq<int>, kb: seq<int>, kc: seq<int>, da: string, db: string, dc: string)
    requires !Order.LexLe(kb, ka) && !Order.LexLe(kc, kb)
    ensures Order.Items(Order.Sort([Order.Keyed(ka, da), Order.Keyed(kc, dc), Order.Keyed(kb, db)])) == [da, db, dc]
  {
    Order.LexLeTotal(ka, kb);
    var s := [Order.Keyed(ka, da), Order.Keyed(kc, dc), Order.Keyed(kb, db)];
    assert s[1..][1..] == [Order.Keyed(kb, db)] && s[1..][1..][1..] == [];
    assert Order.Sort(s[1..][1..]) == [Order.Keyed(kb, db)];
    assert s[1..][0] == Order.Keyed(kc, dc) && [Order.Keyed(kb, db)][1..] == [];
    assert Order.Insert(Order.Keyed(kc, dc), [Order.Keyed(kb, db)]) == [Order.Keyed(kb, db), Order.Keyed(kc, dc)];
    assert Order.Sort(s[1..]) == [Order.Keyed(kb, db), Order.Keyed(kc, dc)];
  }

  /** The machine over present, absent, present dates. */
  lemma RunOneGap(da: string, db: string, dc: string, states: map<string, State>)
    requires da in states && db in states && dc in states
    requires states[da] == Present && states[db] == Absent && states[dc] == Present
    ensures Close(Run([da, db, dc], states)) == [Started(da), Missing([db]), Restarted(dc)]
  {
    assert [da, db, dc][..2] == [da, db] && [da, db][..1] == [da] && [da][..0] == [];
    assert Run([da], states) == Machine([Started(da)], Some(Present), []);
    assert Run([da, db], states) == Machine([Started(da)], Some(Absent), [db]);
  }

  /** `max` over two records, the second strictly later. */
  lemma LatestOfTwo(ra: Scanner.Record, rc: Scanner.Record, ka: seq<int>, kc: seq<int>)
    requires RecordKey(ra) == Some(ka) && RecordKey(rc) == Some(kc) && !Order.LexLe(kc, ka)
    ensures Latest([ra, rc]) == Some(Order.Keyed(kc, rc.date.value))
  {
    assert [ra, rc][..1] == [ra] && [ra][..0] == [];
    assert Latest([ra]) == Some(Order.Keyed(ka, ra.date.value));
  }

  /** A sequence without repeats is its own `Distinct`. */
  lemma {:induction false} DistinctKeepsDistinct(s: seq<string>)
    requires forall i, j :: 0 <= i < j < |s| ==> s[i] != s[j]
    ensures Distinct(s) == s
  {
    if |s| > 0 {
      var n := |s| - 1;
      DistinctKeepsDistinct(s[..n]);
      DistinctHas(s[..n], s[n]);
      assert s == s[..n] + [s[n]];
    }
  }

  lemma {:induction false} UsableRecordsAll(rs: seq<Scanner.Record>)
    requires forall i :: 0 <= i < |rs| ==> Usable(rs[i])
    ensures UsableRecords(rs) == rs
  {
    if |rs| > 0 {
      var n := |rs| - 1;
      UsableRecordsAll(rs[..n]);
      assert rs == rs[..n] + [rs[n]];
    }
  }

  /** A date that parses is neither empty nor `-`. */
  lemma ParsedIsUsable(s: string)
    requires Calendar.ParseMonthFirst(s).Some?
    ensures s != "" && s != "-"
  {
    var dash := "-";
    assert dash[1..] == "";
    assert Split(dash, '-') == ["", ""];
  }

  /** The summary of the worked case, assembled from its parts. */
  lemma SummarizeFromParts(build: Codec.Build, present: seq<Scanner.Record>, absent: seq<Scanner.Record>,
                           keys: seq<string>, sorted: seq<string>)
    requires |present| > 0 && DateKeys(present, absent) == keys && |keys| > 0 && SortDates(keys) == sorted
    requires forall d :: d in sorted ==> d in keys
    ensures Summarize(build, present, absent)
            == Timeline(Chronicle(sorted, States(present, keys), LastPresentDate(build, present)))
  {
  }

  /** In the worked case `all_dates` lists the first, the third, then the second date. */
  lemma OneGapKeys(da: string, db: string, dc: string, fa: string, fb: string, fc: string)
    requires da != "" && db != "" && dc != "" && da != db && db != dc && da != dc
    ensures var present := [Scanner.Record(Some(da), fa), Scanner.Record(Some(dc), fc)];
            DateKeys(present, [Scanner.Record(Some(db), fb)]) == [da, dc, db]
            && StateOf(present, da) == Present && StateOf(present, db) == Absent && StateOf(present, dc) == Present
  {
    var present := [Scanner.Record(Some(da), fa), Scanner.Record(Some(dc), fc)];
    var absent := [Scanner.Record(Some(db), fb)];
    assert present[..1] == [present[0]] && present[..1][..0] == [] && absent[..0] == [];
    assert DatesOf(present) == [da, dc];
    assert DatesOf(absent) == [db];
    assert [da, dc] + [db] == [da, dc, db];
    DistinctKeepsDistinct([da, dc, db]);
  }

  /** In the worked case the three dates sort back into order. */
  lemma OneGapSorted(da: string, db: string, dc: string)
    requires Calendar.ParseMonthFirst(da).Some? && Calendar.ParseMonthFirst(db).Some? && Calendar.ParseMonthFirst(dc).Some?
    requires var ka, kb, kc := Calendar.Key(Calendar.ParseMonthFirst(da).value), Calendar.Key(Calendar.ParseMonthFirst(db).value),
                               Calendar.Key(Calendar.ParseMonthFirst(dc).value);
             !Order.LexLe(kb, ka) && !Order.LexLe(kc, kb)
    ensures SortDates([da, dc, db]) == [da, db, dc]
  {
    var ka := Calendar.Key(Calendar.ParseMonthFirst(da).value);
    var kb := Calendar.Key(Calendar.ParseMonthFirst(db).value);
    var kc := Calendar.Key(Calendar.ParseMonthFirst(dc).value);
    var all := [da, dc, db];
    ParsedKeysFail(all);
    var pk := ParsedKeys(all).value;
    assert pk == [Order.Keyed(ka, da), Order.Keyed(kc, dc), Order.Keyed(kb, db)];
    SortThree(ka, kb, kc, da, db, dc);
  }

  /** In the worked case the last present date is the third date. */
  lemma OneGapLast(build: Codec.Build, da: string, dc: string, fa: string, fc: string)
    requires Calendar.ParseMonthFirst(da).Some? && Calendar.ParseMonthFirst(dc).Some?
    requires !Order.LexLe(Calendar.Key(Calendar.ParseMonthFirst(dc).value), Calendar.Key(Calendar.ParseMonthFirst(da).value))
    ensures LastPresentDate(build, [Scanner.Record(Some(da), fa), Scanner.Record(Some(dc), fc)]) == Some(dc)
  {
    var present := [Scanner.Record(Some(da), fa), Scanner.Record(Some(dc), fc)];
    ParsedIsUsable(da);
    ParsedIsUsable(dc);
    LatestOfTwo(present[0], present[1], Calendar.Key(Calendar.ParseMonthFirst(da).value),
                Calendar.Key(Calendar.ParseMonthFirst(dc).value));
    UsableRecordsAll(present);
  }

  /** The events of the worked case, with the third date as the last present one. */
  lemma ChronicleOneGap(da: string, db: string, dc: string, states: map<string, State>)
    requires da in states && db in states && dc in states
    requires states[da] == Present && states[db] == Absent && states[dc] == Present
    ensures Chronicle([da, db, dc], states, Some(dc)) == [Started(da), Missing([db]), Restarted(dc), LastPresent(dc)]
  {
    RunOneGap(da, db, dc, states);
  }

  /** Three dates with strictly increasing keys are distinct and usable, and the third is later than the first. */
  lemma OneGapDistinct(da: string, db: string, dc: string)
    requires Calendar.ParseMonthFirst(da).Some? && Calendar.ParseMonthFirst(db).Some? && Calendar.ParseMonthFirst(dc).Some?
    requires var ka, kb, kc := Calendar.Key(Calendar.ParseMonthFirst(da).value), Calendar.Key(Calendar.ParseMonthFirst(db).value),
                               Calendar.Key(Calendar.ParseMonthFirst(dc).value);
             !Order.LexLe(kb, ka) && !Order.LexLe(kc, kb)
    ensures da != "" && db != "" && dc != "" && da != db && db != dc && da != dc
    ensures !Order.LexLe(Calendar.Key(Calendar.ParseMonthFirst(dc).value), Calendar.Key(Calendar.ParseMonthFirst(da).value))
  {
    var ka := Calendar.Key(Calendar.ParseMonthFirst(da).value);
    var kb := Calendar.Key(Calendar.ParseMonthFirst(db).value);
    var kc := Calendar.Key(Calendar.ParseMonthFirst(dc).value);
    ParsedIsUsable(da);
    ParsedIsUsable(db);
    ParsedIsUsable(dc);
    Order.LexLeTotal(ka, kb);
    if Order.LexLe(kc, ka) {
      Order.LexLeTransitive(kc, ka, kb);
    }
    Order.LexLeReflexive(ka);
    Order.LexLeReflexive(kb);
  }

  /**
   * A worked case: present on the first and the third of three dates, absent
   * on the second, gives a start, one missing date, a restart and the third
   * date as the last present one, in either build.
   */
  lemma OneGapTimeline(build: Codec.Build, da: string, db: string, dc: string, fa: string, fb: string, fc: string)
    requires Calendar.ParseMonthFirst(da).Some? && Calendar.ParseMonthFirst(db).Some? && Calendar.ParseMonthFirst(dc).Some?
    requires var ka, kb, kc := Calendar.Key(Calendar.ParseMonthFirst(da).value), Calendar.Key(Calendar.ParseMonthFirst(db).value),
                               Calendar.Key(Calendar.ParseMonthFirst(dc).value);
             !Order.LexLe(kb, ka) && !Order.LexLe(kc, kb)
    ensures Summarize(build, [Scanner.Record(Some(da), fa), Scanner.Record(Some(dc), fc)], [Scanner.Record(Some(db), fb)])
            == Timeline([Started(da), Missing([db]), Restarted(dc), LastPresent(dc)])
  {
    var present := [Scanner.Record(Some(da), fa), Scanner.Record(Some(dc), fc)];
    var absent := [Scanner.Record(Some(db), fb)];
    OneGapDistinct(da, db, dc);
    var keys, sorted := [da, dc, db], [da, db, dc];
    OneGapKeys(da, db, dc, fa, fb, fc);
    OneGapSorted(da, db, dc);
    OneGapLast(build, da, dc, fa, fc);
    SummarizeFromParts(build, present, absent, keys, sorted);
    var states := States(present, keys);
    assert states[da] == Present && states[db] == Absent && states[dc] == Present;
    ChronicleOneGap(da, db, dc, states);
  }

}
