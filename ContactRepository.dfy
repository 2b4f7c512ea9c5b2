/**
 * The opening-hours rules of the site's contact repository: reading "HH:MM" times,
 * the restaurant's current status (open, closing soon, opening soon, closed) and the
 * search for the next opening over the coming seven days.
 *
 * The schedules are the objects the repository loaded; the search sorts the ranges
 * of every day it examines in place, so a schedule is a class whose range list is
 * reassigned. The clock is not read: the day of the week (0 is Sunday) and the
 * minutes since midnight are parameters.
 */
module ContactRepository {
  import opened Wrappers
  import opened Strings
  import opened Numbers
  import opened Sequences
  import opened Sorting

  const DayNames: seq<string> := ["sunday", "monday", "tuesday", "wednesday", "thursday", "friday", "saturday"]

  // ---------------------------------------------------------------------------
  // Times
  // ---------------------------------------------------------------------------

  /** `Number(part) || 0`: a part that is not a number counts as 0. */
  function NumberOrZero(part: string): real {
    var n := ToNumber(part);
    if n.Some? then n.value else 0.0
  }

  /**
   * `timeToMinutes(time)`: hours times 60 plus minutes, where a missing or empty time
   * is 0 and a missing or non-numeric part counts as 0.
   */
  function TimeToMinutes(time: Option<string>): (r: real)
    ensures time.None? || time.value == "" ==> r == 0.0
  {
    if time.None? || time.value == "" then 0.0
    else
      var parts := Split(time.value, ':');
      NumberOrZero(parts[0]) * 60.0 + (if |parts| > 1 then NumberOrZero(parts[1]) else 0.0)
  }

  /** A string of digits is the number it spells. */
  lemma NumberOfDigits(s: string)
    requires s != [] && AllDigits(s)
    ensures ToNumber(s) == Some(DigitsValue(s) as real)
  {
    DigitPrefixOfDigits(s);
    TrimNoOp(s);
    assert Sign(s) == (false, s);
    assert s[|s|..] == [];
  }

  /** Splitting "a:b" on ':' gives the two halves when neither holds a ':'. */
  lemma SplitClock(a: string, b: string)
    requires ':' !in a && ':' !in b
    ensures Split(a + ":" + b, ':') == [a, b]
  {
    SplitJoin([a, b], ':');
    assert Join([a, b], [':']) == a + ":" + b;
  }

  /** "HH:MM" with digits on both sides is 60·HH + MM. */
  lemma TimeOfClock(hh: string, mm: string)
    requires hh != [] && AllDigits(hh) && mm != [] && AllDigits(mm)
    ensures TimeToMinutes(Some(hh + ":" + mm)) == (60 * DigitsValue(hh) + DigitsValue(mm)) as real
  {
    SplitClock(hh, mm);
    TimeOfTwoParts(hh + ":" + mm, hh, mm);
    NumberOfDigits(hh);
    NumberOfDigits(mm);
    assert NumberOrZero(hh) == DigitsValue(hh) as real;
    assert NumberOrZero(mm) == DigitsValue(mm) as real;
  }

  /** A time that splits into two parts is the first part in hours plus the second in minutes. */
  lemma TimeOfTwoParts(t: string, a: string, b: string)
    requires t != "" && Split(t, ':') == [a, b]
    ensures TimeToMinutes(Some(t)) == NumberOrZero(a) * 60.0 + NumberOrZero(b)
  {
  }

  /** Parts that are not numbers count as 0, so such a time is midnight. */
  lemma TimeOfNonNumeric(hh: string, mm: string)
    requires ':' !in hh && ':' !in mm && ToNumber(hh).None? && ToNumber(mm).None?
    ensures TimeToMinutes(Some(hh + ":" + mm)) == 0.0
  {
    SplitClock(hh, mm);
  }

  // ---------------------------------------------------------------------------
  // Schedules
  // ---------------------------------------------------------------------------

  datatype TimeRange = TimeRange(startTime: Option<string>, endTime: Option<string>)

  /** The contents of one day's schedule at one moment. */
  datatype DayValue = DayValue(dayOfWeek: string, isOpen: bool, scheduleRanges: seq<TimeRange>)

  /** One day's schedule as loaded; a missing range list is the empty one. */
  class DaySchedule {
    var dayOfWeek: string
    var isOpen: bool
    var scheduleRanges: seq<TimeRange>

    function Value(): (v: DayValue)
      reads this
      ensures v.dayOfWeek == dayOfWeek && v.isOpen == isOpen && v.scheduleRanges == scheduleRanges
    {
      DayValue(dayOfWeek, isOpen, scheduleRanges)
    }
  }

  function Values(schedules: seq<DaySchedule>): (r: seq<DayValue>)
    reads set s | s in schedules
    ensures |r| == |schedules|
    ensures forall k :: 0 <= k < |r| ==> r[k] == schedules[k].Value()
  {
    seq(|schedules|, k reads set s | s in schedules requires 0 <= k < |schedules| => schedules[k].Value())
  }

  /** `schedules.find(...)` on the lower-cased day name: the index of the first schedule of that day. */
  function FindDay(days: seq<DayValue>, dayName: string): (r: Option<nat>)
    ensures r.Some? ==> r.value < |days| && ToLower(days[r.value].dayOfWeek) == dayName
    ensures r.Some? ==> forall k :: 0 <= k < r.value ==> ToLower(days[k].dayOfWeek) != dayName
    ensures r.None? ==> forall k :: 0 <= k < |days| ==> ToLower(days[k].dayOfWeek) != dayName
  {
    if days == [] then None
    else if ToLower(days[0].dayOfWeek) == dayName then Some(0)
    else
      var rest := FindDay(days[1..], dayName);
      if rest.None? then None else Some(rest.value + 1)
  }

  /** The schedule of the given day of the week, when there is one. */
  function DayOf(days: seq<DayValue>, day: nat): (r: Option<DayValue>)
    requires day < 7
    ensures r.Some? <==> FindDay(days, DayNames[day]).Some?
  {
    var found := FindDay(days, DayNames[day]);
    if found.None? then None else Some(days[found.value])
  }

  /** `isOpen && scheduleRanges?.length`: a day that can open at all. */
  predicate HasRanges(d: DayValue) {
    d.isOpen && |d.scheduleRanges| > 0
  }

  // ---------------------------------------------------------------------------
  // Ranges read as minutes
  // ---------------------------------------------------------------------------

  /** A range together with its start and end as `timeToMinutes` reads them. */
  datatype Span = Span(range: TimeRange, start: real, end: real)

  function SpanOf(r: TimeRange): (s: Span)
    ensures s.range == r
  {
    Span(r, TimeToMinutes(r.startTime), TimeToMinutes(r.endTime))
  }

  /** The spans of `ranges`, in order. */
  function Spans(ranges: seq<TimeRange>): (r: seq<Span>)
    ensures |r| == |ranges|
    ensures forall k :: 0 <= k < |r| ==> r[k].range == ranges[k]
  {
    seq(|ranges|, k requires 0 <= k < |ranges| => SpanOf(ranges[k]))
  }

  function RangesOf(spans: seq<Span>): (r: seq<TimeRange>)
    ensures |r| == |spans|
    ensures forall k :: 0 <= k < |r| ==> r[k] == spans[k].range
  {
    seq(|spans|, k requires 0 <= k < |spans| => spans[k].range)
  }

  /** Every span holds the minutes of its own range. */
  ghost predicate Exact(spans: seq<Span>) {
    forall x :: x in spans ==> x == SpanOf(x.range)
  }

  lemma SpansExact(ranges: seq<TimeRange>)
    ensures Exact(Spans(ranges))
  {
    forall x | x in Spans(ranges) ensures x == SpanOf(x.range) {
      var k :| 0 <= k < |ranges| && Spans(ranges)[k] == x;
    }
  }

  lemma SpansOfExact(spans: seq<Span>)
    requires Exact(spans)
    ensures Spans(RangesOf(spans)) == spans
  {
    forall k | 0 <= k < |spans| ensures Spans(RangesOf(spans))[k] == spans[k] {
      assert spans[k] in spans;
    }
  }

  /** Equal spans come from equal ranges. */
  lemma SpansInjective(a: seq<TimeRange>, b: seq<TimeRange>)
    requires Spans(a) == Spans(b)
    ensures a == b
  {
    forall k | 0 <= k < |a| ensures a[k] == b[k] {
      assert a[k] == Spans(a)[k].range;
    }
  }

  /** The comparator `timeToMinutes(a.startTime) - timeToMinutes(b.startTime)`. */
  predicate StartsNoLater(a: Span, b: Span) {
    a.start <= b.start
  }

  lemma StartsNoLaterIsPreorder()
    ensures TotalPreorder(StartsNoLater)
  {
  }

  /** The spans ordered by start, ties kept in their order. */
  function ByStart(spans: seq<Span>): (r: seq<Span>)
    ensures |r| == |spans|
    ensures SortedBy(r, StartsNoLater)
    ensures forall x :: x in r <==> x in spans
  {
    StartsNoLaterIsPreorder();
    SortSorted(spans, StartsNoLater);
    var r := Sort(spans, StartsNoLater);
    assert forall x :: x in r <==> x in spans by {
      forall x ensures x in r <==> x in spans {
        assert x in r <==> x in multiset(r);
        assert x in spans <==> x in multiset(spans);
      }
    }
    r
  }

  /** `ranges.sort(...)` by start time: stable, so ranges that start together keep their order. */
  function SortByStart(ranges: seq<TimeRange>): (r: seq<TimeRange>)
    ensures Spans(r) == ByStart(Spans(ranges))
  {
    var sorted := ByStart(Spans(ranges));
    SpansExact(ranges);
    assert Exact(sorted) by {
      forall x | x in sorted ensures x == SpanOf(x.range) {
        assert x in Spans(ranges);
      }
    }
    SpansOfExact(sorted);
    RangesOf(sorted)
  }

  /** Sorting ranges that are sorted already, or not, orders their spans the same way. */
  lemma SortedSpansAgain(before: seq<TimeRange>, after: seq<TimeRange>)
    requires after == before || after == SortByStart(before)
    ensures ByStart(Spans(after)) == ByStart(Spans(before))
  {
    if after != before {
      SortOfSorted(ByStart(Spans(before)), StartsNoLater);
    }
  }

  /** The spans that start strictly after `t`, in their order. */
  function Later(spans: seq<Span>, t: real): (r: seq<Span>)
    ensures forall x :: x in r <==> x in spans && x.start > t
  {
    Filter(spans, (x: Span) => x.start > t)
  }

  /** In a list sorted by start, the first span starting after `t` starts no later than any other such span. */
  lemma LaterFirstIsEarliest(spans: seq<Span>, t: real)
    requires SortedBy(spans, StartsNoLater) && Later(spans, t) != []
    ensures forall x :: x in spans && x.start > t ==> Later(spans, t)[0].start <= x.start
  {
    var future := Later(spans, t);
    FilterKeepsOrder(spans, StartsNoLater, (x: Span) => x.start > t);
    forall x | x in spans && x.start > t ensures future[0].start <= x.start {
      assert x in future;
      var k :| 0 <= k < |future| && future[k] == x;
      if k > 0 {
        assert StartsNoLater(future[0], future[k]);
      }
    }
  }

  // ---------------------------------------------------------------------------
  // Next opening
  // ---------------------------------------------------------------------------

  datatype Opening = Opening(day: string, dayIndex: nat, time: Option<string>, isToday: bool)

  /** Span `k` can be the opening: any range on a later day, one that has not started yet today. */
  predicate Qualifies(spans: seq<Span>, k: nat, daysAhead: nat, currentTime: nat) {
    k < |spans| && (daysAhead == 0 ==> spans[k].start > currentTime as real)
  }

  /** A qualifying span that starts no later than any other. */
  ghost predicate EarliestQualifying(spans: seq<Span>, k: nat, daysAhead: nat, currentTime: nat) {
    Qualifies(spans, k, daysAhead, currentTime)
    && forall j: nat :: Qualifies(spans, j, daysAhead, currentTime) ==> spans[k].start <= spans[j].start
  }

  /**
   * The opening time a day's ranges offer, once sorted by start: today, the first
   * range that has not started yet; a later day, the first range.
   */
  function OfferTime(spans: seq<Span>, daysAhead: nat, currentTime: nat): Option<Option<string>> {
    var sorted := ByStart(spans);
    if daysAhead == 0 then
      var future := Later(sorted, currentTime as real);
      if future != [] then Some(future[0].range.startTime) else None
    else if sorted != [] then Some(sorted[0].range.startTime)
    else None
  }

  /**
   * A day offers an opening exactly when it has a qualifying range, and the time
   * offered is the start time of a qualifying range that starts no later than any other.
   */
  lemma OfferTimeIsEarliest(spans: seq<Span>, daysAhead: nat, currentTime: nat)
    ensures OfferTime(spans, daysAhead, currentTime).Some? <==>
      exists k: nat :: Qualifies(spans, k, daysAhead, currentTime)
    ensures OfferTime(spans, daysAhead, currentTime).Some? ==>
      exists k: nat :: EarliestQualifying(spans, k, daysAhead, currentTime)
        && spans[k].range.startTime == OfferTime(spans, daysAhead, currentTime).value
  {
    var sorted := ByStart(spans);
    var t := currentTime as real;
    if daysAhead == 0 {
      var future := Later(sorted, t);
      if future != [] {
        LaterFirstIsEarliest(sorted, t);
        assert future[0] in spans;
        var k: nat :| k < |spans| && spans[k] == future[0];
        forall j: nat | Qualifies(spans, j, 0, currentTime) ensures spans[k].start <= spans[j].start {
          assert spans[j] in sorted;
        }
        assert EarliestQualifying(spans, k, 0, currentTime);
      } else {
        forall k: nat | k < |spans| ensures !(spans[k].start > t) {
          assert spans[k] in sorted;
        }
      }
    } else if sorted != [] {
      assert sorted[0] in spans;
      var k: nat :| k < |spans| && spans[k] == sorted[0];
      forall j: nat | Qualifies(spans, j, daysAhead, currentTime) ensures spans[k].start <= spans[j].start {
        assert spans[j] in sorted;
        var m :| 0 <= m < |sorted| && sorted[m] == spans[j];
        if m > 0 {
          assert StartsNoLater(sorted[0], sorted[m]);
        }
      }
      assert EarliestQualifying(spans, k, daysAhead, currentTime);
    }
  }

  /** The day of the week `i` days after `currentDay`. */
  function DayAhead(currentDay: nat, i: nat): (r: nat)
    ensures r < 7
  {
    (currentDay + i) % 7
  }

  /** What the day `i` days ahead of `currentDay` offers: nothing unless it has an open schedule with ranges. */
  function OpeningAt(days: seq<DayValue>, currentDay: nat, currentTime: nat, i: nat): (r: Option<Opening>)
    ensures r.Some? ==> r.value.dayIndex == DayAhead(currentDay, i) && r.value.day == DayNames[DayAhead(currentDay, i)]
    ensures r.Some? ==> r.value.isToday == (i == 0)
  {
    var checkDay := DayAhead(currentDay, i);
    var day := DayOf(days, checkDay);
    if day.None? || !HasRanges(day.value) then None
    else
      var time := OfferTime(Spans(day.value.scheduleRanges), i, currentTime);
      if time.None? then None else Some(Opening(DayNames[checkDay], checkDay, time.value, i == 0))
  }

  /**
   * The day `i` days ahead offers an opening exactly when that day has an open
   * schedule with a qualifying range; the opening's time is the start time of a
   * qualifying range that starts no later than any other.
   */
  lemma OpeningAtIsEarliest(days: seq<DayValue>, currentDay: nat, currentTime: nat, i: nat)
    ensures OpeningAt(days, currentDay, currentTime, i).Some? <==>
      DayOf(days, DayAhead(currentDay, i)).Some? && DayOf(days, DayAhead(currentDay, i)).value.isOpen
      && exists k: nat :: Qualifies(Spans(DayOf(days, DayAhead(currentDay, i)).value.scheduleRanges), k, i, currentTime)
    ensures OpeningAt(days, currentDay, currentTime, i).Some? ==>
      exists k: nat :: EarliestQualifying(Spans(DayOf(days, DayAhead(currentDay, i)).value.scheduleRanges), k, i, currentTime)
        && DayOf(days, DayAhead(currentDay, i)).value.scheduleRanges[k].startTime == OpeningAt(days, currentDay, currentTime, i).value.time
  {
    var day := DayOf(days, DayAhead(currentDay, i));
    if day.Some? {
      OfferTimeIsEarliest(Spans(day.value.scheduleRanges), i, currentTime);
    }
  }

  /** The openings the next seven days offer, today first. */
  function Offers(days: seq<DayValue>, currentDay: nat, currentTime: nat): (r: seq<Option<Opening>>)
    ensures |r| == 7
    ensures forall i :: 0 <= i < 7 ==> r[i] == OpeningAt(days, currentDay, currentTime, i)
  {
    seq(7, i requires 0 <= i < 7 => OpeningAt(days, currentDay, currentTime, i))
  }

  /** The first offer from position `i` on. */
  function FirstOffer(offers: seq<Option<Opening>>, i: nat): Option<Opening>
    requires i <= |offers|
    decreases |offers| - i
  {
    if i == |offers| then None
    else if offers[i].Some? then offers[i]
    else FirstOffer(offers, i + 1)
  }

  lemma {:induction false} FirstOfferIsFirst(offers: seq<Option<Opening>>, i: nat)
    requires i <= |offers|
    decreases |offers| - i
    ensures FirstOffer(offers, i).None? <==> forall j :: i <= j < |offers| ==> offers[j].None?
    ensures FirstOffer(offers, i).Some? ==>
      exists j :: i <= j < |offers| && FirstOffer(offers, i) == offers[j]
        && forall j' :: i <= j' < j ==> offers[j'].None?
  {
    if i < |offers| {
      if offers[i].Some? {
        assert FirstOffer(offers, i) == offers[i];
      } else {
        FirstOfferIsFirst(offers, i + 1);
        if FirstOffer(offers, i + 1).Some? {
          var j :| i + 1 <= j < |offers| && FirstOffer(offers, i + 1) == offers[j]
            && forall j' :: i + 1 <= j' < j ==> offers[j'].None?;
          assert FirstOffer(offers, i) == offers[j];
        }
      }
    }
  }

  /** `getNextOpening(schedules, currentDay, currentTime)` on the schedules' contents. */
  function NextOpening(days: seq<DayValue>, currentDay: nat, currentTime: nat): Option<Opening> {
    FirstOffer(Offers(days, currentDay, currentTime), 0)
  }

  /** The search returns what the first day (in order from today) with an opening offers. */
  lemma NextOpeningIsFirst(days: seq<DayValue>, currentDay: nat, currentTime: nat)
    ensures NextOpening(days, currentDay, currentTime).None? <==>
      forall j :: 0 <= j < 7 ==> Offers(days, currentDay, currentTime)[j].None?
    ensures NextOpening(days, currentDay, currentTime).Some? ==>
      exists j :: 0 <= j < 7 && NextOpening(days, currentDay, currentTime) == Offers(days, currentDay, currentTime)[j]
        && forall j' :: 0 <= j' < j ==> Offers(days, currentDay, currentTime)[j'].None?
  {
    FirstOfferIsFirst(Offers(days, currentDay, currentTime), 0);
  }

  /** What a schedule may look like after the search: the same day and flag, its ranges as they were or sorted. */
  predicate SortedOrKept(before: DayValue, after: DayValue) {
    after.dayOfWeek == before.dayOfWeek && after.isOpen == before.isOpen
    && (after.scheduleRanges == before.scheduleRanges || after.scheduleRanges == SortByStart(before.scheduleRanges))
  }

  /** How many of the days from position `i` on the search looks at: up to and including the first with an opening, else all. */
  function Searched(offers: seq<Option<Opening>>, i: nat): (r: nat)
    requires i <= |offers|
    decreases |offers| - i
  {
    if i == |offers| then i
    else if offers[i].Some? then i + 1
    else Searched(offers, i + 1)
  }

  /** The search stops right after the first day with an opening, or after the last day. */
  lemma {:induction false} SearchedStopsAtOffer(offers: seq<Option<Opening>>, i: nat)
    requires i <= |offers|
    decreases |offers| - i
    ensures i <= Searched(offers, i) <= |offers|
    ensures forall j :: i <= j < Searched(offers, i) - 1 ==> offers[j].None?
    ensures Searched(offers, i) < |offers| ==> Searched(offers, i) > i && offers[Searched(offers, i) - 1].Some?
    ensures Searched(offers, i) > i ==> offers[Searched(offers, i) - 1].Some? || Searched(offers, i) == |offers|
  {
    if i < |offers| && offers[i].None? {
      SearchedStopsAtOffer(offers, i + 1);
    }
  }

  /** The schedule at index `f` is the one the search finds, with ranges, for one of the first `n` days from today. */
  ghost predicate FoundWithin(days: seq<DayValue>, currentDay: nat, f: nat, n: nat) {
    f < |days| && HasRanges(days[f])
    && exists i :: 0 <= i < n && i < 7 && FindDay(days, DayNames[DayAhead(currentDay, i)]) == Some(f)
  }

  /** Schedule `k` is the same object as a schedule the search found within the first `n` days. */
  ghost predicate Touched(schedules: seq<DaySchedule>, days: seq<DayValue>, currentDay: nat, n: nat, k: nat)
    requires k < |schedules|
  {
    exists f :: 0 <= f < |schedules| && schedules[f] == schedules[k] && FoundWithin(days, currentDay, f, n)
  }

  /** A schedule's contents after the search: its ranges sorted by start when the search sorted it. */
  function Resorted(v: DayValue, sorted: bool): (r: DayValue)
    ensures r.dayOfWeek == v.dayOfWeek && r.isOpen == v.isOpen
    ensures r.scheduleRanges == if sorted then SortByStart(v.scheduleRanges) else v.scheduleRanges
  {
    if sorted then v.(scheduleRanges := SortByStart(v.scheduleRanges)) else v
  }

  /** Looking at day `i` adds to the sorted schedules exactly the one found for that day, when it has ranges. */
  lemma TouchedNext(schedules: seq<DaySchedule>, days: seq<DayValue>, currentDay: nat, i: nat, k: nat)
    requires i < 7 && k < |schedules| && |days| == |schedules|
    ensures Touched(schedules, days, currentDay, i + 1, k) <==>
      Touched(schedules, days, currentDay, i, k)
      || (var found := FindDay(days, DayNames[DayAhead(currentDay, i)]);
          found.Some? && HasRanges(days[found.value]) && schedules[found.value] == schedules[k])
  {
    if Touched(schedules, days, currentDay, i + 1, k) {
      TouchedEarlierOrNow(schedules, days, currentDay, i, k);
    }
    var found := FindDay(days, DayNames[DayAhead(currentDay, i)]);
    if found.Some? && HasRanges(days[found.value]) && schedules[found.value] == schedules[k] {
      assert FoundWithin(days, currentDay, found.value, i + 1);
    }
    if Touched(schedules, days, currentDay, i, k) {
      TouchedLater(schedules, days, currentDay, i, k);
    }
  }

  /** A schedule touched within `i + 1` days was touched within `i` days or is the one found on day `i`. */
  lemma TouchedEarlierOrNow(schedules: seq<DaySchedule>, days: seq<DayValue>, currentDay: nat, i: nat, k: nat)
    requires i < 7 && k < |schedules| && |days| == |schedules|
    requires Touched(schedules, days, currentDay, i + 1, k)
    ensures Touched(schedules, days, currentDay, i, k)
      || (var found := FindDay(days, DayNames[DayAhead(currentDay, i)]);
          found.Some? && HasRanges(days[found.value]) && schedules[found.value] == schedules[k])
  {
    var f :| 0 <= f < |schedules| && schedules[f] == schedules[k] && FoundWithin(days, currentDay, f, i + 1);
    var i' :| 0 <= i' < i + 1 && i' < 7 && FindDay(days, DayNames[DayAhead(currentDay, i')]) == Some(f);
    if i' < i {
      assert FoundWithin(days, currentDay, f, i);
    }
  }

  /** A schedule touched within `i` days is touched within `i + 1` days. */
  lemma TouchedLater(schedules: seq<DaySchedule>, days: seq<DayValue>, currentDay: nat, i: nat, k: nat)
    requires k < |schedules|
    requires Touched(schedules, days, currentDay, i, k)
    ensures Touched(schedules, days, currentDay, i + 1, k)
  {
    var f :| 0 <= f < |schedules| && schedules[f] == schedules[k] && FoundWithin(days, currentDay, f, i);
    var i' :| 0 <= i' < i && i' < 7 && FindDay(days, DayNames[DayAhead(currentDay, i')]) == Some(f);
    assert FoundWithin(days, currentDay, f, i + 1);
  }

  /** Sorting the schedule found for day `i` (and every alias of it) extends the sorted schedules by that day. */
  lemma ResortedStep(schedules: seq<DaySchedule>, days0: seq<DayValue>, before: seq<DayValue>, after: seq<DayValue>,
                     currentDay: nat, i: nat, f: nat)
    requires i < 7 && |days0| == |schedules| && |before| == |schedules| && |after| == |schedules|
    requires FindDay(days0, DayNames[DayAhead(currentDay, i)]) == Some(f) && HasRanges(days0[f])
    requires forall k :: 0 <= k < |schedules| ==> before[k] == Resorted(days0[k], Touched(schedules, days0, currentDay, i, k))
    requires forall k :: 0 <= k < |schedules| && schedules[k] == schedules[f] ==>
      days0[k] == days0[f] && after[k] == before[k].(scheduleRanges := SortByStart(before[k].scheduleRanges))
    requires forall k :: 0 <= k < |schedules| && schedules[k] != schedules[f] ==> after[k] == before[k]
    ensures forall k :: 0 <= k < |schedules| ==> after[k] == Resorted(days0[k], Touched(schedules, days0, currentDay, i + 1, k))
  {
    forall k | 0 <= k < |schedules|
      ensures after[k] == Resorted(days0[k], Touched(schedules, days0, currentDay, i + 1, k))
    {
      TouchedNext(schedules, days0, currentDay, i, k);
      if schedules[k] == schedules[f] {
        SortByStartAgain(days0[k].scheduleRanges, before[k].scheduleRanges);
      }
    }
  }

  /** A schedule sorted by the search keeps its day, its flag and its number of ranges. */
  lemma ResortedKept(schedules: seq<DaySchedule>, days0: seq<DayValue>, days: seq<DayValue>, currentDay: nat, i: nat)
    requires |days0| == |schedules| && |days| == |schedules|
    requires forall k :: 0 <= k < |schedules| ==> days[k] == Resorted(days0[k], Touched(schedules, days0, currentDay, i, k))
    ensures forall k :: 0 <= k < |schedules| ==> SortedOrKept(days0[k], days[k]) && (HasRanges(days[k]) <==> HasRanges(days0[k]))
  {
    forall k | 0 <= k < |schedules| ensures SortedOrKept(days0[k], days[k]) && (HasRanges(days[k]) <==> HasRanges(days0[k])) {
      assert |Spans(days[k].scheduleRanges)| == |days[k].scheduleRanges|;
    }
  }

  /** A day whose schedule is missing or has no ranges sorts nothing. */
  lemma UntouchedStep(schedules: seq<DaySchedule>, days0: seq<DayValue>, days: seq<DayValue>, currentDay: nat, i: nat)
    requires i < 7 && |days0| == |schedules| && |days| == |schedules|
    requires var found := FindDay(days0, DayNames[DayAhead(currentDay, i)]);
      found.None? || !HasRanges(days0[found.value])
    requires forall k :: 0 <= k < |schedules| ==> days[k] == Resorted(days0[k], Touched(schedules, days0, currentDay, i, k))
    ensures forall k :: 0 <= k < |schedules| ==> days[k] == Resorted(days0[k], Touched(schedules, days0, currentDay, i + 1, k))
  {
    forall k | 0 <= k < |schedules|
      ensures days[k] == Resorted(days0[k], Touched(schedules, days0, currentDay, i + 1, k))
    {
      TouchedNext(schedules, days0, currentDay, i, k);
    }
  }

  /** The day lookup reads only the day names. */
  lemma {:induction false} FindDaySameNames(a: seq<DayValue>, b: seq<DayValue>, dayName: string)
    requires |a| == |b| && forall k :: 0 <= k < |a| ==> a[k].dayOfWeek == b[k].dayOfWeek
    ensures FindDay(a, dayName) == FindDay(b, dayName)
  {
    if a != [] && ToLower(a[0].dayOfWeek) != dayName {
      FindDaySameNames(a[1..], b[1..], dayName);
    }
  }

  /** A day's offer depends on its ranges only through their order by start. */
  lemma OfferTimeOfSorted(a: seq<Span>, b: seq<Span>, daysAhead: nat, currentTime: nat)
    requires ByStart(a) == ByStart(b)
    ensures OfferTime(a, daysAhead, currentTime) == OfferTime(b, daysAhead, currentTime)
  {
  }

  /** Sorting some days' ranges changes no day's offer. */
  lemma SameOffers(before: seq<DayValue>, after: seq<DayValue>, currentDay: nat, currentTime: nat, i: nat)
    requires |before| == |after| && forall k :: 0 <= k < |before| ==> SortedOrKept(before[k], after[k])
    ensures OpeningAt(after, currentDay, currentTime, i) == OpeningAt(before, currentDay, currentTime, i)
  {
    var checkDay := DayAhead(currentDay, i);
    FindDaySameNames(before, after, DayNames[checkDay]);
    var found := FindDay(before, DayNames[checkDay]);
    if found.Some? {
      var b := before[found.value].scheduleRanges;
      var a := after[found.value].scheduleRanges;
      SortedSpansAgain(b, a);
      OfferTimeOfSorted(Spans(a), Spans(b), i, currentTime);
    }
  }

  /** Sorting by start is idempotent: ranges sorted already stay as they are. */
  lemma SortByStartAgain(before: seq<TimeRange>, after: seq<TimeRange>)
    requires after == before || after == SortByStart(before)
    ensures SortByStart(after) == SortByStart(before)
  {
    SortedSpansAgain(before, after);
    SpansInjective(SortByStart(after), SortByStart(before));
  }

  /** `daySchedule.scheduleRanges.sort(...)`: sorts one day's ranges in place and returns their spans in that order. */
  method SortRanges(s: DaySchedule) returns (sorted: seq<Span>)
    modifies s
    ensures s.dayOfWeek == old(s.dayOfWeek) && s.isOpen == old(s.isOpen)
    ensures s.scheduleRanges == SortByStart(old(s.scheduleRanges))
    ensures sorted == Spans(s.scheduleRanges) && sorted == ByStart(Spans(old(s.scheduleRanges)))
  {
    sorted := ByStart(Spans(s.scheduleRanges));
    s.scheduleRanges := SortByStart(s.scheduleRanges);
  }

  /**
   * The in-place sort of the schedule found for the day `i` days ahead (and of every alias
   * of it): its spans in the order the search reads them.
   */
  method SortFoundDay(schedules: seq<DaySchedule>, ghost days0: seq<DayValue>, currentDay: nat, i: nat, f: nat)
    returns (sorted: seq<Span>)
    requires i < 7 && |days0| == |schedules|
    requires forall a, b :: 0 <= a < |schedules| && 0 <= b < |schedules| && schedules[a] == schedules[b] ==> days0[a] == days0[b]
    requires FindDay(days0, DayNames[DayAhead(currentDay, i)]) == Some(f) && HasRanges(days0[f])
    requires forall k :: 0 <= k < |schedules| ==>
      schedules[k].Value() == Resorted(days0[k], Touched(schedules, days0, currentDay, i, k))
    modifies set s | s in schedules
    ensures sorted == ByStart(Spans(days0[f].scheduleRanges))
    ensures forall k :: 0 <= k < |schedules| ==>
      schedules[k].Value() == Resorted(days0[k], Touched(schedules, days0, currentDay, i + 1, k))
  {
    ghost var days := Values(schedules);
    var s := schedules[f];
    SortedSpansAgain(days0[f].scheduleRanges, s.scheduleRanges);
    sorted := SortRanges(s);
    ghost var after := Values(schedules);
    forall k | 0 <= k < |schedules| && schedules[k] == s
      ensures days0[k] == days0[f]
      ensures after[k] == days[k].(scheduleRanges := SortByStart(days[k].scheduleRanges))
    {
    }
    ResortedStep(schedules, days0, days, after, currentDay, i, f);
  }

  /**
   * One pass of the loop of `getNextOpening`: the day `i` days ahead. When its schedule is
   * open with ranges, sorts them in place and offers a time from them.
   */
  method ExamineDay(schedules: seq<DaySchedule>, ghost days0: seq<DayValue>, currentDay: nat, currentTime: nat, i: nat)
    returns (r: Option<Opening>)
    requires i < 7 && |days0| == |schedules|
    requires forall a, b :: 0 <= a < |schedules| && 0 <= b < |schedules| && schedules[a] == schedules[b] ==> days0[a] == days0[b]
    requires forall k :: 0 <= k < |schedules| ==>
      schedules[k].Value() == Resorted(days0[k], Touched(schedules, days0, currentDay, i, k))
    modifies set s | s in schedules
    ensures r == OpeningAt(days0, currentDay, currentTime, i)
    ensures forall k :: 0 <= k < |schedules| ==>
      schedules[k].Value() == Resorted(days0[k], Touched(schedules, days0, currentDay, i + 1, k))
  {
    var checkDay := DayAhead(currentDay, i);
    var dayName := DayNames[checkDay];
    var days := Values(schedules);
    ResortedKept(schedules, days0, days, currentDay, i);
    FindDaySameNames(days0, days, dayName);
    var found := FindDay(days, dayName);
    if found.Some? && HasRanges(days[found.value]) {
      var sorted := SortFoundDay(schedules, days0, currentDay, i, found.value);
      if i == 0 {
        var future := Later(sorted, currentTime as real);
        if |future| > 0 {
          r := Some(Opening(dayName, checkDay, future[0].range.startTime, true));
        } else {
          r := None;
        }
      } else {
        r := Some(Opening(dayName, checkDay, sorted[0].range.startTime, false));
      }
    } else {
      UntouchedStep(schedules, days0, days, currentDay, i);
      r := None;
    }
  }

  /**
   * `getNextOpening(schedules, currentDay, currentTime)`: looks at the next seven days
   * from today, sorting in place the ranges of each day it examines, and returns the
   * first opening found. Exactly the schedules found for the days looked at (today up
   * to the day of the opening, or all seven) that have ranges are sorted by start.
   */
  method GetNextOpening(schedules: seq<DaySchedule>, currentDay: nat, currentTime: nat) returns (r: Option<Opening>)
    modifies set s | s in schedules
    ensures r == NextOpening(old(Values(schedules)), currentDay, currentTime)
    ensures forall k :: 0 <= k < |schedules| ==>
      schedules[k].Value() == Resorted(old(schedules[k].Value()),
        Touched(schedules, old(Values(schedules)), currentDay,
          Searched(Offers(old(Values(schedules)), currentDay, currentTime), 0), k))
  {
    ghost var days0 := Values(schedules);
    ghost var offers := Offers(days0, currentDay, currentTime);
    var i := 0;
    while i < 7
      invariant 0 <= i <= 7
      invariant FirstOffer(offers, i) == NextOpening(days0, currentDay, currentTime)
      invariant Searched(offers, i) == Searched(offers, 0)
      invariant forall k :: 0 <= k < |schedules| ==> days0[k] == old(schedules[k].Value())
      invariant forall k :: 0 <= k < |schedules| ==>
        schedules[k].Value() == Resorted(days0[k], Touched(schedules, days0, currentDay, i, k))
    {
      r := ExamineDay(schedules, days0, currentDay, currentTime, i);
      if r.Some? {
        return;
      }
      i := i + 1;
    }
    return None;
  }

  // ---------------------------------------------------------------------------
  // Current status
  // ---------------------------------------------------------------------------

  datatype Status =
    | Closed
    | ClosingSoon(minutesUntilClose: real, closingTime: Option<string>)
    | Open(closingTime: Option<string>)
    | OpeningSoon(minutesUntilOpen: real, openingTime: Option<string>)

  /** The range covers the moment `t`, both ends included. */
  predicate Covers(s: Span, t: real) {
    s.start <= t <= s.end
  }

  /** The index of the first span that covers `t`. */
  function FirstCovering(spans: seq<Span>, t: real): (r: Option<nat>)
    ensures r.Some? ==> r.value < |spans| && Covers(spans[r.value], t)
    ensures r.Some? ==> forall k :: 0 <= k < r.value ==> !Covers(spans[k], t)
    ensures r.None? ==> forall k :: 0 <= k < |spans| ==> !Covers(spans[k], t)
  {
    if spans == [] then None
    else if Covers(spans[0], t) then Some(0)
    else
      var rest := FirstCovering(spans[1..], t);
      if rest.None? then None else Some(rest.value + 1)
  }

  /** The first span covering `t` is the one at `k` when it covers `t` and none before it does. */
  lemma {:induction false} FirstCoveringIs(spans: seq<Span>, t: real, k: nat)
    requires k < |spans| && Covers(spans[k], t)
    requires forall j :: 0 <= j < k ==> !Covers(spans[j], t)
    ensures FirstCovering(spans, t) == Some(k)
  {
    if k > 0 {
      FirstCoveringIs(spans[1..], t, k - 1);
    }
  }

  /**
   * The status rules of `getCurrentStatus` for the ranges of an open day: inside a
   * range, closing soon when at most 30 minutes are left and open otherwise; before a
   * range that starts within 60 minutes, opening soon; closed otherwise.
   */
  function RangeStatus(spans: seq<Span>, currentTime: nat): Status {
    var t := currentTime as real;
    var first := FirstCovering(spans, t);
    if first.Some? then
      var left := spans[first.value].end - t;
      if left <= 30.0 then ClosingSoon(left, spans[first.value].range.endTime)
      else Open(spans[first.value].range.endTime)
    else
      var future := ByStart(Later(spans, t));
      if future != [] && future[0].start - t <= 60.0 then OpeningSoon(future[0].start - t, future[0].range.startTime)
      else Closed
  }

  /** Today's status: closed without an open schedule with ranges. */
  function StatusOf(today: Option<DayValue>, currentTime: nat): Status {
    if today.None? || !HasRanges(today.value) then Closed
    else RangeStatus(Spans(today.value.scheduleRanges), currentTime)
  }

  /** The restaurant is open (possibly closing soon) exactly when some range of an open day covers the moment. */
  lemma StatusOpenIff(today: Option<DayValue>, currentTime: nat)
    ensures StatusOf(today, currentTime).Open? || StatusOf(today, currentTime).ClosingSoon? <==>
      today.Some? && today.value.isOpen
      && exists k :: 0 <= k < |today.value.scheduleRanges| && Covers(Spans(today.value.scheduleRanges)[k], currentTime as real)
  {
  }

  /**
   * Inside a range, the first range (in list order) that covers the moment decides:
   * closing soon with the minutes left when at most 30 are left, open otherwise, and
   * either way its end time is the closing time.
   */
  lemma StatusInsideRange(spans: seq<Span>, currentTime: nat, k: nat)
    requires k < |spans|
    requires Covers(spans[k], currentTime as real)
    requires forall j :: 0 <= j < k ==> !Covers(spans[j], currentTime as real)
    ensures RangeStatus(spans, currentTime) ==
      var left := spans[k].end - currentTime as real;
      if left <= 30.0 then ClosingSoon(left, spans[k].range.endTime) else Open(spans[k].range.endTime)
  {
    FirstCoveringIs(spans, currentTime as real, k);
  }

  /** The first of the later spans, by start, is a qualifying span that starts no later than any other. */
  lemma UpcomingIsEarliest(spans: seq<Span>, currentTime: nat)
    requires ByStart(Later(spans, currentTime as real)) != []
    ensures exists k: nat :: (EarliestQualifying(spans, k, 0, currentTime)
      && spans[k] == ByStart(Later(spans, currentTime as real))[0])
  {
    var later := Later(spans, currentTime as real);
    var future := ByStart(later);
    StartsNoLaterIsPreorder();
    SortFirstIsLeast(later, StartsNoLater);
    assert future[0] in spans;
    var k: nat :| k < |spans| && spans[k] == future[0];
    forall j: nat | Qualifies(spans, j, 0, currentTime) ensures spans[k].start <= spans[j].start {
      assert spans[j] in later;
    }
    assert EarliestQualifying(spans, k, 0, currentTime);
  }

  /** Without later spans, every span starts at or before the moment. */
  lemma NoUpcoming(spans: seq<Span>, currentTime: nat)
    requires ByStart(Later(spans, currentTime as real)) == []
    ensures forall j :: 0 <= j < |spans| ==> spans[j].start <= currentTime as real
  {
    forall j | 0 <= j < |spans| ensures spans[j].start <= currentTime as real {
      assert spans[j] !in Later(spans, currentTime as real);
    }
  }

  /** Opening soon means no range covers the moment and some range starts within the next 60 minutes. */
  lemma StatusOpeningSoonIff(spans: seq<Span>, currentTime: nat)
    ensures RangeStatus(spans, currentTime).OpeningSoon? <==>
      (forall k :: 0 <= k < |spans| ==> !Covers(spans[k], currentTime as real))
      && exists k :: 0 <= k < |spans| && currentTime as real < spans[k].start <= currentTime as real + 60.0
  {
    var t := currentTime as real;
    if FirstCovering(spans, t).None? {
      if ByStart(Later(spans, t)) != [] {
        UpcomingIsEarliest(spans, currentTime);
      } else {
        NoUpcoming(spans, currentTime);
      }
    }
  }

  /**
   * When opening soon, the status carries the minutes until, and the start time of,
   * a range that starts after the moment and no later than any other such range.
   */
  lemma StatusOpeningSoonIsEarliest(spans: seq<Span>, currentTime: nat)
    requires RangeStatus(spans, currentTime).OpeningSoon?
    ensures exists k: nat :: (EarliestQualifying(spans, k, 0, currentTime)
      && RangeStatus(spans, currentTime) == OpeningSoon(spans[k].start - currentTime as real, spans[k].range.startTime))
  {
    UpcomingIsEarliest(spans, currentTime);
  }

  /**
   * The status loop of `getCurrentStatus` over today's ranges, each read as its span:
   * the first range that covers the moment decides; when none does, the opening-soon
   * check follows.
   */
  method ScanRanges(spans: seq<Span>, currentTime: nat) returns (status: Status)
    ensures status == RangeStatus(spans, currentTime)
  {
    var t := currentTime as real;
    var k := 0;
    while k < |spans|
      invariant 0 <= k <= |spans|
      invariant forall j :: 0 <= j < k ==> !Covers(spans[j], t)
    {
      var startMinutes := spans[k].start;
      var endMinutes := spans[k].end;
      if t >= startMinutes && t <= endMinutes {
        StatusInsideRange(spans, currentTime, k);
        var minutesUntilClose := endMinutes - t;
        if minutesUntilClose <= 30.0 {
          return ClosingSoon(minutesUntilClose, spans[k].range.endTime);
        }
        return Open(spans[k].range.endTime);
      }
      k := k + 1;
    }
    status := UpcomingStatus(spans, currentTime);
  }

  /** The opening-soon check of `getCurrentStatus`, once no range covers the moment. */
  method UpcomingStatus(spans: seq<Span>, currentTime: nat) returns (status: Status)
    requires forall j :: 0 <= j < |spans| ==> !Covers(spans[j], currentTime as real)
    ensures status == RangeStatus(spans, currentTime)
  {
    var t := currentTime as real;
    var future := ByStart(Later(spans, t));
    if future != [] && future[0].start - t <= 60.0 {
      return OpeningSoon(future[0].start - t, future[0].range.startTime);
    }
    return Closed;
  }

  /**
   * `getCurrentStatus()` without the messages: today's status by the rules above and,
   * when closed, the next opening, whose search sorts the examined days' ranges; an
   * open status leaves every schedule as it was.
   */
  method CurrentStatus(schedules: seq<DaySchedule>, currentDay: nat, currentTime: nat)
    returns (status: Status, nextOpening: Option<Opening>)
    requires currentDay < 7
    modifies set s | s in schedules
    ensures status == StatusOf(DayOf(old(Values(schedules)), currentDay), currentTime)
    ensures nextOpening == if status.Closed? then NextOpening(old(Values(schedules)), currentDay, currentTime) else None
    ensures forall k :: 0 <= k < |schedules| ==>
      schedules[k].Value() == Resorted(old(schedules[k].Value()),
        status.Closed? && Touched(schedules, old(Values(schedules)), currentDay,
          Searched(Offers(old(Values(schedules)), currentDay, currentTime), 0), k))
  {
    var today := DayOf(Values(schedules), currentDay);
    if today.None? || !HasRanges(today.value) {
      status := Closed;
    } else {
      status := ScanRanges(Spans(today.value.scheduleRanges), currentTime);
    }
    if status.Closed? {
      nextOpening := GetNextOpening(schedules, currentDay, currentTime);
    } else {
      nextOpening := None;
    }
  }
}
