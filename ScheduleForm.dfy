/**
 * The opening-hours editor of the admin panel
 * (admin/src/components/contact/ScheduleForm.jsx): the hours of the read-only weekly
 * calendar (`getAllHours`, `isHourOpen`), the list of days in week order, the grouping of
 * open days into patterns of equal time ranges, and the pattern handlers, each of which
 * maps the list of days to a new one.
 */
module ScheduleForm {
  import opened Wrappers
  import opened Strings
  import opened Numbers
  import opened Sequences
  import opened Sorting
  import opened Grouping
  import ContactService

  datatype Range = Range(id: int, nameKey: string, startTime: string, endTime: string)

  /** One day of the week; a missing `scheduleRanges` is the empty list. */
  datatype Schedule = Schedule(dayOfWeek: string, isOpen: bool, scheduleRanges: seq<Range>)

  const DayOrder: seq<string> := ["monday", "tuesday", "wednesday", "thursday", "friday", "saturday", "sunday"]

  /* ---------------------------------------------------------------------------------- */
  /* The weekly calendar                                                                */
  /* ---------------------------------------------------------------------------------- */

  /** `parseInt(time.split(':')[0])`, with NaN as None. */
  function HourOf(time: string): Option<int> {
    ParseInt(Split(time, ':')[0])
  }

  /** The calendar rows a range contributes: its start hour to its end hour, both included. */
  predicate Covers(r: Range, hour: int) {
    var s := HourOf(r.startTime);
    var e := HourOf(r.endTime);
    s.Some? && e.Some? && s.value <= hour <= e.value
  }

  /** Some range of `rs` covers `hour`. */
  predicate AnyCovers(rs: seq<Range>, hour: int) {
    AnySatisfies(rs, (r: Range) => Covers(r, hour))
  }

  /** Some open day of `ss` has a range that covers `hour`. */
  predicate Listed(ss: seq<Schedule>, hour: int) {
    AnySatisfies(ss, (s: Schedule) => s.isOpen && AnyCovers(s.scheduleRanges, hour))
  }

  /** A listed hour is covered by some range of some open day. */
  lemma ListedCovered(ss: seq<Schedule>, hour: int)
    requires Listed(ss, hour)
    ensures exists i, j :: 0 <= i < |ss| && ss[i].isOpen && 0 <= j < |ss[i].scheduleRanges|
                           && Covers(ss[i].scheduleRanges[j], hour)
  {
    AnySatisfiesMeans(ss, (s: Schedule) => s.isOpen && AnyCovers(s.scheduleRanges, hour));
    var i :| 0 <= i < |ss| && ss[i].isOpen && AnyCovers(ss[i].scheduleRanges, hour);
    AnySatisfiesMeans(ss[i].scheduleRanges, (r: Range) => Covers(r, hour));
    var j :| 0 <= j < |ss[i].scheduleRanges| && Covers(ss[i].scheduleRanges[j], hour);
  }

  /** An hour that some range of some open day covers is listed. */
  lemma CoveredListed(ss: seq<Schedule>, hour: int, i: nat, j: nat)
    requires i < |ss| && ss[i].isOpen && j < |ss[i].scheduleRanges|
    requires Covers(ss[i].scheduleRanges[j], hour)
    ensures Listed(ss, hour)
  {
    AnySatisfiesMeans(ss[i].scheduleRanges, (r: Range) => Covers(r, hour));
    AnySatisfiesMeans(ss, (s: Schedule) => s.isOpen && AnyCovers(s.scheduleRanges, hour));
  }

  predicate NoDuplicates(s: seq<int>) {
    forall i, j :: 0 <= i < j < |s| ==> s[i] != s[j]
  }

  /** The comparator `(a, b) => a - b` on hours. */
  predicate IntLe(a: int, b: int) {
    a <= b
  }

  lemma {:induction false} NoDuplicatesCount(s: seq<int>, x: int)
    requires NoDuplicates(s)
    ensures multiset(s)[x] <= 1
  {
    if s != [] {
      var init := s[..|s| - 1];
      assert s == init + [s[|s| - 1]];
      NoDuplicatesCount(init, x);
      if s[|s| - 1] == x {
        assert x !in init;
      }
    }
  }

  predicate Increasing(s: seq<int>) {
    forall k :: 0 < k < |s| ==> s[k - 1] < s[k]
  }

  /** Sorting the distinct hours numerically puts them in strictly increasing order. */
  lemma SortedHours(s: seq<int>)
    requires NoDuplicates(s)
    ensures Increasing(Sort(s, IntLe))
  {
    assert TotalPreorder(IntLe);
    SortSorted(s, IntLe);
    var r := Sort(s, IntLe);
    forall k | 0 < k < |r| ensures r[k - 1] < r[k] {
      assert IntLe(r[k - 1], r[k]);
      if r[k - 1] == r[k] {
        var x := r[k];
        assert r == r[..k] + r[k..];
        assert x in r[..k] && x in r[k..];
        assert multiset(r)[x] == multiset(r[..k])[x] + multiset(r[k..])[x];
        NoDuplicatesCount(s, x);
        assert false;
      }
    }
  }

  /** The `for (hour = first; hour <= last; hour++) hoursSet.add(hour)` loop. */
  method AddHours(hoursSet: seq<int>, first: int, last: int) returns (r: seq<int>)
    requires NoDuplicates(hoursSet)
    ensures NoDuplicates(r)
    ensures forall h :: h in r <==> h in hoursSet || first <= h <= last
  {
    r := hoursSet;
    var hour := first;
    while hour <= last
      invariant first <= hour
      invariant hour <= last + 1 || hour == first
      invariant NoDuplicates(r)
      invariant forall h :: h in r <==> h in hoursSet || first <= h < hour
      decreases last - hour
    {
      if hour !in r {
        r := r + [hour];
      }
      hour := hour + 1;
    }
  }

  lemma AnyCoversStep(ranges: seq<Range>, j: nat)
    requires j < |ranges|
    ensures forall h :: AnyCovers(ranges[..j + 1], h) <==> AnyCovers(ranges[..j], h) || Covers(ranges[j], h)
  {
    assert ranges[..j + 1][..j] == ranges[..j];
  }

  /** The hours of one range added to the set; a range whose start or end hour is NaN adds nothing. */
  method AddRangeHours(hoursSet: seq<int>, range: Range) returns (r: seq<int>)
    requires NoDuplicates(hoursSet)
    ensures NoDuplicates(r)
    ensures forall h :: h in r <==> h in hoursSet || Covers(range, h)
  {
    var startHour := HourOf(range.startTime);
    var endHour := HourOf(range.endTime);
    CoversBetween(range, startHour, endHour);
    r := hoursSet;
    if startHour.Some? && endHour.Some? {
      r := AddHours(r, startHour.value, endHour.value);
    }
  }

  /** A range covers the hours from its start hour to its end hour, and none when either is NaN. */
  lemma CoversBetween(range: Range, startHour: Option<int>, endHour: Option<int>)
    requires startHour == HourOf(range.startTime) && endHour == HourOf(range.endTime)
    ensures startHour.None? || endHour.None? ==> forall h :: !Covers(range, h)
    ensures startHour.Some? && endHour.Some? ==>
      forall h :: Covers(range, h) <==> startHour.value <= h <= endHour.value
  {
  }

  /** The hours of one open day's ranges added to the set; a range whose start or end hour is NaN adds nothing. */
  method AddDayHours(hoursSet: seq<int>, ranges: seq<Range>) returns (r: seq<int>)
    requires NoDuplicates(hoursSet)
    ensures NoDuplicates(r)
    ensures forall h :: h in r <==> h in hoursSet || AnyCovers(ranges, h)
  {
    r := hoursSet;
    for j := 0 to |ranges|
      invariant NoDuplicates(r)
      invariant forall h :: h in r <==> h in hoursSet || AnyCovers(ranges[..j], h)
    {
      AnyCoversStep(ranges, j);
      r := AddRangeHours(r, ranges[j]);
    }
    assert ranges[..|ranges|] == ranges;
  }

  /**
   * `getAllHours`: every hour from the start hour to the end hour of every range of every
   * open day, each once, in increasing order.
   */
  method GetAllHours(schedules: seq<Schedule>) returns (hours: seq<int>)
    ensures forall h :: h in hours <==> Listed(schedules, h)
    ensures Increasing(hours)
  {
    // the Set, kept in insertion order
    var hoursSet: seq<int> := [];
    for i := 0 to |schedules|
      invariant NoDuplicates(hoursSet)
      invariant forall h :: h in hoursSet <==> Listed(schedules[..i], h)
    {
      assert schedules[..i + 1][..i] == schedules[..i];
      if schedules[i].isOpen {
        hoursSet := AddDayHours(hoursSet, schedules[i].scheduleRanges);
      }
    }
    assert schedules[..|schedules|] == schedules;
    hours := Sort(hoursSet, IntLe);
    SortedHours(hoursSet);
    forall h ensures h in hours <==> h in hoursSet {
      assert h in hours <==> h in multiset(hours);
      assert h in hoursSet <==> h in multiset(hoursSet);
    }
  }

  /** `schedules.find(s => s.dayOfWeek === day)`, as the index of that schedule. */
  function FindDay(ss: seq<Schedule>, day: string): (r: Option<nat>)
    ensures r.Some? ==> r.value < |ss| && ss[r.value].dayOfWeek == day
                        && forall k :: 0 <= k < r.value ==> ss[k].dayOfWeek != day
    ensures r.None? ==> forall k :: 0 <= k < |ss| ==> ss[k].dayOfWeek != day
  {
    if ss == [] then None
    else if ss[0].dayOfWeek == day then Some(0)
    else match FindDay(ss[1..], day)
      case None => None
      case Some(k) => Some(k + 1)
  }

  /**
   * The range's minutes overlap the hour's minutes `[hour·60, (hour+1)·60)`; a time that is
   * NaN overlaps nothing.
   */
  predicate Overlaps(r: Range, hour: int) {
    var s := ContactService.TimeToMinutes(r.startTime);
    var e := ContactService.TimeToMinutes(r.endTime);
    s.Some? && e.Some? && s.value < ((hour + 1) * 60) as real && e.value > (hour * 60) as real
  }

  /** `isHourOpen(day, hour)`: the first schedule of that day is open and some range of it overlaps the hour. */
  predicate IsHourOpen(ss: seq<Schedule>, day: string, hour: int) {
    match FindDay(ss, day)
    case None => false
    case Some(k) =>
      ss[k].isOpen && exists j :: 0 <= j < |ss[k].scheduleRanges| && Overlaps(ss[k].scheduleRanges[j], hour)
  }

  /** A time whose minutes are its hour part times 60 plus a minute part from 0 to 59. */
  predicate WholeClock(t: string) {
    var h := HourOf(t);
    var m := ContactService.TimeToMinutes(t);
    h.Some? && m.Some? && 0.0 <= m.value - (60 * h.value) as real < 60.0
  }

  predicate WellFormedTimes(ss: seq<Schedule>) {
    forall i, j :: 0 <= i < |ss| && 0 <= j < |ss[i].scheduleRanges| ==>
      WholeClock(ss[i].scheduleRanges[j].startTime) && WholeClock(ss[i].scheduleRanges[j].endTime)
  }

  /** With well-formed times, a range overlaps only hours it covers. */
  lemma OverlapCovered(r: Range, hour: int)
    requires WholeClock(r.startTime) && WholeClock(r.endTime)
    ensures Overlaps(r, hour) ==> Covers(r, hour)
  {
  }

  /** With well-formed times, every hour the calendar shows as open has a row in it. */
  lemma OpenHourListed(ss: seq<Schedule>, day: string, hour: int)
    requires WellFormedTimes(ss)
    ensures IsHourOpen(ss, day, hour) ==> Listed(ss, hour)
  {
    if IsHourOpen(ss, day, hour) {
      var k := FindDay(ss, day).value;
      var j :| 0 <= j < |ss[k].scheduleRanges| && Overlaps(ss[k].scheduleRanges[j], hour);
      OverlapCovered(ss[k].scheduleRanges[j], hour);
      CoveredListed(ss, hour, k, j);
    }
  }

  /**
   * A range that ends on the hour gives that hour a row, and the row is shown closed for
   * the range: `getAllHours` includes the end hour, `isHourOpen` needs a minute of overlap.
   */
  lemma EndHourShownClosed(r: Range)
    requires WholeClock(r.startTime) && WholeClock(r.endTime)
    requires HourOf(r.startTime).value <= HourOf(r.endTime).value
    requires ContactService.TimeToMinutes(r.endTime).value == (60 * HourOf(r.endTime).value) as real
    ensures Covers(r, HourOf(r.endTime).value) && !Overlaps(r, HourOf(r.endTime).value)
  {
  }

  /* ---------------------------------------------------------------------------------- */
  /* Week order                                                                         */
  /* ---------------------------------------------------------------------------------- */

  /** `dayOrder.indexOf(day)`: -1 for a name outside the week. */
  function DayIndex(day: string): (i: int)
    ensures -1 <= i < 7
    ensures 0 <= i ==> DayOrder[i] == day
    ensures i == -1 <==> day !in DayOrder
  {
    if day == "monday" then 0
    else if day == "tuesday" then 1
    else if day == "wednesday" then 2
    else if day == "thursday" then 3
    else if day == "friday" then 4
    else if day == "saturday" then 5
    else if day == "sunday" then 6
    else -1
  }

  /** The comparator `dayOrder.indexOf(a.dayOfWeek) - dayOrder.indexOf(b.dayOfWeek)`. */
  predicate DayLe(a: Schedule, b: Schedule) {
    DayIndex(a.dayOfWeek) <= DayIndex(b.dayOfWeek)
  }

  /** `sortedSchedules`. */
  function SortedSchedules(ss: seq<Schedule>): seq<Schedule> {
    Sort(ss, DayLe)
  }

  /**
   * The same schedules, Monday first and Sunday last (names outside the week before Monday),
   * schedules of the same day keeping their order.
   */
  lemma SortedSchedulesOrder(ss: seq<Schedule>)
    ensures var r := SortedSchedules(ss);
      && multiset(r) == multiset(ss)
      && (forall i, j :: 0 <= i < j < |r| ==> DayIndex(r[i].dayOfWeek) <= DayIndex(r[j].dayOfWeek))
      && (forall s :: EquivalentTo(r, DayLe, s) == EquivalentTo(ss, DayLe, s))
  {
    assert TotalPreorder(DayLe);
    SortSorted(ss, DayLe);
    forall s ensures EquivalentTo(SortedSchedules(ss), DayLe, s) == EquivalentTo(ss, DayLe, s) {
      SortStable(ss, DayLe, s);
    }
  }

  /* ---------------------------------------------------------------------------------- */
  /* Patterns                                                                           */
  /* ---------------------------------------------------------------------------------- */

  /** A range as the pattern key sees it: its trimmed start and end. */
  type Times = (string, string)

  /** `a.localeCompare(b) <= 0`, taken as the order of character codes. */
  predicate StringLe(a: string, b: string)
    decreases |a|
  {
    if a == [] then true
    else if b == [] then false
    else if a[0] != b[0] then a[0] < b[0]
    else StringLe(a[1..], b[1..])
  }

  lemma {:induction false} StringLeTotal(a: string, b: string)
    ensures StringLe(a, b) || StringLe(b, a)
    decreases |a|
  {
    if a != [] && b != [] && a[0] == b[0] {
      StringLeTotal(a[1..], b[1..]);
    }
  }

  lemma {:induction false} StringLeTransitive(a: string, b: string, c: string)
    requires StringLe(a, b) && StringLe(b, c)
    ensures StringLe(a, c)
    decreases |a|
  {
    if a != [] && b != [] && c != [] && a[0] == b[0] && b[0] == c[0] {
      StringLeTransitive(a[1..], b[1..], c[1..]);
    }
  }

  lemma {:induction false} StringLeAntisymmetric(a: string, b: string)
    requires StringLe(a, b) && StringLe(b, a)
    ensures a == b
    decreases |a|
  {
    if a != [] && b != [] {
      StringLeAntisymmetric(a[1..], b[1..]);
      assert a == [a[0]] + a[1..] && b == [b[0]] + b[1..];
    }
  }

  /** The comparator of `normalizedRanges`: by start, then by end. */
  predicate TimesLe(a: Times, b: Times) {
    if a.0 != b.0 then StringLe(a.0, b.0) else StringLe(a.1, b.1)
  }

  /** The comparator orders the times totally: it is a total preorder and antisymmetric. */
  lemma TimesLeOrder()
    ensures TotalPreorder(TimesLe) && Antisymmetric(TimesLe)
  {
    forall a: Times, b: Times ensures TimesLe(a, b) || TimesLe(b, a) {
      StringLeTotal(a.0, b.0);
      StringLeTotal(a.1, b.1);
    }
    forall a: Times, b: Times, c: Times | TimesLe(a, b) && TimesLe(b, c) ensures TimesLe(a, c) {
      if a.0 != b.0 && b.0 != c.0 {
        StringLeTransitive(a.0, b.0, c.0);
        if a.0 == c.0 {
          StringLeAntisymmetric(a.0, b.0);
        }
      } else if a.0 == b.0 && b.0 == c.0 {
        StringLeTransitive(a.1, b.1, c.1);
      }
    }
    forall a: Times, b: Times | TimesLe(a, b) && TimesLe(b, a) ensures a == b {
      if a.0 != b.0 {
        StringLeAntisymmetric(a.0, b.0);
      } else {
        StringLeAntisymmetric(a.1, b.1);
      }
    }
  }

  function TimesOf(r: Range): Times {
    (Trim(r.startTime), Trim(r.endTime))
  }

  /** The comparator of `sortedRanges`: the same order on the ranges' trimmed times. */
  predicate RangeLe(a: Range, b: Range) {
    TimesLe(TimesOf(a), TimesOf(b))
  }

  /** The ranges mapped to their trimmed times. */
  function Normalize(rs: seq<Range>): seq<Times> {
    MapSeq(TimesOf, rs)
  }

  /**
   * A pattern key: the day's `normalizedRanges`. `JSON.stringify` of such a list is
   * one-to-one, so the list itself stands for the string key.
   */
  type Key = seq<Times>

  function PatternKey(s: Schedule): Key {
    KeyOf(s.scheduleRanges)
  }

  function KeyOf(rs: seq<Range>): Key {
    Sort(Normalize(rs), TimesLe)
  }

  function SortedRanges(rs: seq<Range>): seq<Range> {
    Sort(rs, RangeLe)
  }

  /** Sorting the ranges and then reading their times gives the sorted times. */
  lemma NormalizeSortedRanges(rs: seq<Range>)
    ensures Normalize(SortedRanges(rs)) == Sort(Normalize(rs), TimesLe)
  {
    MapSort(TimesOf, RangeLe, TimesLe, rs);
  }

  /** Two days have the same pattern key exactly when they hold the same trimmed times, counted with repetition. */
  lemma KeyIffSameTimes(s1: Schedule, s2: Schedule)
    ensures PatternKey(s1) == PatternKey(s2)
        <==> multiset(Normalize(s1.scheduleRanges)) == multiset(Normalize(s2.scheduleRanges))
  {
    TimesLeOrder();
    SortUnique(Normalize(s1.scheduleRanges), Normalize(s2.scheduleRanges), TimesLe);
  }

  /** The days `groupSchedulesByPattern` groups: open, with at least one range. */
  predicate Grouped(s: Schedule) {
    s.isOpen && |s.scheduleRanges| > 0
  }

  function DayOf(s: Schedule): string {
    s.dayOfWeek
  }

  datatype Pattern = Pattern(patternKey: Key, ranges: seq<Range>, days: seq<string>)

  /** What `groupSchedulesByPattern` returns for the days `ss`. */
  function PatternsOf(ss: seq<Schedule>): seq<Pattern> {
    var keys := KeysOf(ss, Grouped, PatternKey);
    seq(|keys|, i requires 0 <= i < |keys| =>
      Pattern(keys[i], FirstRangesWith(ss, keys[i]), NamesWith(ss, Grouped, PatternKey, DayOf, keys[i])))
  }

  /** The sorted ranges of the first grouped day with key `k` (every listed key has one). */
  function FirstRangesWith(ss: seq<Schedule>, k: Key): seq<Range> {
    match FirstWith(ss, Grouped, PatternKey, k)
    case Some(first) => FirstRanges(first)
    case None => []
  }

  /** The entry a key gets from its first day: that day's ranges, sorted. */
  function FirstRanges(s: Schedule): seq<Range> {
    SortedRanges(s.scheduleRanges)
  }

  /** The dictionary `daysByPattern` after the days `ss`. */
  function GroupsOf(ss: seq<Schedule>): map<Key, Entry<seq<Range>, string>> {
    Groups(ss, Grouped, PatternKey, FirstRanges, DayOf)
  }

  /** The patterns are the keys in order, each with its entry in the dictionary. */
  lemma PatternsOfGroups(ss: seq<Schedule>)
    ensures var keys := KeysOf(ss, Grouped, PatternKey);
      && (forall k :: k in keys <==> k in GroupsOf(ss))
      && PatternsOf(ss) == seq(|keys|, j requires 0 <= j < |keys| && keys[j] in GroupsOf(ss) =>
                                 Pattern(keys[j], GroupsOf(ss)[keys[j]].first, GroupsOf(ss)[keys[j]].names))
  {
    var keys := KeysOf(ss, Grouped, PatternKey);
    KeysOfMeans(ss, Grouped, PatternKey);
    KeysOfGroups(ss, Grouped, PatternKey, FirstRanges, DayOf);
    forall j | 0 <= j < |keys| ensures GroupsOf(ss)[keys[j]] == Entry(FirstRangesWith(ss, keys[j]),
                                                                         NamesWith(ss, Grouped, PatternKey, DayOf, keys[j])) {
      GroupsAt(ss, Grouped, PatternKey, FirstRanges, DayOf, keys[j]);
    }
  }

  /**
   * One pass of the loop of `groupSchedulesByPattern`: the day `sortedSchedules[i]` is filed under its key:
   * a new key gets the day's sorted ranges and is remembered, and the day's name is added to the key's days.
   */
  method FileDay(sortedSchedules: seq<Schedule>, i: nat, patterns: seq<Key>, daysByPattern: map<Key, Entry<seq<Range>, string>>)
    returns (patterns': seq<Key>, daysByPattern': map<Key, Entry<seq<Range>, string>>)
    requires i < |sortedSchedules|
    requires patterns == KeysOf(sortedSchedules[..i], Grouped, PatternKey)
    requires daysByPattern == GroupsOf(sortedSchedules[..i])
    ensures patterns' == KeysOf(sortedSchedules[..i + 1], Grouped, PatternKey)
    ensures daysByPattern' == GroupsOf(sortedSchedules[..i + 1])
  {
    GroupStep(sortedSchedules, Grouped, PatternKey, FirstRanges, DayOf, i);
    var schedule := sortedSchedules[i];
    if !(schedule.isOpen && |schedule.scheduleRanges| > 0) {
      patterns', daysByPattern' := patterns, daysByPattern;
    } else {
      var patternKey := PatternKey(schedule);
      if patternKey !in daysByPattern {
        patterns' := patterns + [patternKey];
        daysByPattern' := daysByPattern[patternKey := Entry(SortedRanges(schedule.scheduleRanges), [schedule.dayOfWeek])];
      } else {
        var g := daysByPattern[patternKey];
        patterns' := patterns;
        daysByPattern' := daysByPattern[patternKey := g.(names := g.names + [schedule.dayOfWeek])];
      }
    }
  }

  /** `groupSchedulesByPattern`, over the days in week order. */
  method GroupSchedulesByPattern(sortedSchedules: seq<Schedule>) returns (result: seq<Pattern>)
    ensures result == PatternsOf(sortedSchedules)
  {
    var patterns: seq<Key> := [];
    var daysByPattern: map<Key, Entry<seq<Range>, string>> := map[];
    for i := 0 to |sortedSchedules|
      invariant patterns == KeysOf(sortedSchedules[..i], Grouped, PatternKey)
      invariant daysByPattern == GroupsOf(sortedSchedules[..i])
    {
      patterns, daysByPattern := FileDay(sortedSchedules, i, patterns, daysByPattern);
    }
    assert sortedSchedules[..|sortedSchedules|] == sortedSchedules;
    PatternsOfGroups(sortedSchedules);
    result := seq(|patterns|, j requires 0 <= j < |patterns| =>
      Pattern(patterns[j], daysByPattern[patterns[j]].first, daysByPattern[patterns[j]].names));
  }

  /** `sortedRanges`' comparator orders ranges totally (ranges with the same times tie). */
  lemma RangeLeOrder()
    ensures TotalPreorder(RangeLe)
  {
    TimesLeOrder();
  }

  /** Every grouped day falls under a pattern with its key and is listed among its days; no key is listed twice. */
  lemma EachOpenDayInOnePattern(ss: seq<Schedule>, i: nat)
    requires i < |ss| && Grouped(ss[i])
    ensures var ps := PatternsOf(ss);
      && (exists j :: 0 <= j < |ps| && ps[j].patternKey == PatternKey(ss[i]) && ss[i].dayOfWeek in ps[j].days)
      && (forall a, b :: 0 <= a < b < |ps| ==> ps[a].patternKey != ps[b].patternKey)
  {
    var keys := KeysOf(ss, Grouped, PatternKey);
    InOneGroup(ss, Grouped, PatternKey, DayOf, i);
    KeysOfMeans(ss, Grouped, PatternKey);
    var j :| 0 <= j < |keys| && keys[j] == PatternKey(ss[i]);
    assert PatternsOf(ss)[j].days == NamesWith(ss, Grouped, PatternKey, DayOf, keys[j]);
  }

  /** A day is listed under a pattern exactly when a grouped day of that name has the pattern's key. */
  lemma PatternDays(ss: seq<Schedule>, j: nat, d: string)
    requires j < |PatternsOf(ss)|
    ensures var p := PatternsOf(ss)[j];
      d in p.days <==> exists i :: 0 <= i < |ss| && Grouped(ss[i]) && PatternKey(ss[i]) == p.patternKey && ss[i].dayOfWeek == d
  {
    var keys := KeysOf(ss, Grouped, PatternKey);
    NamesWithMeans(ss, Grouped, PatternKey, DayOf, keys[j], d);
  }

  /**
   * A pattern's ranges are the sorted ranges of a grouped day with its key: at least one,
   * in order, and their trimmed times are the key itself. Its list of days is not empty.
   */
  lemma PatternRanges(ss: seq<Schedule>, j: nat)
    requires j < |PatternsOf(ss)|
    ensures var p := PatternsOf(ss)[j];
      && |p.ranges| > 0
      && SortedBy(p.ranges, RangeLe)
      && Normalize(p.ranges) == p.patternKey
      && p.days != []
      && exists i :: 0 <= i < |ss| && Grouped(ss[i]) && PatternKey(ss[i]) == p.patternKey
                     && p.ranges == SortedRanges(ss[i].scheduleRanges)
  {
    var keys := KeysOf(ss, Grouped, PatternKey);
    var k := keys[j];
    KeysOfMeans(ss, Grouped, PatternKey);
    FirstWithMeans(ss, Grouped, PatternKey, k);
    var i :| 0 <= i < |ss| && FirstWith(ss, Grouped, PatternKey, k) == Some(ss[i]) && Grouped(ss[i]) && PatternKey(ss[i]) == k;
    NormalizeSortedRanges(ss[i].scheduleRanges);
    RangeLeOrder();
    SortSorted(ss[i].scheduleRanges, RangeLe);
    NamesWithMeans(ss, Grouped, PatternKey, DayOf, k, ss[i].dayOfWeek);
  }

  /* ---------------------------------------------------------------------------------- */
  /* Editing handlers                                                                   */
  /* ---------------------------------------------------------------------------------- */

  /**
   * `handlePatternDayToggle`: every schedule of the day is opened with a copy of the
   * pattern's ranges when checked, and closed with no ranges when unchecked.
   */
  function DayToggle(schedules: seq<Schedule>, pattern: Pattern, dayOfWeek: string, isChecked: bool): (r: seq<Schedule>)
    ensures |r| == |schedules|
  {
    seq(|schedules|, i requires 0 <= i < |schedules| =>
      var s := schedules[i];
      if s.dayOfWeek != dayOfWeek then s
      else if isChecked then s.(isOpen := true, scheduleRanges := pattern.ranges)
      else s.(isOpen := false, scheduleRanges := []))
  }

  /** A schedule of `ss` appears in the week-ordered list. */
  lemma InSortedSchedules(ss: seq<Schedule>, i: nat) returns (k: nat)
    requires i < |ss|
    ensures k < |SortedSchedules(ss)| && SortedSchedules(ss)[k] == ss[i]
  {
    SortedSchedulesOrder(ss);
    assert ss[i] in multiset(SortedSchedules(ss));
    k :| 0 <= k < |SortedSchedules(ss)| && SortedSchedules(ss)[k] == ss[i];
  }

  /** A schedule of the week-ordered list is one of `ss`. */
  lemma FromSortedSchedules(ss: seq<Schedule>, k: nat) returns (i: nat)
    requires k < |SortedSchedules(ss)|
    ensures i < |ss| && ss[i] == SortedSchedules(ss)[k]
  {
    SortedSchedulesOrder(ss);
    assert SortedSchedules(ss)[k] in multiset(ss);
    i :| 0 <= i < |ss| && ss[i] == SortedSchedules(ss)[k];
  }

  /** A day opened with a pattern's ranges has the pattern's key. */
  lemma OpenedWithPattern(ss: seq<Schedule>, j: nat, s: Schedule)
    requires j < |PatternsOf(ss)|
    requires s.isOpen && s.scheduleRanges == PatternsOf(ss)[j].ranges
    ensures Grouped(s) && PatternKey(s) == PatternsOf(ss)[j].patternKey
  {
    var p := PatternsOf(ss)[j];
    PatternRanges(ss, j);
    var i :| 0 <= i < |ss| && Grouped(ss[i]) && PatternKey(ss[i]) == p.patternKey
             && p.ranges == SortedRanges(ss[i].scheduleRanges);
    TimesLeOrder();
    SortSorted(Normalize(ss[i].scheduleRanges), TimesLe);
    SortOfSorted(p.patternKey, TimesLe);
  }

  /**
   * Checking a day for a pattern: after the re-grouping the day is listed under a pattern with
   * that key, and the other days are untouched.
   */
  lemma ToggleOnJoinsPattern(ss: seq<Schedule>, j: nat, i: nat)
    requires j < |PatternsOf(SortedSchedules(ss))| && i < |ss|
    ensures var p := PatternsOf(SortedSchedules(ss))[j];
      var r := DayToggle(ss, p, ss[i].dayOfWeek, true);
      && (exists q :: q in PatternsOf(SortedSchedules(r)) && q.patternKey == p.patternKey && ss[i].dayOfWeek in q.days)
      && (forall k :: 0 <= k < |ss| && ss[k].dayOfWeek != ss[i].dayOfWeek ==> r[k] == ss[k])
  {
    var p := PatternsOf(SortedSchedules(ss))[j];
    var r := DayToggle(ss, p, ss[i].dayOfWeek, true);
    OpenedWithPattern(SortedSchedules(ss), j, r[i]);
    GroupedDayListed(r, i);
  }

  /** A grouped schedule's day is listed, after sorting the week, under the pattern of its key. */
  lemma GroupedDayListed(ss: seq<Schedule>, i: nat)
    requires i < |ss| && Grouped(ss[i])
    ensures exists q :: q in PatternsOf(SortedSchedules(ss)) && q.patternKey == PatternKey(ss[i]) && ss[i].dayOfWeek in q.days
  {
    var k := InSortedSchedules(ss, i);
    EachOpenDayInOnePattern(SortedSchedules(ss), k);
    var qs := PatternsOf(SortedSchedules(ss));
    var g :| 0 <= g < |qs| && qs[g].patternKey == PatternKey(ss[i]) && ss[i].dayOfWeek in qs[g].days;
    assert qs[g] in qs;
  }

  /** Unchecking a day: after the re-grouping no pattern lists it, and the other days are untouched. */
  lemma ToggleOffLeavesPatterns(ss: seq<Schedule>, p: Pattern, d: string)
    ensures var r := DayToggle(ss, p, d, false);
      && (forall q :: q in PatternsOf(SortedSchedules(r)) ==> d !in q.days)
      && (forall k :: 0 <= k < |ss| && ss[k].dayOfWeek != d ==> r[k] == ss[k])
  {
    var qs := PatternsOf(SortedSchedules(DayToggle(ss, p, d, false)));
    forall q | q in qs ensures d !in q.days {
      var g :| 0 <= g < |qs| && qs[g] == q;
      ToggledOffNotListed(ss, p, d, g);
    }
  }

  /** No pattern lists a day that was just unchecked. */
  lemma ToggledOffNotListed(ss: seq<Schedule>, p: Pattern, d: string, g: nat)
    requires g < |PatternsOf(SortedSchedules(DayToggle(ss, p, d, false)))|
    ensures d !in PatternsOf(SortedSchedules(DayToggle(ss, p, d, false)))[g].days
  {
    var r := DayToggle(ss, p, d, false);
    PatternDays(SortedSchedules(r), g, d);
    if d in PatternsOf(SortedSchedules(r))[g].days {
      var k :| 0 <= k < |SortedSchedules(r)| && Grouped(SortedSchedules(r)[k]) && SortedSchedules(r)[k].dayOfWeek == d;
      var i := FromSortedSchedules(r, k);
      assert false;
    }
  }

  /** The range `handlePatternAddRange` and `handleAddNewPattern` create; `Date.now()` is passed in. */
  function NewRange(now: int): Range {
    Range(now, "", "09:00", "17:00")
  }

  /** The schedules a pattern handler edits: open days listed under the pattern. */
  predicate InPattern(p: Pattern, s: Schedule) {
    s.dayOfWeek in p.days && s.isOpen
  }

  /** `handlePatternAddRange`: a new 09:00-17:00 range at the end of every schedule in the pattern. */
  function AddRange(schedules: seq<Schedule>, pattern: Pattern, now: int): (r: seq<Schedule>)
    ensures |r| == |schedules|
  {
    seq(|schedules|, i requires 0 <= i < |schedules| =>
      var s := schedules[i];
      if InPattern(pattern, s) then s.(scheduleRanges := s.scheduleRanges + [NewRange(now)]) else s)
  }

  lemma NormalizeAppend(rs: seq<Range>, x: Range)
    ensures Normalize(rs + [x]) == Normalize(rs) + [TimesOf(x)]
  {
  }

  lemma AppendedTimes(rs: seq<Range>, now: int)
    ensures multiset(Normalize(rs + [NewRange(now)])) == multiset(Normalize(rs)) + multiset{("09:00", "17:00")}
  {
    TrimNoOp("09:00");
    TrimNoOp("17:00");
    NormalizeAppend(rs, NewRange(now));
  }

  /**
   * Adding a range: every edited day gains the times 09:00-17:00 once, so two edited days that
   * shared a key still share one afterwards; the other schedules are untouched.
   */
  lemma AddRangeKeepsPatternTogether(ss: seq<Schedule>, p: Pattern, now: int, a: nat, b: nat)
    requires a < |ss| && b < |ss|
    requires InPattern(p, ss[a]) && InPattern(p, ss[b]) && PatternKey(ss[a]) == PatternKey(ss[b])
    ensures var r := AddRange(ss, p, now);
      && multiset(Normalize(r[a].scheduleRanges)) == multiset(Normalize(ss[a].scheduleRanges)) + multiset{("09:00", "17:00")}
      && PatternKey(r[a]) == PatternKey(r[b])
      && (forall k :: 0 <= k < |ss| && !InPattern(p, ss[k]) ==> r[k] == ss[k])
  {
    var r := AddRange(ss, p, now);
    assert r[a].scheduleRanges == ss[a].scheduleRanges + [NewRange(now)];
    assert r[b].scheduleRanges == ss[b].scheduleRanges + [NewRange(now)];
    AppendedTimes(ss[a].scheduleRanges, now);
    KeyOfAppend(ss[a].scheduleRanges, ss[b].scheduleRanges, NewRange(now));
  }

  /** Ranges with the same key still share one after the same range is added to both. */
  lemma KeyOfAppend(rs1: seq<Range>, rs2: seq<Range>, x: Range)
    requires KeyOf(rs1) == KeyOf(rs2)
    ensures KeyOf(rs1 + [x]) == KeyOf(rs2 + [x])
  {
    TimesLeOrder();
    SortUnique(Normalize(rs1), Normalize(rs2), TimesLe);
    NormalizeAppend(rs1, x);
    NormalizeAppend(rs2, x);
    SortUnique(Normalize(rs1 + [x]), Normalize(rs2 + [x]), TimesLe);
  }

  /** `sortedSchedules.find(s => !s.isOpen)`, as an index. */
  function FirstClosed(ss: seq<Schedule>): (r: Option<nat>)
    ensures r.Some? ==> r.value < |ss| && !ss[r.value].isOpen && forall k :: 0 <= k < r.value ==> ss[k].isOpen
    ensures r.None? ==> forall k :: 0 <= k < |ss| ==> ss[k].isOpen
  {
    if ss == [] then None
    else if !ss[0].isOpen then Some(0)
    else match FirstClosed(ss[1..])
      case None => None
      case Some(k) => Some(k + 1)
  }

  /**
   * `handleAddNewPattern`: the first closed day in week order is opened with the single range
   * 09:00-17:00; with no closed day nothing changes.
   */
  function AddNewPattern(schedules: seq<Schedule>, now: int): seq<Schedule> {
    var sorted := SortedSchedules(schedules);
    match FirstClosed(sorted)
    case None => schedules
    case Some(k) =>
      seq(|schedules|, i requires 0 <= i < |schedules| =>
        var s := schedules[i];
        if s.dayOfWeek == sorted[k].dayOfWeek then s.(isOpen := true, scheduleRanges := [NewRange(now)]) else s)
  }

  /**
   * With every day open nothing changes; otherwise there is a closed day that no other closed
   * day precedes in week order, and exactly the schedules of that day are opened with one
   * 09:00-17:00 range.
   */
  lemma AddNewPatternOpensFirstClosed(ss: seq<Schedule>, now: int)
    ensures var r := AddNewPattern(ss, now);
      && ((forall i :: 0 <= i < |ss| ==> ss[i].isOpen) ==> r == ss)
      && ((exists i :: 0 <= i < |ss| && !ss[i].isOpen) ==>
            exists c :: 0 <= c < |ss| && !ss[c].isOpen
              && (forall i :: 0 <= i < |ss| && !ss[i].isOpen ==> DayIndex(ss[c].dayOfWeek) <= DayIndex(ss[i].dayOfWeek))
              && |r| == |ss|
              && (forall i :: 0 <= i < |ss| ==>
                    r[i] == if ss[i].dayOfWeek == ss[c].dayOfWeek
                            then ss[i].(isOpen := true, scheduleRanges := [NewRange(now)]) else ss[i]))
  {
    match FirstClosed(SortedSchedules(ss))
    case None =>
      AllOpenUnchanged(ss, now);
    case Some(k) =>
      var c := FirstClosedDay(ss, k);
      OpensDay(ss, now, k, c);
  }

  /** With no closed day in week order every day is open and nothing changes. */
  lemma AllOpenUnchanged(ss: seq<Schedule>, now: int)
    requires FirstClosed(SortedSchedules(ss)).None?
    ensures forall i :: 0 <= i < |ss| ==> ss[i].isOpen
    ensures AddNewPattern(ss, now) == ss
  {
    forall i | 0 <= i < |ss| ensures ss[i].isOpen {
      var k := InSortedSchedules(ss, i);
    }
  }

  /** The first closed day in week order is a closed schedule no other closed day precedes. */
  lemma FirstClosedDay(ss: seq<Schedule>, k: nat) returns (c: nat)
    requires FirstClosed(SortedSchedules(ss)) == Some(k)
    ensures c < |ss| && ss[c] == SortedSchedules(ss)[k] && !ss[c].isOpen
    ensures forall i :: 0 <= i < |ss| && !ss[i].isOpen ==> DayIndex(ss[c].dayOfWeek) <= DayIndex(ss[i].dayOfWeek)
  {
    SortedSchedulesOrder(ss);
    c := FromSortedSchedules(ss, k);
    forall i | 0 <= i < |ss| && !ss[i].isOpen ensures DayIndex(ss[c].dayOfWeek) <= DayIndex(ss[i].dayOfWeek) {
      var m := InSortedSchedules(ss, i);
    }
  }

  /** The schedules of the first closed day are opened with one new range, the others kept. */
  lemma OpensDay(ss: seq<Schedule>, now: int, k: nat, c: nat)
    requires FirstClosed(SortedSchedules(ss)) == Some(k)
    requires c < |ss| && ss[c] == SortedSchedules(ss)[k]
    ensures var r := AddNewPattern(ss, now);
      && |r| == |ss|
      && (forall i :: 0 <= i < |ss| ==>
            r[i] == if ss[i].dayOfWeek == ss[c].dayOfWeek
                    then ss[i].(isOpen := true, scheduleRanges := [NewRange(now)]) else ss[i])
  {
  }

  /** The two fields a range row edits. */
  datatype Field = StartTime | EndTime

  function SetField(r: Range, field: Field, value: string): Range {
    match field
    case StartTime => r.(startTime := value)
    case EndTime => r.(endTime := value)
  }

  /** `updatedRanges[rangeIndex] = { ...updatedRanges[rangeIndex], [field]: value }`, on an existing range. */
  function EditAt(rs: seq<Range>, rangeIndex: nat, field: Field, value: string): (r: seq<Range>)
    ensures |r| == |rs|
  {
    if rangeIndex < |rs| then rs[rangeIndex := SetField(rs[rangeIndex], field, value)] else rs
  }

  /** `filter((_, index) => index !== rangeIndex)`. */
  function RemoveAt(rs: seq<Range>, rangeIndex: nat): (r: seq<Range>)
    ensures rangeIndex < |rs| ==> |r| == |rs| - 1 && multiset(r) == multiset(rs) - multiset{rs[rangeIndex]}
    ensures rangeIndex >= |rs| ==> r == rs
  {
    if rangeIndex < |rs| then
      assert rs == rs[..rangeIndex] + [rs[rangeIndex]] + rs[rangeIndex + 1..];
      rs[..rangeIndex] + rs[rangeIndex + 1..]
    else rs
  }

  /**
   * `handlePatternRangeChange` as written: the row index, taken from the pattern's sorted
   * ranges, is applied to each day's ranges in their stored order.
   */
  function RangeChangeAsWritten(schedules: seq<Schedule>, pattern: Pattern, rangeIndex: nat, field: Field, value: string): (r: seq<Schedule>)
    ensures |r| == |schedules|
  {
    seq(|schedules|, i requires 0 <= i < |schedules| =>
      var s := schedules[i];
      if InPattern(pattern, s) then s.(scheduleRanges := EditAt(s.scheduleRanges, rangeIndex, field, value)) else s)
  }

  /** `handlePatternDeleteRange` as written, with the same mismatch of orders. */
  function DeleteRangeAsWritten(schedules: seq<Schedule>, pattern: Pattern, rangeIndex: nat): (r: seq<Schedule>)
    ensures |r| == |schedules|
  {
    seq(|schedules|, i requires 0 <= i < |schedules| =>
      var s := schedules[i];
      if InPattern(pattern, s) then s.(scheduleRanges := RemoveAt(s.scheduleRanges, rangeIndex)) else s)
  }

  /** `handlePatternRangeChange` with the row index applied to each day's ranges in the order the rows show them. */
  function RangeChange(schedules: seq<Schedule>, pattern: Pattern, rangeIndex: nat, field: Field, value: string): (r: seq<Schedule>)
    ensures |r| == |schedules|
  {
    seq(|schedules|, i requires 0 <= i < |schedules| =>
      var s := schedules[i];
      if InPattern(pattern, s) then s.(scheduleRanges := EditAt(SortedRanges(s.scheduleRanges), rangeIndex, field, value)) else s)
  }

  /** `handlePatternDeleteRange` with the row index applied in the order the rows show them. */
  function DeleteRange(schedules: seq<Schedule>, pattern: Pattern, rangeIndex: nat): (r: seq<Schedule>)
    ensures |r| == |schedules|
  {
    seq(|schedules|, i requires 0 <= i < |schedules| =>
      var s := schedules[i];
      if InPattern(pattern, s) then s.(scheduleRanges := RemoveAt(SortedRanges(s.scheduleRanges), rangeIndex)) else s)
  }

  /** The times of a range after one field is set. */
  function SetTimes(t: Times, field: Field, value: string): Times {
    match field
    case StartTime => (Trim(value), t.1)
    case EndTime => (t.0, Trim(value))
  }

  lemma NormalizeEditAt(rs: seq<Range>, k: nat, field: Field, value: string)
    ensures Normalize(EditAt(rs, k, field, value))
         == if k < |rs| then Normalize(rs)[k := SetTimes(Normalize(rs)[k], field, value)] else Normalize(rs)
  {
    if k < |rs| {
      var e := rs[k := SetField(rs[k], field, value)];
      var n := Normalize(rs);
      var t := n[k := SetTimes(n[k], field, value)];
      forall m | 0 <= m < |rs| ensures Normalize(e)[m] == t[m] {
        assert Normalize(e)[m] == TimesOf(e[m]) && n[m] == TimesOf(rs[m]);
        if m == k {
          match field
          case StartTime =>
          case EndTime =>
        }
      }
    }
  }

  lemma NormalizeRemoveAt(rs: seq<Range>, k: nat)
    ensures Normalize(RemoveAt(rs, k))
         == if k < |rs| then Normalize(rs)[..k] + Normalize(rs)[k + 1..] else Normalize(rs)
  {
  }

  /** A day's ranges in the order the rows show them have the times of its key. */
  lemma SortedRangesTimes(s: Schedule)
    ensures Normalize(SortedRanges(s.scheduleRanges)) == PatternKey(s)
  {
    NormalizeSortedRanges(s.scheduleRanges);
  }

  /** Two schedules with one key whose ranges are shown in order have the same times at every row. */
  lemma SameKeySameRows(s1: Schedule, s2: Schedule)
    requires PatternKey(s1) == PatternKey(s2)
    ensures Normalize(SortedRanges(s1.scheduleRanges)) == Normalize(SortedRanges(s2.scheduleRanges))
  {
    SortedRangesTimes(s1);
    SortedRangesTimes(s2);
  }

  /** Editing a row: two edited days that shared a key share one afterwards. */
  lemma RangeChangeKeepsPatternTogether(ss: seq<Schedule>, p: Pattern, rangeIndex: nat, field: Field, value: string, a: nat, b: nat)
    requires a < |ss| && b < |ss|
    requires InPattern(p, ss[a]) && InPattern(p, ss[b]) && PatternKey(ss[a]) == PatternKey(ss[b])
    ensures var r := RangeChange(ss, p, rangeIndex, field, value);
      PatternKey(r[a]) == PatternKey(r[b])
  {
    var r := RangeChange(ss, p, rangeIndex, field, value);
    SameKeySameRows(ss[a], ss[b]);
    NormalizeEditAt(SortedRanges(ss[a].scheduleRanges), rangeIndex, field, value);
    NormalizeEditAt(SortedRanges(ss[b].scheduleRanges), rangeIndex, field, value);
    assert Normalize(r[a].scheduleRanges) == Normalize(r[b].scheduleRanges);
  }

  /** Deleting a row: two edited days that shared a key share one afterwards. */
  lemma DeleteRangeKeepsPatternTogether(ss: seq<Schedule>, p: Pattern, rangeIndex: nat, a: nat, b: nat)
    requires a < |ss| && b < |ss|
    requires InPattern(p, ss[a]) && InPattern(p, ss[b]) && PatternKey(ss[a]) == PatternKey(ss[b])
    ensures var r := DeleteRange(ss, p, rangeIndex);
      PatternKey(r[a]) == PatternKey(r[b])
  {
    var r := DeleteRange(ss, p, rangeIndex);
    SameKeySameRows(ss[a], ss[b]);
    NormalizeRemoveAt(SortedRanges(ss[a].scheduleRanges), rangeIndex);
    NormalizeRemoveAt(SortedRanges(ss[b].scheduleRanges), rangeIndex);
    assert Normalize(r[a].scheduleRanges) == Normalize(r[b].scheduleRanges);
  }

  /** No two schedules are for the same day. */
  predicate UniqueDays(ss: seq<Schedule>) {
    forall a, b :: 0 <= a < |ss| && 0 <= b < |ss| && ss[a].dayOfWeek == ss[b].dayOfWeek ==> a == b
  }

  /** With one schedule per day, a schedule a pattern handler edits has the pattern's key. */
  lemma EditedDayHasKey(ss: seq<Schedule>, j: nat, i: nat)
    requires UniqueDays(ss) && j < |PatternsOf(SortedSchedules(ss))| && i < |ss|
    requires InPattern(PatternsOf(SortedSchedules(ss))[j], ss[i])
    ensures PatternKey(ss[i]) == PatternsOf(SortedSchedules(ss))[j].patternKey
  {
    var sorted := SortedSchedules(ss);
    PatternDays(sorted, j, ss[i].dayOfWeek);
    var k :| 0 <= k < |sorted| && Grouped(sorted[k]) && PatternKey(sorted[k]) == PatternsOf(sorted)[j].patternKey
             && sorted[k].dayOfWeek == ss[i].dayOfWeek;
    var i' := FromSortedSchedules(ss, k);
  }

  /**
   * Editing row `rangeIndex` of a pattern changes, in each edited day, the range shown on that
   * row: it has the row's times, and every other range of the day is kept.
   */
  lemma RangeChangeEditsShownRow(ss: seq<Schedule>, j: nat, i: nat, rangeIndex: nat, field: Field, value: string)
    requires UniqueDays(ss) && j < |PatternsOf(SortedSchedules(ss))| && i < |ss|
    requires InPattern(PatternsOf(SortedSchedules(ss))[j], ss[i])
    requires rangeIndex < |PatternsOf(SortedSchedules(ss))[j].ranges|
    ensures var p := PatternsOf(SortedSchedules(ss))[j];
      var shown := SortedRanges(ss[i].scheduleRanges);
      && rangeIndex < |shown|
      && TimesOf(shown[rangeIndex]) == TimesOf(p.ranges[rangeIndex])
      && multiset(shown) == multiset(ss[i].scheduleRanges)
      && RangeChange(ss, p, rangeIndex, field, value)[i].scheduleRanges
         == shown[rangeIndex := SetField(shown[rangeIndex], field, value)]
  {
    ShownRow(ss, j, i, rangeIndex);
  }

  /**
   * Deleting row `rangeIndex` of a pattern removes, from each edited day, the range shown on
   * that row, which has the row's times, and keeps the others in order.
   */
  lemma DeleteRangeRemovesShownRow(ss: seq<Schedule>, j: nat, i: nat, rangeIndex: nat)
    requires UniqueDays(ss) && j < |PatternsOf(SortedSchedules(ss))| && i < |ss|
    requires InPattern(PatternsOf(SortedSchedules(ss))[j], ss[i])
    requires rangeIndex < |PatternsOf(SortedSchedules(ss))[j].ranges|
    ensures var p := PatternsOf(SortedSchedules(ss))[j];
      var shown := SortedRanges(ss[i].scheduleRanges);
      && rangeIndex < |shown|
      && TimesOf(shown[rangeIndex]) == TimesOf(p.ranges[rangeIndex])
      && DeleteRange(ss, p, rangeIndex)[i].scheduleRanges == shown[..rangeIndex] + shown[rangeIndex + 1..]
      && multiset(DeleteRange(ss, p, rangeIndex)[i].scheduleRanges) == multiset(ss[i].scheduleRanges) - multiset{shown[rangeIndex]}
  {
    ShownRow(ss, j, i, rangeIndex);
  }

  /** The range an edited day shows on a pattern's row has that row's times. */
  lemma ShownRow(ss: seq<Schedule>, j: nat, i: nat, rangeIndex: nat)
    requires UniqueDays(ss) && j < |PatternsOf(SortedSchedules(ss))| && i < |ss|
    requires InPattern(PatternsOf(SortedSchedules(ss))[j], ss[i])
    requires rangeIndex < |PatternsOf(SortedSchedules(ss))[j].ranges|
    ensures var shown := SortedRanges(ss[i].scheduleRanges);
      && rangeIndex < |shown|
      && TimesOf(shown[rangeIndex]) == TimesOf(PatternsOf(SortedSchedules(ss))[j].ranges[rangeIndex])
      && multiset(shown) == multiset(ss[i].scheduleRanges)
  {
    var p := PatternsOf(SortedSchedules(ss))[j];
    EditedDayHasKey(ss, j, i);
    PatternRanges(SortedSchedules(ss), j);
    SortedRangesTimes(ss[i]);
    var shown := SortedRanges(ss[i].scheduleRanges);
    assert Normalize(shown) == Normalize(p.ranges);
    assert Normalize(shown)[rangeIndex] == TimesOf(shown[rangeIndex]);
  }

  /* A Monday and a Tuesday with the same two ranges, stored in opposite orders. */
  const Afternoon: Range := Range(1, "", "13:00", "16:00")
  const Evening: Range := Range(2, "", "20:00", "23:00")
  lemma AfternoonTimes()
    ensures TimesOf(Afternoon) == ("13:00", "16:00")
  {
    TrimNoOp("13:00");
    TrimNoOp("16:00");
  }
  lemma EveningTimes()
    ensures TimesOf(Evening) == ("20:00", "23:00")
  {
    TrimNoOp("20:00");
    TrimNoOp("23:00");
  }
  /** The afternoon range is shown before the evening range. */
  lemma SampleOrder()
    ensures RangeLe(Afternoon, Evening) && !RangeLe(Evening, Afternoon)
  {
    AfternoonTimes();
    EveningTimes();
    var a, e := "13:00", "20:00";
    assert a[0] == '1' && e[0] == '2';
    assert StringLe(a, e) && !StringLe(e, a);
  }

  const MondayTuesday: seq<Schedule> :=
    [Schedule("monday", true, [Evening, Afternoon]), Schedule("tuesday", true, [Afternoon, Evening])]

  /** Both days show the afternoon range on row 0. */
  lemma SampleSorted()
    ensures SortedRanges([Evening, Afternoon]) == [Afternoon, Evening]
    ensures SortedRanges([Afternoon, Evening]) == [Afternoon, Evening]
  {
    SampleSortedEveningFirst();
    SampleSortedAfternoonFirst();
  }

  lemma SampleSortedEveningFirst()
    ensures SortedRanges([Evening, Afternoon]) == [Afternoon, Evening]
  {
    SampleOrder();
    SortTwo(Evening, Afternoon, RangeLe);
  }

  lemma SampleSortedAfternoonFirst()
    ensures SortedRanges([Afternoon, Evening]) == [Afternoon, Evening]
  {
    SampleOrder();
    SortTwo(Afternoon, Evening, RangeLe);
  }

  /** The two days share a key, so one pattern lists them both. */
  lemma SampleKeys()
    ensures PatternKey(MondayTuesday[0]) == PatternKey(MondayTuesday[1])
  {
    SampleSorted();
    SortedRangesTimes(MondayTuesday[0]);
    SortedRangesTimes(MondayTuesday[1]);
  }

  /**
   * As written, setting row 0's start to 12:00 changes Monday's evening range (its first
   * stored range) and Tuesday's afternoon range: the days no longer share a key.
   */
  lemma RangeChangeAsWrittenEditsOtherRange(p: Pattern)
    requires p.days == ["monday", "tuesday"]
    ensures var r := RangeChangeAsWritten(MondayTuesday, p, 0, StartTime, "12:00");
      && r[0].scheduleRanges == [Evening.(startTime := "12:00"), Afternoon]
      && r[1].scheduleRanges == [Afternoon.(startTime := "12:00"), Evening]
      && PatternKey(r[0]) != PatternKey(r[1])
  {
    assert InPattern(p, MondayTuesday[0]) && InPattern(p, MondayTuesday[1]);
    RangeChangeAsWrittenAt(MondayTuesday, p, 0, StartTime, "12:00", 0);
    RangeChangeAsWrittenAt(MondayTuesday, p, 0, StartTime, "12:00", 1);
    EditFirstStart(Evening, Afternoon, "12:00");
    EditFirstStart(Afternoon, Evening, "12:00");
    EditedKeysDiffer();
  }

  /** As written, a schedule in the pattern gets its stored ranges with the row edited. */
  lemma RangeChangeAsWrittenAt(schedules: seq<Schedule>, p: Pattern, rangeIndex: nat, field: Field, value: string, i: nat)
    requires i < |schedules| && InPattern(p, schedules[i])
    ensures RangeChangeAsWritten(schedules, p, rangeIndex, field, value)[i].scheduleRanges
      == EditAt(schedules[i].scheduleRanges, rangeIndex, field, value)
  {
  }

  /** Moving the evening or the afternoon start to 12:00 gives days with different keys. */
  lemma EditedKeysDiffer()
    ensures KeyOf([Evening.(startTime := "12:00"), Afternoon]) != KeyOf([Afternoon.(startTime := "12:00"), Evening])
  {
    EditedTimes();
    var n0 := Normalize([Evening.(startTime := "12:00"), Afternoon]);
    var n1 := Normalize([Afternoon.(startTime := "12:00"), Evening]);
    assert n0 == [TimesOf(Evening.(startTime := "12:00")), TimesOf(Afternoon)];
    assert n1 == [TimesOf(Afternoon.(startTime := "12:00")), TimesOf(Evening)];
    assert ("12:00", "16:00") !in multiset(n0);
    assert ("12:00", "16:00") in multiset(n1);
  }

  lemma EditedTimes()
    ensures TimesOf(Evening.(startTime := "12:00")) == ("12:00", "23:00")
    ensures TimesOf(Afternoon.(startTime := "12:00")) == ("12:00", "16:00")
    ensures TimesOf(Afternoon) == ("13:00", "16:00") && TimesOf(Evening) == ("20:00", "23:00")
  {
    TrimNoOp("12:00");
    AfternoonTimes();
    EveningTimes();
    TimesWithStart(Evening, "12:00");
    TimesWithStart(Afternoon, "12:00");
  }

  lemma TimesWithStart(r: Range, v: string)
    requires Trim(v) == v
    ensures TimesOf(r.(startTime := v)) == (v, TimesOf(r).1)
  {
  }

  /** Corrected, the same edit changes the afternoon range of both days. */
  lemma RangeChangeEditsAfternoon(p: Pattern)
    requires p.days == ["monday", "tuesday"]
    ensures var r := RangeChange(MondayTuesday, p, 0, StartTime, "12:00");
      && r[0].scheduleRanges == [Afternoon.(startTime := "12:00"), Evening]
      && r[1].scheduleRanges == [Afternoon.(startTime := "12:00"), Evening]
  {
    SampleSorted();
    assert InPattern(p, MondayTuesday[0]) && InPattern(p, MondayTuesday[1]);
    RangeChangeAt(MondayTuesday, p, 0, StartTime, "12:00", 0);
    RangeChangeAt(MondayTuesday, p, 0, StartTime, "12:00", 1);
    EditFirstStart(Afternoon, Evening, "12:00");
  }

  /** A schedule in the pattern gets its sorted ranges with the row edited. */
  lemma RangeChangeAt(schedules: seq<Schedule>, p: Pattern, rangeIndex: nat, field: Field, value: string, i: nat)
    requires i < |schedules| && InPattern(p, schedules[i])
    ensures RangeChange(schedules, p, rangeIndex, field, value)[i].scheduleRanges
      == EditAt(SortedRanges(schedules[i].scheduleRanges), rangeIndex, field, value)
  {
  }

  lemma EditFirstStart(a: Range, b: Range, value: string)
    ensures EditAt([a, b], 0, StartTime, value) == [a.(startTime := value), b]
  {
  }

  /**
   * As written, deleting row 0 (the afternoon range) removes Monday's evening range and
   * Tuesday's afternoon range: the days no longer share a key.
   */
  lemma DeleteRangeAsWrittenRemovesOtherRange(p: Pattern)
    requires p.days == ["monday", "tuesday"]
    ensures var r := DeleteRangeAsWritten(MondayTuesday, p, 0);
      && r[0].scheduleRanges == [Afternoon]
      && r[1].scheduleRanges == [Evening]
      && PatternKey(r[0]) != PatternKey(r[1])
  {
    var r := DeleteRangeAsWritten(MondayTuesday, p, 0);
    assert InPattern(p, MondayTuesday[0]) && InPattern(p, MondayTuesday[1]);
    assert r[0].scheduleRanges == [Afternoon];
    assert r[1].scheduleRanges == [Evening];
    SingleKeysDiffer();
  }

  lemma SingleKeysDiffer()
    ensures KeyOf([Afternoon]) != KeyOf([Evening])
  {
    EditedTimes();
    var n0 := Normalize([Afternoon]);
    var n1 := Normalize([Evening]);
    assert n0 == [TimesOf(Afternoon)] && n1 == [TimesOf(Evening)];
    assert TimesOf(Afternoon) in multiset(n0);
    assert TimesOf(Afternoon) !in multiset(n1);
  }

  /** Corrected, the same deletion removes the afternoon range from both days. */
  lemma DeleteRangeRemovesAfternoon(p: Pattern)
    requires p.days == ["monday", "tuesday"]
    ensures var r := DeleteRange(MondayTuesday, p, 0);
      r[0].scheduleRanges == [Evening] && r[1].scheduleRanges == [Evening]
  {
    SampleSorted();
    assert InPattern(p, MondayTuesday[0]) && InPattern(p, MondayTuesday[1]);
  }
}
