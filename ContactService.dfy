/**
 * The opening-hours rules of the site's contact service (src/services/ContactService.js),
 * which reads the static contact data: one lunch window and one dinner window shared by
 * every day, and for each day of the week whether the restaurant opens and for which meals.
 *
 * The clock is not read: the day of the week (0 is Sunday) and the minutes since
 * midnight are parameters. A time that is not a number (NaN) is `None`, and every
 * comparison with it is false, as in JavaScript.
 */
module ContactService {
  import opened Wrappers
  import opened Strings
  import opened Numbers
  import ContactRepository

  /** A meal's window as the contact data writes it, "HH:MM" to "HH:MM". */
  datatype Window = Window(start: string, end: string)

  /** One day of `hours.schedule`. */
  datatype DayFlags = DayFlags(open: bool, lunch: bool, dinner: bool)

  /** `contactData.hours`: the two windows and the schedule keyed by lower-case English day name. */
  datatype Hours = Hours(lunch: Window, dinner: Window, schedule: map<string, DayFlags>)

  datatype Meal = Lunch | Dinner

  /** Every day of the week has an entry; the service reads `.open` of each without a check. */
  predicate Complete(h: Hours) {
    forall d :: 0 <= d < 7 ==> ContactRepository.DayNames[d] in h.schedule
  }

  function Flags(h: Hours, day: nat): DayFlags
    requires Complete(h) && day < 7
  {
    h.schedule[ContactRepository.DayNames[day]]
  }

  function WindowOf(h: Hours, meal: Meal): Window {
    if meal == Lunch then h.lunch else h.dinner
  }

  function Serves(f: DayFlags, meal: Meal): bool {
    if meal == Lunch then f.lunch else f.dinner
  }

  // ---------------------------------------------------------------------------
  // timeToMinutes
  // ---------------------------------------------------------------------------

  /**
   * `timeToMinutes(time)`: the part before the first ':' times 60 plus the part after it,
   * each read with `Number`; a missing minute part is NaN.
   */
  function TimeToMinutes(time: string): Option<real> {
    var parts := Split(time, ':');
    Minutes(ToNumber(parts[0]), if |parts| > 1 then ToNumber(parts[1]) else None)
  }

  /** `hours * 60 + minutes`, NaN when either is. */
  function Minutes(hours: Option<real>, minutes: Option<real>): Option<real> {
    if hours.Some? && minutes.Some? then Some(hours.value * 60.0 + minutes.value) else None
  }

  /**
   * A time "a:b" is the hours `Number(a)` and the minutes `Number(b)`; `Minutes` makes it
   * NaN when either part is not a number.
   */
  lemma TimeOfParts(a: string, b: string)
    requires ':' !in a && ':' !in b
    ensures TimeToMinutes(a + ":" + b) == Minutes(ToNumber(a), ToNumber(b))
  {
    ContactRepository.SplitClock(a, b);
  }

  /** Without a ':' there is no minute part, and the time is NaN. */
  lemma TimeWithoutColon(time: string)
    requires ':' !in time
    ensures TimeToMinutes(time).None?
  {
  }

  /** An empty side counts as 0, since `Number("")` is 0. */
  lemma TimeOfEmptySides()
    ensures TimeToMinutes(":") == Some(0.0)
  {
    ContactRepository.SplitClock("", "");
    assert "" + ":" + "" == ":";
  }

  /** `x < t`, false when `t` is NaN. */
  predicate Before(x: int, t: Option<real>) {
    t.Some? && (x as real) < t.value
  }

  /** `x > t`, false when `t` is NaN. */
  predicate After(x: int, t: Option<real>) {
    t.Some? && (x as real) > t.value
  }

  /** `t1 <= x <= t2`, false when either bound is NaN. */
  predicate Within(x: int, t1: Option<real>, t2: Option<real>) {
    t1.Some? && t2.Some? && t1.value <= x as real <= t2.value
  }

  // ---------------------------------------------------------------------------
  // getNextOpeningData
  // ---------------------------------------------------------------------------

  /**
   * The next opening: today's (`openingToday`), another day's (`openingOn`) with the
   * day, the meal and its start time, or `checkSchedule` when no day qualifies.
   */
  datatype Opening = Opening(today: bool, day: nat, meal: Meal, time: string) | CheckSchedule

  /** The translation key of a next opening. */
  function OpeningKey(o: Opening): string {
    match o
    case CheckSchedule => "contact.status.checkSchedule"
    case Opening(today, _, _, _) => if today then "contact.status.openingToday" else "contact.status.openingOn"
  }

  /** The `day` parameter of the translation: only an opening on another day names its day. */
  function OpeningDayParam(o: Opening): Option<string>
    requires o.Opening? ==> o.day < 7
  {
    if o.Opening? && !o.today then Some("contact.days." + ContactRepository.DayNames[o.day]) else None
  }

  /**
   * What the loop finds at `i` days from `currentDay`: today, a meal whose start is
   * still ahead, lunch first; another day, its first meal, lunch first.
   */
  function DayOpening(h: Hours, currentDay: nat, currentTime: int, i: nat): (r: Option<Opening>)
    requires Complete(h) && currentDay < 7 && i < 7
    ensures r.Some? ==>
      && r.value.Opening? && r.value.day == (currentDay + i) % 7
      && (r.value.today <==> i == 0) && r.value.time == WindowOf(h, r.value.meal).start
      && Flags(h, r.value.day).open && Serves(Flags(h, r.value.day), r.value.meal)
    ensures !Flags(h, (currentDay + i) % 7).open ==> r.None?
  {
    var checkDay := (currentDay + i) % 7;
    var f := Flags(h, checkDay);
    if !f.open then None
    else if i == 0 then
      if f.lunch && Before(currentTime, TimeToMinutes(h.lunch.start)) then Some(Opening(true, checkDay, Lunch, h.lunch.start))
      else if f.dinner && Before(currentTime, TimeToMinutes(h.dinner.start)) then Some(Opening(true, checkDay, Dinner, h.dinner.start))
      else None
    else if f.lunch then Some(Opening(false, checkDay, Lunch, h.lunch.start))
    else if f.dinner then Some(Opening(false, checkDay, Dinner, h.dinner.start))
    else None
  }

  /** The first of the days `i` to 6 ahead that yields an opening. */
  function NextOpeningFrom(h: Hours, currentDay: nat, currentTime: int, i: nat): Opening
    requires Complete(h) && currentDay < 7 && i <= 7
    decreases 7 - i
  {
    if i == 7 then CheckSchedule
    else
      match DayOpening(h, currentDay, currentTime, i)
      case Some(o) => o
      case None => NextOpeningFrom(h, currentDay, currentTime, i + 1)
  }

  /** `getNextOpeningData()`: the search over the next seven days. */
  method GetNextOpeningData(h: Hours, currentDay: nat, currentTime: int) returns (o: Opening)
    requires Complete(h) && currentDay < 7
    ensures o == NextOpeningFrom(h, currentDay, currentTime, 0)
  {
    for i := 0 to 7
      invariant NextOpeningFrom(h, currentDay, currentTime, 0) == NextOpeningFrom(h, currentDay, currentTime, i)
    {
      var checkDay := (currentDay + i) % 7;
      var daySchedule := h.schedule[ContactRepository.DayNames[checkDay]];
      if !daySchedule.open {
        continue;
      }
      var lunchStart := TimeToMinutes(h.lunch.start);
      var dinnerStart := TimeToMinutes(h.dinner.start);
      if i == 0 {
        if daySchedule.lunch && Before(currentTime, lunchStart) {
          return Opening(true, checkDay, Lunch, h.lunch.start);
        }
        if daySchedule.dinner && Before(currentTime, dinnerStart) {
          return Opening(true, checkDay, Dinner, h.dinner.start);
        }
      } else {
        if daySchedule.lunch {
          return Opening(false, checkDay, Lunch, h.lunch.start);
        }
        if daySchedule.dinner {
          return Opening(false, checkDay, Dinner, h.dinner.start);
        }
      }
    }
    return CheckSchedule;
  }

  /**
   * The search from `i` on gives the opening of the first qualifying day, and
   * `checkSchedule` exactly when no day from `i` to 6 qualifies.
   */
  lemma {:induction false} NextOpeningFromMeans(h: Hours, currentDay: nat, currentTime: int, i: nat)
    requires Complete(h) && currentDay < 7 && i <= 7
    decreases 7 - i
    ensures var o := NextOpeningFrom(h, currentDay, currentTime, i);
      && (o.CheckSchedule? <==> forall k :: i <= k < 7 ==> DayOpening(h, currentDay, currentTime, k).None?)
      && (o.Opening? ==> exists k :: (i <= k < 7 && DayOpening(h, currentDay, currentTime, k) == Some(o)
            && forall j :: i <= j < k ==> DayOpening(h, currentDay, currentTime, j).None?))
  {
    if i < 7 && DayOpening(h, currentDay, currentTime, i).None? {
      NextOpeningFromMeans(h, currentDay, currentTime, i + 1);
      var o := NextOpeningFrom(h, currentDay, currentTime, i);
      if o.Opening? {
        var k :| i + 1 <= k < 7 && DayOpening(h, currentDay, currentTime, k) == Some(o)
          && forall j :: i + 1 <= j < k ==> DayOpening(h, currentDay, currentTime, j).None?;
        assert forall j :: i <= j < k ==> DayOpening(h, currentDay, currentTime, j).None?;
      }
    }
  }

  /**
   * `getNextOpeningData` returns the opening of the first day, counting from today,
   * that qualifies, and `checkSchedule` only when none of the seven does.
   */
  lemma NextOpeningMeans(h: Hours, currentDay: nat, currentTime: int)
    requires Complete(h) && currentDay < 7
    ensures var o := NextOpeningFrom(h, currentDay, currentTime, 0);
      && (o.CheckSchedule? <==> forall k :: 0 <= k < 7 ==> DayOpening(h, currentDay, currentTime, k).None?)
      && (o.Opening? ==> exists k :: (0 <= k < 7 && DayOpening(h, currentDay, currentTime, k) == Some(o)
            && forall j :: 0 <= j < k ==> DayOpening(h, currentDay, currentTime, j).None?))
  {
    NextOpeningFromMeans(h, currentDay, currentTime, 0);
  }

  /** Today: lunch while its start is still ahead, else dinner while its start is still ahead. */
  lemma NextOpeningToday(h: Hours, currentDay: nat, currentTime: int)
    requires Complete(h) && currentDay < 7
    ensures var f := Flags(h, currentDay);
      var o := NextOpeningFrom(h, currentDay, currentTime, 0);
      && (f.open && f.lunch && Before(currentTime, TimeToMinutes(h.lunch.start)) ==>
            o == Opening(true, currentDay, Lunch, h.lunch.start))
      && (f.open && !(f.lunch && Before(currentTime, TimeToMinutes(h.lunch.start)))
          && f.dinner && Before(currentTime, TimeToMinutes(h.dinner.start)) ==>
            o == Opening(true, currentDay, Dinner, h.dinner.start))
      && (o.Opening? && o.today ==> o.day == currentDay)
  {
    assert (currentDay + 0) % 7 == currentDay;
  }

  /** A later day is taken with its lunch when it serves lunch, whatever the time, and otherwise its dinner. */
  lemma LaterDayPrefersLunch(h: Hours, currentDay: nat, currentTime: int, i: nat)
    requires Complete(h) && currentDay < 7 && 0 < i < 7
    ensures var f := Flags(h, (currentDay + i) % 7);
      var r := DayOpening(h, currentDay, currentTime, i);
      && (r.Some? <==> f.open && (f.lunch || f.dinner))
      && (r.Some? ==> (r.value.meal == Lunch <==> f.lunch))
  {
  }

  // ---------------------------------------------------------------------------
  // getRestaurantStatus
  // ---------------------------------------------------------------------------

  /** The status `getRestaurantStatus` reports. */
  datatype Status =
    | ClosedToday(next: Opening)
    | ClosingSoon(minutesLeft: real)
    | Open
    | OpeningSoon(time: string)
    | Closed(next: Opening)

  function StatusKey(s: Status): string {
    match s
    case ClosedToday(_) => "contact.status.closedToday"
    case ClosingSoon(_) => "contact.status.closingSoon"
    case Open => "contact.status.open"
    case OpeningSoon(_) => "contact.status.openingSoon"
    case Closed(_) => "contact.status.nextOpening"
  }

  /** The translation key tells which status it is: two statuses share a key only when they are of the same kind. */
  lemma StatusKeyDistinguishes(a: Status, b: Status)
    ensures StatusKey(a) == StatusKey(b) <==>
      (a.ClosedToday? && b.ClosedToday?) || (a.ClosingSoon? && b.ClosingSoon?) || (a.Open? && b.Open?)
      || (a.OpeningSoon? && b.OpeningSoon?) || (a.Closed? && b.Closed?)
  {
  }

  /** Likewise the key of a next opening tells today's opening, another day's and none apart. */
  lemma OpeningKeyDistinguishes(a: Opening, b: Opening)
    ensures OpeningKey(a) == OpeningKey(b) <==>
      (a.CheckSchedule? && b.CheckSchedule?) || (a.Opening? && b.Opening? && a.today == b.today)
  {
  }

  /** Inside a meal's window, both ends included, on a day that serves it. */
  predicate InWindow(h: Hours, f: DayFlags, meal: Meal, currentTime: int) {
    Serves(f, meal) && Within(currentTime, TimeToMinutes(WindowOf(h, meal).start), TimeToMinutes(WindowOf(h, meal).end))
  }

  /** Minutes from now to a time that is a number. */
  function MinutesUntil(t: Option<real>, currentTime: int): real
    requires t.Some?
  {
    t.value - currentTime as real
  }

  /** Inside a meal's window with at most 30 minutes to its end. */
  predicate EndingSoon(h: Hours, f: DayFlags, meal: Meal, currentTime: int) {
    InWindow(h, f, meal, currentTime) && MinutesUntil(TimeToMinutes(WindowOf(h, meal).end), currentTime) <= 30.0
  }

  /** Lunch starts within the hour. */
  predicate LunchSoon(h: Hours, f: DayFlags, currentTime: int) {
    var ls := TimeToMinutes(h.lunch.start);
    f.lunch && Before(currentTime, ls) && MinutesUntil(ls, currentTime) <= 60.0
  }

  /** Dinner starts within the hour, and lunch is over. */
  predicate DinnerSoon(h: Hours, f: DayFlags, currentTime: int) {
    var ds := TimeToMinutes(h.dinner.start);
    f.dinner && After(currentTime, TimeToMinutes(h.lunch.end)) && Before(currentTime, ds)
    && MinutesUntil(ds, currentTime) <= 60.0
  }

  /**
   * `getRestaurantStatus()`: closed today when the day is closed; inside a window,
   * closing soon when a window ends within 30 minutes and open otherwise; outside them,
   * opening soon when lunch, or else dinner, starts within the hour; closed otherwise.
   * The next opening is the one `getNextOpeningData` finds at the same moment.
   */
  function RestaurantStatus(h: Hours, currentDay: nat, currentTime: int): (r: Status)
    requires Complete(h) && currentDay < 7
    ensures var f := Flags(h, currentDay);
      && (r.ClosedToday? <==> !f.open)
      && (r.ClosedToday? || r.Closed? ==> r.next == NextOpeningFrom(h, currentDay, currentTime, 0))
      && (r.Open? || r.ClosingSoon? <==> f.open && (InWindow(h, f, Lunch, currentTime) || InWindow(h, f, Dinner, currentTime)))
      && (r.ClosingSoon? <==> f.open && (EndingSoon(h, f, Lunch, currentTime) || EndingSoon(h, f, Dinner, currentTime)))
      && (r.ClosingSoon? ==> r.minutesLeft == MinutesUntil(TimeToMinutes(WindowOf(h, if InWindow(h, f, Lunch, currentTime) then Lunch else Dinner).end), currentTime))
      && (r.OpeningSoon? ==>
            (r.time == h.lunch.start && LunchSoon(h, f, currentTime))
            || (r.time == h.dinner.start && !LunchSoon(h, f, currentTime) && DinnerSoon(h, f, currentTime)))
      && (f.open && !InWindow(h, f, Lunch, currentTime) && !InWindow(h, f, Dinner, currentTime) ==>
            if LunchSoon(h, f, currentTime) then r == OpeningSoon(h.lunch.start)
            else if DinnerSoon(h, f, currentTime) then r == OpeningSoon(h.dinner.start)
            else r == Closed(NextOpeningFrom(h, currentDay, currentTime, 0)))
  {
    var f := Flags(h, currentDay);
    if !f.open then ClosedToday(NextOpeningFrom(h, currentDay, currentTime, 0))
    else
      var isLunchTime := InWindow(h, f, Lunch, currentTime);
      var isDinnerTime := InWindow(h, f, Dinner, currentTime);
      if isLunchTime || isDinnerTime then
        if EndingSoon(h, f, Lunch, currentTime) || EndingSoon(h, f, Dinner, currentTime) then
          ClosingSoon(if isLunchTime then MinutesUntil(TimeToMinutes(h.lunch.end), currentTime)
                      else MinutesUntil(TimeToMinutes(h.dinner.end), currentTime))
        else Open
      else if LunchSoon(h, f, currentTime) then OpeningSoon(h.lunch.start)
      else if DinnerSoon(h, f, currentTime) then OpeningSoon(h.dinner.start)
      else Closed(NextOpeningFrom(h, currentDay, currentTime, 0))
  }

  /**
   * With lunch over before dinner starts, "closing soon" means the window the time is
   * in ends within 30 minutes, and the minutes left are that many.
   */
  lemma ClosingSoonBound(h: Hours, currentDay: nat, currentTime: int)
    requires Complete(h) && currentDay < 7
    requires var le := TimeToMinutes(h.lunch.end); var ds := TimeToMinutes(h.dinner.start);
      le.Some? && ds.Some? && le.value < ds.value
    ensures var r := RestaurantStatus(h, currentDay, currentTime);
      r.ClosingSoon? ==> 0.0 <= r.minutesLeft <= 30.0
  {
    var f := Flags(h, currentDay);
    var r := RestaurantStatus(h, currentDay, currentTime);
    if r.ClosingSoon? {
      var meal := if InWindow(h, f, Lunch, currentTime) then Lunch else Dinner;
      if meal == Lunch {
        assert !InWindow(h, f, Dinner, currentTime);
      }
      assert EndingSoon(h, f, meal, currentTime);
      assert r.minutesLeft == MinutesUntil(TimeToMinutes(WindowOf(h, meal).end), currentTime);
      EndingSoonBound(h, f, meal, currentTime);
    }
  }

  /** A window ending soon has between 0 and 30 minutes left. */
  lemma EndingSoonBound(h: Hours, f: DayFlags, meal: Meal, currentTime: int)
    requires EndingSoon(h, f, meal, currentTime)
    ensures 0.0 <= MinutesUntil(TimeToMinutes(WindowOf(h, meal).end), currentTime) <= 30.0
  {
  }

  /**
   * More than 30 minutes left while "closing soon" happens only when the time is in
   * both windows and the dinner window is the one ending: the minutes left are then
   * counted to the end of lunch.
   */
  lemma ClosingSoonOverlap(h: Hours, currentDay: nat, currentTime: int)
    requires Complete(h) && currentDay < 7
    ensures var f := Flags(h, currentDay);
      var r := RestaurantStatus(h, currentDay, currentTime);
      r.ClosingSoon? && r.minutesLeft > 30.0 ==>
        InWindow(h, f, Lunch, currentTime) && InWindow(h, f, Dinner, currentTime)
        && EndingSoon(h, f, Dinner, currentTime) && !EndingSoon(h, f, Lunch, currentTime)
  {
  }

  /** "Opening soon" names a start that is at most an hour ahead. */
  lemma OpeningSoonBound(h: Hours, currentDay: nat, currentTime: int)
    requires Complete(h) && currentDay < 7
    ensures var r := RestaurantStatus(h, currentDay, currentTime);
      r.OpeningSoon? ==> exists meal: Meal :: (r.time == WindowOf(h, meal).start
        && var t := TimeToMinutes(WindowOf(h, meal).start);
           t.Some? && 0.0 < t.value - currentTime as real <= 60.0)
  {
    var r := RestaurantStatus(h, currentDay, currentTime);
    if r.OpeningSoon? {
      var f := Flags(h, currentDay);
      if LunchSoon(h, f, currentTime) {
        assert WindowOf(h, Lunch).start == h.lunch.start;
      } else {
        assert WindowOf(h, Dinner).start == h.dinner.start;
      }
    }
  }

  // ---------------------------------------------------------------------------
  // isOpenOnDay, getDaySchedule
  // ---------------------------------------------------------------------------

  /** `isOpenOnDay(dayOfWeek)`: the day has an entry and it is open; any other number is a closed day. */
  predicate IsOpenOnDay(h: Hours, dayOfWeek: int) {
    0 <= dayOfWeek < 7 && ContactRepository.DayNames[dayOfWeek] in h.schedule
    && h.schedule[ContactRepository.DayNames[dayOfWeek]].open
  }

  /** One served meal of a day: its type and its window. */
  datatype Slot = Slot(meal: Meal, start: string, end: string)

  function SlotOf(h: Hours, meal: Meal): Slot {
    Slot(meal, WindowOf(h, meal).start, WindowOf(h, meal).end)
  }

  /** `getDaySchedule(dayOfWeek)`: null for a closed day, else the meals it serves, lunch first. */
  function GetDaySchedule(h: Hours, dayOfWeek: int): (r: Option<seq<Slot>>)
    ensures r.None? <==> !IsOpenOnDay(h, dayOfWeek)
    ensures r.Some? ==> var f := h.schedule[ContactRepository.DayNames[dayOfWeek]];
      && (forall meal :: SlotOf(h, meal) in r.value <==> Serves(f, meal))
      && (forall k :: 0 <= k < |r.value| ==> r.value[k] == SlotOf(h, r.value[k].meal))
      && (|r.value| == 2 ==> r.value[0].meal == Lunch && r.value[1].meal == Dinner)
  {
    if !IsOpenOnDay(h, dayOfWeek) then None
    else
      var f := h.schedule[ContactRepository.DayNames[dayOfWeek]];
      var lunch := if f.lunch then [SlotOf(h, Lunch)] else [];
      var dinner := if f.dinner then [SlotOf(h, Dinner)] else [];
      Some(lunch + dinner)
  }

  // ---------------------------------------------------------------------------
  // getOpeningHoursSpecification
  // ---------------------------------------------------------------------------

  /** The day names schema.org expects. */
  const SchemaDayNames: seq<string> := ["Sunday", "Monday", "Tuesday", "Wednesday", "Thursday", "Friday", "Saturday"]

  /** One `OpeningHoursSpecification` entry. */
  datatype HoursEntry = HoursEntry(dayOfWeek: string, opens: string, closes: string)

  function EntryOf(h: Hours, day: nat, meal: Meal): HoursEntry
    requires day < 7
  {
    HoursEntry(SchemaDayNames[day], WindowOf(h, meal).start, WindowOf(h, meal).end)
  }

  /** The entries of one day: none when it is closed, else lunch then dinner as served. */
  function DayEntries(h: Hours, day: nat): seq<HoursEntry>
    requires Complete(h) && day < 7
  {
    var f := Flags(h, day);
    if !f.open then []
    else (if f.lunch then [EntryOf(h, day, Lunch)] else []) + (if f.dinner then [EntryOf(h, day, Dinner)] else [])
  }

  /** The entries of the first `n` days of the week. */
  function EntriesUpTo(h: Hours, n: nat): seq<HoursEntry>
    requires Complete(h) && n <= 7
  {
    if n == 0 then [] else EntriesUpTo(h, n - 1) + DayEntries(h, n - 1)
  }

  /** `getOpeningHoursSpecification()`: the loop over the week pushing each day's entries. */
  method GetOpeningHoursSpecification(h: Hours) returns (openingHours: seq<HoursEntry>)
    requires Complete(h)
    ensures openingHours == EntriesUpTo(h, 7)
  {
    openingHours := [];
    for index := 0 to 7
      invariant openingHours == EntriesUpTo(h, index)
    {
      var schedule := h.schedule[ContactRepository.DayNames[index]];
      if !schedule.open {
        continue;
      }
      var dayName := SchemaDayNames[index];
      if schedule.lunch {
        openingHours := openingHours + [HoursEntry(dayName, h.lunch.start, h.lunch.end)];
      }
      if schedule.dinner {
        openingHours := openingHours + [HoursEntry(dayName, h.dinner.start, h.dinner.end)];
      }
    }
  }

  /** The position of a schema.org day name in the week, 7 when it is none. */
  function SchemaDayIndex(name: string): (d: nat)
    ensures d <= 7
    ensures d < 7 ==> SchemaDayNames[d] == name
  {
    if name == "Sunday" then 0 else if name == "Monday" then 1 else if name == "Tuesday" then 2
    else if name == "Wednesday" then 3 else if name == "Thursday" then 4 else if name == "Friday" then 5
    else if name == "Saturday" then 6 else 7
  }

  /** An entry of the first `n` days: it gives the window of a meal that an open day among them serves. */
  predicate ListedAmong(h: Hours, n: nat, e: HoursEntry)
    requires Complete(h)
  {
    var d := SchemaDayIndex(e.dayOfWeek);
    d < n && d < 7 && Flags(h, d).open && exists meal :: Serves(Flags(h, d), meal) && e == EntryOf(h, d, meal)
  }

  /** Each day's entries give that day's name and the windows of the meals it serves. */
  lemma DayEntriesMeans(h: Hours, day: nat)
    requires Complete(h) && day < 7
    ensures forall e :: e in DayEntries(h, day) ==> SchemaDayIndex(e.dayOfWeek) == day && ListedAmong(h, day + 1, e)
  {
    assert SchemaDayIndex(SchemaDayNames[day]) == day;
    var f := Flags(h, day);
    forall e | e in DayEntries(h, day)
      ensures SchemaDayIndex(e.dayOfWeek) == day && ListedAmong(h, day + 1, e)
    {
      if f.lunch && e == EntryOf(h, day, Lunch) {
        assert Serves(f, Lunch);
      } else {
        assert e == EntryOf(h, day, Dinner) && Serves(f, Dinner);
      }
    }
  }

  /**
   * Every entry of the first `n` days belongs to an open day among them that serves the
   * meal whose window it gives, and the entries run from Sunday onwards.
   */
  lemma {:induction false} EntriesUpToMeans(h: Hours, n: nat)
    requires Complete(h) && n <= 7
    ensures forall k :: 0 <= k < |EntriesUpTo(h, n)| ==> ListedAmong(h, n, EntriesUpTo(h, n)[k])
    ensures forall k1, k2 :: 0 <= k1 < k2 < |EntriesUpTo(h, n)| ==>
      SchemaDayIndex(EntriesUpTo(h, n)[k1].dayOfWeek) <= SchemaDayIndex(EntriesUpTo(h, n)[k2].dayOfWeek)
  {
    if n > 0 {
      EntriesUpToMeans(h, n - 1);
      DayEntriesMeans(h, n - 1);
      var prev := EntriesUpTo(h, n - 1);
      var day := DayEntries(h, n - 1);
      var es := EntriesUpTo(h, n);
      assert es == prev + day;
      forall k | 0 <= k < |es|
        ensures ListedAmong(h, n, es[k])
        ensures k < |prev| ==> SchemaDayIndex(es[k].dayOfWeek) < n - 1
        ensures k >= |prev| ==> SchemaDayIndex(es[k].dayOfWeek) == n - 1
      {
        if k < |prev| {
          assert es[k] == prev[k];
          assert ListedAmong(h, n - 1, prev[k]);
        } else {
          assert es[k] == day[k - |prev|] && es[k] in day;
        }
      }
      forall k1, k2 | 0 <= k1 < k2 < |es|
        ensures SchemaDayIndex(es[k1].dayOfWeek) <= SchemaDayIndex(es[k2].dayOfWeek)
      {
        if k2 < |prev| {
          assert es[k1] == prev[k1] && es[k2] == prev[k2];
        }
      }
    }
  }

  /** An open day serving a meal has that meal's entry in the specification. */
  lemma OpenDayListed(h: Hours, day: nat, meal: Meal)
    requires Complete(h) && day < 7 && Flags(h, day).open && Serves(Flags(h, day), meal)
    ensures EntryOf(h, day, meal) in EntriesUpTo(h, 7)
  {
    EntriesAfter(h, day + 1, 7);
    var a := EntriesUpTo(h, day + 1);
    var f := Flags(h, day);
    var k := if meal == Lunch || !f.lunch then 0 else 1;
    assert DayEntries(h, day)[k] == EntryOf(h, day, meal);
    assert a[|EntriesUpTo(h, day)| + k] == EntryOf(h, day, meal);
    assert EntriesUpTo(h, 7)[|EntriesUpTo(h, day)| + k] == EntryOf(h, day, meal);
  }

  /** The entries of the first `m` days stay at the front as more days are added. */
  lemma {:induction false} EntriesAfter(h: Hours, m: nat, n: nat)
    requires Complete(h) && m <= n <= 7
    ensures EntriesUpTo(h, m) <= EntriesUpTo(h, n)
  {
    if m < n {
      EntriesAfter(h, m, n - 1);
      var a := EntriesUpTo(h, n - 1);
      assert EntriesUpTo(h, n) == a + DayEntries(h, n - 1);
      assert (a + DayEntries(h, n - 1))[..|a|] == a;
    }
  }
}
