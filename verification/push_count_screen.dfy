/** The push counter screen: the selected date, the loaded view of that
    date, and the calendar toggle. Pressing an hour's bar records one push
    in the current hour, but only when the selected date is today. The
    present moment is a parameter (`Now`): today's date string, the
    current hour, and the `isPastDate` comparison of a date string with
    it. */
module PushCountScreen {
  import opened Optional
  import opened KeyValueStore
  import opened PushCounts

  datatype Now = Now(today: string, hour: nat, isPastDate: string -> bool)

  /** `day` holds both `pushCountsActual` (counts) and `pushCounts`
      (percentages); `None` is a day not loaded or not readable. */
  datatype PushScreen = PushScreen(selectedDate: string, day: Option<DayView>, showCalendar: bool)

  /** `isToday`: plain equality with today's date string. */
  predicate IsToday(date: string, now: Now) {
    date == now.today
  }

  /** The condition under which a bar gets `handlePush` as its handler. */
  predicate PushEnabled(s: PushScreen, now: Now) {
    now.isPastDate(s.selectedDate) && IsToday(s.selectedDate, now)
  }

  /** Today is never in the future, so the two tests collapse into one:
      pushing is allowed exactly on today's date. */
  lemma PushGateIsToday(s: PushScreen, now: Now)
    requires now.isPastDate(now.today)
    ensures PushEnabled(s, now) <==> s.selectedDate == now.today
  {
  }

  /** The screen shows the day its selected date has in the store. */
  ghost predicate ShowsStore(s: PushScreen, store: Store) {
    LoadedFrom(store, s.selectedDate, s.day)
  }

  /** The mount effects: select today and load it. */
  method Mount(store: Store, now: Now) returns (s: PushScreen)
    ensures s.selectedDate == now.today && !s.showCalendar
    ensures ShowsStore(s, store)
    ensures CountsReadable(store) ==> s.day.Some?
  {
    var day := LoadPushCountsForDate(store, now.today);
    s := PushScreen(now.today, day, false);
    if CountsReadable(store) {
      ReadableLoads(store, now.today, day);
    }
  }

  /** `handlePush`: add one to the current hour's count, store it under
      the selected date, then reload the selected date. */
  method HandlePush(s: PushScreen, store: Store, hour: nat) returns (s': PushScreen, store': Store)
    requires hour < HoursPerDay
    requires s.day.Some? && FullDay(s.day.value.counts)
    ensures GetPushCount(store', s.selectedDate, hour) == Some(s.day.value.counts[hour] + 1)
    ensures forall d: string, h: nat {:trigger GetPushCount(store', d, h)} ::
      (d, h) != (s.selectedDate, hour) ==> GetPushCount(store', d, h) == GetPushCount(store, d, h)
    ensures forall k :: k != PushKey(s.selectedDate, hour) ==> GetItem(store', k) == GetItem(store, k)
    ensures s'.selectedDate == s.selectedDate && s'.showCalendar == s.showCalendar
    ensures ShowsStore(s', store')
    ensures ShowsStore(s, store) ==>
      s'.day.Some? && s'.day.value.counts == s.day.value.counts[hour := s.day.value.counts[hour] + 1]
    ensures ShowsStore(s, store) && CountsReadable(store) ==> CountsReadable(store')
  {
    var date := s.selectedDate;
    var counts := s.day.value.counts;
    var newPushCount := counts[hour] + 1;
    store' := StorePushCount(store, date, hour, newPushCount);
    StoreReadsBack(store, date, hour, newPushCount);
    var day := LoadPushCountsForDate(store', date);
    s' := s.(day := day);
    if ShowsStore(s, store) {
      ReloadAfterStore(store, store', date, hour, newPushCount, s.day, day);
      if CountsReadable(store) {
        ReadableLoads(store, date, s.day);
        StoreKeepsReadable(store, date, hour, newPushCount);
      }
    }
  }

  /** A press on an hour's bar (bars exist only for a loaded day): the
      push goes through only when the gate allows it. */
  method PressBar(s: PushScreen, store: Store, now: Now) returns (s': PushScreen, store': Store)
    requires now.hour < HoursPerDay
    requires s.day.Some? && FullDay(s.day.value.counts)
    ensures !PushEnabled(s, now) ==> s' == s && store' == store
    ensures store' != store ==> s.selectedDate == now.today
    ensures PushEnabled(s, now) ==>
      GetPushCount(store', now.today, now.hour) == Some(s.day.value.counts[now.hour] + 1)
    ensures forall d: string, h: nat {:trigger GetPushCount(store', d, h)} ::
      (d, h) != (now.today, now.hour) ==> GetPushCount(store', d, h) == GetPushCount(store, d, h)
    ensures forall k :: k != PushKey(now.today, now.hour) ==> GetItem(store', k) == GetItem(store, k)
  {
    if PushEnabled(s, now) {
      s', store' := HandlePush(s, store, now.hour);
    } else {
      s', store' := s, store;
    }
  }

  /** A calendar press: a date `isPastDate` accepts becomes the selected
      date and is loaded, and the calendar closes; any other press
      changes nothing. */
  method DayPress(s: PushScreen, store: Store, dateString: string, now: Now) returns (s': PushScreen)
    ensures !now.isPastDate(dateString) ==> s' == s
    ensures now.isPastDate(dateString) ==>
      s'.selectedDate == dateString && !s'.showCalendar && ShowsStore(s', store)
  {
    if now.isPastDate(dateString) {
      var day := LoadPushCountsForDate(store, dateString);
      s' := PushScreen(dateString, day, false);
    } else {
      s' := s;
    }
  }

  /** The "Show Calendar" button: flips the calendar's visibility and
      nothing else. */
  function ToggleCalendar(s: PushScreen): (r: PushScreen)
    ensures r.showCalendar != s.showCalendar
    ensures r.selectedDate == s.selectedDate && r.day == s.day
  {
    s.(showCalendar := !s.showCalendar)
  }
}
