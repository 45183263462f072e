/** The search for the next fire time of a cron expression, in a zone at a constant offset from UTC. The
    calendar is a parameter: any function from day numbers to day of month, month and weekday. */
module CronNextFire {
  import opened Wrappers

  datatype Date = Date(dom: nat, month: nat, dow: nat)

  datatype Cron = Cron(
    minutes: set<nat>, hours: set<nat>, doms: set<nat>, months: set<nat>, dows: set<nat>,
    domDowRestricted: bool)

  /** The zone: its offset from UTC in whole minutes, and its calendar. */
  datatype Zone = Zone(offset: int, calendar: int -> Date)

  const MINUTE := 60_000
  const DAY := 86_400_000

  // ---------------------------------------------------------------- wall-clock parts

  /** Minutes since the local epoch. */
  function Local(zone: Zone, t: int): int {
    t / MINUTE + zone.offset
  }

  function DayOf(zone: Zone, t: int): int {
    Local(zone, t) / 1440
  }

  function MinuteOfDay(zone: Zone, t: int): int {
    Local(zone, t) % 1440
  }

  predicate DateMatches(cron: Cron, d: Date) {
    && d.month in cron.months
    && if cron.domDowRestricted then d.dom in cron.doms || d.dow in cron.dows
       else d.dom in cron.doms && d.dow in cron.dows
  }

  predicate DayMatches(cron: Cron, zone: Zone, day: int) {
    DateMatches(cron, zone.calendar(day))
  }

  predicate Matches(cron: Cron, zone: Zone, t: int) {
    && MinuteOfDay(zone, t) % 60 in cron.minutes
    && MinuteOfDay(zone, t) / 60 in cron.hours
    && DayMatches(cron, zone, DayOf(zone, t))
  }

  /** Where the search lands after a day whose date does not match: the next local midnight, plus two
      hours of slack. */
  function JumpToNextDayStart(zone: Zone, cursor: int): int {
    var m := MinuteOfDay(zone, cursor);
    var elapsedSeconds := m / 60 * 3600 + m % 60 * 60;
    var target := cursor + DAY - elapsedSeconds * 1000 + 2 * 3600 * 1000;
    target / MINUTE * MINUTE
  }

  function Start(after: int): (from: int)
    ensures from % MINUTE == 0
  {
    after / MINUTE * MINUTE + MINUTE
  }

  /** The time of minute m of a day. */
  function At(zone: Zone, day: int, m: int): int {
    (day * 1440 + m - zone.offset) * MINUTE
  }

  lemma AtIs(zone: Zone, day: int, m: int)
    requires 0 <= m < 1440
    ensures At(zone, day, m) % MINUTE == 0
    ensures DayOf(zone, At(zone, day, m)) == day && MinuteOfDay(zone, At(zone, day, m)) == m
  {
    assert At(zone, day, m) / MINUTE == day * 1440 + m - zone.offset;
  }

  // ---------------------------------------------------------------- which minutes are due

  /** Minute m of hour h on that date is due: the month, hour and minute are listed, and so is the day of month or,
      when both day fields are restricted, the weekday instead; and likewise the other way round. */
  ghost predicate OnFields(cron: Cron, d: Date, h: nat, m: nat) {
    && m in cron.minutes && h in cron.hours && d.month in cron.months
    && (d.dom in cron.doms || (cron.domDowRestricted && d.dow in cron.dows))
    && (d.dow in cron.dows || (cron.domDowRestricted && d.dom in cron.doms))
  }

  /** Every whole minute is minute m of hour h of some day, and whether it matches is a matter of the fields. */
  lemma MatchesFields(cron: Cron, zone: Zone, day: int, h: nat, m: nat)
    requires h < 24 && m < 60
    ensures Matches(cron, zone, At(zone, day, 60 * h + m)) <==> OnFields(cron, zone.calendar(day), h, m)
  {
    AtIs(zone, day, 60 * h + m);
    hide At, DayOf, MinuteOfDay;
    assert (60 * h + m) / 60 == h && (60 * h + m) % 60 == m;
  }

  lemma EveryMinute(zone: Zone, t: int) returns (day: int, h: nat, m: nat)
    requires t % MINUTE == 0
    ensures h < 24 && m < 60 && t == At(zone, day, 60 * h + m)
  {
    day, h, m := DayOf(zone, t), MinuteOfDay(zone, t) / 60, MinuteOfDay(zone, t) % 60;
    assert Local(zone, t) == day * 1440 + (60 * h + m);
    assert t == t / MINUTE * MINUTE;
  }

  const EVERY_HOUR := set x: nat | x <= 23
  const EVERY_MONTH := set x: nat | 1 <= x <= 12
  const EVERY_DOM := set x: nat | 1 <= x <= 31
  const EVERY_DOW := set x: nat | x <= 6

  // The sets of "0 0 1 1 *", "0 0 1 * *", "0 0 * * 0", "0 0 * * *" and "0 * * * *".
  const YEARLY := Cron({0}, {0}, {1}, {1}, EVERY_DOW, false)
  const MONTHLY := Cron({0}, {0}, {1}, EVERY_MONTH, EVERY_DOW, false)
  const WEEKLY := Cron({0}, {0}, EVERY_DOM, EVERY_MONTH, {0}, false)
  const DAILY := Cron({0}, {0}, EVERY_DOM, EVERY_MONTH, EVERY_DOW, false)
  const HOURLY := Cron({0}, EVERY_HOUR, EVERY_DOM, EVERY_MONTH, EVERY_DOW, false)

  ghost predicate OnCalendar(d: Date) {
    1 <= d.dom <= 31 && d.dow <= 6
  }

  /** The rule of Vixie cron. When both day fields are restricted, a minute is due exactly when it is due by the day of
      month alone or by the weekday alone; otherwise both must agree. */
  lemma EitherDay(cron: Cron, zone: Zone, t: int)
    requires OnCalendar(zone.calendar(DayOf(zone, t)))
    ensures var byDom := Matches(cron.(dows := EVERY_DOW, domDowRestricted := false), zone, t);
            var byDow := Matches(cron.(doms := EVERY_DOM, domDowRestricted := false), zone, t);
            Matches(cron, zone, t) <==> if cron.domDowRestricted then byDom || byDow else byDom && byDow
  {
    hide DayOf, MinuteOfDay;
  }

  /** A field that lists every weekday, or every day of the month, leaves the decision to the other one if and only if
      the expression does not count as restricted, or the other field would say yes anyway. If it does count, being
      written `*` + `/1` for instance, the day of month does not matter at all. */
  lemma FullField(cron: Cron, zone: Zone, t: int)
    requires OnCalendar(zone.calendar(DayOf(zone, t)))
    ensures var d := zone.calendar(DayOf(zone, t));
            var timely := MinuteOfDay(zone, t) % 60 in cron.minutes && MinuteOfDay(zone, t) / 60 in cron.hours
                          && d.month in cron.months;
            && (EVERY_DOW <= cron.dows ==>
                  (Matches(cron, zone, t) <==> timely && (cron.domDowRestricted || d.dom in cron.doms)))
            && (EVERY_DOM <= cron.doms ==>
                  (Matches(cron, zone, t) <==> timely && (cron.domDowRestricted || d.dow in cron.dows)))
  {
    hide DayOf, MinuteOfDay;
    assert zone.calendar(DayOf(zone, t)).dow in EVERY_DOW && zone.calendar(DayOf(zone, t)).dom in EVERY_DOM;
  }

  // ---------------------------------------------------------------- the search

  /** The first matching minute from cursor to deadline that the search looks at. */
  function Search(cron: Cron, zone: Zone, cursor: int, deadline: int): Option<int>
    requires cursor % MINUTE == 0
    decreases deadline - cursor
  {
    if cursor > deadline then None
    else if Matches(cron, zone, cursor) then Some(cursor)
    else if !DayMatches(cron, zone, DayOf(zone, cursor)) then
      JumpLands(zone, cursor);
      Search(cron, zone, JumpToNextDayStart(zone, cursor), deadline)
    else Search(cron, zone, cursor + MINUTE, deadline)
  }

  /** A jump ends at 02:00 of the next local day. */
  lemma JumpLands(zone: Zone, cursor: int)
    requires cursor % MINUTE == 0
    ensures var c := JumpToNextDayStart(zone, cursor);
            && c % MINUTE == 0 && c > cursor
            && DayOf(zone, c) == DayOf(zone, cursor) + 1 && MinuteOfDay(zone, c) == 120
  {
    var m := MinuteOfDay(zone, cursor);
    var k := cursor / MINUTE;
    assert m / 60 * 3600 + m % 60 * 60 == m * 60;
    assert cursor + DAY - m * 60 * 1000 + 2 * 3600 * 1000 == (k + 1440 - m + 120) * MINUTE;
    assert JumpToNextDayStart(zone, cursor) == (k + 1440 - m + 120) * MINUTE;
  }

  method NextFire(cron: Cron, zone: Zone, after: int, horizon: int) returns (r: Option<int>)
    ensures r == Search(cron, zone, Start(after), after + horizon)
  {
    hide JumpToNextDayStart, DayMatches, Local, Matches, DayOf;
    var deadline := after + horizon;
    var cursor := after / MINUTE * MINUTE + MINUTE;
    while cursor <= deadline
      invariant cursor % MINUTE == 0
      invariant Search(cron, zone, Start(after), deadline) == Search(cron, zone, cursor, deadline)
      decreases deadline - cursor
    {
      if Matches(cron, zone, cursor) {
        return Some(cursor);
      }
      if !DayMatches(cron, zone, DayOf(zone, cursor)) {
        JumpLands(zone, cursor);
        cursor := JumpToNextDayStart(zone, cursor);
        continue;
      }
      cursor := cursor + MINUTE;
    }
    r := None;
  }

  // ---------------------------------------------------------------- what the search finds

  /** The minutes at which a cron expression is due: whole minutes after `after` that match. */
  ghost predicate Due(cron: Cron, zone: Zone, after: int, t: int) {
    after < t && t % MINUTE == 0 && Matches(cron, zone, t)
  }

  /** The search looks at a minute of a matching day exactly when it lies on the first day of the
      search, or the day before matches too, or it is at or after 02:00. */
  ghost predicate Seen(cron: Cron, zone: Zone, from: int, t: int) {
    || DayOf(zone, t) == DayOf(zone, from)
    || DayMatches(cron, zone, DayOf(zone, t) - 1)
    || MinuteOfDay(zone, t) >= 120
  }

  lemma DaysAdvance(zone: Zone, t: int, u: int)
    requires t % MINUTE == 0 && u % MINUTE == 0
    ensures t <= u ==> DayOf(zone, t) <= DayOf(zone, u)
    ensures DayOf(zone, t) == DayOf(zone, u) ==> (t < u <==> MinuteOfDay(zone, t) < MinuteOfDay(zone, u))
  {
    assert t == t / MINUTE * MINUTE && u == u / MINUTE * MINUTE;
  }

  /** Where the search stands: it has passed over no minute that it should have seen, and the minute
      under the cursor is one that it should see. */
  ghost predicate Behind(cron: Cron, zone: Zone, from: int, cursor: int) {
    && (forall u :: from <= u < cursor && u % MINUTE == 0 && Matches(cron, zone, u) ==> !Seen(cron, zone, from, u))
    && Seen(cron, zone, from, cursor)
  }

  lemma JumpKeeps(cron: Cron, zone: Zone, from: int, cursor: int)
    requires from % MINUTE == 0 && cursor % MINUTE == 0 && from <= cursor
    requires Behind(cron, zone, from, cursor) && !DayMatches(cron, zone, DayOf(zone, cursor))
    ensures Behind(cron, zone, from, JumpToNextDayStart(zone, cursor))
  {
    var c := JumpToNextDayStart(zone, cursor);
    JumpLands(zone, cursor);
    DaysAdvance(zone, from, cursor);
    forall u | cursor <= u < c && u % MINUTE == 0 && Matches(cron, zone, u)
      ensures !Seen(cron, zone, from, u)
    {
      DaysAdvance(zone, cursor, u);
      DaysAdvance(zone, u, c);
    }
  }

  lemma WalkKeeps(cron: Cron, zone: Zone, from: int, cursor: int)
    requires from % MINUTE == 0 && cursor % MINUTE == 0 && from <= cursor
    requires Behind(cron, zone, from, cursor) && DayMatches(cron, zone, DayOf(zone, cursor))
    requires !Matches(cron, zone, cursor)
    ensures Behind(cron, zone, from, cursor + MINUTE)
  {
    var k := cursor / MINUTE;
    assert cursor + MINUTE == (k + 1) * MINUTE && (cursor + MINUTE) / MINUTE == k + 1;
    forall u | from <= u < cursor + MINUTE && u % MINUTE == 0 && Matches(cron, zone, u)
      ensures !Seen(cron, zone, from, u)
    {
      assert u <= cursor by {
        assert u == u / MINUTE * MINUTE;
      }
    }
  }

  /** t is the least due minute up to the deadline among those satisfying `look`, or there is none. */
  ghost predicate Least(r: Option<int>, cron: Cron, zone: Zone, from: int, deadline: int, all: bool) {
    match r
    case Some(t) =>
      && from <= t <= deadline && t % MINUTE == 0 && Matches(cron, zone, t) && (all || Seen(cron, zone, from, t))
      && forall u :: from <= u < t && u % MINUTE == 0 && Matches(cron, zone, u) ==> !all && !Seen(cron, zone, from, u)
    case None =>
      forall u :: from <= u <= deadline && u % MINUTE == 0 && Matches(cron, zone, u) ==>
        !all && !Seen(cron, zone, from, u)
  }

  lemma {:induction false} SearchFinds(cron: Cron, zone: Zone, from: int, cursor: int, deadline: int)
    requires from % MINUTE == 0 && cursor % MINUTE == 0 && from <= cursor && Behind(cron, zone, from, cursor)
    ensures Least(Search(cron, zone, cursor, deadline), cron, zone, from, deadline, false)
    decreases deadline - cursor
  {
    hide Matches, Seen, DayMatches;
    if cursor <= deadline && !Matches(cron, zone, cursor) {
      if !DayMatches(cron, zone, DayOf(zone, cursor)) {
        JumpLands(zone, cursor);
        JumpKeeps(cron, zone, from, cursor);
        SearchFinds(cron, zone, from, JumpToNextDayStart(zone, cursor), deadline);
      } else {
        WalkKeeps(cron, zone, from, cursor);
        SearchFinds(cron, zone, from, cursor + MINUTE, deadline);
      }
    }
  }

  lemma StartIsNext(after: int)
    ensures Start(after) % MINUTE == 0 && after < Start(after)
    ensures forall u :: u % MINUTE == 0 ==> (u > after <==> u >= Start(after))
  {
    forall u | u % MINUTE == 0 ensures u > after <==> u >= Start(after) {
      assert u == u / MINUTE * MINUTE;
    }
  }

  /** What is found is a due minute by its fields. */
  ghost predicate FiresOn(cron: Cron, zone: Zone, t: int) {
    exists day: int, h: nat, m: nat ::
      h < 24 && m < 60 && t == At(zone, day, 60 * h + m) && OnFields(cron, zone.calendar(day), h, m)
  }

  lemma MatchFires(cron: Cron, zone: Zone, t: int)
    requires t % MINUTE == 0
    ensures Matches(cron, zone, t) <==> FiresOn(cron, zone, t)
  {
    hide At, Matches, OnFields;
    var day, h, m := EveryMinute(zone, t);
    MatchesFields(cron, zone, day, h, m);
    if FiresOn(cron, zone, t) {
      var d: int, k: nat, l: nat :|
        k < 24 && l < 60 && t == At(zone, d, 60 * k + l) && OnFields(cron, zone.calendar(d), k, l);
      MatchesFields(cron, zone, d, k, l);
    }
  }

  /** The next fire time is exactly the least matching minute after `after`, up to the horizon, that lies
      on the first day of the search, or follows a matching day, or is at or after 02:00 local; and there
      is none exactly when no such minute exists. */
  lemma NextFireMeaning(cron: Cron, zone: Zone, after: int, horizon: int)
    ensures Least(Search(cron, zone, Start(after), after + horizon), cron, zone, Start(after), after + horizon, false)
    ensures forall u :: u % MINUTE == 0 ==> (u > after <==> u >= Start(after))
  {
    StartIsNext(after);
    SearchFinds(cron, zone, Start(after), Start(after), after + horizon);
  }

  /** The same, told by the fields: what is found is due by its fields, and no later than any other minute that is and
      that the search looks at. */
  lemma NextFireFields(cron: Cron, zone: Zone, after: int, horizon: int)
    ensures var r := Search(cron, zone, Start(after), after + horizon);
            && (r.Some? ==> after < r.value <= after + horizon && FiresOn(cron, zone, r.value)
                            && Seen(cron, zone, Start(after), r.value))
            && forall u :: after < u <= after + horizon && FiresOn(cron, zone, u) && Seen(cron, zone, Start(after), u)
                 ==> r.Some? && r.value <= u
  {
    hide Search, Matches, FiresOn, Seen;
    NextFireMeaning(cron, zone, after, horizon);
    var r := Search(cron, zone, Start(after), after + horizon);
    if r.Some? {
      MatchFires(cron, zone, r.value);
    }
    forall u | after < u <= after + horizon && FiresOn(cron, zone, u) && Seen(cron, zone, Start(after), u)
      ensures r.Some? && r.value <= u
    {
      FiresWhole(cron, zone, u);
      MatchFires(cron, zone, u);
    }
  }

  lemma FiresWhole(cron: Cron, zone: Zone, t: int)
    requires FiresOn(cron, zone, t)
    ensures t % MINUTE == 0
  {
    hide OnFields;
  }

  // ---------------------------------------------------------------- the plain walk

  /** The first matching minute, minute by minute. */
  function Walk(cron: Cron, zone: Zone, cursor: int, deadline: int): Option<int>
    decreases deadline - cursor
  {
    if cursor > deadline then None
    else if Matches(cron, zone, cursor) then Some(cursor)
    else Walk(cron, zone, cursor + MINUTE, deadline)
  }

  lemma {:induction false} WalkFinds(cron: Cron, zone: Zone, cursor: int, deadline: int)
    requires cursor % MINUTE == 0
    ensures Least(Walk(cron, zone, cursor, deadline), cron, zone, cursor, deadline, true)
    decreases deadline - cursor
  {
    hide Matches, Seen;
    if cursor <= deadline && !Matches(cron, zone, cursor) {
      WalkFinds(cron, zone, cursor + MINUTE, deadline);
      forall u | cursor <= u < cursor + MINUTE && u % MINUTE == 0 ensures u == cursor {
        assert u == u / MINUTE * MINUTE && cursor == cursor / MINUTE * MINUTE;
      }
    }
  }

  /** Some day matches, the day before does not, and the expression has a minute before 02:00. */
  ghost predicate Gap(cron: Cron, zone: Zone) {
    exists day, m :: DayBegins(cron, zone, day) && EarlyMinute(cron, m)
  }

  predicate DayBegins(cron: Cron, zone: Zone, day: int) {
    !DayMatches(cron, zone, day - 1) && DayMatches(cron, zone, day)
  }

  predicate EarlyMinute(cron: Cron, m: int) {
    0 <= m < 120 && m % 60 in cron.minutes && m / 60 in cron.hours
  }

  /** A due minute the search does not look at is a gap. */
  lemma UnseenIsGap(cron: Cron, zone: Zone, from: int, t: int)
    requires Matches(cron, zone, t) && !Seen(cron, zone, from, t)
    ensures Gap(cron, zone)
  {
    assert DayBegins(cron, zone, DayOf(zone, t)) && EarlyMinute(cron, MinuteOfDay(zone, t));
  }

  lemma LeastUnique(r: Option<int>, q: Option<int>, cron: Cron, zone: Zone, from: int, deadline: int)
    requires Least(r, cron, zone, from, deadline, false) && Least(q, cron, zone, from, deadline, true)
    requires !Gap(cron, zone)
    ensures r == q
  {
    hide Gap, Seen, Matches;
    forall t | Matches(cron, zone, t) ensures Seen(cron, zone, from, t) {
      if !Seen(cron, zone, from, t) {
        UnseenIsGap(cron, zone, from, t);
      }
    }
  }

  /** From the start of the day before a gap, the search misses a minute that the walk finds. */
  lemma GapMisses(cron: Cron, zone: Zone, day: int, m: int)
    requires DayBegins(cron, zone, day) && EarlyMinute(cron, m)
    ensures var from, deadline := At(zone, day - 1, 0), At(zone, day, m);
            && from % MINUTE == 0
            && Search(cron, zone, from, deadline).None? && Walk(cron, zone, from, deadline).Some?
  {
    var from, deadline := At(zone, day - 1, 0), At(zone, day, m);
    AtIs(zone, day - 1, 0);
    AtIs(zone, day, m);
    WalkFinds(cron, zone, from, deadline);
    assert Matches(cron, zone, deadline);
    SearchFinds(cron, zone, from, from, deadline);
    var r := Search(cron, zone, from, deadline);
    if r.Some? {
      DaysAdvance(zone, from, r.value);
      DaysAdvance(zone, r.value, deadline);
    }
  }

  predicate Agrees(cron: Cron, zone: Zone, after: int, horizon: int) {
    Search(cron, zone, Start(after), after + horizon) == Walk(cron, zone, Start(after), after + horizon)
  }

  lemma NoGapAgrees(cron: Cron, zone: Zone, after: int, horizon: int)
    requires !Gap(cron, zone)
    ensures Agrees(cron, zone, after, horizon)
  {
    hide Gap, Least;
    var from, deadline := Start(after), after + horizon;
    NextFireMeaning(cron, zone, after, horizon);
    WalkFinds(cron, zone, from, deadline);
    LeastUnique(Search(cron, zone, from, deadline), Walk(cron, zone, from, deadline), cron, zone, from, deadline);
  }

  /** The search agrees with the minute-by-minute walk, whatever the anchor and horizon, exactly when there
      is no gap: no matching day follows a non-matching one, or nothing is due before 02:00. */
  lemma AgreesExactly(cron: Cron, zone: Zone)
    ensures (forall after, horizon :: Agrees(cron, zone, after, horizon)) <==> !Gap(cron, zone)
  {
    if !Gap(cron, zone) {
      forall after, horizon ensures Agrees(cron, zone, after, horizon) {
        NoGapAgrees(cron, zone, after, horizon);
      }
    } else {
      var day, m :| DayBegins(cron, zone, day) && EarlyMinute(cron, m);
      var from, deadline := At(zone, day - 1, 0), At(zone, day, m);
      GapMisses(cron, zone, day, m);
      var after := from - MINUTE;
      assert Start(after) == from by {
        assert after == (day * 1440 - 1440 - zone.offset - 1) * MINUTE;
      }
      assert after + (deadline - after) == deadline;
      assert !Agrees(cron, zone, after, deadline - after);
    }
  }

  // ---------------------------------------------------------------- @monthly

  /** Searched from any day but the first of a month, `@monthly` is never found, however far ahead. */
  lemma MonthlyNeverFires(zone: Zone, after: int, horizon: int)
    requires forall day :: zone.calendar(day).dom == 1 ==> zone.calendar(day - 1).dom != 1
    requires zone.calendar(DayOf(zone, Start(after))).dom != 1
    ensures Search(MONTHLY, zone, Start(after), after + horizon) == None
  {
    NextFireMeaning(MONTHLY, zone, after, horizon);
  }

  // ---------------------------------------------------------------- several fires

  function Fires(cron: Cron, zone: Zone, after: int, horizon: int, count: nat): seq<int>
    decreases count
  {
    if count == 0 then []
    else
      StartIsNext(after);
      match Search(cron, zone, Start(after), after + horizon)
      case None => []
      case Some(t) => [t] + Fires(cron, zone, t, horizon, count - 1)
  }

  method NextFires(cron: Cron, zone: Zone, after: int, horizon: int, count: nat) returns (fires: seq<int>)
    ensures fires == Fires(cron, zone, after, horizon, count)
  {
    hide Search;
    fires := [];
    var cursor := after;
    for i := 0 to count
      invariant Fires(cron, zone, after, horizon, count) == fires + Fires(cron, zone, cursor, horizon, count - i)
    {
      var next := NextFire(cron, zone, cursor, horizon);
      if next.None? { break; }
      ghost var rest := Fires(cron, zone, next.value, horizon, count - i - 1);
      assert fires + ([next.value] + rest) == fires + [next.value] + rest;
      fires := fires + [next.value];
      cursor := next.value;
    }
  }

  /** Successive fires are due minutes after the anchor, strictly increasing. */
  lemma {:induction false} FiresIncrease(cron: Cron, zone: Zone, after: int, horizon: int, count: nat)
    ensures |Fires(cron, zone, after, horizon, count)| <= count
    ensures forall i :: 0 <= i < |Fires(cron, zone, after, horizon, count)| ==>
              Due(cron, zone, after, Fires(cron, zone, after, horizon, count)[i])
    ensures forall i, j :: 0 <= i < j < |Fires(cron, zone, after, horizon, count)| ==>
              Fires(cron, zone, after, horizon, count)[i] < Fires(cron, zone, after, horizon, count)[j]
    decreases count
  {
    hide Matches, Seen;
    if count > 0 {
      NextFireMeaning(cron, zone, after, horizon);
      var next := Search(cron, zone, Start(after), after + horizon);
      if next.Some? {
        FiresIncrease(cron, zone, next.value, horizon, count - 1);
        var fires, rest := Fires(cron, zone, after, horizon, count), Fires(cron, zone, next.value, horizon, count - 1);
        assert fires == [next.value] + rest;
        forall i | 0 <= i < |fires| ensures Due(cron, zone, after, fires[i]) {
          if i > 0 {
            assert Due(cron, zone, next.value, rest[i - 1]);
          }
        }
        forall i, j | 0 <= i < j < |fires| ensures fires[i] < fires[j] {
          assert Due(cron, zone, next.value, rest[j - 1]);
          if i > 0 {
            assert rest[i - 1] < rest[j - 1];
          }
        }
      }
    }
  }

  /** Without a gap, no due minute comes before the first fire. */
  lemma NothingBefore(cron: Cron, zone: Zone, after: int, horizon: int, t: int)
    requires !Gap(cron, zone) && Due(cron, zone, after, t) && t <= after + horizon
    ensures var next := Search(cron, zone, Start(after), after + horizon); next.Some? && next.value <= t
  {
    NextFireMeaning(cron, zone, after, horizon);
    if !Seen(cron, zone, Start(after), t) {
      UnseenIsGap(cron, zone, Start(after), t);
    }
  }

  function Last(fires: seq<int>, after: int): int {
    if fires == [] then after else fires[|fires| - 1]
  }

  /** Without a gap the fires are the first due minutes after the anchor: each due minute up to the last
      of them is among them, and if fewer than asked came back, nothing more is due within the horizon. */
  lemma {:induction false} FiresComplete(cron: Cron, zone: Zone, after: int, horizon: int, count: nat, t: int)
    requires !Gap(cron, zone) && Due(cron, zone, after, t)
    ensures var fires := Fires(cron, zone, after, horizon, count);
            && (t <= Last(fires, after) ==> t in fires)
            && (|fires| < count && t > Last(fires, after) ==> t > Last(fires, after) + horizon)
    decreases count
  {
    hide Gap, Matches, Seen, Search, Start;
    if count > 0 {
      var next := Search(cron, zone, Start(after), after + horizon);
      if t <= after + horizon {
        NothingBefore(cron, zone, after, horizon, t);
      }
      if next.Some? {
        NextFireMeaning(cron, zone, after, horizon);
        FiresIncrease(cron, zone, next.value, horizon, count - 1);
        var fires, rest := Fires(cron, zone, after, horizon, count), Fires(cron, zone, next.value, horizon, count - 1);
        assert fires == [next.value] + rest;
        assert Last(fires, after) == Last(rest, next.value);
        assert rest != [] ==> Due(cron, zone, next.value, rest[|rest| - 1]);
        if t > next.value {
          FiresComplete(cron, zone, next.value, horizon, count - 1, t);
        }
      }
    }
  }
}
