/** Clock times and maintenance windows (utils/timewindow.go). */
module MaintenanceWindow {

  const DAY := 86400

  datatype Clock = Clock(hour: int, minute: int, second: int)

  type ClockTime = c: Clock | 0 <= c.hour < 24 && 0 <= c.minute < 60 && 0 <= c.second < 60
    witness Clock(0, 0, 0)

  datatype TimeWindow = TimeWindow(begin: ClockTime, end: ClockTime)

  function SecondOfDay(t: ClockTime): (s: int)
    ensures 0 <= s < DAY
  {
    t.hour * 3600 + t.minute * 60 + t.second
  }

  /** The clock time of a point in time given in seconds. */
  function ClockAt(seconds: int): (t: ClockTime)
    ensures SecondOfDay(t) == seconds % DAY
  {
    var hours := seconds % DAY / 3600;
    var minutes := seconds % DAY / 60 - hours * 60;
    Clock(hours, minutes, seconds % DAY - hours * 3600 - minutes * 60)
  }

  /** The time moved by an amount of any size and sign, wrapping around midnight. */
  function Add(t: ClockTime, hours: int, minutes: int, seconds: int): (r: ClockTime)
    ensures SecondOfDay(r) == (SecondOfDay(t) + Amount(hours, minutes, seconds)) % DAY
  {
    ClockAt(SecondOfDay(t) + Amount(hours, minutes, seconds))
  }

  function Amount(hours: int, minutes: int, seconds: int): int {
    hours * 3600 + minutes * 60 + seconds
  }

  function Compare(a: ClockTime, b: ClockTime): int {
    if a.hour != b.hour then a.hour - b.hour
    else if a.minute != b.minute then a.minute - b.minute
    else a.second - b.second
  }

  predicate SpansDifferentDays(w: TimeWindow) {
    Compare(w.end, w.begin) < 0
  }

  predicate Contains(w: TimeWindow, t: ClockTime) {
    if SpansDifferentDays(w) then
      !(Compare(t, w.end) > 0 && Compare(t, w.begin) < 0)
    else
      Compare(t, w.begin) >= 0 && Compare(t, w.end) <= 0
  }

  function AdjustedEnd(w: TimeWindow): int {
    if Compare(w.end, w.begin) <= 0 then SecondOfDay(w.end) + DAY else SecondOfDay(w.end)
  }

  /** Duration in seconds. */
  function Duration(w: TimeWindow): int {
    AdjustedEnd(w) - SecondOfDay(w.begin)
  }

  function Shift(w: TimeWindow, hours: int, minutes: int, seconds: int): TimeWindow {
    TimeWindow(Add(w.begin, hours, minutes, seconds), Add(w.end, hours, minutes, seconds))
  }

  // ---------- clock times are the seconds of a day ----------

  lemma ClockRoundTrip(t: ClockTime)
    ensures ClockAt(SecondOfDay(t)) == t
  {
  }

  lemma CompareOrdersSeconds(a: ClockTime, b: ClockTime)
    ensures Compare(a, b) < 0 <==> SecondOfDay(a) < SecondOfDay(b)
    ensures Compare(a, b) > 0 <==> SecondOfDay(a) > SecondOfDay(b)
    ensures Compare(a, b) == 0 <==> a == b
  {
  }

  // ---------- the window as an arc of the day ----------

  function Offset(from: ClockTime, to: ClockTime): int {
    (SecondOfDay(to) - SecondOfDay(from)) % DAY
  }

  lemma ModCases(d: int)
    requires -DAY < d < DAY
    ensures d % DAY == if d >= 0 then d else d + DAY
  {
  }

  lemma OffsetCases(from: ClockTime, to: ClockTime)
    ensures Offset(from, to) == if SecondOfDay(to) >= SecondOfDay(from)
                                then SecondOfDay(to) - SecondOfDay(from)
                                else SecondOfDay(to) - SecondOfDay(from) + DAY
  {
    hide SecondOfDay;
    ModCases(SecondOfDay(to) - SecondOfDay(from));
  }

  lemma ContainsIsArc(w: TimeWindow, t: ClockTime)
    ensures Contains(w, t) <==> Offset(w.begin, t) <= Offset(w.begin, w.end)
  {
    CompareOrdersSeconds(t, w.begin);
    CompareOrdersSeconds(t, w.end);
    CompareOrdersSeconds(w.end, w.begin);
    OffsetCases(w.begin, t);
    OffsetCases(w.begin, w.end);
  }

  lemma ModDifference(a: int, b: int, d: int)
    ensures ((b + d) % DAY - (a + d) % DAY) % DAY == (b - a) % DAY
  {
  }

  lemma OffsetShifts(from: ClockTime, to: ClockTime, hours: int, minutes: int, seconds: int)
    ensures Offset(Add(from, hours, minutes, seconds), Add(to, hours, minutes, seconds)) == Offset(from, to)
  {
    hide ClockAt, Add, Amount, SecondOfDay;
    var d := Amount(hours, minutes, seconds);
    ModDifference(SecondOfDay(from), SecondOfDay(to), d);
  }

  /** Moving the window and the time by the same amount does not change the answer. */
  lemma ContainsShiftInvariant(w: TimeWindow, t: ClockTime, hours: int, minutes: int, seconds: int)
    ensures Contains(Shift(w, hours, minutes, seconds), Add(t, hours, minutes, seconds)) == Contains(w, t)
  {
    ContainsIsArc(w, t);
    ContainsIsArc(Shift(w, hours, minutes, seconds), Add(t, hours, minutes, seconds));
    OffsetShifts(w.begin, t, hours, minutes, seconds);
    OffsetShifts(w.begin, w.end, hours, minutes, seconds);
  }

  function Complement(w: TimeWindow): TimeWindow {
    TimeWindow(Add(w.end, 0, 0, 1), Add(w.begin, 0, 0, -1))
  }

  lemma StepWraps(s: int)
    requires 0 <= s < DAY
    ensures (s + 1) % DAY == if s == DAY - 1 then 0 else s + 1
    ensures (s - 1) % DAY == if s == 0 then DAY - 1 else s - 1
  {
  }

  lemma NextSecond(t: ClockTime)
    ensures SecondOfDay(Add(t, 0, 0, 1)) == if SecondOfDay(t) == DAY - 1 then 0 else SecondOfDay(t) + 1
    ensures SecondOfDay(Add(t, 0, 0, -1)) == if SecondOfDay(t) == 0 then DAY - 1 else SecondOfDay(t) - 1
  {
    hide ClockAt, Add, SecondOfDay;
    StepWraps(SecondOfDay(t));
  }

  /** The window from one second after the end to one second before the begin is the exact complement,
      if and only if the window does not cover the whole day. */
  lemma ComplementExact(w: TimeWindow)
    ensures (forall t: ClockTime :: Contains(Complement(w), t) == !Contains(w, t))
       <==> Add(w.end, 0, 0, 1) != w.begin
  {
    var c := Complement(w);
    NextSecond(w.end);
    NextSecond(w.begin);
    if c.begin == w.begin {
      ContainsIsArc(w, w.begin);
      ContainsIsArc(c, w.begin);
      OffsetCases(w.begin, w.begin);
      OffsetCases(w.begin, c.end);
      OffsetCases(w.begin, w.end);
      assert Contains(c, w.begin) && Contains(w, w.begin);
    } else {
      forall t: ClockTime
        ensures Contains(c, t) == !Contains(w, t)
      {
        CompareOrdersSeconds(c.begin, w.begin);
        ContainsIsArc(w, t);
        ContainsIsArc(c, t);
        OffsetCases(w.begin, t);
        OffsetCases(w.begin, w.end);
        OffsetCases(c.begin, t);
        OffsetCases(c.begin, c.end);
      }
    }
  }

  // ---------- how many seconds of the day a window contains ----------

  ghost function SecondsInside(w: TimeWindow): set<int> {
    set s | 0 <= s < DAY && Contains(w, ClockAt(s))
  }

  ghost function Between(lo: int, hi: int): (r: set<int>)
    requires lo <= hi
    ensures forall s :: s in r <==> lo <= s < hi
    ensures |r| == hi - lo
    decreases hi - lo
  {
    if lo == hi then {} else Between(lo, hi - 1) + {hi - 1}
  }

  lemma ContainsAtSecond(w: TimeWindow, s: int)
    requires 0 <= s < DAY
    ensures Contains(w, ClockAt(s))
       <==> if SecondOfDay(w.end) < SecondOfDay(w.begin)
            then s <= SecondOfDay(w.end) || SecondOfDay(w.begin) <= s
            else SecondOfDay(w.begin) <= s <= SecondOfDay(w.end)
  {
    hide ClockAt, SecondOfDay, Compare;
    ModCases(s);
    CompareOrdersSeconds(w.end, w.begin);
    CompareOrdersSeconds(ClockAt(s), w.begin);
    CompareOrdersSeconds(ClockAt(s), w.end);
  }

  /** A window with different begin and end contains its duration in seconds plus one, across midnight or not.
      A window whose begin is its end contains a single second, although its duration is a full day. */
  lemma WindowSize(w: TimeWindow)
    ensures w.begin != w.end ==> |SecondsInside(w)| == Duration(w) + 1
    ensures w.begin == w.end ==> |SecondsInside(w)| == 1 && Duration(w) == DAY
  {
    var b, e := SecondOfDay(w.begin), SecondOfDay(w.end);
    CompareOrdersSeconds(w.end, w.begin);
    var inside := if e < b then Between(0, e + 1) + Between(b, DAY) else Between(b, e + 1);
    forall s
      ensures s in SecondsInside(w) <==> s in inside
    {
      if 0 <= s < DAY {
        ContainsAtSecond(w, s);
      }
    }
    assert SecondsInside(w) == inside;
    if e < b {
      assert Between(0, e + 1) !! Between(b, DAY);
    }
  }
}
