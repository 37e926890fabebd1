/** The shift resolver (`turnoService.getCurrentTurno`): which of a station's
    shifts contains the current time of day. Times are the "HH:MM" strings the
    backend stores, compared the way JavaScript compares strings; the clock is
    read by the caller, which passes the formatted time in. */
module Shift {
  import opened Common

  /** A shift of a station: a named window from `horarioInicio` to `horarioFim`. */
  datatype Turno = Turno(id: int, nome: string, horarioInicio: string, horarioFim: string)

  /** JavaScript's `a < b` on strings: the first differing code unit decides,
      and a proper prefix is smaller. */
  predicate StrLess(a: string, b: string)
  {
    if |b| == 0 then false
    else if |a| == 0 then true
    else if a[0] != b[0] then a[0] < b[0]
    else StrLess(a[1..], b[1..])
  }

  lemma {:induction false} StrLessIrreflexive(a: string)
    ensures !StrLess(a, a)
  {
    if |a| > 0 {
      StrLessIrreflexive(a[1..]);
    }
  }

  /** Whether the shift's window contains `now`: a window whose start is
      after its end crosses midnight. */
  predicate IsActive(t: Turno, now: string)
  {
    var start, end := t.horarioInicio, t.horarioFim;
    if StrLess(end, start) then !StrLess(now, start) || StrLess(now, end)
    else !StrLess(now, start) && StrLess(now, end)
  }

  /** A shift whose start equals its end never contains any time. */
  lemma EmptyWindowNeverActive(t: Turno, now: string)
    requires t.horarioInicio == t.horarioFim
    ensures !IsActive(t, now)
  {
    StrLessIrreflexive(t.horarioInicio);
  }

  /** The position of the first shift, in list order, that contains `now`. */
  function FirstActive(turnos: seq<Turno>, now: string): (r: Option<nat>)
    ensures r.Some? ==> r.value < |turnos| && IsActive(turnos[r.value], now)
    ensures r.Some? ==> forall j :: 0 <= j < r.value ==> !IsActive(turnos[j], now)
    ensures r.None? ==> forall j :: 0 <= j < |turnos| ==> !IsActive(turnos[j], now)
  {
    if |turnos| == 0 then None
    else if IsActive(turnos[0], now) then Some(0)
    else match FirstActive(turnos[1..], now)
      case Some(i) => Some(i + 1)
      case None => None
  }

  /** `getCurrentTurno` over the station's shift list (in the order the
      backend returns it): the first shift containing `now`, else the first
      shift, else nothing. */
  function CurrentTurno(turnos: seq<Turno>, now: string): (r: Option<Turno>)
    ensures r.None? <==> |turnos| == 0
    ensures r.Some? ==> r.value in turnos
  {
    match FirstActive(turnos, now)
    case Some(i) => Some(turnos[i])
    case None => if |turnos| == 0 then None else Some(turnos[0])
  }

  /** The first matching shift in list order wins. */
  lemma CurrentTurnoIsFirstMatch(turnos: seq<Turno>, now: string, i: nat)
    requires i < |turnos| && IsActive(turnos[i], now)
    requires forall j :: 0 <= j < i ==> !IsActive(turnos[j], now)
    ensures CurrentTurno(turnos, now) == Some(turnos[i])
  {
  }

  /** When no shift contains `now`, the first shift is the fallback. */
  lemma CurrentTurnoFallback(turnos: seq<Turno>, now: string)
    requires |turnos| > 0
    requires forall j :: 0 <= j < |turnos| ==> !IsActive(turnos[j], now)
    ensures CurrentTurno(turnos, now) == Some(turnos[0])
  {
  }

  // ---------------------------------------------------------------------
  // Agreement with minutes since midnight for well-formed "HH:MM" strings.

  predicate IsDigit(c: char) { '0' <= c <= '9' }

  function DigitValue(c: char): int { c as int - '0' as int }

  /** A zero-padded "HH:MM" time of day. */
  predicate IsClock(s: string)
  {
    && |s| == 5
    && IsDigit(s[0]) && IsDigit(s[1]) && s[2] == ':' && IsDigit(s[3]) && IsDigit(s[4])
    && DigitValue(s[0]) * 10 + DigitValue(s[1]) < 24
    && DigitValue(s[3]) < 6
  }

  function Minutes(s: string): (m: int)
    requires IsClock(s)
    ensures 0 <= m < 24 * 60
  {
    (DigitValue(s[0]) * 10 + DigitValue(s[1])) * 60 + DigitValue(s[3]) * 10 + DigitValue(s[4])
  }

  /** String order on two "HH:MM" strings compares them character by character. */
  lemma StrLessOnClocks(a: string, b: string)
    requires IsClock(a) && IsClock(b)
    ensures StrLess(a, b) <==>
      a[0] < b[0] || (a[0] == b[0] && (a[1] < b[1] || (a[1] == b[1] &&
      (a[3] < b[3] || (a[3] == b[3] && a[4] < b[4])))))
  {
    var a1, b1 := a[1..], b[1..];
    var a2, b2 := a1[1..], b1[1..];
    var a3, b3 := a2[1..], b2[1..];
    var a4, b4 := a3[1..], b3[1..];
    assert a4[1..] == [] && b4[1..] == [];
    assert StrLess(a4, b4) <==> a[4] < b[4];
    assert StrLess(a3, b3) <==> a[3] < b[3] || (a[3] == b[3] && a[4] < b[4]);
    assert StrLess(a2, b2) <==> StrLess(a3, b3);
    assert StrLess(a1, b1) <==> a[1] < b[1] || (a[1] == b[1] && StrLess(a2, b2));
  }

  /** On "HH:MM" strings, the string order the source uses is the order of
      minutes since midnight. */
  lemma ClockOrder(a: string, b: string)
    requires IsClock(a) && IsClock(b)
    ensures StrLess(a, b) <==> Minutes(a) < Minutes(b)
  {
    StrLessOnClocks(a, b);
  }

  /** `now` lies in the circular half-open interval [start, end) of a
      24-hour day; an interval with start == end is empty. */
  predicate InWindow(start: int, end: int, now: int)
  {
    (now - start) % (24 * 60) < (end - start) % (24 * 60)
  }

  /** For well-formed times, a shift is active exactly when `now` lies in
      its window read as a circular interval of the day. */
  lemma IsActiveInMinutes(t: Turno, now: string)
    requires IsClock(t.horarioInicio) && IsClock(t.horarioFim) && IsClock(now)
    ensures IsActive(t, now) <==>
      InWindow(Minutes(t.horarioInicio), Minutes(t.horarioFim), Minutes(now))
  {
    ClockOrder(t.horarioFim, t.horarioInicio);
    ClockOrder(now, t.horarioInicio);
    ClockOrder(now, t.horarioFim);
    WindowCases(Minutes(t.horarioInicio), Minutes(t.horarioFim), Minutes(now));
  }

  /** The circular window, case by case: one that crosses midnight holds the
      times from its start on and those before its end. */
  lemma WindowCases(s: int, e: int, n: int)
    requires 0 <= s < 24 * 60 && 0 <= e < 24 * 60 && 0 <= n < 24 * 60
    ensures InWindow(s, e, n) <==> if e < s then n >= s || n < e else s <= n < e
  {
    DayOffset(e - s);
    DayOffset(n - s);
  }

  /** A difference of two times of day, taken modulo a day. */
  lemma DayOffset(x: int)
    requires -24 * 60 < x < 24 * 60
    ensures x % (24 * 60) == if x < 0 then x + 24 * 60 else x
  {
  }

  /** A night shift from 22:00 to 06:00 contains 23:30 and 02:00 but not 12:00. */
  lemma NightShiftExample(id: int, nome: string)
    ensures var night := Turno(id, nome, "22:00", "06:00");
      IsActive(night, "23:30") && IsActive(night, "02:00") && !IsActive(night, "12:00")
  {
    var night := Turno(id, nome, "22:00", "06:00");
    IsActiveInMinutes(night, "23:30");
    IsActiveInMinutes(night, "02:00");
    IsActiveInMinutes(night, "12:00");
  }
}
