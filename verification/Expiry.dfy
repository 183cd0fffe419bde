/** The expiry arithmetic of the spotter (pkg/spotter/expiry.go) as functions of the creation time, the whitelist and
    the random draws, and what follows over all draws. The methods are in module Spotter. */
module Expiry {
  import opened Common
  import opened Clock
  import opened TimeSpans

  /** 2000-01-01T00:00:00Z and the next midnight. */
  const WHITELIST_START := 10957 * DAY
  const WHITELIST_END := WHITELIST_START + DAY

  /** A configured window HH:MM-HH:MM, as times of day. */
  datatype Window = Window(start: int, end: int) {
    predicate Valid() {
      0 <= start < DAY && 0 <= end < DAY && WholeMinute(start) && WholeMinute(end)
    }

    /** The closed window on the circle of the day; an end before the start means that it wraps around midnight. */
    predicate Contains(x: int) {
      if end < start then x >= start || x <= end else start <= x <= end
    }
  }

  /** The spans of one window are inserted; a wrapping window is split at midnight. */
  function InsertWindow(spans: seq<Span>, w: Window): seq<Span> {
    var start, end := WHITELIST_START + w.start, WHITELIST_START + w.end;
    if end < start then Insert(Insert(spans, Span(start, WHITELIST_END)), Span(WHITELIST_START, end))
    else Insert(spans, Span(start, end))
  }

  function Whitelist(windows: seq<Window>): seq<Span> {
    if windows == [] then []
    else InsertWindow(Whitelist(windows[..|windows| - 1]), windows[|windows| - 1])
  }

  /** What every whitelist looks like. */
  ghost predicate ValidWhitelist(spans: seq<Span>) {
    && Canonical(spans)
    && forall i :: 0 <= i < |spans| ==>
        && WHITELIST_START <= spans[i].start <= spans[i].end <= WHITELIST_END
        && WholeMinute(spans[i].start) && WholeMinute(spans[i].end)
  }

  lemma {:induction false} InsertValid(spans: seq<Span>, x: Span)
    requires ValidWhitelist(spans)
    requires WHITELIST_START <= x.start <= x.end <= WHITELIST_END && WholeMinute(x.start) && WholeMinute(x.end)
    ensures ValidWhitelist(Insert(spans, x))
  {
    InsertCanonical(spans, x);
    var all := Insert(spans, x);
    forall i | 0 <= i < |all|
      ensures WHITELIST_START <= all[i].start <= all[i].end <= WHITELIST_END
      ensures WholeMinute(all[i].start) && WholeMinute(all[i].end)
    {
      InsertBounds(spans, x, all[i].start);
      InsertBounds(spans, x, all[i].end);
    }
  }

  lemma {:induction false} WhitelistBoundsWhole(k: int)
    ensures WholeMinute(k) ==> WholeMinute(WHITELIST_START + k)
    ensures WholeMinute(WHITELIST_START) && WholeMinute(WHITELIST_END)
  {
  }

  lemma {:induction false} InsertWindowValid(spans: seq<Span>, w: Window)
    requires ValidWhitelist(spans) && w.Valid()
    ensures ValidWhitelist(InsertWindow(spans, w))
  {
    WhitelistBoundsWhole(w.start);
    WhitelistBoundsWhole(w.end);
    var start, end := WHITELIST_START + w.start, WHITELIST_START + w.end;
    if end < start {
      InsertValid(spans, Span(start, WHITELIST_END));
      InsertValid(Insert(spans, Span(start, WHITELIST_END)), Span(WHITELIST_START, end));
    } else {
      InsertValid(spans, Span(start, end));
    }
  }

  lemma {:induction false} WhitelistValid(windows: seq<Window>)
    requires forall i :: 0 <= i < |windows| ==> windows[i].Valid()
    ensures ValidWhitelist(Whitelist(windows))
  {
    if windows != [] {
      WhitelistValid(windows[..|windows| - 1]);
      InsertWindowValid(Whitelist(windows[..|windows| - 1]), windows[|windows| - 1]);
    }
  }

  /** A time of day is covered: midnight is both ends of the day. */
  ghost predicate OnCircle(spans: seq<Span>, x: int) {
    Covered(spans, WHITELIST_START + x) || (x == 0 && Covered(spans, WHITELIST_END))
  }

  /** Splitting and merging keep the union of the windows on the circle of the day, whatever the windows. */
  lemma {:induction false} WindowsPreserved(windows: seq<Window>, x: int)
    requires forall i :: 0 <= i < |windows| ==> windows[i].Valid()
    requires 0 <= x < DAY
    ensures OnCircle(Whitelist(windows), x) <==> exists i :: 0 <= i < |windows| && windows[i].Contains(x)
  {
    if windows != [] {
      var init, w := windows[..|windows| - 1], windows[|windows| - 1];
      WindowsPreserved(init, x);
      WhitelistValid(init);
      WindowAdded(Whitelist(init), w, x);
      assert w == windows[|windows| - 1];
      assert forall i :: 0 <= i < |init| ==> init[i] == windows[i];
    }
  }

  lemma {:induction false} WindowAdded(spans: seq<Span>, w: Window, x: int)
    requires ValidWhitelist(spans) && w.Valid() && 0 <= x < DAY
    ensures OnCircle(InsertWindow(spans, w), x) <==> OnCircle(spans, x) || w.Contains(x)
  {
    var start, end := WHITELIST_START + w.start, WHITELIST_START + w.end;
    if end < start {
      WhitelistBoundsWhole(w.start);
      var late := Span(start, WHITELIST_END);
      InsertValid(spans, late);
      forall t ensures Covered(InsertWindow(spans, w), t)
                  <==> Covered(spans, t) || late.Contains(t) || Span(WHITELIST_START, end).Contains(t)
      {
        InsertCovers(spans, late, t);
        InsertCovers(Insert(spans, late), Span(WHITELIST_START, end), t);
      }
    } else {
      InsertCovers(spans, Span(start, end), WHITELIST_START + x);
      InsertCovers(spans, Span(start, end), WHITELIST_END);
    }
  }

  // ----- one choice -----

  /** A draw of rand.Intn: as `raw` ranges over all numbers, any value below n and no other. */
  function Intn(raw: nat, n: nat): nat
    requires n > 0
  {
    if raw < n then raw else 0
  }

  function RandomNumber(a: int, b: int, raw: nat): int
    requires a <= b
  {
    a + Intn(raw, b - a + 1)
  }

  /** A random number of whole minutes that fits between two times. */
  function RandomMinutes(t1: int, t2: int, raw: nat): int
    requires t1 <= t2
  {
    RandomNumber(0, (t2 - t1) / MINUTE, raw)
  }

  datatype Refusal = NoDate | TooLate

  function ProjectedCreation(created: int): int { WHITELIST_START + (created - Midnight(created)) }

  function ProjectedDeath(created: int): int {
    WHITELIST_START + (created + DAY - Midnight(created + DAY)) + DAY
  }

  function Lift(s: Span, day: nat): Span { Span(s.start + day * DAY, s.end + day * DAY) }

  predicate Eligible(created: int, s: Span) {
    ProjectedCreation(created) < s.start && s.end < ProjectedDeath(created)
  }

  /** The candidates of one day, appended to those found so far; the k-th candidate uses the k-th draw. A span counts
      when it lies strictly between the projected creation and the projected end of life. */
  function DayTimes(ct: int, et: int, spans: seq<Span>, day: nat, raw: nat -> nat, found: seq<int>): seq<int>
    requires forall i :: 0 <= i < |spans| ==> spans[i].start <= spans[i].end
  {
    if spans == [] then found
    else
      var before := DayTimes(ct, et, spans[..|spans| - 1], day, raw, found);
      var s := Lift(spans[|spans| - 1], day);
      if ct < s.start && s.end < et then before + [s.start + RandomMinutes(s.start, s.end, raw(|before|)) * MINUTE]
      else before
  }

  function EligibleTimes(created: int, spans: seq<Span>, raw: nat -> nat): seq<int>
    requires forall i :: 0 <= i < |spans| ==> spans[i].start <= spans[i].end
  {
    var ct, et := ProjectedCreation(created), ProjectedDeath(created);
    DayTimes(ct, et, spans, 1, raw, DayTimes(ct, et, spans, 0, raw, []))
  }

  /** The draw after those of the candidates picks one of them and takes it back to real time. */
  function Pick(created: int, times: seq<int>, raw: nat -> nat): Result<int, Refusal> {
    if times == [] then Err(NoDate)
    else
      var chosen := times[Intn(raw(|times|), |times|)];
      var final := Midnight(created) + (chosen - WHITELIST_START);
      if final > created + DAY then Err(TooLate) else Ok(final)
  }

  /** The instant chosen. */
  function ExpiryInstant(created: int, spans: seq<Span>, raw: nat -> nat): Result<int, Refusal>
    requires forall i :: 0 <= i < |spans| ==> spans[i].start <= spans[i].end
  {
    Pick(created, EligibleTimes(created, spans, raw), raw)
  }

  // ----- all choices -----

  /** The span of a day as it lies in real time after the midnight before creation. */
  ghost function RealSpan(created: int, s: Span, day: nat): Span {
    var shift := Midnight(created) - WHITELIST_START + day * DAY;
    Span(s.start + shift, s.end + shift)
  }

  /** The span lies strictly between creation and creation plus 24 hours. */
  ghost predicate WithinLife(created: int, s: Span) {
    created < s.start && s.end < created + DAY
  }

  /** The whole minutes of the closed whitelist spans of two days that lie strictly inside the 24 hours of the node. */
  ghost predicate Outcome(created: int, spans: seq<Span>, t: int) {
    WholeMinute(t) && exists i, day: nat :: OutcomeOf(created, spans, t, i, day)
  }

  ghost predicate OutcomeOf(created: int, spans: seq<Span>, t: int, i: int, day: nat) {
    && 0 <= i < |spans| && day < 2
    && WithinLife(created, RealSpan(created, spans[i], day))
    && RealSpan(created, spans[i], day).Contains(t)
  }

  /** A text written by the spotter: an outcome, printed with the offset that the location of the creation timestamp
      has at that instant. */
  ghost predicate ExpiryText(created: int, offset: int -> int, spans: seq<Span>, text: Text) {
    exists t :: Outcome(created, spans, t) && text == Format(t, offset(t))
  }

  /** Projecting to 2000-01-01 keeps distances, so the test on projected times is the test on real ones. */
  lemma {:induction false} ProjectionIsTranslation(created: int, s: Span, day: nat)
    ensures Eligible(created, Lift(s, day)) <==> WithinLife(created, RealSpan(created, s, day))
    ensures ProjectedDeath(created) == ProjectedCreation(created) + DAY
  {
    MidnightFacts(created);
  }

  /** Which spans are eligible, by index and day, in the order of the candidates. */
  ghost function DayChoices(created: int, spans: seq<Span>, day: nat): seq<(int, nat)> {
    if spans == [] then []
    else
      DayChoices(created, spans[..|spans| - 1], day) +
      if Eligible(created, Lift(spans[|spans| - 1], day)) then [(|spans| - 1, day)] else []
  }

  ghost function Choices(created: int, spans: seq<Span>): seq<(int, nat)> {
    DayChoices(created, spans, 0) + DayChoices(created, spans, 1)
  }

  lemma {:induction false} DayChoicesMember(created: int, spans: seq<Span>, day: nat, i: int, d: nat)
    ensures (i, d) in DayChoices(created, spans, day)
       <==> d == day && 0 <= i < |spans| && Eligible(created, Lift(spans[i], day))
  {
    if spans != [] {
      DayChoicesMember(created, spans[..|spans| - 1], day, i, d);
    }
  }

  ghost function Candidate(spans: seq<Span>, choice: (int, nat), draw: nat): int
    requires 0 <= choice.0 < |spans| && spans[choice.0].start <= spans[choice.0].end
  {
    var s := Lift(spans[choice.0], choice.1);
    s.start + RandomMinutes(s.start, s.end, draw) * MINUTE
  }

  ghost function LifeDayTimes(created: int, spans: seq<Span>, day: nat, raw: nat -> nat, found: seq<int>): seq<int>
    requires forall i :: 0 <= i < |spans| ==> spans[i].start <= spans[i].end
  {
    DayTimes(ProjectedCreation(created), ProjectedDeath(created), spans, day, raw, found)
  }

  lemma {:induction false} DayTimesAre(created: int, spans: seq<Span>, day: nat, raw: nat -> nat, found: seq<int>)
    requires forall i :: 0 <= i < |spans| ==> spans[i].start <= spans[i].end
    ensures |LifeDayTimes(created, spans, day, raw, found)| == |found| + |DayChoices(created, spans, day)|
    ensures LifeDayTimes(created, spans, day, raw, found)[..|found|] == found
    ensures forall k :: 0 <= k < |DayChoices(created, spans, day)| ==>
              && 0 <= DayChoices(created, spans, day)[k].0 < |spans|
              && LifeDayTimes(created, spans, day, raw, found)[|found| + k]
              == Candidate(spans, DayChoices(created, spans, day)[k], raw(|found| + k))
  {
    if spans != [] {
      DayTimesAre(created, spans[..|spans| - 1], day, raw, found);
    }
  }

  /** The k-th candidate is a random minute of the k-th eligible span. */
  lemma {:induction false} EligibleTimesAre(created: int, spans: seq<Span>, raw: nat -> nat)
    requires forall i :: 0 <= i < |spans| ==> spans[i].start <= spans[i].end
    ensures |EligibleTimes(created, spans, raw)| == |Choices(created, spans)|
    ensures forall k :: 0 <= k < |Choices(created, spans)| ==>
              && 0 <= Choices(created, spans)[k].0 < |spans|
              && EligibleTimes(created, spans, raw)[k] == Candidate(spans, Choices(created, spans)[k], raw(k))
  {
    var first := LifeDayTimes(created, spans, 0, raw, []);
    DayTimesAre(created, spans, 0, raw, []);
    DayTimesAre(created, spans, 1, raw, first);
    var times := EligibleTimes(created, spans, raw);
    assert times == LifeDayTimes(created, spans, 1, raw, first);
    forall k | 0 <= k < |Choices(created, spans)|
      ensures 0 <= Choices(created, spans)[k].0 < |spans|
      ensures times[k] == Candidate(spans, Choices(created, spans)[k], raw(k))
    {
      if k < |first| {
        assert times[k] == times[..|first|][k] == first[k];
      } else {
        assert times[|first| + (k - |first|)] == times[k];
      }
    }
  }

  /** A draw stays inside its span, on a whole minute; every such minute is drawn by some value. */
  lemma {:induction false} DrawInside(s: Span, draw: nat)
    requires s.start <= s.end && WholeMinute(s.start)
    ensures s.Contains(s.start + RandomMinutes(s.start, s.end, draw) * MINUTE)
    ensures WholeMinute(s.start + RandomMinutes(s.start, s.end, draw) * MINUTE)
  {
    var m := RandomMinutes(s.start, s.end, draw);
    assert 0 <= m <= (s.end - s.start) / MINUTE;
    AddMinutes(s.start, m);
  }

  lemma {:induction false} AddMinutes(t: int, m: int)
    requires WholeMinute(t)
    ensures WholeMinute(t + m * MINUTE)
  {
    var q := t / MINUTE;
    assert t + m * MINUTE == (q + m) * MINUTE;
    WholeMinutes(q + m);
  }

  lemma {:induction false} DrawReaches(s: Span, t: int)
    requires s.Contains(t) && WholeMinute(s.start) && WholeMinute(t)
    ensures (t - s.start) / MINUTE >= 0
    ensures s.start + RandomMinutes(s.start, s.end, (t - s.start) / MINUTE) * MINUTE == t
  {
    var m, n := (t - s.start) / MINUTE, (s.end - s.start) / MINUTE + 1;
    assert t - s.start == m * MINUTE;
    assert 0 <= m < n;
  }

  lemma {:induction false} MidnightShift(created: int, t: int)
    ensures WholeMinute(t) <==> WholeMinute(Midnight(created) + (t - WHITELIST_START))
  {
    MidnightFacts(created);
    var k := created / DAY * 1440 - 10957 * 1440;
    assert Midnight(created) - WHITELIST_START == k * MINUTE;
    if WholeMinute(t) {
      AddMinutes(t, k);
    }
    if WholeMinute(t + k * MINUTE) {
      AddMinutes(t + k * MINUTE, -k);
    }
  }

  lemma {:induction false} LiftWhole(s: Span, day: nat)
    requires WholeMinute(s.start)
    ensures WholeMinute(Lift(s, day).start)
  {
    AddMinutes(s.start, day * 1440);
  }

  /** Whatever the draws, a chosen expiry is one of the outcomes, so the check against 24 hours never refuses. */
  lemma {:induction false} ChosenIsOutcome(created: int, spans: seq<Span>, raw: nat -> nat)
    requires ValidWhitelist(spans)
    ensures ExpiryInstant(created, spans, raw) != Err(TooLate)
    ensures ExpiryInstant(created, spans, raw).Ok? ==> Outcome(created, spans, ExpiryInstant(created, spans, raw).value)
  {
    EligibleTimesAre(created, spans, raw);
    var times := EligibleTimes(created, spans, raw);
    if times != [] {
      var k := Intn(raw(|times|), |times|);
      var choice := Choices(created, spans)[k];
      var (i, day) := choice;
      assert choice in Choices(created, spans);
      DayChoicesMember(created, spans, 0, i, day);
      DayChoicesMember(created, spans, 1, i, day);
      ProjectionIsTranslation(created, spans[i], day);
      LiftWhole(spans[i], day);
      DrawInside(Lift(spans[i], day), raw(k));
      MidnightShift(created, times[k]);
      assert OutcomeOf(created, spans, Midnight(created) + (times[k] - WHITELIST_START), i, day);
    }
  }

  /** The draws that choose the k-th candidate, and of it the minute numbered `minute`. */
  function Draws(k: nat, candidates: nat, minute: nat): nat -> nat {
    (n: nat) => if n == candidates then k else minute
  }

  lemma {:induction false} DrawsChoose(created: int, spans: seq<Span>, k: nat, minute: nat)
    requires ValidWhitelist(spans) && k < |Choices(created, spans)|
    ensures 0 <= Choices(created, spans)[k].0 < |spans|
    ensures var t := Candidate(spans, Choices(created, spans)[k], minute);
            ExpiryInstant(created, spans, Draws(k, |Choices(created, spans)|, minute)) in
              {Ok(Midnight(created) + (t - WHITELIST_START)), Err(TooLate)}
  {
    var n := |Choices(created, spans)|;
    var raw := Draws(k, n, minute);
    EligibleTimesAre(created, spans, raw);
    assert Intn(raw(n), n) == k;
  }

  /** Every outcome is chosen by some draws. */
  lemma {:induction false} OutcomeIsChosen(created: int, spans: seq<Span>, t: int) returns (raw: nat -> nat)
    requires ValidWhitelist(spans) && Outcome(created, spans, t)
    ensures ExpiryInstant(created, spans, raw) == Ok(t)
  {
    var i, day: nat :| OutcomeOf(created, spans, t, i, day);
    ProjectionIsTranslation(created, spans[i], day);
    DayChoicesMember(created, spans, 0, i, day);
    DayChoicesMember(created, spans, 1, i, day);
    var choices := Choices(created, spans);
    assert (i, day) in choices;
    var k :| 0 <= k < |choices| && choices[k] == (i, day);
    var s := Lift(spans[i], day);
    var projected := t - Midnight(created) + WHITELIST_START;
    LiftWhole(spans[i], day);
    MidnightShift(created, projected);
    assert s.Contains(projected);
    DrawReaches(s, projected);
    var minute: nat := (projected - s.start) / MINUTE;
    raw := Draws(k, |choices|, minute);
    DrawsChoose(created, spans, k, minute);
    ChosenIsOutcome(created, spans, raw);
  }

  /** The outcome set is exact: an instant is an outcome if and only if some draws choose it. */
  lemma {:induction false} ExactOutcomes(created: int, spans: seq<Span>, t: int)
    requires ValidWhitelist(spans)
    ensures Outcome(created, spans, t) <==> exists raw: nat -> nat :: ExpiryInstant(created, spans, raw) == Ok(t)
  {
    if Outcome(created, spans, t) {
      var raw := OutcomeIsChosen(created, spans, t);
      assert ExpiryInstant(created, spans, raw) == Ok(t);
    }
    if exists raw: nat -> nat :: ExpiryInstant(created, spans, raw) == Ok(t) {
      var raw: nat -> nat :| ExpiryInstant(created, spans, raw) == Ok(t);
      ChosenIsOutcome(created, spans, raw);
    }
  }

  /** A span is eligible on one of the two days at most. */
  lemma {:induction false} OneDayOnly(created: int, s: Span)
    requires s.start <= s.end
    ensures !(WithinLife(created, RealSpan(created, s, 0)) && WithinLife(created, RealSpan(created, s, 1)))
  {
  }

  lemma {:induction false} OutcomeOnCircle(created: int, spans: seq<Span>, t: int)
    requires ValidWhitelist(spans) && Outcome(created, spans, t)
    ensures OnCircle(spans, TimeOfDay(t))
  {
    var i, day: nat :| OutcomeOf(created, spans, t, i, day);
    MidnightFacts(created);
    var x := t - Midnight(created) - day * DAY;
    assert spans[i].Contains(WHITELIST_START + x);
    DayParts(t, created / DAY + day, x);
  }

  /** The expiry lies strictly after creation and strictly before creation plus 24 hours, at a time of day inside one
      of the configured windows. */
  lemma {:induction false} OutcomeBounds(created: int, windows: seq<Window>, t: int)
    requires forall i :: 0 <= i < |windows| ==> windows[i].Valid()
    requires Outcome(created, Whitelist(windows), t)
    ensures created < t < created + DAY && WholeMinute(t)
    ensures t < created + 24 * 60 * 60 * 1_000_000_000 && t % 60_000_000_000 == 0
    ensures exists i :: 0 <= i < |windows| && windows[i].Contains(TimeOfDay(t))
  {
    WhitelistValid(windows);
    OutcomeOnCircle(created, Whitelist(windows), t);
    MidnightFacts(t);
    WindowsPreserved(windows, TimeOfDay(t));
  }

  lemma {:induction false} DayParts(t: int, q: int, x: int)
    requires t == q * DAY + x && 0 <= x <= DAY
    ensures TimeOfDay(t) == if x == DAY then 0 else x
  {
    if x == DAY {
      assert t == (q + 1) * DAY;
      WholeDays(q + 1, 0);
    } else {
      WholeDays(q, x);
    }
  }

  lemma {:induction false} WholeDays(q: int, x: int)
    requires 0 <= x < DAY
    ensures (q * DAY + x) % DAY == x
  {
  }

  /** The repository's README.md says that a node is deleted after 12 hours of life. The choice keeps to that exactly
      when no eligible span starts in the first 12 hours. */
  lemma {:induction false} TwelveHoursIff(created: int, spans: seq<Span>)
    requires ValidWhitelist(spans)
    ensures (forall t :: Outcome(created, spans, t) ==> t >= created + DAY / 2)
       <==> (forall i, day: nat :: 0 <= i < |spans| && day < 2 && WithinLife(created, RealSpan(created, spans[i], day))
               ==> RealSpan(created, spans[i], day).start >= created + DAY / 2)
  {
    if forall t :: Outcome(created, spans, t) ==> t >= created + DAY / 2 {
      forall i, day: nat | 0 <= i < |spans| && day < 2 && WithinLife(created, RealSpan(created, spans[i], day))
        ensures RealSpan(created, spans[i], day).start >= created + DAY / 2
      {
        var t := RealSpan(created, spans[i], day).start;
        LiftWhole(spans[i], day);
        MidnightShift(created, Lift(spans[i], day).start);
        assert t == Midnight(created) + (Lift(spans[i], day).start - WHITELIST_START);
        assert OutcomeOf(created, spans, t, i, day);
        assert Outcome(created, spans, t);
      }
    }
  }

  /** A node created at 10:00 with the window 12:00-14:00 may get an expiry two hours later. */
  lemma {:induction false} TwelveHoursExample()
    ensures var created := WHITELIST_START + 600 * MINUTE;
            Outcome(created, Whitelist([Window(720 * MINUTE, 840 * MINUTE)]), created + 120 * MINUTE)
  {
    var created := WHITELIST_START + 600 * MINUTE;
    var windows := [Window(720 * MINUTE, 840 * MINUTE)];
    assert windows[..0] == [] && Whitelist([]) == [];
    var spans := Whitelist(windows);
    assert spans == InsertWindow([], windows[0]);
    assert spans == [Span(WHITELIST_START + 720 * MINUTE, WHITELIST_START + 840 * MINUTE)];
    WholeDays(10957, 600 * MINUTE);
    assert Midnight(created) == WHITELIST_START;
    assert OutcomeOf(created, spans, created + 120 * MINUTE, 0, 0);
    WholeMinutes(10957 * 1440 + 720);
  }

  // ----- failure -----

  /** The span holds the time of day of the creation, seen from either end of the day. */
  ghost predicate Blocked(created: int, s: Span) {
    s.Contains(ProjectedCreation(created)) || s.Contains(ProjectedCreation(created) + DAY)
  }

  /** A span contributes nothing exactly when it holds the creation time of day. */
  lemma {:induction false} BlockedSpan(created: int, s: Span)
    requires WHITELIST_START <= s.start <= s.end <= WHITELIST_END
    ensures Blocked(created, s) <==> !Eligible(created, Lift(s, 0)) && !Eligible(created, Lift(s, 1))
  {
    MidnightFacts(created);
    ProjectionIsTranslation(created, s, 0);
  }

  /** Whatever the draws, no date is found exactly when every span holds the creation time of day. */
  lemma {:induction false} FailsIff(created: int, spans: seq<Span>, raw: nat -> nat)
    requires ValidWhitelist(spans)
    ensures ExpiryInstant(created, spans, raw).Err? <==> forall i :: 0 <= i < |spans| ==> Blocked(created, spans[i])
  {
    ChosenIsOutcome(created, spans, raw);
    EligibleTimesAre(created, spans, raw);
    var choices := Choices(created, spans);
    if choices == [] {
      forall i | 0 <= i < |spans| ensures Blocked(created, spans[i]) {
        DayChoicesMember(created, spans, 0, i, 0);
        DayChoicesMember(created, spans, 1, i, 1);
        BlockedSpan(created, spans[i]);
      }
    } else {
      var (i, day) := choices[0];
      assert choices[0] in choices;
      DayChoicesMember(created, spans, 0, i, day);
      DayChoicesMember(created, spans, 1, i, day);
      BlockedSpan(created, spans[i]);
    }
  }

  /** With three spans or more a date is always found. */
  lemma {:induction false} ThreeSpansSuffice(created: int, spans: seq<Span>, raw: nat -> nat)
    requires ValidWhitelist(spans) && |spans| >= 3
    ensures ExpiryInstant(created, spans, raw).Ok?
  {
    FailsIff(created, spans, raw);
    MidnightFacts(created);
    assert spans[0].end < spans[1].start && spans[1].end < spans[2].start && spans[0].end < spans[2].start;
    assert !(Blocked(created, spans[0]) && Blocked(created, spans[1]) && Blocked(created, spans[2]));
  }

  /** With two spans it fails exactly for a node created at midnight when one span starts and the other ends there. */
  lemma {:induction false} TwoSpansFailIff(created: int, spans: seq<Span>, raw: nat -> nat)
    requires ValidWhitelist(spans) && |spans| == 2
    ensures ExpiryInstant(created, spans, raw).Err?
       <==> TimeOfDay(created) == 0 && spans[0].start == WHITELIST_START && spans[1].end == WHITELIST_END
  {
    FailsIff(created, spans, raw);
    MidnightFacts(created);
    assert spans[0].end < spans[1].start;
    assert (forall i :: 0 <= i < |spans| ==> Blocked(created, spans[i]))
      <==> Blocked(created, spans[0]) && Blocked(created, spans[1]);
  }

  /** With one span it fails exactly for the nodes whose creation time of day lies in it. */
  lemma {:induction false} OneSpanFailsIff(created: int, s: Span, raw: nat -> nat)
    requires ValidWhitelist([s])
    ensures ExpiryInstant(created, [s], raw).Err?
       <==> s.Contains(ProjectedCreation(created)) || (TimeOfDay(created) == 0 && s.end == WHITELIST_END)
  {
    FailsIff(created, [s], raw);
    MidnightFacts(created);
    assert [s][0] == s;
    assert (forall i :: 0 <= i < |[s]| ==> Blocked(created, [s][i])) <==> Blocked(created, s);
  }

  /** A node created at 13:00 with the only window 12:00-14:00 gets no date, whatever the draws. */
  lemma {:induction false} NoDateExample(raw: nat -> nat)
    ensures var spans := Whitelist([Window(720 * MINUTE, 840 * MINUTE)]);
            ValidWhitelist(spans) && ExpiryInstant(WHITELIST_START + 780 * MINUTE, spans, raw) == Err(NoDate)
  {
    var created := WHITELIST_START + 780 * MINUTE;
    var s := Span(WHITELIST_START + 720 * MINUTE, WHITELIST_START + 840 * MINUTE);
    var windows := [Window(720 * MINUTE, 840 * MINUTE)];
    WhitelistValid(windows);
    assert windows[..0] == [] && Whitelist([]) == [];
    assert Whitelist(windows) == InsertWindow([], windows[0]) == [s];
    WholeDays(10957, 780 * MINUTE);
    assert ProjectedCreation(created) == created;
    OneSpanFailsIff(created, s, raw);
    ChosenIsOutcome(created, [s], raw);
  }
}
