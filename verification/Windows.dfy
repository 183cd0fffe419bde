/** The shifter's window check (pkg/shifter/interval.go) and how it compares with the spotter's reading of a window. */
module Windows {
  import opened Clock
  import opened Expiry

  /** Is the time of day inside the window? */
  predicate TimeWithinWLIntervalCheck(start: int, end: int, check: int) {
    if start < end then !(check < start) && !(check > end)
    else if start == end then check == start
    else check > start || check < end
  }

  /** For two different times the windows from one to the other and back split the day. */
  lemma {:induction false} WindowAndBackPartition(a: int, b: int, x: int)
    requires a != b
    ensures TimeWithinWLIntervalCheck(a, b, x) <==> !TimeWithinWLIntervalCheck(b, a, x)
  {
    if a < b {
      assert TimeWithinWLIntervalCheck(b, a, x) <==> x > b || x < a;
    } else {
      assert TimeWithinWLIntervalCheck(a, b, x) <==> x > a || x < b;
    }
  }

  /** The check agrees with membership in the spans the spotter builds from the same window, except at the two ends of a
      window that wraps around midnight: the spotter counts them in, the check does not. */
  lemma {:induction false} CheckAgreesWithWhitelist(w: Window, x: int)
    requires w.Valid() && 0 <= x < DAY
    ensures (TimeWithinWLIntervalCheck(w.start, w.end, x) <==> OnCircle(Whitelist([w]), x))
       <==> !(w.end < w.start && (x == w.start || x == w.end))
  {
    WindowsPreserved([w], x);
    assert [w][0] == w;
    assert (exists i :: 0 <= i < |[w]| && [w][i].Contains(x)) <==> w.Contains(x);
  }

  /** The shifter's list of windows. */
  class IntervalList {
    var whiteListIntervals: seq<Window>

    constructor ()
      ensures whiteListIntervals == []
    {
      whiteListIntervals := [];
    }

    /** Whatever it held before, the list holds the configured windows, in order. */
    method InitWhitelist(wlStr: seq<(int, int)>)
      modifies this
      ensures |whiteListIntervals| == |wlStr|
      ensures forall i :: 0 <= i < |wlStr| ==> whiteListIntervals[i] == Window(wlStr[i].0, wlStr[i].1)
    {
      whiteListIntervals := [];
      for i := 0 to |wlStr|
        invariant |whiteListIntervals| == i
        invariant forall j :: 0 <= j < i ==> whiteListIntervals[j] == Window(wlStr[j].0, wlStr[j].1)
      {
        whiteListIntervals := whiteListIntervals + [Window(wlStr[i].0, wlStr[i].1)];
      }
    }
  }
}
