/** What the model assumes of timespanset, the library set of time spans: inserting is union, spans that overlap or
    touch are merged, and enumeration is ascending. The library itself is not part of this model. */
module TimeSpans {
  import opened Common

  datatype Span = Span(start: int, end: int) {
    predicate Contains(t: int) { start <= t <= end }
  }

  /** Ascending spans, none of which touches another. */
  ghost predicate Canonical(spans: seq<Span>) {
    && (forall i :: 0 <= i < |spans| ==> spans[i].start <= spans[i].end)
    && (forall i, j :: 0 <= i < j < |spans| ==> spans[i].end < spans[j].start)
  }

  ghost predicate Covered(spans: seq<Span>, t: int) {
    exists i :: 0 <= i < |spans| && spans[i].Contains(t)
  }

  function Insert(spans: seq<Span>, x: Span): seq<Span> {
    if spans == [] then [x]
    else if spans[0].end < x.start then [spans[0]] + Insert(spans[1..], x)
    else if x.end < spans[0].start then [x] + spans
    else Insert(spans[1..], Span(Min(spans[0].start, x.start), Max(spans[0].end, x.end)))
  }

  /** Every bound of the result is a bound of the arguments. */
  ghost predicate Bound(spans: seq<Span>, t: int) {
    exists i :: 0 <= i < |spans| && (t == spans[i].start || t == spans[i].end)
  }

  lemma {:induction false} InsertBounds(spans: seq<Span>, x: Span, t: int)
    requires Bound(Insert(spans, x), t)
    ensures Bound(spans, t) || t == x.start || t == x.end
    decreases |spans|
  {
    if spans != [] && spans[0].end < x.start {
      var rest := Insert(spans[1..], x);
      var i :| 0 <= i < |rest| + 1 && (t == ([spans[0]] + rest)[i].start || t == ([spans[0]] + rest)[i].end);
      if i == 0 {
        assert t == spans[0].start || t == spans[0].end;
      } else {
        assert t == rest[i - 1].start || t == rest[i - 1].end;
        InsertBounds(spans[1..], x, t);
        BoundTail(spans, t);
      }
    } else if spans != [] && x.end < spans[0].start {
      var i :| 0 <= i < |spans| + 1 && (t == ([x] + spans)[i].start || t == ([x] + spans)[i].end);
      if i > 0 {
        assert t == spans[i - 1].start || t == spans[i - 1].end;
      }
    } else if spans != [] {
      InsertBounds(spans[1..], Span(Min(spans[0].start, x.start), Max(spans[0].end, x.end)), t);
      BoundTail(spans, t);
    }
  }

  lemma {:induction false} BoundTail(spans: seq<Span>, t: int)
    requires spans != []
    ensures Bound(spans[1..], t) ==> Bound(spans, t)
    ensures t == spans[0].start || t == spans[0].end ==> Bound(spans, t)
  {
    if Bound(spans[1..], t) {
      var i :| 0 <= i < |spans| - 1 && (t == spans[1..][i].start || t == spans[1..][i].end);
      assert t == spans[i + 1].start || t == spans[i + 1].end;
    }
  }

  /** Inserting keeps the set canonical; nothing of it lies below the old first span and the new one. */
  lemma {:induction false} InsertCanonical(spans: seq<Span>, x: Span)
    requires Canonical(spans) && x.start <= x.end
    ensures Canonical(Insert(spans, x)) && Insert(spans, x) != []
    ensures Insert(spans, x)[0].start == if spans == [] then x.start else Min(spans[0].start, x.start)
    decreases |spans|
  {
    if spans != [] {
      if spans[0].end < x.start {
        InsertCanonical(spans[1..], x);
        var rest := Insert(spans[1..], x);
        forall j | 0 <= j < |rest| ensures spans[0].end < rest[j].start {
          assert rest[0].start <= rest[0].end;
          assert j > 0 ==> rest[0].end < rest[j].start;
        }
      } else if x.end < spans[0].start {
        var all := [x] + spans;
        forall j | 0 < j < |all| ensures x.end < all[j].start {
          assert j > 1 ==> spans[0].end < spans[j - 1].start;
        }
      } else {
        InsertCanonical(spans[1..], Span(Min(spans[0].start, x.start), Max(spans[0].end, x.end)));
      }
    }
  }

  /** Inserting is union. */
  lemma {:induction false} InsertCovers(spans: seq<Span>, x: Span, t: int)
    requires Canonical(spans) && x.start <= x.end
    ensures Covered(Insert(spans, x), t) <==> Covered(spans, t) || x.Contains(t)
    decreases |spans|
  {
    if spans == [] {
      assert Insert(spans, x)[0] == x;
    } else {
      CoveredCons(spans[0], spans[1..], t);
      assert [spans[0]] + spans[1..] == spans;
      if spans[0].end < x.start {
        InsertCovers(spans[1..], x, t);
        CoveredCons(spans[0], Insert(spans[1..], x), t);
      } else if x.end < spans[0].start {
        CoveredCons(x, spans, t);
      } else {
        InsertCovers(spans[1..], Span(Min(spans[0].start, x.start), Max(spans[0].end, x.end)), t);
      }
    }
  }

  lemma {:induction false} CoveredCons(x: Span, spans: seq<Span>, t: int)
    ensures Covered([x] + spans, t) <==> x.Contains(t) || Covered(spans, t)
  {
    var all := [x] + spans;
    if x.Contains(t) {
      assert all[0].Contains(t);
    }
    if Covered(spans, t) {
      var i :| 0 <= i < |spans| && spans[i].Contains(t);
      assert all[i + 1].Contains(t);
    }
    if Covered(all, t) {
      var i :| 0 <= i < |all| && all[i].Contains(t);
      assert i > 0 ==> spans[i - 1].Contains(t);
    }
  }
}
