/** The polling of a drain (waitforDrainToFinish in pkg/killer/node.go): the elapsed time is compared with the timeout
    in 32 bits. What that test sees, when it is right, and when a drain ends. */
module DrainClock {
  import opened Common
  import opened Pods

  const WRAP := 0x1_0000_0000

  /** The conversion of the elapsed milliseconds to 32 bits. */
  function Truncated(ms: int): nat { ms % WRAP }

  /** What the k-th reading of a drain says has elapsed since its start. */
  ghost function Elapsed(clock: (nat, nat) -> int, drain: nat, k: nat): int { clock(drain, k) - clock(drain, 0) }

  /** The k-th reading of a drain makes the code give up. */
  ghost predicate Fires(clock: (nat, nat) -> int, timeout: nat, drain: nat, k: nat) {
    k > 0 && Truncated(Elapsed(clock, drain, k)) >= timeout
  }

  /** No reading before the k-th makes it give up. */
  ghost predicate Patient(clock: (nat, nat) -> int, timeout: nat, drain: nat, k: nat) {
    forall j: nat :: 0 < j < k ==> !Fires(clock, timeout, drain, j)
  }

  ghost function Gap(clock: (nat, nat) -> int, drain: nat, k: nat): int {
    Elapsed(clock, drain, k + 1) - Elapsed(clock, drain, k)
  }

  /** From one reading of a drain to the next the clock does not go back, and not further on than g. */
  ghost predicate GapsWithin(clock: (nat, nat) -> int, drain: nat, g: int) {
    forall k: nat :: 0 <= Gap(clock, drain, k) <= g
  }

  /** The gaps leave the timeout out of what 32 bits can tell apart. */
  ghost predicate Steady(clock: (nat, nat) -> int, timeout: nat, drain: nat) {
    timeout < WRAP && GapsWithin(clock, drain, WRAP - timeout)
  }

  /** A poll takes at least a millisecond. */
  ghost predicate Ticking(clock: (nat, nat) -> int, drain: nat) {
    forall k: nat :: 1 <= Gap(clock, drain, k)
  }

  lemma {:induction false} ElapsedGrows(clock: (nat, nat) -> int, timeout: nat, drain: nat, k: nat)
    requires Steady(clock, timeout, drain)
    ensures Elapsed(clock, drain, k) >= 0
    ensures Ticking(clock, drain) ==> Elapsed(clock, drain, k) >= k
  {
    if k > 0 {
      ElapsedGrows(clock, timeout, drain, k - 1);
      assert 0 <= Gap(clock, drain, k - 1);
    }
  }

  /** On a steady clock the code gives up at the first reading at which the timeout has passed, and at no other. */
  lemma {:induction false} SteadyFires(clock: (nat, nat) -> int, timeout: nat, drain: nat, k: nat)
    requires Steady(clock, timeout, drain) && k > 0 && Patient(clock, timeout, drain, k)
    ensures Fires(clock, timeout, drain, k) <==> Elapsed(clock, drain, k) >= timeout
    decreases k
  {
    if k > 1 {
      SteadyFires(clock, timeout, drain, k - 1);
      assert !Fires(clock, timeout, drain, k - 1);
    }
    ElapsedGrows(clock, timeout, drain, k - 1);
    assert 0 <= Gap(clock, drain, k - 1) <= WRAP - timeout;
    DeadlineSeen(Elapsed(clock, drain, k - 1), Elapsed(clock, drain, k), timeout);
  }

  /** On a steady clock the code gives up at a reading at which the timeout has passed, or before. */
  lemma {:induction false} SteadyBounded(clock: (nat, nat) -> int, timeout: nat, drain: nat, k: nat)
    requires Steady(clock, timeout, drain) && k > 0 && Elapsed(clock, drain, k) >= timeout
    ensures exists j: nat :: j <= k && Fires(clock, timeout, drain, j)
  {
    if Patient(clock, timeout, drain, k) {
      SteadyFires(clock, timeout, drain, k);
      assert Fires(clock, timeout, drain, k);
    }
  }

  /** On a steady clock on which each poll takes a millisecond the code gives up within as many polls as the timeout has
      milliseconds, if nothing else ended the drain before. */
  lemma {:induction false} TickingFires(clock: (nat, nat) -> int, timeout: nat, drain: nat)
    requires Steady(clock, timeout, drain) && Ticking(clock, drain)
    ensures exists k: nat :: k <= Max(1, timeout) && Fires(clock, timeout, drain, k)
  {
    ElapsedGrows(clock, timeout, drain, Max(1, timeout));
    SteadyBounded(clock, timeout, drain, Max(1, timeout));
  }

  // ----- how far apart polls may be -----

  /** The test does what it is meant to do: it gives up at the first reading at which the timeout has passed. */
  ghost predicate Exact(clock: (nat, nat) -> int, timeout: nat, drain: nat) {
    forall k: nat :: k > 0 && Patient(clock, timeout, drain, k) ==>
      (Fires(clock, timeout, drain, k) <==> Elapsed(clock, drain, k) >= timeout)
  }

  /** One poll that takes a millisecond more than the bound is enough to overlook the timeout. */
  lemma {:induction false} GapTooLong(timeout: nat) returns (clock: (nat, nat) -> int)
    requires 0 < timeout < WRAP
    ensures GapsWithin(clock, 0, WRAP - timeout + 1) && !Exact(clock, timeout, 0)
  {
    clock := (drain, k) => if k < timeout then k else WRAP;
    forall j: nat | 0 < j < timeout ensures !Fires(clock, timeout, 0, j) {
      assert Truncated(Elapsed(clock, 0, j)) == j;
    }
    assert Elapsed(clock, 0, timeout) == WRAP && !Fires(clock, timeout, 0, timeout);
  }

  /** The exact bound: the test is right on all clocks whose gaps are at most g if and only if g is at most 2^32 ms
      minus the timeout. */
  lemma {:induction false} SafeGapIff(timeout: nat, g: int)
    requires 0 < timeout < WRAP
    ensures g <= WRAP - timeout <==>
              forall clock: (nat, nat) -> int, drain: nat ::
                GapsWithin(clock, drain, g) ==> Exact(clock, timeout, drain)
  {
    if g <= WRAP - timeout {
      forall clock: (nat, nat) -> int, drain: nat | GapsWithin(clock, drain, g) ensures Exact(clock, timeout, drain) {
        WiderGaps(clock, drain, g, WRAP - timeout);
        forall k: nat | k > 0 && Patient(clock, timeout, drain, k)
          ensures Fires(clock, timeout, drain, k) <==> Elapsed(clock, drain, k) >= timeout
        {
          SteadyFires(clock, timeout, drain, k);
        }
      }
    } else {
      var clock := GapTooLong(timeout);
      WiderGaps(clock, 0, WRAP - timeout + 1, g);
      assert GapsWithin(clock, 0, g) && !Exact(clock, timeout, 0);
    }
  }

  lemma {:induction false} WiderGaps(clock: (nat, nat) -> int, drain: nat, g: int, h: int)
    requires GapsWithin(clock, drain, g) && g <= h
    ensures GapsWithin(clock, drain, h)
  {
    forall k: nat ensures 0 <= Gap(clock, drain, k) <= h {
      assert Gap(clock, drain, k) <= g;
    }
  }

  /** The truncated test overlooks a deadline that has passed exactly when the elapsed time has wrapped to below it. */
  lemma {:induction false} DeadlineOverlooked(elapsed: nat, timeout: nat)
    requires timeout < WRAP
    ensures elapsed >= timeout && !(Truncated(elapsed) >= timeout)
       <==> elapsed / WRAP > 0 && elapsed % WRAP < timeout
    ensures elapsed < timeout ==> !(Truncated(elapsed) >= timeout)
  {
    assert elapsed == elapsed / WRAP * WRAP + elapsed % WRAP;
  }

  /** Checked often enough, the truncated test is the test meant: the last check saw less than the timeout (or was the
      start), and since then the clock gained no more than what is left of 32 bits. */
  lemma {:induction false} DeadlineSeen(last: nat, elapsed: nat, timeout: nat)
    requires timeout < WRAP && (last == 0 || last < timeout)
    requires elapsed <= last + WRAP - timeout
    ensures Truncated(elapsed) >= timeout <==> elapsed >= timeout
  {
    assert timeout > 0 && elapsed == WRAP ==> last > 0;
  }

  /** It does happen: with a poll that takes 2^32 ms a drain with the configured 300000 ms goes on as if no time had
      passed, although the next poll ends it. */
  lemma {:induction false} DeadlineOverlookedExample() returns (clock: (nat, nat) -> int)
    ensures Elapsed(clock, 0, 1) == 4_294_967_296 && !Fires(clock, 300000, 0, 1) && Fires(clock, 300000, 0, 2)
  {
    clock := (drain, k) => if k == 0 then 0 else if k == 1 then WRAP else WRAP + 300000;
    assert Elapsed(clock, 0, 2) == WRAP + 300000;
  }

  // ----- the end of a drain -----

  /** What getPodsToBeDeleted makes of the answer to a listing. */
  function Remaining(answer: Option<seq<Pod>>): Option<seq<Pod>> {
    if answer.None? then None else Some(ToBeDeleted(answer.value))
  }

  /** The k-th poll of a drain ends it: its listing fails, or leaves nothing to delete, or the test after it fires. */
  ghost predicate Ends(clock: (nat, nat) -> int, listings: (nat, nat) -> Option<seq<Pod>>, timeout: nat, drain: nat,
                       k: nat) {
    k > 0 && (Remaining(listings(drain, k - 1)) in {None, Some([])} || Fires(clock, timeout, drain, k))
  }

  /** No poll before the k-th ends it. */
  ghost predicate Undecided(clock: (nat, nat) -> int, listings: (nat, nat) -> Option<seq<Pod>>, timeout: nat,
                            drain: nat, k: nat) {
    forall j: nat :: 0 < j < k ==> !Ends(clock, listings, timeout, drain, j)
  }

  /** Some poll ends the drain. */
  ghost predicate Finite(clock: (nat, nat) -> int, listings: (nat, nat) -> Option<seq<Pod>>, timeout: nat, drain: nat) {
    exists k: nat :: Ends(clock, listings, timeout, drain, k)
  }

  /** The drain ended at its k-th poll, with this success. */
  ghost predicate EndsAt(clock: (nat, nat) -> int, listings: (nat, nat) -> Option<seq<Pod>>, timeout: nat, drain: nat,
                         k: nat, ok: bool) {
    && Ends(clock, listings, timeout, drain, k) && Undecided(clock, listings, timeout, drain, k)
    && (ok <==> Remaining(listings(drain, k - 1)) == Some([]))
  }

  /** Each of the drains numbered above `first` and up to `last` ended as it has to under the timeout. */
  ghost predicate DrainsEnd(clock: (nat, nat) -> int, listings: (nat, nat) -> Option<seq<Pod>>, timeout: nat,
                            first: nat, last: nat) {
    forall drain: nat :: first < drain <= last ==> DrainEnds(clock, listings, timeout, drain)
  }

  ghost predicate DrainEnds(clock: (nat, nat) -> int, listings: (nat, nat) -> Option<seq<Pod>>, timeout: nat,
                            drain: nat) {
    exists polls: nat, ok :: EndsAt(clock, listings, timeout, drain, polls, ok)
  }

  lemma {:induction false} OneMoreDrain(clock: (nat, nat) -> int, listings: (nat, nat) -> Option<seq<Pod>>,
                                        timeout: nat, first: nat, last: nat, next: nat, polls: nat, ok: bool)
    requires DrainsEnd(clock, listings, timeout, first, last)
    requires next == last || (next == last + 1 && EndsAt(clock, listings, timeout, next, polls, ok))
    ensures DrainsEnd(clock, listings, timeout, first, next)
  {
    assert next == last + 1 ==> DrainEnds(clock, listings, timeout, next);
  }

  lemma {:induction false} UndecidedLonger(clock: (nat, nat) -> int, listings: (nat, nat) -> Option<seq<Pod>>,
                                           timeout: nat, drain: nat, k: nat, last: nat)
    requires Undecided(clock, listings, timeout, drain, k) && !Ends(clock, listings, timeout, drain, k)
    requires k <= last && Ends(clock, listings, timeout, drain, last)
    ensures Undecided(clock, listings, timeout, drain, k + 1) && k < last
  {
  }

  /** A drain does not poll beyond the first reading at which the test gives up; on a steady clock with a millisecond
      per poll that is one poll per millisecond of the timeout at most. */
  lemma {:induction false} InTime(clock: (nat, nat) -> int, listings: (nat, nat) -> Option<seq<Pod>>, timeout: nat,
                                  drain: nat, polls: nat, ok: bool)
    requires EndsAt(clock, listings, timeout, drain, polls, ok)
    ensures forall k: nat :: Fires(clock, timeout, drain, k) ==> polls <= k
    ensures Steady(clock, timeout, drain) && Ticking(clock, drain) ==> polls <= Max(1, timeout)
  {
    forall k: nat | Fires(clock, timeout, drain, k) ensures polls <= k {
      assert Ends(clock, listings, timeout, drain, k);
    }
    if Steady(clock, timeout, drain) && Ticking(clock, drain) {
      TickingFires(clock, timeout, drain);
    }
  }

  /** On a steady clock a drain fails exactly when its last listing failed, or left pods to delete and the timeout had
      passed. */
  lemma {:induction false} DrainFailsIff(clock: (nat, nat) -> int, listings: (nat, nat) -> Option<seq<Pod>>,
                                         timeout: nat, drain: nat, polls: nat, ok: bool)
    requires EndsAt(clock, listings, timeout, drain, polls, ok) && Steady(clock, timeout, drain)
    ensures !ok <==> listings(drain, polls - 1).None?
                     || (Remaining(listings(drain, polls - 1)) != Some([]) && Elapsed(clock, drain, polls) >= timeout)
  {
    forall j: nat | 0 < j < polls ensures !Fires(clock, timeout, drain, j) {
      assert !Ends(clock, listings, timeout, drain, j);
    }
    SteadyFires(clock, timeout, drain, polls);
  }

  /** On a steady clock with a millisecond per poll every drain ends. */
  lemma {:induction false} TickingFinite(clock: (nat, nat) -> int, listings: (nat, nat) -> Option<seq<Pod>>,
                                         timeout: nat, drain: nat)
    requires Steady(clock, timeout, drain) && Ticking(clock, drain)
    ensures Finite(clock, listings, timeout, drain)
  {
    TickingFires(clock, timeout, drain);
    var k: nat :| k <= Max(1, timeout) && Fires(clock, timeout, drain, k);
    assert Ends(clock, listings, timeout, drain, k);
  }
}
