/** The per-toast progress countdown: a counter that starts at 100, steps
    down every 50 ms by `100 * 50 / duration`, clamps at 0, stands still
    while the pointer hovers a pausable toast, and asks for the toast to be
    closed once it is at 0. Wall-clock scheduling is replaced by explicit
    tick events; progress is an exact real. */
module ToastProgress {
  import opened ToastTypes

  /** The sampling interval of the progress counter, in milliseconds. */
  const IntervalMs: int := 50

  /** How far one sample moves the counter for a toast of `duration` ms. */
  function Step(duration: int): (r: real)
    requires duration > 0
    ensures r > 0.0
  {
    (100.0 / duration as real) * IntervalMs as real
  }

  /** `duration` steps empty a full bar `IntervalMs` times over. */
  lemma StepTimesDuration(duration: int)
    requires duration > 0
    ensures Step(duration) * duration as real == 100.0 * IntervalMs as real
  {
  }

  /** Whether a toast runs the progress interval at all. */
  predicate Ticks(showProgress: bool, duration: int) {
    showProgress && duration > 0
  }

  /** The counter after one interval firing. */
  function NextProgress(p: real, duration: int, showProgress: bool, paused: bool): (r: real)
    ensures 0.0 <= p ==> 0.0 <= r <= p
    ensures !Ticks(showProgress, duration) || paused ==> r == p
  {
    if !Ticks(showProgress, duration) || paused then p
    else if p - Step(duration) > 0.0 then p - Step(duration)
    else 0.0
  }

  /** The counter after a run of firings, `pauses[i]` telling whether the
      toast was hovered during the i-th one. */
  function RunTicks(p: real, duration: int, showProgress: bool, pauses: seq<bool>): (r: real)
    ensures 0.0 <= p ==> 0.0 <= r <= p
    ensures !Ticks(showProgress, duration) ==> r == p
    decreases |pauses|
  {
    if pauses == [] then p
    else RunTicks(NextProgress(p, duration, showProgress, pauses[0]), duration, showProgress, pauses[1..])
  }

  /** The number of firings that happened while not hovered. */
  function Unpaused(pauses: seq<bool>): nat {
    if pauses == [] then 0 else (if pauses[0] then 0 else 1) + Unpaused(pauses[1..])
  }

  /** The counter after `k` firings while not hovered. */
  function ProgressAfter(p: real, duration: int, k: nat): real
    decreases k
  {
    if k == 0 then p else ProgressAfter(NextProgress(p, duration, true, false), duration, k - 1)
  }

  /** Hovering only freezes the counter: after any run of firings it
      stands where the unhovered firings alone would have put it. */
  lemma {:induction false} PausedTicksFreeze(p: real, duration: int, pauses: seq<bool>)
    ensures RunTicks(p, duration, true, pauses) == ProgressAfter(p, duration, Unpaused(pauses))
    decreases |pauses|
  {
    if pauses != [] {
      var q := NextProgress(p, duration, true, pauses[0]);
      PausedTicksFreeze(q, duration, pauses[1..]);
      if !pauses[0] {
        ProgressAfterShift(p, duration, Unpaused(pauses[1..]));
      }
    }
  }

  /** One unhovered firing followed by `k` more is `k + 1` firings. */
  lemma {:induction false} ProgressAfterShift(p: real, duration: int, k: nat)
    ensures ProgressAfter(NextProgress(p, duration, true, false), duration, k) == ProgressAfter(p, duration, k + 1)
  {
  }

  /** After `k` unhovered firings the counter is `max(0, p - k * step)`. */
  lemma {:induction false} ProgressAfterClosedForm(p: real, duration: int, k: nat)
    requires duration > 0 && p >= 0.0
    ensures var q := p - k as real * Step(duration);
      ProgressAfter(p, duration, k) == if q > 0.0 then q else 0.0
    decreases k
  {
    if k > 0 {
      var s := Step(duration);
      var p' := NextProgress(p, duration, true, false);
      ProgressAfterClosedForm(p', duration, k - 1);
      if p - s <= 0.0 {
        assert p - k as real * s <= p - s by {
          assert k as real * s >= s;
        }
      }
    }
  }

  /** From a full bar, the counter reaches 0 after exactly the number of
      firings whose 50 ms add up to at least `duration`. */
  lemma ReachesZeroAfter(duration: int, k: nat)
    requires duration > 0
    ensures ProgressAfter(100.0, duration, k) == 0.0 <==> IntervalMs * k >= duration
  {
    ProgressAfterClosedForm(100.0, duration, k);
    StepTimesDuration(duration);
    var s := Step(duration);
    var d := duration as real;
    var kk := k as real;
    var q := 100.0 - kk * s;
    assert q * d == 100.0 * d - kk * (s * d);
    assert q * d == 100.0 * (d - 50.0 * kk);
    if IntervalMs * k >= duration {
      assert d - 50.0 * kk <= 0.0;
      if q > 0.0 {
        PositiveProduct(q, d);
        assert false;
      }
    } else {
      assert d - 50.0 * kk > 0.0;
      if q <= 0.0 {
        NonPositiveProduct(q, d);
        assert false;
      }
    }
  }

  lemma PositiveProduct(a: real, b: real)
    requires a > 0.0 && b > 0.0
    ensures a * b > 0.0
  {
  }

  lemma NonPositiveProduct(a: real, b: real)
    requires a <= 0.0 && b > 0.0
    ensures a * b <= 0.0
  {
  }

  /** The countdown state of one mounted toast. */
  class ToastTimer {
    const id: ToastId
    const duration: int
    const showProgress: bool
    const pauseOnHover: bool
    var progress: real
    var paused: bool

    ghost predicate Valid()
      reads this
    {
      0.0 <= progress <= 100.0
    }

    /** A freshly mounted toast: full bar, not hovered. */
    constructor (t: Toast)
      ensures Valid()
      ensures id == t.id && duration == t.duration
      ensures showProgress == t.showProgress && pauseOnHover == t.pauseOnHover
      ensures progress == 100.0 && !paused
    {
      id := t.id;
      duration := t.duration;
      showProgress := t.showProgress;
      pauseOnHover := t.pauseOnHover;
      progress := 100.0;
      paused := false;
    }

    /** One firing of the 50 ms interval; `close` is the request to remove
        the toast. */
    method Tick() returns (close: bool)
      requires Valid()
      modifies this
      ensures Valid() && paused == old(paused)
      ensures progress == NextProgress(old(progress), duration, showProgress, paused)
      ensures progress <= old(progress)
      ensures close <==> Ticks(showProgress, duration) && !paused && progress == 0.0
    {
      close := false;
      if Ticks(showProgress, duration) && !paused {
        var step := Step(duration);
        progress := if progress - step > 0.0 then progress - step else 0.0;
        close := progress <= 0.0;
      }
    }

    /** The pointer entering (`hovered`) or leaving the toast; only a
        pausable toast reacts. */
    method SetPaused(hovered: bool)
      requires Valid()
      modifies this
      ensures Valid() && progress == old(progress)
      ensures paused == if pauseOnHover then hovered else old(paused)
    {
      if pauseOnHover {
        paused := hovered;
      }
    }
  }
}
