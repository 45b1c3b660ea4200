/** The toast provider: the list of visible toasts and the map from toast
    id to auto-close timer handle, with the operations that change them.
    Timer scheduling is replaced by explicit events: `StartTimer` and
    `StopTimer` are the set-up and clean-up of a toast's auto-close effect,
    `Expire` is its timeout firing, `ProgressTick` one firing of its
    progress interval. */
module ToastProviders {
  import opened ToastTypes
  import opened ToastQueue
  import opened ToastProgress

  /** A `setTimeout` handle. Browsers hand out positive handles, so the
      source's `if (timeout)` tests only whether the map has an entry. */
  type Handle = h: int | h > 0 witness 1

  const DefaultMaxToasts: nat := 5
  const DefaultPosition: Position := TopRight

  /** An urgent add drops every earlier urgent record from the list but
      does not cancel its timer: the id is gone from the list while the map
      still holds its handle (until the toast's own clean-up runs). */
  lemma UrgentDropKeepsTimer(prev: seq<Toast>, t: Toast, timers: map<ToastId, Handle>, max: nat, u: Toast)
    requires DistinctIds(prev) && t.id !in IdSet(prev)
    requires t.priority == Urgent && u in prev && u.priority == Urgent && u.id in timers
    ensures u.id !in IdSet(AfterAdd(prev, t, max))
    ensures u.id in timers - IdSet(Evicted(Inserted(prev, t), max))
  {
    var r := Inserted(prev, t);
    assert u.id != t.id;
    forall x | x in r ensures x.id != u.id {
      if x != t {
        assert x in NonUrgent(prev);
        var i :| 0 <= i < |prev| && prev[i] == x;
        var j :| 0 <= j < |prev| && prev[j] == u;
        assert i != j;
      }
    }
    var kept := AfterAdd(prev, t, max);
    var cut := Evicted(r, max);
    assert kept + cut == r;
    forall x | x in kept ensures x.id != u.id {
      assert x in r;
    }
    forall x | x in cut ensures x.id != u.id {
      assert x in r;
    }
  }

  /** Every timer entry belongs to a listed toast with a positive duration. */
  ghost predicate Tracked(toasts: seq<Toast>, timers: map<ToastId, Handle>) {
    forall i :: i in timers ==> exists t :: t in toasts && t.id == i && t.duration > 0
  }

  /** A listed toast whose duration is not positive has no timer entry, so
      no timeout can ever remove it. */
  lemma NoTimerWithoutDuration(toasts: seq<Toast>, timers: map<ToastId, Handle>, t: Toast)
    requires DistinctIds(toasts) && Tracked(toasts, timers)
    requires t in toasts && t.duration <= 0
    ensures t.id !in timers
  {
    if t.id in timers {
      var u :| u in toasts && u.id == t.id && u.duration > 0;
      var i :| 0 <= i < |toasts| && toasts[i] == t;
    }
  }

  /** A non-urgent add keeps every timer entry tied to a listed toast: the
      entries of the records it cuts off are exactly the ones it cancels. */
  lemma AddKeepsTracked(prev: seq<Toast>, t: Toast, timers: map<ToastId, Handle>, max: nat)
    requires Tracked(prev, timers) && t.priority != Urgent
    ensures Tracked(AfterAdd(prev, t, max), timers - IdSet(Evicted(Inserted(prev, t), max)))
  {
    var r := Inserted(prev, t);
    var kept := AfterAdd(prev, t, max);
    var cut := Evicted(r, max);
    assert kept + cut == r;
    assert r == [t] + prev;
    forall i | i in timers - IdSet(cut)
      ensures exists u :: u in kept && u.id == i && u.duration > 0
    {
      var u :| u in prev && u.id == i && u.duration > 0;
      assert u in r;
      assert u !in cut;
    }
  }

  /** Removing an id and its entry keeps every other entry tied to a listed
      toast. */
  lemma RemoveKeepsTracked(toasts: seq<Toast>, timers: map<ToastId, Handle>, id: ToastId)
    requires Tracked(toasts, timers)
    ensures Tracked(Without(toasts, id), timers - {id})
  {
    forall i | i in timers - {id}
      ensures exists u :: u in Without(toasts, id) && u.id == i && u.duration > 0
    {
      var u :| u in toasts && u.id == i && u.duration > 0;
      assert u in Without(toasts, id);
    }
  }

  class ToastProvider {
    const maxToasts: nat
    const defaultPosition: Position
    var toasts: seq<Toast>
    var timers: map<ToastId, Handle>

    /** Ids are distinct and the list respects the ceiling. */
    ghost predicate Valid()
      reads this
    {
      DistinctIds(toasts) && |toasts| <= maxToasts
    }

    /** Every timer belongs to a listed toast with a positive duration. */
    ghost predicate TimersTracked()
      reads this
    {
      Tracked(toasts, timers)
    }

    constructor (maxToasts: nat, defaultPosition: Position)
      ensures Valid() && TimersTracked()
      ensures this.maxToasts == maxToasts && this.defaultPosition == defaultPosition
      ensures toasts == [] && timers == map[]
    {
      this.maxToasts := maxToasts;
      this.defaultPosition := defaultPosition;
      toasts := [];
      timers := map[];
    }

    /** A provider mounted without configuration. */
    constructor Default()
      ensures Valid() && TimersTracked()
      ensures maxToasts == 5 && defaultPosition == TopRight
      ensures toasts == [] && timers == map[]
    {
      maxToasts := DefaultMaxToasts;
      defaultPosition := DefaultPosition;
      toasts := [];
      timers := map[];
    }

    /** `addToast`, with the fresh id it draws passed in: the defaulted
        record goes on top (alone with the non-urgent records when it is
        urgent), the list is cut to the ceiling, and the timers of the cut
        records are cancelled. */
    method AddToast(data: ToastArgs, id: ToastId)
      requires Valid() && id !in IdSet(toasts)
      modifies this
      ensures Valid()
      ensures toasts == AfterAdd(old(toasts), NewToast(data, id, defaultPosition), maxToasts)
      ensures timers == old(timers) - IdSet(Evicted(Inserted(old(toasts), NewToast(data, id, defaultPosition)), maxToasts))
      ensures forall t :: t in Evicted(Inserted(old(toasts), NewToast(data, id, defaultPosition)), maxToasts)
                ==> t.id !in timers
      ensures old(TimersTracked()) && NewToast(data, id, defaultPosition).priority != Urgent ==> TimersTracked()
    {
      var newToast := NewToast(data, id, defaultPosition);
      ghost var prev := toasts;
      var updated := [newToast] + toasts;
      if newToast.priority == Urgent {
        updated := [newToast] + NonUrgent(toasts);
      }
      assert updated == Inserted(prev, newToast);
      if |updated| > maxToasts {
        var toRemove := updated[maxToasts..];
        var i := 0;
        while i < |toRemove|
          invariant 0 <= i <= |toRemove|
          invariant timers == old(timers) - IdSet(toRemove[..i])
        {
          var tid := toRemove[i].id;
          if tid in timers {
            timers := timers - {tid};
          }
          assert toRemove[..i + 1] == toRemove[..i] + [toRemove[i]];
          IdSetAppend(toRemove[..i], [toRemove[i]]);
          i := i + 1;
        }
        assert toRemove[..i] == toRemove;
        updated := updated[..maxToasts];
      }
      toasts := updated;
      AfterAddDistinct(prev, newToast, maxToasts);
      AfterAddIds(prev, newToast, maxToasts);
      if newToast.priority != Urgent && old(TimersTracked()) {
        AddKeepsTracked(prev, newToast, old(timers), maxToasts);
      }
    }

    /** `removeToast`: the records with this id leave the list, the others
        keep their order, and its timer entry is cancelled; no later timer
        event can name the id. */
    method RemoveToast(id: ToastId)
      requires Valid()
      modifies this
      ensures Valid()
      ensures toasts == Without(old(toasts), id)
      ensures timers == old(timers) - {id}
      ensures id !in IdSet(toasts) && id !in timers
      ensures old(TimersTracked()) ==> TimersTracked()
    {
      WithoutDistinct(toasts, id);
      if TimersTracked() {
        RemoveKeepsTracked(toasts, timers, id);
      }
      toasts := Without(toasts, id);
      if id in timers {
        timers := timers - {id};
      }
    }

    /** `clearAll`: every toast and every timer is gone. */
    method ClearAll()
      requires Valid()
      modifies this
      ensures Valid() && TimersTracked()
      ensures toasts == [] && timers == map[]
    {
      toasts := [];
      timers := map[];
    }

    /** Set-up of the auto-close effect of a mounted toast, which reads that
        toast's own id and duration: a timer is registered only for a
        positive duration. */
    method StartTimer(t: Toast, handle: Handle)
      requires Valid() && t in toasts
      modifies this
      ensures Valid() && toasts == old(toasts)
      ensures timers == if t.duration > 0 then old(timers)[t.id := handle] else old(timers)
      ensures old(TimersTracked()) ==> TimersTracked()
    {
      if t.duration > 0 {
        timers := timers[t.id := handle];
      }
    }

    /** Clean-up of a toast's auto-close effect (unmount or re-run): its
        timer is cancelled and its entry deleted. */
    method StopTimer(id: ToastId)
      requires Valid()
      modifies this
      ensures Valid() && toasts == old(toasts)
      ensures timers == old(timers) - {id}
      ensures old(TimersTracked()) ==> TimersTracked()
    {
      timers := timers - {id};
    }

    /** The auto-close timeout of a toast firing; only a registered timer
        can fire. It closes the toast. */
    method Expire(id: ToastId)
      requires Valid() && id in timers
      modifies this
      ensures Valid()
      ensures toasts == Without(old(toasts), id)
      ensures timers == old(timers) - {id}
      ensures old(TimersTracked()) ==> TimersTracked()
    {
      RemoveToast(id);
    }

    /** One firing of a mounted toast's progress interval; when the bar
        reaches 0 the toast is closed. */
    method ProgressTick(timer: ToastTimer) returns (closed: bool)
      requires Valid() && timer.Valid()
      modifies this, timer
      ensures Valid() && timer.Valid()
      ensures timer.paused == old(timer.paused)
      ensures timer.progress == NextProgress(old(timer.progress), timer.duration, timer.showProgress, timer.paused)
      ensures closed <==> Ticks(timer.showProgress, timer.duration) && !timer.paused && timer.progress == 0.0
      ensures closed ==> toasts == Without(old(toasts), timer.id) && timers == old(timers) - {timer.id}
      ensures !closed ==> toasts == old(toasts) && timers == old(timers)
      ensures old(TimersTracked()) ==> TimersTracked()
    {
      closed := timer.Tick();
      if closed {
        RemoveToast(timer.id);
      }
    }
  }
}
