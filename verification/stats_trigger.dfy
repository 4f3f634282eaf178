/** The one-shot trigger of the main page's stats section: `onScroll` runs
    once at load and then on every scroll event while it is still listening;
    the first time the section's top edge is more than 100 pixels above the
    bottom of the viewport it starts the counters, sets `statsAnimated` and
    detaches itself. */
module StatsTrigger {

  /** The trigger's own state: the `statsAnimated` flag and whether
      `onScroll` is still registered as a scroll listener. */
  datatype Trigger = Trigger(animated: bool, listening: bool)

  /** State right after the listener is registered, before the eager call. */
  const Initial: Trigger := Trigger(false, true)

  /** What `onScroll` can see of the page when it runs: whether a
      `.stats-section` element exists, the top of its bounding rectangle and
      the viewport height. */
  datatype Viewport = Viewport(sectionPresent: bool, sectionTop: real, innerHeight: int)

  /** Early-trigger margin in pixels. */
  const Margin: int := 100

  /** The visibility test: the section exists and its top edge is above the
      viewport height less the margin. */
  predicate InView(v: Viewport)
  {
    v.sectionPresent && v.sectionTop < (v.innerHeight - Margin) as real
  }

  /** A trigger state that can occur on the page: the flag is set exactly
      when the listener has been removed. */
  predicate Consistent(t: Trigger)
  {
    t.animated == !t.listening
  }

  /** One call of `onScroll`: the new trigger state and whether this call
      started the counter animation. */
  function OnScroll(t: Trigger, v: Viewport): (r: (Trigger, bool))
    ensures r.1 <==> !t.animated && InView(v)
    ensures r.1 ==> r.0 == Trigger(true, false)
    ensures !r.1 ==> r.0 == t
  {
    if !t.animated && v.sectionPresent && v.sectionTop < (v.innerHeight - Margin) as real then
      (Trigger(true, false), true)
    else
      (t, false)
  }

  /** A scroll event: the handler runs only while it is registered. */
  function Dispatch(t: Trigger, v: Viewport): (r: (Trigger, bool))
    ensures r.1 <==> t.listening && !t.animated && InView(v)
    ensures !r.1 ==> r.0 == t
    ensures Consistent(t) ==> Consistent(r.0)
  {
    if t.listening then OnScroll(t, v) else (t, false)
  }

  /** A run of scroll events from state `t`: the final state and how many
      times the counters were started. */
  function Scrolls(t: Trigger, events: seq<Viewport>): (Trigger, nat)
    decreases |events|
  {
    if |events| == 0 then (t, 0)
    else
      var (t1, fired) := Dispatch(t, events[0]);
      var (t2, n) := Scrolls(t1, events[1..]);
      (t2, n + (if fired then 1 else 0))
  }

  /** A page lifetime: the eager call at load sees `atLoad`, then each
      scroll event in turn. Returns the final state and the number of times
      the counters were started. */
  function PageLifetime(atLoad: Viewport, events: seq<Viewport>): (r: (Trigger, nat))
    ensures r.1 <= 1
    ensures Consistent(r.0)
    ensures InView(atLoad) ==> r == (Trigger(true, false), 1)
  {
    var (t0, fired) := OnScroll(Initial, atLoad);
    if fired then
      AnimatedIsFinal(t0, events);
      var (t, n) := Scrolls(t0, events);
      (t, n + 1)
    else
      ScrollsFireOnce(t0, events);
      Scrolls(t0, events)
  }

  /** Once the flag is set, no scroll event starts anything or changes the
      state. */
  lemma {:induction false} AnimatedIsFinal(t: Trigger, events: seq<Viewport>)
    requires Consistent(t) && t.animated
    ensures Scrolls(t, events) == (t, 0)
  {
    if |events| > 0 {
      AnimatedIsFinal(t, events[1..]);
    }
  }

  /** From a state that has not fired, a run of scroll events fires at most
      once, fires exactly when some event sees the section in view, and the
      flag ends set exactly then. */
  lemma {:induction false} ScrollsFireOnce(t: Trigger, events: seq<Viewport>)
    requires Consistent(t) && !t.animated
    ensures Scrolls(t, events).1 <= 1
    ensures Scrolls(t, events).1 == 1 <==> exists i :: 0 <= i < |events| && InView(events[i])
    ensures Consistent(Scrolls(t, events).0)
    ensures Scrolls(t, events).0.animated <==> Scrolls(t, events).1 == 1
  {
    if |events| > 0 {
      var (t1, fired) := Dispatch(t, events[0]);
      if fired {
        AnimatedIsFinal(t1, events[1..]);
        assert InView(events[0]);
      } else {
        assert t1 == t;
        ScrollsFireOnce(t, events[1..]);
        assert !InView(events[0]);
        if exists i :: 0 <= i < |events| && InView(events[i]) {
          var i :| 0 <= i < |events| && InView(events[i]);
          assert InView(events[1..][i - 1]);
        }
        if exists j :: 0 <= j < |events| - 1 && InView(events[1..][j]) {
          var j :| 0 <= j < |events| - 1 && InView(events[1..][j]);
          assert InView(events[j + 1]);
        }
      }
    }
  }

  /** Over a whole page lifetime the counters start at most once, and they
      start exactly when the load-time check or some later scroll event sees
      the section in view. */
  lemma FiresAtMostOnce(atLoad: Viewport, events: seq<Viewport>)
    ensures PageLifetime(atLoad, events).1 <= 1
    ensures PageLifetime(atLoad, events).1 == 1 <==>
              InView(atLoad) || exists i :: 0 <= i < |events| && InView(events[i])
    ensures PageLifetime(atLoad, events).0.animated <==> PageLifetime(atLoad, events).1 == 1
  {
    var (t0, fired) := OnScroll(Initial, atLoad);
    if fired {
      AnimatedIsFinal(t0, events);
    } else {
      ScrollsFireOnce(t0, events);
    }
  }
}
