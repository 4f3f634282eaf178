/** The entrance-animation reveal of the product pages. At load every
    element carrying one of the `animate-fade-*` classes gets its animation
    paused and is handed to an intersection observer; the first time the
    observer reports it as intersecting, its animation is set running and it
    is no longer observed. Observer geometry (the 10% threshold) is not
    modelled: an entry's `isIntersecting` is an input. */
module Reveal {
  import opened Dom

  /** The inline `animation-play-state` of an element; `Unset` before the
      setup code writes it. */
  datatype PlayState = Unset | Paused | Running

  /** An element of the page as the reveal code sees it. */
  datatype Element = Element(classes: ClassList, play: PlayState, observed: bool)

  /** An intersection observer entry: the index of its target element on the
      page and whether the target is intersecting. */
  datatype Entry = Entry(target: nat, isIntersecting: bool)

  /** The selector `.animate-fade-up, .animate-fade-right, .animate-fade-left`. */
  predicate IsRevealTarget(e: Element)
  {
    "animate-fade-up" in e.classes || "animate-fade-right" in e.classes ||
    "animate-fade-left" in e.classes
  }

  /** Setup at load: pause and observe every reveal target. */
  function Setup(page: seq<Element>): (r: seq<Element>)
    ensures |r| == |page|
    ensures forall i :: 0 <= i < |page| && IsRevealTarget(page[i]) ==>
              r[i] == page[i].(play := Paused, observed := true)
    ensures forall i :: 0 <= i < |page| && !IsRevealTarget(page[i]) ==> r[i] == page[i]
  {
    seq(|page|, i requires 0 <= i < |page| =>
      if IsRevealTarget(page[i]) then page[i].(play := Paused, observed := true) else page[i])
  }

  /** The observer callback on one entry: an intersecting entry sets its
      target running and unobserves it; any other entry changes nothing. */
  function OnEntry(e: Element, isIntersecting: bool): (r: Element)
    ensures !isIntersecting ==> r == e
    ensures isIntersecting ==> r.play == Running && !r.observed && r.classes == e.classes
  {
    if isIntersecting then e.(play := Running, observed := false) else e
  }

  /** Entries are only ever reported for elements on the page that are
      observed when the batch is queued. */
  predicate Deliverable(page: seq<Element>, entries: seq<Entry>)
  {
    forall k :: 0 <= k < |entries| ==>
      entries[k].target < |page| && page[entries[k].target].observed
  }

  /** Some entry of the batch reports element `i` as intersecting. */
  predicate Hit(entries: seq<Entry>, i: nat)
  {
    exists k :: 0 <= k < |entries| && entries[k].target == i && entries[k].isIntersecting
  }

  /** The observer callback on a batch, processing entries in order. The
      page keeps its elements and their classes, and an element no entry
      names is left alone. */
  function Callback(page: seq<Element>, entries: seq<Entry>): (r: seq<Element>)
    requires forall k :: 0 <= k < |entries| ==> entries[k].target < |page|
    ensures |r| == |page|
    ensures forall i :: 0 <= i < |page| ==> r[i].classes == page[i].classes
    ensures forall i :: 0 <= i < |page| && (forall k :: 0 <= k < |entries| ==> entries[k].target != i) ==>
              r[i] == page[i]
    decreases |entries|
  {
    if |entries| == 0 then page
    else
      var t := entries[0].target;
      Callback(page[t := OnEntry(page[t], entries[0].isIntersecting)], entries[1..])
  }

  /** The effect of a batch on each element: an element some entry reports
      as intersecting ends running and unobserved; every other element is
      unchanged. */
  lemma {:induction false} CallbackEffect(page: seq<Element>, entries: seq<Entry>)
    requires forall k :: 0 <= k < |entries| ==> entries[k].target < |page|
    ensures forall i :: 0 <= i < |page| && Hit(entries, i) ==>
              Callback(page, entries)[i] == page[i].(play := Running, observed := false)
    ensures forall i :: 0 <= i < |page| && !Hit(entries, i) ==>
              Callback(page, entries)[i] == page[i]
    decreases |entries|
  {
    if |entries| > 0 {
      var t := entries[0].target;
      var page1 := page[t := OnEntry(page[t], entries[0].isIntersecting)];
      var rest := entries[1..];
      CallbackEffect(page1, rest);
      forall i | 0 <= i < |page|
        ensures Hit(entries, i) ==> Callback(page, entries)[i] == page[i].(play := Running, observed := false)
        ensures !Hit(entries, i) ==> Callback(page, entries)[i] == page[i]
      {
        if Hit(rest, i) {
          var k :| 0 <= k < |rest| && rest[k].target == i && rest[k].isIntersecting;
          assert entries[k + 1] == rest[k];
        }
        if i == t && entries[0].isIntersecting {
          assert Hit(entries, i);
        } else if Hit(entries, i) {
          var k :| 0 <= k < |entries| && entries[k].target == i && entries[k].isIntersecting;
          assert k > 0;
          assert rest[k - 1] == entries[k];
          assert Hit(rest, i);
        }
      }
    }
  }

  /** A state of the page that setup and the observer can produce: every
      reveal target is either paused and observed or running and
      unobserved; no other element is observed. */
  predicate Reachable(page: seq<Element>)
  {
    forall i :: 0 <= i < |page| ==>
      if IsRevealTarget(page[i]) then
        (page[i].play == Paused && page[i].observed) ||
        (page[i].play == Running && !page[i].observed)
      else !page[i].observed
  }

  /** Right after setup every reveal target is paused and observed, from a
      page on which nothing is observed yet. */
  lemma SetupPausesTargets(page: seq<Element>)
    requires forall i :: 0 <= i < |page| ==> !page[i].observed
    ensures Reachable(Setup(page))
    ensures forall i :: 0 <= i < |page| && IsRevealTarget(page[i]) ==>
              Setup(page)[i].play == Paused
  {
  }

  /** A delivered batch keeps the page reachable, never sets a running
      element back, starts exactly the observed elements it reports as
      intersecting, and leaves non-intersecting reports without effect. */
  lemma CallbackPreservesReachable(page: seq<Element>, entries: seq<Entry>)
    requires Reachable(page) && Deliverable(page, entries)
    ensures Reachable(Callback(page, entries))
    ensures forall i :: 0 <= i < |page| && page[i].play == Running ==>
              Callback(page, entries)[i] == page[i]
    ensures forall i :: 0 <= i < |page| ==>
              (Callback(page, entries)[i].play == Running <==>
               page[i].play == Running || Hit(entries, i))
  {
    CallbackEffect(page, entries);
    forall i | 0 <= i < |page| && Hit(entries, i)
      ensures IsRevealTarget(page[i])
    {
      var k :| 0 <= k < |entries| && entries[k].target == i && entries[k].isIntersecting;
      assert page[entries[k].target].observed;
    }
  }

  /** The entries the observer hands over for a batch the browser queued:
      only those whose target is still observed. */
  function Observed(page: seq<Element>, entries: seq<Entry>): (r: seq<Entry>)
    ensures Deliverable(page, r)
    ensures forall k :: 0 <= k < |r| ==> r[k] in entries
    ensures forall k :: (0 <= k < |entries| && entries[k].target < |page| &&
                         page[entries[k].target].observed) ==> entries[k] in r
    decreases |entries|
  {
    if |entries| == 0 then []
    else
      var rest := Observed(page, entries[1..]);
      if entries[0].target < |page| && page[entries[0].target].observed then
        [entries[0]] + rest
      else
        rest
  }

  /** A page lifetime of the reveal code: setup, then one callback per batch
      of reported entries. */
  function Batches(page: seq<Element>, batches: seq<seq<Entry>>): (r: seq<Element>)
    ensures |r| == |page|
    decreases |batches|
  {
    if |batches| == 0 then page
    else Batches(Callback(page, Observed(page, batches[0])), batches[1..])
  }

  /** Over any run of batches a reachable page stays reachable, a running
      element stays running, and an element never reported as intersecting
      keeps its state: a target that never scrolls into view stays paused. */
  lemma {:induction false} RevealIsOneShot(page: seq<Element>, batches: seq<seq<Entry>>)
    requires Reachable(page)
    ensures Reachable(Batches(page, batches))
    ensures forall i :: 0 <= i < |page| && page[i].play == Running ==>
              Batches(page, batches)[i] == page[i]
    ensures forall i :: (0 <= i < |page| &&
                         forall b :: 0 <= b < |batches| ==> !Hit(batches[b], i)) ==>
              Batches(page, batches)[i] == page[i]
    decreases |batches|
  {
    if |batches| > 0 {
      var delivered := Observed(page, batches[0]);
      var page1 := Callback(page, delivered);
      CallbackPreservesReachable(page, delivered);
      CallbackEffect(page, delivered);
      RevealIsOneShot(page1, batches[1..]);
      forall i | 0 <= i < |page| && (forall b :: 0 <= b < |batches| ==> !Hit(batches[b], i))
        ensures Batches(page, batches)[i] == page[i]
      {
        assert !Hit(batches[0], i);
        forall b | 0 <= b < |batches[1..]| ensures !Hit(batches[1..][b], i) {
          assert batches[1..][b] == batches[b + 1];
        }
      }
    }
  }
}
