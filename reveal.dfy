/** Reveal-on-scroll (js/main.js:173-201): every `[data-animate]` element is
    revealed once, the first time it is reported intersecting, and then no
    longer observed; without IntersectionObserver all are revealed at once. */
module Reveal {

  /** One IntersectionObserver entry: its target and whether it intersects. */
  datatype Entry = Entry(target: nat, isIntersecting: bool)

  /** The observed elements this batch reveals. */
  function Hits(entries: seq<Entry>, pending: set<nat>): (h: set<nat>)
    ensures h <= pending
    ensures forall e :: e in entries && e.isIntersecting && e.target in pending ==> e.target in h
    ensures forall t :: t in h ==> exists e :: e in entries && e.isIntersecting && e.target == t
  {
    set e | e in entries && e.isIntersecting && e.target in pending :: e.target
  }

  class Tracker {
    /** The `[data-animate]` elements, by position in the document. */
    const elements: set<nat>
    /** Elements still observed. */
    var pending: set<nat>
    /** Elements whose "animated" class has been added or scheduled. */
    var revealed: set<nat>

    ghost predicate Valid()
      reads this
    {
      pending !! revealed && pending + revealed == elements
    }

    /** Start observing every element, or, when there is none or the runtime
        lacks IntersectionObserver, reveal them all. */
    constructor (elements: set<nat>, observerSupported: bool)
      ensures Valid() && this.elements == elements
      ensures elements != {} && observerSupported ==> pending == elements && revealed == {}
      ensures !(elements != {} && observerSupported) ==> pending == {} && revealed == elements
    {
      this.elements := elements;
      if elements != {} && observerSupported {
        pending, revealed := elements, {};
      } else {
        pending, revealed := {}, elements;
      }
    }

    /** The observer callback on one batch of entries. An intersecting entry
        for an observed element reveals it and stops observing it; entries for
        elements no longer observed are never delivered, so they change nothing. */
    method OnEntries(entries: seq<Entry>)
      requires Valid()
      modifies this`pending, this`revealed
      ensures Valid()
      ensures revealed == old(revealed) + Hits(entries, old(pending))
      ensures pending == old(pending) - Hits(entries, old(pending))
    {
      ghost var before := pending;
      var i := 0;
      while i < |entries|
        invariant 0 <= i <= |entries|
        invariant Valid()
        invariant revealed == old(revealed) + Hits(entries[..i], before)
        invariant pending == before - Hits(entries[..i], before)
      {
        var e := entries[i];
        assert entries[..i + 1] == entries[..i] + [e];
        if e.isIntersecting && e.target in pending {
          revealed := revealed + {e.target};
          pending := pending - {e.target};
        }
        assert Hits(entries[..i + 1], before) == Hits(entries[..i], before)
          + (if e.isIntersecting && e.target in before then {e.target} else {});
        i := i + 1;
      }
      assert entries[..i] == entries;
    }
  }

  /** Reveals are one-shot: once revealed, later batches leave an element revealed
      and cannot report it again, since it is no longer pending. */
  lemma {:induction false} RevealIsOneShot(entries: seq<Entry>, pending: set<nat>, revealed: set<nat>, el: nat)
    requires pending !! revealed && el in revealed
    ensures el !in Hits(entries, pending)
    ensures el in revealed + Hits(entries, pending)
  {
  }
}
