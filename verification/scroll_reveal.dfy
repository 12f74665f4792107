/**
 * The scroll reveal of ime.js (lines 119-137): every `.reveal` element is
 * observed, and the first time it is reported intersecting it gains `active`
 * and is no longer observed. Whether an element intersects (the 15% threshold
 * and the -50px bottom margin) is the browser's judgement, given as input.
 */
module ScrollReveal {

  /** One IntersectionObserver entry: the position of its target among the `.reveal` elements. */
  datatype Entry = Entry(target: nat, isIntersecting: bool)

  /** Some entry reports element i intersecting. */
  ghost predicate Hit(entries: seq<Entry>, i: nat)
  {
    exists e :: e in entries && e.target == i && e.isIntersecting
  }

  class RevealObserver {
    /** The `active` flag of every `.reveal` element. */
    const active: array<bool>
    /** Whether each element is still observed. */
    var observed: seq<bool>

    /** Page load: every `.reveal` element is observed. */
    constructor (markup: seq<bool>)
      ensures fresh(active) && active[..] == markup
      ensures observed == seq(|markup|, i => true)
    {
      active := new bool[|markup|](i requires 0 <= i < |markup| => markup[i]);
      observed := seq(|markup|, i => true);
    }

    /** The observer callback: reveal each intersecting target and stop observing it. */
    method Callback(entries: seq<Entry>)
      requires |observed| == active.Length
      requires forall e :: e in entries ==> e.target < active.Length
      modifies this, active
      ensures |observed| == active.Length
      ensures forall i :: 0 <= i < active.Length ==> active[i] == (old(active[i]) || Hit(entries, i))
      ensures forall i :: 0 <= i < active.Length ==> observed[i] == (old(observed[i]) && !Hit(entries, i))
    {
      for k := 0 to |entries|
        invariant forall i :: 0 <= i < active.Length ==> active[i] == (old(active[i]) || Hit(entries[..k], i))
        invariant |observed| == active.Length
        invariant forall i :: 0 <= i < active.Length ==> observed[i] == (old(observed[i]) && !Hit(entries[..k], i))
      {
        var e := entries[k];
        assert entries[..k + 1] == entries[..k] + [e];
        if e.isIntersecting {
          active[e.target] := true;
          observed := observed[e.target := false];
        }
      }
      assert entries[..|entries|] == entries;
    }
  }

  /** A revealed element stays revealed through any sequence of callbacks. */
  method RevealIsPermanent(o: RevealObserver, batches: seq<seq<Entry>>, i: nat)
    requires i < o.active.Length && o.active[i] && |o.observed| == o.active.Length
    requires forall b, e :: b in batches && e in b ==> e.target < o.active.Length
    modifies o, o.active
    ensures o.active[i]
  {
    for k := 0 to |batches|
      invariant o.active[i] && |o.observed| == o.active.Length
    {
      assert batches[k] in batches;
      o.Callback(batches[k]);
    }
  }
}
