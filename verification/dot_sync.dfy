/**
 * The mobile dot indicator of script.js (lines 111-129): when a `.feature-card`
 * is reported intersecting the scroller and carries `data-index`, the dot at
 * that index becomes the only active dot.
 *
 * `data-index` is modelled as an optional integer. The source indexes the dot
 * list with the attribute's text; an index with no dot behind it yields
 * `undefined`, whose `classList` throws, ending the callback with every dot
 * already cleared.
 */
module DotSync {
  import opened Wrappers
  import opened Flags

  datatype CardEntry = CardEntry(dataIndex: Option<int>, isIntersecting: bool)

  /** An entry that makes the callback touch the dots. */
  predicate Syncs(e: CardEntry)
  {
    e.isIntersecting && e.dataIndex.Some?
  }

  /** Every entry that touches the dots names a dot that exists. */
  predicate InRange(entries: seq<CardEntry>, n: nat)
  {
    forall e :: e in entries && Syncs(e) ==> 0 <= e.dataIndex.value < n
  }

  /** The index of the last entry that touches the dots, if any. */
  function LastSync(entries: seq<CardEntry>): (r: Option<int>)
    ensures r.None? <==> forall e :: e in entries ==> !Syncs(e)
    ensures r.Some? ==> exists e :: e in entries && Syncs(e) && e.dataIndex.value == r.value
  {
    if entries == [] then None
    else
      var last := entries[|entries| - 1];
      if Syncs(last) then last.dataIndex
      else
        assert entries == entries[..|entries| - 1] + [last];
        LastSync(entries[..|entries| - 1])
  }

  class DotIndicator {
    const dots: array<bool>

    /** The observer exists only when the page has cards and dots (script.js:113). */
    constructor (markup: seq<bool>)
      requires |markup| > 0
      ensures fresh(dots) && dots[..] == markup
    {
      dots := new bool[|markup|](i requires 0 <= i < |markup| => markup[i]);
    }

    /** `dots.forEach(d => d.classList.remove('active'))`. */
    method ClearDots()
      modifies dots
      ensures forall i :: 0 <= i < dots.Length ==> !dots[i]
    {
      for i := 0 to dots.Length
        invariant forall j :: 0 <= j < i ==> !dots[j]
      {
        dots[i] := false;
      }
    }

    /**
     * The observer callback. ok is false when an entry named a missing dot:
     * the source throws there, after clearing every dot, and the entries
     * after it are not handled.
     */
    method Callback(entries: seq<CardEntry>) returns (ok: bool)
      modifies dots
      ensures ok <==> InRange(entries, dots.Length)
      ensures ok && LastSync(entries).None? ==> dots[..] == old(dots[..])
      ensures ok && LastSync(entries).Some? ==> dots[..] == OnlyAt(dots.Length, LastSync(entries).value)
      ensures !ok ==> forall i :: 0 <= i < dots.Length ==> !dots[i]
    {
      ok := true;
      var k := 0;
      while k < |entries|
        invariant 0 <= k <= |entries|
        invariant InRange(entries[..k], dots.Length)
        invariant LastSync(entries[..k]).None? ==> dots[..] == old(dots[..])
        invariant LastSync(entries[..k]).Some? ==> dots[..] == OnlyAt(dots.Length, LastSync(entries[..k]).value)
      {
        var e := entries[k];
        assert entries[..k + 1] == entries[..k] + [e];
        assert entries[..k + 1][..k] == entries[..k];
        if e.isIntersecting && e.dataIndex.Some? {
          ClearDots();
          var index := e.dataIndex.value;
          if !(0 <= index < dots.Length) {
            assert !InRange(entries, dots.Length) by {
              assert e in entries;
            }
            ok := false;
            return;
          }
          dots[index] := true;
          assert dots[..] == OnlyAt(dots.Length, index);
        }
        k := k + 1;
      }
      assert entries[..k] == entries;
    }
  }

  /**
   * One more card in a batch: an intersecting card with `data-index` k decides
   * the dots; any other card leaves the outcome as it was.
   */
  lemma LastSyncAppend(entries: seq<CardEntry>, e: CardEntry)
    ensures LastSync(entries + [e]) == if Syncs(e) then e.dataIndex else LastSync(entries)
  {
  }
}
