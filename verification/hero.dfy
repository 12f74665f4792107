/**
 * The hero accordion of ime.js (lines 6-114): a fixed list of `.panel`
 * elements, each with an `active` flag, driven by hover, click, a debounced
 * scroll spy and a 3000 ms autoplay timer that all funnel into `activatePanel`.
 */
module Hero {
  import opened Flags

  ghost predicate AtMostOneActive(s: seq<bool>)
  {
    forall i, j :: 0 <= i < j < |s| ==> !(s[i] && s[j])
  }

  /** The flags after `activatePanel(p)`: unchanged if p is already active, otherwise p alone. */
  function Activated(s: seq<bool>, p: nat): (r: seq<bool>)
    requires p < |s|
    ensures |r| == |s| && r[p]
  {
    if s[p] then s else OnlyAt(|s|, p)
  }

  /** With at most one panel active beforehand, p is the only active panel afterwards. */
  lemma ActivatedIsOnly(s: seq<bool>, p: nat)
    requires p < |s| && AtMostOneActive(s)
    ensures Activated(s, p) == OnlyAt(|s|, p)
  {
  }

  /** The panel an autoplay tick activates: the one after the last active panel, or after panel 0 when none is active. */
  function TickTarget(s: seq<bool>): (p: nat)
    requires |s| > 0
    ensures p < |s|
  {
    var k := LastSet(s, |s|);
    ((if k < 0 then 0 else k) + 1) % |s|
  }

  /** From panel k alone active, a tick leaves panel k + 1 (wrapping) alone active. */
  lemma TickMovesOn(s: seq<bool>, k: nat)
    requires AtMostOneActive(s) && k < |s| && s[k]
    ensures Activated(s, TickTarget(s)) == OnlyAt(|s|, (k + 1) % |s|)
  {
  }

  /** The flags after the scroll spy has activated, in list order, every panel it found centred among the first k. */
  function ActivateCentred(s: seq<bool>, centred: seq<bool>, k: nat): (r: seq<bool>)
    requires |centred| == |s| && k <= |s|
    ensures |r| == |s|
  {
    if k == 0 then s
    else
      var t := ActivateCentred(s, centred, k - 1);
      if centred[k - 1] then Activated(t, k - 1) else t
  }

  /** The last position below k whose flag is set, if any. */
  function LastSet(c: seq<bool>, k: nat): (r: int)
    requires k <= |c|
    ensures -1 <= r < k
    ensures r >= 0 ==> c[r]
    ensures forall j :: r < j < k ==> !c[j]
  {
    if k == 0 then -1 else if c[k - 1] then k - 1 else LastSet(c, k - 1)
  }

  /**
   * From a state with at most one active panel, the scroll spy leaves exactly the
   * last centred panel active, and changes nothing when no panel is centred.
   */
  lemma {:induction false} ActivateCentredLast(s: seq<bool>, centred: seq<bool>, k: nat)
    requires |centred| == |s| && k <= |s| && AtMostOneActive(s)
    ensures LastSet(centred, k) == -1 ==> ActivateCentred(s, centred, k) == s
    ensures LastSet(centred, k) >= 0 ==> ActivateCentred(s, centred, k) == OnlyAt(|s|, LastSet(centred, k))
  {
    if k > 0 {
      ActivateCentredLast(s, centred, k - 1);
      var t := ActivateCentred(s, centred, k - 1);
      if centred[k - 1] {
        assert AtMostOneActive(t);
        ActivatedIsOnly(t, k - 1);
      }
    }
  }

  class HeroPanels {
    const panels: array<bool>
    var isUserInteracting: bool
    /** Whether the autoplay interval is still set (`clearInterval` not yet called). */
    var autoPlaying: bool

    /** Page load: the markup's flags, no interaction yet, autoplay started (ime.js:9, 114). */
    constructor (markup: seq<bool>)
      ensures fresh(panels) && panels[..] == markup
      ensures !isUserInteracting && autoPlaying
    {
      panels := new bool[|markup|](i requires 0 <= i < |markup| => markup[i]);
      isUserInteracting := false;
      autoPlaying := true;
    }

    method RemoveActiveClasses()
      modifies panels
      ensures forall i :: 0 <= i < panels.Length ==> !panels[i]
    {
      for i := 0 to panels.Length
        invariant forall j :: 0 <= j < i ==> !panels[j]
      {
        panels[i] := false;
      }
    }

    method ActivatePanel(p: nat)
      requires p < panels.Length
      modifies panels
      ensures panels[..] == Activated(old(panels[..]), p)
    {
      if panels[p] {
        return;
      }
      RemoveActiveClasses();
      panels[p] := true;
    }

    /**
     * `focusPanel` and the hover handler: stop autoplay and activate p. The
     * centring scroll of narrow viewports is layout work and is not modelled.
     */
    method Focus(p: nat)
      requires p < panels.Length
      modifies this, panels
      ensures !autoPlaying && isUserInteracting == old(isUserInteracting)
      ensures panels[..] == Activated(old(panels[..]), p)
    {
      autoPlaying := false;
      ActivatePanel(p);
    }

    /** The index the autoplay tick starts from: the last active panel, or 0 when none is. */
    method ActiveIndex() returns (k: nat)
      ensures panels.Length == 0 ==> k == 0
      ensures panels.Length > 0 ==> k < panels.Length
      ensures (exists i :: 0 <= i < panels.Length && panels[i]) ==> panels[k] && forall j :: k < j < panels.Length ==> !panels[j]
      ensures (forall i :: 0 <= i < panels.Length ==> !panels[i]) ==> k == 0
    {
      k := 0;
      for i := 0 to panels.Length
        invariant panels.Length > 0 ==> k < panels.Length
        invariant k <= i || k == 0
        invariant (exists j :: 0 <= j < i && panels[j]) ==> panels[k] && forall j :: k < j < i ==> !panels[j]
        invariant (forall j :: 0 <= j < i ==> !panels[j]) ==> k == 0
      {
        if panels[i] {
          k := i;
        }
      }
    }

    /**
     * One autoplay tick. A cleared interval delivers no tick. While the user is
     * interacting the tick is skipped; otherwise the panel after the last active
     * one (wrapping) is activated, through `focusPanel` on narrow viewports,
     * which also stops autoplay. With no panels `panels[NaN]` is undefined and
     * `activatePanel` throws: ok is false and only the narrow path's
     * `stopAutoPlay` has happened.
     */
    method Tick(narrow: bool) returns (ok: bool)
      modifies this, panels
      ensures isUserInteracting == old(isUserInteracting)
      ensures !old(autoPlaying) || old(isUserInteracting) ==> ok && panels[..] == old(panels[..]) && autoPlaying == old(autoPlaying)
      ensures old(autoPlaying) && !old(isUserInteracting) ==>
        ok == (panels.Length > 0) &&
        autoPlaying == !narrow &&
        (panels.Length == 0 ==> panels[..] == old(panels[..])) &&
        (panels.Length > 0 ==> panels[..] == Activated(old(panels[..]), TickTarget(old(panels[..]))))
    {
      ok := true;
      if !autoPlaying || isUserInteracting {
        return;
      }
      var k := ActiveIndex();
      if panels.Length == 0 {
        if narrow {
          autoPlaying := false;
        }
        ok := false;
        return;
      }
      var next := (k + 1) % panels.Length;
      if narrow {
        Focus(next);
      } else {
        ActivatePanel(next);
      }
    }

    /** A scroll of the hero container: autoplay stops and the user counts as interacting. */
    method ScrollStart()
      modifies this
      ensures !autoPlaying && isUserInteracting
    {
      autoPlaying := false;
      isUserInteracting := true;
    }

    /**
     * The debounced scroll-spy callback. Which panels lie within 50px of the
     * container's centre is a layout measurement, given as `centred`.
     */
    method ScrollSettle(centred: seq<bool>)
      requires |centred| == panels.Length
      modifies this, panels
      ensures !isUserInteracting && autoPlaying == old(autoPlaying)
      ensures panels[..] == ActivateCentred(old(panels[..]), centred, |centred|)
    {
      for i := 0 to |centred|
        invariant autoPlaying == old(autoPlaying)
        invariant panels[..] == ActivateCentred(old(panels[..]), centred, i)
      {
        if centred[i] {
          ActivatePanel(i);
        }
      }
      isUserInteracting := false;
    }
  }
}
