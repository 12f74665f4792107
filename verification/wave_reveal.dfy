/**
 * The reveal logic of script.js (lines 4-108). `.reveal-up` elements gain
 * `active` when an observer reports them or when `initialCheck` finds them on
 * screen; a click on one of three navigation triggers takes a page-wide lock,
 * hides its target group, re-reveals the group in a wave of timers 150 ms
 * apart, and releases the lock 1000 ms after the last reveal.
 *
 * Timers are not run by an event loop here: a click returns the timers it
 * schedules as (delay, action) pairs, delays counted from the click, and
 * `Fire` performs one action.
 */
module WaveReveal {
  import opened ScrollReveal

  const Step: nat := 150
  const Base: nat := 300
  const UnlockAfter: nat := 1000

  datatype Action = Reveal(target: nat) | Unlock
  datatype Timer = Timer(delay: nat, action: Action)

  /**
   * The timers of one wave over `targets`: target i is revealed at i*150+300 ms;
   * the last reveal schedules the unlock 1000 ms after itself. No target, no timer.
   */
  ghost predicate IsWaveSchedule(targets: seq<nat>, schedule: seq<Timer>)
  {
    var n := |targets|;
    |schedule| == (if n == 0 then 0 else n + 1) &&
    (forall i :: 0 <= i < n ==> schedule[i] == Timer(i * Step + Base, Reveal(targets[i]))) &&
    (n > 0 ==> schedule[n] == Timer((n - 1) * Step + Base + UnlockAfter, Unlock))
  }

  /** The `forEach` over the wave targets that sets one timer per position. */
  method ScheduleWave(targets: seq<nat>) returns (schedule: seq<Timer>)
    ensures IsWaveSchedule(targets, schedule)
  {
    schedule := [];
    for i := 0 to |targets|
      invariant |schedule| == i
      invariant forall j :: 0 <= j < i ==> schedule[j] == Timer(j * Step + Base, Reveal(targets[j]))
    {
      schedule := schedule + [Timer(i * Step + Base, Reveal(targets[i]))];
    }
    if |targets| > 0 {
      schedule := schedule + [Timer((|targets| - 1) * Step + Base + UnlockAfter, Unlock)];
    }
  }

  /** Reveal times strictly increase with position, 150 ms apart, the first at 300 ms; the unlock comes last. */
  lemma WaveOrdered(targets: seq<nat>, schedule: seq<Timer>)
    requires IsWaveSchedule(targets, schedule)
    ensures forall i, j :: 0 <= i < j < |schedule| ==> schedule[i].delay < schedule[j].delay
    ensures forall i :: 0 <= i < |targets| - 1 ==> schedule[i + 1].delay == schedule[i].delay + Step
    ensures |targets| > 0 ==> schedule[0].delay == Base
  {
  }

  /**
   * With at least one target the lock is released by exactly one timer, at
   * (n-1)*150+1300 ms, 1000 ms after the last reveal; with none it is never released.
   */
  lemma UnlockOnce(targets: seq<nat>, schedule: seq<Timer>)
    requires IsWaveSchedule(targets, schedule)
    ensures |targets| == 0 ==> schedule == []
    ensures forall k :: 0 <= k < |schedule| ==> (schedule[k].action == Unlock <==> k == |targets|)
    ensures |targets| > 0 ==> schedule[|targets|].delay == (|targets| - 1) * 150 + 1300
    ensures |targets| > 0 ==> schedule[|targets|].delay == schedule[|targets| - 1].delay + UnlockAfter
  {
  }

  /** Three targets: reveals at 300, 450 and 600 ms, unlock at 1600 ms. */
  lemma ThreeTargetWave(targets: seq<nat>, schedule: seq<Timer>)
    requires |targets| == 3 && IsWaveSchedule(targets, schedule)
    ensures [schedule[0].delay, schedule[1].delay, schedule[2].delay, schedule[3].delay] == [300, 450, 600, 1600]
  {
  }

  /** Some `.reveal-up` element at position j has its top above the bottom of the viewport. */
  ghost predicate OnScreen(revealUp: seq<nat>, tops: seq<real>, viewportHeight: real, j: nat)
    requires |tops| == |revealUp|
  {
    exists i :: 0 <= i < |revealUp| && revealUp[i] == j && tops[i] < viewportHeight
  }

  class WavePage {
    /** The `active` flag of every element the script touches: `.reveal-up`, `.feature-card`, `.mission-box`. */
    const active: array<bool>
    /** The positions of the `.reveal-up` elements among them. */
    const revealUp: seq<nat>
    var isAutoScrolling: bool

    ghost predicate Valid()
      reads this
    {
      forall i :: 0 <= i < |revealUp| ==> revealUp[i] < active.Length
    }

    /**
     * `initialCheck`: each `.reveal-up` element whose top (a layout
     * measurement, given) lies above the viewport's bottom gains `active`.
     */
    method InitialCheck(tops: seq<real>, viewportHeight: real)
      requires Valid() && |tops| == |revealUp|
      modifies active
      ensures forall j :: 0 <= j < active.Length ==>
        active[j] == (old(active[j]) || OnScreen(revealUp, tops, viewportHeight, j))
    {
      for i := 0 to |revealUp|
        invariant forall j :: 0 <= j < active.Length ==>
          active[j] == (old(active[j]) || OnScreen(revealUp[..i], tops[..i], viewportHeight, j))
      {
        assert revealUp[..i + 1] == revealUp[..i] + [revealUp[i]];
        assert tops[..i + 1] == tops[..i] + [tops[i]];
        if tops[i] < viewportHeight {
          active[revealUp[i]] := true;
        }
      }
      assert revealUp[..|revealUp|] == revealUp && tops[..|tops|] == tops;
    }

    /** Page load: the lock is free and `initialCheck` runs once. */
    constructor (markup: seq<bool>, revealUp: seq<nat>, tops: seq<real>, viewportHeight: real)
      requires forall i :: 0 <= i < |revealUp| ==> revealUp[i] < |markup|
      requires |tops| == |revealUp|
      ensures Valid() && fresh(active) && this.revealUp == revealUp && !isAutoScrolling
      ensures active.Length == |markup|
      ensures forall j :: 0 <= j < |markup| ==> active[j] == (markup[j] || OnScreen(revealUp, tops, viewportHeight, j))
    {
      active := new bool[|markup|](i requires 0 <= i < |markup| => markup[i]);
      this.revealUp := revealUp;
      isAutoScrolling := false;
      new;
      InitialCheck(tops, viewportHeight);
    }

    /** The `revealObserver` callback: muted while the lock is held, otherwise it only adds `active`. */
    method ObserverCallback(entries: seq<Entry>)
      requires forall e :: e in entries ==> e.target < active.Length
      modifies active
      ensures isAutoScrolling ==> active[..] == old(active[..])
      ensures !isAutoScrolling ==> forall j :: 0 <= j < active.Length ==> active[j] == (old(active[j]) || Hit(entries, j))
    {
      if isAutoScrolling {
        return;
      }
      for k := 0 to |entries|
        invariant forall j :: 0 <= j < active.Length ==> active[j] == (old(active[j]) || Hit(entries[..k], j))
      {
        assert entries[..k + 1] == entries[..k] + [entries[k]];
        if entries[k].isIntersecting {
          active[entries[k].target] := true;
        }
      }
      assert entries[..|entries|] == entries;
    }

    /** The reset of a wave click: every target loses `active`. */
    method HideTargets(targets: seq<nat>)
      requires forall t :: t in targets ==> t < active.Length
      modifies active
      ensures forall j :: 0 <= j < active.Length ==> active[j] == (old(active[j]) && j !in targets)
    {
      for k := 0 to |targets|
        invariant forall j :: 0 <= j < active.Length ==> active[j] == (old(active[j]) && j !in targets[..k])
      {
        assert targets[..k + 1] == targets[..k] + [targets[k]];
        assert targets[k] in targets;
        active[targets[k]] := false;
      }
      assert targets[..|targets|] == targets;
    }

    /**
     * A click on a wave trigger: take the lock, hide the target group, and set
     * the wave's timers, none of which fires before 300 ms. The smooth scroll
     * to the section is not modelled.
     */
    method WaveClick(targets: seq<nat>) returns (schedule: seq<Timer>)
      requires forall t :: t in targets ==> t < active.Length
      modifies this, active
      ensures isAutoScrolling
      ensures forall j :: 0 <= j < active.Length ==> active[j] == (old(active[j]) && j !in targets)
      ensures IsWaveSchedule(targets, schedule)
      ensures forall k :: 0 <= k < |schedule| ==> schedule[k].delay >= Base
      ensures forall k :: 0 <= k < |schedule| && schedule[k].action.Reveal? ==> schedule[k].action.target in targets
    {
      isAutoScrolling := true;
      HideTargets(targets);
      schedule := ScheduleWave(targets);
    }

    /** One timer of a wave fires: a reveal, or the unlock followed by a fresh `initialCheck`. */
    method Fire(t: Timer, tops: seq<real>, viewportHeight: real)
      requires Valid() && |tops| == |revealUp|
      requires t.action.Reveal? ==> t.action.target < active.Length
      modifies this, active
      ensures t.action.Reveal? ==>
        isAutoScrolling == old(isAutoScrolling) &&
        forall j :: 0 <= j < active.Length ==> active[j] == (old(active[j]) || j == t.action.target)
      ensures t.action.Unlock? ==>
        !isAutoScrolling &&
        forall j :: 0 <= j < active.Length ==> active[j] == (old(active[j]) || OnScreen(revealUp, tops, viewportHeight, j))
    {
      match t.action {
        case Reveal(j) =>
          active[j] := true;
        case Unlock =>
          isAutoScrolling := false;
          InitialCheck(tops, viewportHeight);
      }
    }

    /**
     * A whole wave with no other event in between: after every timer has fired
     * in order, each target is active again and the lock is free.
     */
    method RunWave(targets: seq<nat>, tops: seq<real>, viewportHeight: real)
      requires Valid() && |tops| == |revealUp| && |targets| > 0
      requires forall t :: t in targets ==> t < active.Length
      modifies this, active
      ensures !isAutoScrolling
      ensures forall t :: t in targets ==> active[t]
    {
      var schedule := WaveClick(targets);
      for k := 0 to |schedule|
        invariant forall i :: 0 <= i < k && i < |targets| ==> active[targets[i]]
        invariant k <= |targets| ==> isAutoScrolling
        invariant k == |schedule| ==> !isAutoScrolling
      {
        Fire(schedule[k], tops, viewportHeight);
      }
      forall t | t in targets
        ensures active[t]
      {
        var i :| 0 <= i < |targets| && targets[i] == t;
      }
    }
  }
}
