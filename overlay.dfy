/** The single-flight overlay queue: `AppState`'s `overlayQueue` and
    `isOverlayActive` (overlays/script.js:374-393) and the functions that
    update them, `queueOverlayEvent` (489-498), `processNextOverlay`
    (500-514), `showCustomOverlay` (516-620) and `hideCustomOverlay`
    (622-634), with the event routing of `handleStreamerBotEvent` (483-487).

    Timers and DOM callbacks are methods the environment calls:
    `HideCustomOverlay` for a hide timer, a video's `ended` event or a load
    error; `SettleDelayElapsed` for a `setTimeout(processNextOverlay, ...)`
    that is due. Hide timers are never cancelled in the source, so the model
    lets `HideCustomOverlay` be called at any time. */
module Overlay {
  import opened Wrappers
  import opened Settings
  import opened Gif
  import opened Ingress
  import opened Presenter

  class OverlayScheduler {
    /** `AppState.overlayQueue`. */
    var overlayQueue: seq<OverlayEvent>
    /** `AppState.isOverlayActive`. */
    var isOverlayActive: bool
    /** The undeclared global `isOverlayActive` that line 549 creates by
        assignment; `None` until then. Nothing in the queue logic reads it. */
    var strayGlobalActive: Option<bool>
    /** The overlay currently mounted in the media container, if any. */
    var current: Option<Presentation>
    /** Pending `setTimeout(processNextOverlay, processingDelay)` calls. */
    var pendingAdvances: nat

    const viewport: Viewport
    const config: Config
    /** What `fetch` returns per URL; a URL not in the map makes the fetch reject. */
    const network: map<string, seq<Byte>>

    /** Every event ever queued, in arrival order. */
    ghost var arrived: seq<OverlayEvent>
    /** Every event ever removed from the queue, in removal order. */
    ghost var taken: seq<OverlayEvent>
    /** The events `processNextOverlay` handed to `showCustomOverlay`, in order. */
    ghost var presented: seq<OverlayEvent>
    /** Per removed event: was it handed to `showCustomOverlay` (or dropped by `clearQueue`)? */
    ghost var shownMarks: seq<bool>

    /** The queue is FIFO: removals are exactly a prefix of the arrivals, and
        what is left is the rest, in order. The events shown are the removed
        ones that were not cleared, in removal order. An overlay is mounted
        only while the flag is set. */
    ghost predicate Valid()
      reads this
    {
      && taken + overlayQueue == arrived
      && |shownMarks| == |taken| && presented == Kept(taken, shownMarks)
      && (current.Some? ==> isOverlayActive)
    }

    constructor (viewport: Viewport, config: Config, network: map<string, seq<Byte>>)
      ensures Valid()
      ensures this.viewport == viewport && this.config == config && this.network == network
      ensures overlayQueue == [] && !isOverlayActive && strayGlobalActive == None
      ensures current == None && pendingAdvances == 0
      ensures arrived == [] && taken == [] && presented == [] && shownMarks == []
    {
      this.viewport := viewport;
      this.config := config;
      this.network := network;
      overlayQueue := [];
      isOverlayActive := false;
      strayGlobalActive := None;
      current := None;
      pendingAdvances := 0;
      arrived := [];
      taken := [];
      presented := [];
      shownMarks := [];
    }

    /** The state `showCustomOverlay(e)` leaves, given the counter and the
        stray global before the call:
        - not an object: line 522 throws and the `catch` clears the flag and
          schedules a retry after the settle delay;
        - no `overlay_source`: the flag stays set (line 549 writes the stray
          global instead), nothing is mounted and nothing is scheduled;
        - otherwise: the flag is set and the overlay is mounted. */
    ghost predicate ShowOutcome(e: OverlayEvent, pending0: nat, stray0: Option<bool>)
      reads this
    {
      match e
      case NotAnObject =>
        !isOverlayActive && current == None && pendingAdvances == pending0 + 1 && strayGlobalActive == stray0
      case Payload(a) =>
        if HasSource(a) then
          && isOverlayActive && current == Some(Present(a, viewport, config, network))
          && pendingAdvances == pending0 && strayGlobalActive == stray0
        else
          isOverlayActive && current == None && pendingAdvances == pending0 && strayGlobalActive == Some(false)
    }

    /** What `queueOverlayEvent(e)` does to the state: `e` joins the tail;
        while an overlay is active nothing else changes, and when idle the
        head is removed and shown at once. */
    twostate predicate Enqueued(e: OverlayEvent)
      reads this
    {
      && arrived == old(arrived) + [e]
      && (old(isOverlayActive) ==>
            && overlayQueue == old(overlayQueue) + [e]
            && isOverlayActive && current == old(current) && strayGlobalActive == old(strayGlobalActive)
            && pendingAdvances == old(pendingAdvances) && taken == old(taken) && presented == old(presented))
      && (!old(isOverlayActive) ==>
            var q := old(overlayQueue) + [e];
            && overlayQueue == q[1..]
            && taken == old(taken) + [q[0]] && presented == old(presented) + [q[0]]
            && ShowOutcome(q[0], old(pendingAdvances), old(strayGlobalActive)))
    }

    /** `queueOverlayEvent`: append at the tail; if idle, process the queue. */
    method QueueOverlayEvent(e: OverlayEvent)
      requires Valid()
      modifies this
      ensures Valid()
      ensures Enqueued(e)
    {
      arrived := arrived + [e];
      overlayQueue := overlayQueue + [e];
      if !isOverlayActive {
        ProcessNextOverlay();
      }
    }

    /** `processNextOverlay`: when the queue is non-empty and the flag is
        clear, remove the head and show it; otherwise do nothing. */
    method ProcessNextOverlay()
      requires Valid()
      modifies this
      decreases |overlayQueue|, 0
      ensures Valid()
      ensures arrived == old(arrived)
      ensures old(overlayQueue) == [] || old(isOverlayActive) ==>
        && overlayQueue == old(overlayQueue) && isOverlayActive == old(isOverlayActive)
        && current == old(current) && strayGlobalActive == old(strayGlobalActive)
        && pendingAdvances == old(pendingAdvances) && taken == old(taken) && presented == old(presented)
        && shownMarks == old(shownMarks)
      ensures old(overlayQueue) != [] && !old(isOverlayActive) ==>
        && overlayQueue == old(overlayQueue)[1..]
        && taken == old(taken) + [old(overlayQueue)[0]]
        && presented == old(presented) + [old(overlayQueue)[0]]
        && ShowOutcome(old(overlayQueue)[0], old(pendingAdvances), old(strayGlobalActive))
    {
      if |overlayQueue| == 0 {
        return;
      }
      if isOverlayActive {
        return;
      }
      var next := overlayQueue[0];
      KeptSnoc(taken, shownMarks, next, true);
      overlayQueue := overlayQueue[1..];
      taken := taken + [next];
      presented := presented + [next];
      shownMarks := shownMarks + [true];
      ShowCustomOverlay(next);
    }

    /** `showCustomOverlay`, as written. Its only caller runs it with the flag clear. */
    method ShowCustomOverlay(e: OverlayEvent)
      requires Valid() && !isOverlayActive
      modifies this
      decreases |overlayQueue|, 1
      ensures Valid()
      ensures overlayQueue == old(overlayQueue)
      ensures arrived == old(arrived) && taken == old(taken) && presented == old(presented)
      ensures shownMarks == old(shownMarks)
      ensures ShowOutcome(e, old(pendingAdvances), old(strayGlobalActive))
    {
      if e.NotAnObject? {
        isOverlayActive := false;
        pendingAdvances := pendingAdvances + 1;
        return;
      }
      isOverlayActive := true;
      if !HasSource(e.args) {
        strayGlobalActive := Some(false);
        ProcessNextOverlay();
        return;
      }
      current := Some(Present(e.args, viewport, config, network));
    }

    /** `showCustomOverlay` with line 549 clearing `AppState.isOverlayActive`,
        as the comment "Try next item in queue" intends: a request without a
        source releases the queue, and the next item, if any, is shown at once. */
    method ShowCustomOverlayIntended(e: OverlayEvent)
      requires Valid() && !isOverlayActive
      modifies this
      ensures Valid()
      ensures arrived == old(arrived)
      ensures e.Payload? && !HasSource(e.args) ==>
        && (old(overlayQueue) == [] ==>
              && strayGlobalActive == old(strayGlobalActive)
              && !isOverlayActive && current == None && overlayQueue == []
              && pendingAdvances == old(pendingAdvances) && taken == old(taken) && presented == old(presented))
        && (old(overlayQueue) != [] ==>
              && overlayQueue == old(overlayQueue)[1..]
              && taken == old(taken) + [old(overlayQueue)[0]]
              && presented == old(presented) + [old(overlayQueue)[0]]
              && ShowOutcome(old(overlayQueue)[0], old(pendingAdvances), old(strayGlobalActive)))
      ensures !(e.Payload? && !HasSource(e.args)) ==>
        && overlayQueue == old(overlayQueue) && taken == old(taken) && presented == old(presented)
        && ShowOutcome(e, old(pendingAdvances), old(strayGlobalActive))
    {
      if e.NotAnObject? {
        isOverlayActive := false;
        pendingAdvances := pendingAdvances + 1;
        return;
      }
      isOverlayActive := true;
      if !HasSource(e.args) {
        isOverlayActive := false;
        ProcessNextOverlay();
        return;
      }
      current := Some(Present(e.args, viewport, config, network));
    }

    /** `hideCustomOverlay`: unmount, clear the flag, and schedule the next
        item after the settle delay. */
    method HideCustomOverlay()
      requires Valid()
      modifies this
      ensures Valid()
      ensures current == None && !isOverlayActive
      ensures pendingAdvances == old(pendingAdvances) + 1
      ensures overlayQueue == old(overlayQueue) && strayGlobalActive == old(strayGlobalActive)
      ensures arrived == old(arrived) && taken == old(taken) && presented == old(presented)
    {
      current := None;
      isOverlayActive := false;
      pendingAdvances := pendingAdvances + 1;
    }

    /** A scheduled `processNextOverlay` comes due. */
    method SettleDelayElapsed()
      requires Valid() && pendingAdvances > 0
      modifies this
      ensures Valid()
      ensures arrived == old(arrived)
      ensures old(overlayQueue) == [] || old(isOverlayActive) ==>
        && overlayQueue == old(overlayQueue) && isOverlayActive == old(isOverlayActive)
        && current == old(current) && strayGlobalActive == old(strayGlobalActive)
        && pendingAdvances == old(pendingAdvances) - 1 && taken == old(taken) && presented == old(presented)
      ensures old(overlayQueue) != [] && !old(isOverlayActive) ==>
        && overlayQueue == old(overlayQueue)[1..]
        && taken == old(taken) + [old(overlayQueue)[0]]
        && presented == old(presented) + [old(overlayQueue)[0]]
        && ShowOutcome(old(overlayQueue)[0], old(pendingAdvances) - 1, old(strayGlobalActive))
    {
      pendingAdvances := pendingAdvances - 1;
      ProcessNextOverlay();
    }

    /** `AppState.clearQueue`: drop every waiting item. */
    method ClearQueue()
      requires Valid()
      modifies this
      ensures Valid()
      ensures overlayQueue == [] && taken == old(taken) + old(overlayQueue)
      ensures isOverlayActive == old(isOverlayActive) && current == old(current)
      ensures strayGlobalActive == old(strayGlobalActive) && pendingAdvances == old(pendingAdvances)
      ensures arrived == old(arrived) && presented == old(presented)
    {
      KeptSkip(taken, shownMarks, overlayQueue);
      taken := taken + overlayQueue;
      shownMarks := shownMarks + Unmarked(|overlayQueue|);
      overlayQueue := [];
    }

    /** `handleStreamerBotEvent`: only the overlay event reaches the queue. */
    method HandleStreamerBotEvent(eventType: string, e: OverlayEvent)
      requires Valid()
      modifies this
      ensures Valid()
      ensures IsOverlayEvent(eventType) ==> Enqueued(e)
      ensures !IsOverlayEvent(eventType) ==>
        && overlayQueue == old(overlayQueue) && isOverlayActive == old(isOverlayActive)
        && current == old(current) && strayGlobalActive == old(strayGlobalActive)
        && pendingAdvances == old(pendingAdvances)
        && arrived == old(arrived) && taken == old(taken) && presented == old(presented)
    {
      if eventType == OverlayEventName {
        QueueOverlayEvent(e);
      }
    }
  }

  /** The events of `t` whose mark in `m` is set, in order: an in-order
      subsequence of `t`. */
  ghost function Kept(t: seq<OverlayEvent>, m: seq<bool>): seq<OverlayEvent>
    requires |t| == |m|
    decreases |t|
  {
    if t == [] then []
    else Kept(t[..|t| - 1], m[..|m| - 1]) + (if m[|m| - 1] then [t[|t| - 1]] else [])
  }

  /** `n` unset marks. */
  ghost function Unmarked(n: nat): (m: seq<bool>)
    ensures |m| == n
  {
    seq(n, _ => false)
  }

  /** Removing one more event extends the kept events by it when it is marked. */
  lemma KeptSnoc(t: seq<OverlayEvent>, m: seq<bool>, x: OverlayEvent, b: bool)
    requires |t| == |m|
    ensures Kept(t + [x], m + [b]) == Kept(t, m) + (if b then [x] else [])
  {
    assert (t + [x])[..|t|] == t;
    assert (m + [b])[..|m|] == m;
  }

  /** Unmarked events add nothing to the kept ones. */
  lemma {:induction false} KeptSkip(t: seq<OverlayEvent>, m: seq<bool>, u: seq<OverlayEvent>)
    requires |t| == |m|
    ensures Kept(t + u, m + Unmarked(|u|)) == Kept(t, m)
    decreases |u|
  {
    if u != [] {
      var u' := u[..|u| - 1];
      assert t + u == (t + u') + [u[|u| - 1]];
      assert m + Unmarked(|u|) == (m + Unmarked(|u'|)) + [false];
      KeptSnoc(t + u', m + Unmarked(|u'|), u[|u| - 1], false);
      KeptSkip(t, m, u');
    } else {
      assert t + u == t && m + Unmarked(0) == m;
    }
  }

  /** An `Args` with every key absent. */
  const NoArgs: Args := Args(None, None, None, None, None, None)

  /** A second request arriving while the first is shown waits in the queue,
      the first stays mounted, and once the first hides and the settle delay
      passes the second is shown. */
  method SecondWaitsForFirst(a: Args, b: Args, vp: Viewport, cfg: Config, network: map<string, seq<Byte>>)
    returns (first: Option<Presentation>, waiting: nat, second: Option<Presentation>)
    requires HasSource(a) && HasSource(b)
    ensures first == Some(Present(a, vp, cfg, network))
    ensures waiting == 1
    ensures second == Some(Present(b, vp, cfg, network))
  {
    var s := new OverlayScheduler(vp, cfg, network);
    s.QueueOverlayEvent(Payload(a));
    s.QueueOverlayEvent(Payload(b));
    first, waiting := s.current, |s.overlayQueue|;
    s.HideCustomOverlay();
    s.SettleDelayElapsed();
    second := s.current;
  }

  /** Dispatch: a `SquidCustomOverlay` event reaching an idle overlay is shown
      at once, a second one waits, and an event of another type changes nothing. */
  method DispatchedEventsAreQueued(a: Args, b: Args, vp: Viewport, cfg: Config, network: map<string, seq<Byte>>)
    returns (shown: Option<Presentation>, waiting: seq<OverlayEvent>)
    requires HasSource(a)
    ensures shown == Some(Present(a, vp, cfg, network))
    ensures waiting == [Payload(b)]
  {
    var s := new OverlayScheduler(vp, cfg, network);
    s.HandleStreamerBotEvent(OverlayEventName, Payload(a));
    s.HandleStreamerBotEvent("Follow", Payload(b));
    s.HandleStreamerBotEvent(OverlayEventName, Payload(b));
    shown, waiting := s.current, s.overlayQueue;
  }

  /** As written, a request without `overlay_source` leaves the flag set,
      mounts nothing and schedules nothing, so a later valid request is queued
      and never shown. */
  method MissingSourceStallsQueue(b: Args, vp: Viewport, cfg: Config, network: map<string, seq<Byte>>)
    returns (active: bool, waiting: nat, mounted: bool, scheduled: nat)
    requires HasSource(b)
    ensures active && waiting == 1 && !mounted && scheduled == 0
  {
    var s := new OverlayScheduler(vp, cfg, network);
    s.QueueOverlayEvent(Payload(NoArgs));
    s.QueueOverlayEvent(Payload(b));
    active, waiting, mounted, scheduled := s.isOverlayActive, |s.overlayQueue|, s.current.Some?, s.pendingAdvances;
  }

  /** With the intended line 549, a sourceless request handed to the corrected
      operation releases the queue, so a valid request queued after it is shown. */
  method MissingSourceIntendedRecovers(b: Args, vp: Viewport, cfg: Config, network: map<string, seq<Byte>>)
    returns (active: bool, waiting: nat, shown: Option<Presentation>)
    requires HasSource(b)
    ensures active && waiting == 0 && shown == Some(Present(b, vp, cfg, network))
  {
    var s := new OverlayScheduler(vp, cfg, network);
    s.ShowCustomOverlayIntended(Payload(NoArgs));
    s.QueueOverlayEvent(Payload(b));
    active, waiting, shown := s.isOverlayActive, |s.overlayQueue|, s.current;
  }
}
