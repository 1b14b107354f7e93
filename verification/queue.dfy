/** The delivery queue of src/send.ts: the module-level `_queue`, `task` and
    `muted`, the entry points `send`, `mute` and `unmute`, the handlers
    `initSend` installs, and the drain `_flushQueue`. JavaScript runs these
    one at a time; a transition returns the new state and the callback it
    schedules, and the drain is driven by what the network does at each
    step. */
module Queue {
  import opened JsValue
  import opened Send

  datatype Scheduler = Scheduler(queue: seq<Payload>, task: bool, muted: bool)

  /** `task` and `muted` start false and the queue empty. */
  const Initial := Scheduler([], false, false)

  /** What a transition leaves behind: nothing, a drain (`_flushQueue`, via
      `requestIdleCallback` or a 200 ms timer, or called directly by a
      handler), or a `send()` retried after 5 seconds. */
  datatype Effect = Idle | StartDrain | SendLater

  datatype Step = Step(next: Scheduler, effect: Effect)

  // ---------------------------------------------------------------------
  // Entry points

  /** `send(payload)`; `online` is `isOnline()`. */
  function SendPayload(s: Scheduler, payload: Option<Payload>, online: bool): (r: Step)
    ensures s.muted ==> r == Step(s, Idle)
    ensures !s.muted ==> r.next.queue == s.queue + (if payload.Some? then [payload.value] else [])
    ensures r.next.muted == s.muted
    ensures r.effect == StartDrain <==> !s.muted && !s.task && online
    ensures r.effect != SendLater
    ensures r.next.task == (s.task || r.effect == StartDrain)
  {
    if s.muted then Step(s, Idle)
    else
      var q := if payload.Some? then s.queue + [payload.value] else s.queue;
      if !s.task && online then Step(Scheduler(q, true, s.muted), StartDrain)
      else Step(Scheduler(q, s.task, s.muted), Idle)
  }

  /** Two unmuted `send` calls enqueue their payloads in call order behind
      the queue, whatever the network and the drain flag say. */
  lemma SendKeepsOrder(s: Scheduler, a: Payload, b: Payload, online1: bool, online2: bool)
    requires !s.muted
    ensures SendPayload(SendPayload(s, Some(a), online1).next, Some(b), online2).next.queue == s.queue + [a, b]
  {
  }

  /** `mute()`: a set `task` keeps every later trigger from starting a drain. */
  function Mute(s: Scheduler): (r: Scheduler)
    ensures r.muted && r.task && r.queue == s.queue
  {
    Scheduler(s.queue, true, true)
  }

  /** `unmute()`: both flags are cleared and `send()` runs without a payload. */
  function Unmute(s: Scheduler, online: bool): (r: Step)
    ensures !r.next.muted && r.next.queue == s.queue
    ensures r.effect == StartDrain <==> online
    ensures r.next.task <==> online
  {
    SendPayload(Scheduler(s.queue, false, false), None, online)
  }

  /** The `online` event handler: start a drain unless one is marked as
      running. `muted` is not consulted. */
  function OnOnline(s: Scheduler): (r: Step)
    ensures r.effect == StartDrain <==> !s.task
    ensures r.effect != SendLater
    ensures r.next.task && r.next.queue == s.queue && r.next.muted == s.muted
  {
    if !s.task then Step(Scheduler(s.queue, true, s.muted), StartDrain) else Step(s, Idle)
  }

  /** The `visibilitychange` handler; `hidden` is whether the document's
      visibility state is `hidden`. */
  function OnVisibilityChange(s: Scheduler, hidden: bool): (r: Step)
    ensures r.effect == StartDrain <==> !s.task && hidden
    ensures r.effect != SendLater
    ensures r.next.queue == s.queue && r.next.muted == s.muted
    ensures r.effect == Idle ==> r.next == s
  {
    if !s.task && hidden then Step(Scheduler(s.queue, true, s.muted), StartDrain) else Step(s, Idle)
  }

  /** The closure `initSend` returns: it runs the online handler once (the
      listeners it removes are not modelled). */
  function Teardown(s: Scheduler): Step {
    OnOnline(s)
  }

  // ---------------------------------------------------------------------
  // The drain

  /** What the network does during one pass of the drain loop: `isOnline()`
      after the head is shifted, and the environment `_flushPayload` meets. */
  datatype Pass = Pass(online: bool, net: Network)

  /** The outcome of the drain loop: the queue left behind, and whether the
      loop ended within the passes given. */
  datatype Drained = Drained(queue: seq<Payload>, ended: bool)

  /** `while ((payload = _queue.shift()) && isOnline()) if (!(await
      _flushPayload(payload))) _queue.unshift(payload)`. The head is shifted
      before `isOnline()` is read, so going offline drops it; a failed
      payload goes back to the front and is tried again at once, so the loop
      need not end, and the model stops when the passes run out. */
  function DrainLoop(q: seq<Payload>, passes: seq<Pass>): (r: Drained)
    ensures |r.queue| <= |q|
    ensures r.queue == q[|q| - |r.queue|..]
    decreases |passes|
  {
    if q == [] then Drained([], true)
    else if passes == [] then Drained(q, false)
    else if !passes[0].online then Drained(q[1..], true)
    else if Deliver(passes[0].net).ok then DrainLoop(q[1..], passes[1..])
    else
      // `unshift` puts the shifted head back: the queue is what it was.
      DrainLoop(q, passes[1..])
  }

  /** `_flushQueue()`; `hasState` is `hasState()`. When the loop ends, `task`
      is cleared and a later `send()` is armed if payloads remain; while it
      has not ended the drain is still running and `task` stays set. */
  function FlushQueue(s: Scheduler, hasState: bool, passes: seq<Pass>): (r: Step)
    ensures !hasState ==> r == Step(s, Idle)
    ensures r.next.muted == s.muted
    ensures hasState ==> r.next.queue == DrainLoop(s.queue, passes).queue
  {
    if !hasState then Step(s, Idle)
    else
      var d := DrainLoop(s.queue, passes);
      if d.ended then
        Step(Scheduler(d.queue, false, s.muted), if d.queue != [] then SendLater else Idle)
      else Step(Scheduler(d.queue, s.task, s.muted), Idle)
  }

  // ---------------------------------------------------------------------
  // Properties of the drain

  /** A failed delivery puts the payload back where it was: the pass leaves
      the queue's contents and order unchanged. */
  lemma FailedPassKeepsQueue(q: seq<Payload>, p: Pass, rest: seq<Pass>)
    requires q != [] && p.online && !Deliver(p.net).ok
    ensures DrainLoop(q, [p] + rest) == DrainLoop(q, rest)
  {
    assert ([p] + rest)[1..] == rest;
  }

  /** A delivered payload leaves the queue. */
  lemma DeliveredPassRemovesHead(q: seq<Payload>, p: Pass, rest: seq<Pass>)
    requires q != [] && p.online && Deliver(p.net).ok
    ensures DrainLoop(q, [p] + rest) == DrainLoop(q[1..], rest)
  {
    assert ([p] + rest)[1..] == rest;
  }

  /** Going offline ends the loop and loses the payload just shifted. */
  lemma OfflinePassDropsHead(q: seq<Payload>, p: Pass, rest: seq<Pass>)
    requires q != [] && !p.online
    ensures DrainLoop(q, [p] + rest) == Drained(q[1..], true)
  {
  }

  /** Passes that are all online and all fail: the loop keeps retrying the
      same head and never ends. */
  predicate AllFail(passes: seq<Pass>) {
    forall i :: 0 <= i < |passes| ==> passes[i].online && !Deliver(passes[i].net).ok
  }

  lemma {:induction false} FailuresNeverEnd(q: seq<Payload>, passes: seq<Pass>)
    requires q != [] && AllFail(passes)
    ensures DrainLoop(q, passes) == Drained(q, false)
    decreases |passes|
  {
    if passes != [] {
      assert AllFail(passes[1..]) by {
        forall i | 0 <= i < |passes[1..]|
          ensures passes[1..][i].online && !Deliver(passes[1..][i].net).ok
        {
          assert passes[1..][i] == passes[i + 1];
        }
      }
      FailuresNeverEnd(q, passes[1..]);
    }
  }

  /** The number of passes that deliver, counted while the queue lasts. */
  function Delivered(q: seq<Payload>, passes: seq<Pass>): nat
    decreases |passes|
  {
    if q == [] || passes == [] || !passes[0].online then 0
    else if Deliver(passes[0].net).ok then 1 + Delivered(q[1..], passes[1..])
    else Delivered(q, passes[1..])
  }

  /** Whether the loop ends by finding the network offline with a payload
      in hand. */
  predicate DropsOne(q: seq<Payload>, passes: seq<Pass>)
    decreases |passes|
  {
    if q == [] || passes == [] then false
    else if !passes[0].online then true
    else if Deliver(passes[0].net).ok then DropsOne(q[1..], passes[1..])
    else DropsOne(q, passes[1..])
  }

  /** The drain removes exactly the delivered payloads from the front, plus
      the one dropped when the network goes offline. */
  lemma {:induction false} DrainRemovesDelivered(q: seq<Payload>, passes: seq<Pass>)
    ensures Delivered(q, passes) + (if DropsOne(q, passes) then 1 else 0) <= |q|
    ensures DrainLoop(q, passes).queue == q[Delivered(q, passes) + (if DropsOne(q, passes) then 1 else 0)..]
    decreases |passes|
  {
    if q != [] && passes != [] && passes[0].online {
      if Deliver(passes[0].net).ok {
        DrainRemovesDelivered(q[1..], passes[1..]);
        assert q[1..][Delivered(q[1..], passes[1..]) + (if DropsOne(q[1..], passes[1..]) then 1 else 0)..]
          == q[Delivered(q, passes) + (if DropsOne(q, passes) then 1 else 0)..];
      } else {
        DrainRemovesDelivered(q, passes[1..]);
      }
    }
  }

  // ---------------------------------------------------------------------
  // Single flight

  /** No handler and no entry point starts a drain while `task` is set. */
  lemma SingleFlight(s: Scheduler, payload: Option<Payload>, online: bool, hidden: bool)
    requires s.task
    ensures SendPayload(s, payload, online).effect != StartDrain
    ensures OnOnline(s).effect != StartDrain
    ensures OnVisibilityChange(s, hidden).effect != StartDrain
    ensures Teardown(s).effect != StartDrain
  {
  }

  /** Every transition that starts a drain sets `task`. */
  lemma StartingSetsTask(s: Scheduler, payload: Option<Payload>, online: bool, hidden: bool)
    ensures SendPayload(s, payload, online).effect == StartDrain ==> SendPayload(s, payload, online).next.task
    ensures Unmute(s, online).effect == StartDrain ==> Unmute(s, online).next.task
    ensures OnOnline(s).effect == StartDrain ==> OnOnline(s).next.task
    ensures OnVisibilityChange(s, hidden).effect == StartDrain ==> OnVisibilityChange(s, hidden).next.task
  {
  }

  /** Directly after `mute`, `send` changes nothing and the handlers start
      nothing. */
  lemma MutedIsQuiet(s: Scheduler, payload: Option<Payload>, online: bool, hidden: bool)
    ensures var m := Mute(s);
      SendPayload(m, payload, online) == Step(m, Idle) &&
      OnOnline(m) == Step(m, Idle) &&
      OnVisibilityChange(m, hidden) == Step(m, Idle)
  {
  }

  /** Muting does not outlast a drain already under way: when it ends it
      clears `task` but leaves `muted` set, and the `online` handler, which
      tests only `task`, then starts a new drain while still muted. */
  lemma MutedDrainRestarts(s: Scheduler, passes: seq<Pass>)
    requires DrainLoop(Mute(s).queue, passes).ended
    ensures FlushQueue(Mute(s), true, passes).next.muted
    ensures OnOnline(FlushQueue(Mute(s), true, passes).next).effect == StartDrain
  {
  }

  /** Without state the drain never clears `task`, so after the first
      trigger no handler or `send` starts another drain until `unmute`. */
  lemma NoStateWedges(s: Scheduler, passes: seq<Pass>, payload: Option<Payload>, online: bool)
    requires s.task
    ensures FlushQueue(s, false, passes).next.task
    ensures SendPayload(FlushQueue(s, false, passes).next, payload, online).effect == Idle
  {
  }

  /** `unmute` clears `task` even while a drain is running, so a second drain
      can start beside it. */
  lemma UnmuteDuringDrain(s: Scheduler)
    requires s.task
    ensures Unmute(s, false).effect == Idle
    ensures OnOnline(Unmute(s, false).next).effect == StartDrain
    ensures Unmute(s, true).effect == StartDrain
  {
  }

  /** A drain that ends leaves `task` cleared and arms a later `send()`
      exactly when payloads remain. */
  lemma EndedDrainClearsTask(s: Scheduler, passes: seq<Pass>)
    requires DrainLoop(s.queue, passes).ended
    ensures !FlushQueue(s, true, passes).next.task
    ensures FlushQueue(s, true, passes).effect == SendLater <==> FlushQueue(s, true, passes).next.queue != []
  {
  }
}
