/**
 * `ToastManager`: shows one toast at a time and queues the requests that
 * arrive while one is up. The two delayed callbacks of the source (the end of
 * the display time, then a short gap before the next toast) are explicit
 * steps, `OnDisplayTimeout` and `OnGapElapsed`, that the run loop calls.
 */
module Toasts {
  import opened Wrappers

  /** `ToastView.Position` */
  datatype Position = Top | Middle | Bottom

  /** One `show` call; its display duration is left out. */
  datatype ToastRequest = ToastRequest(message: string, position: Position, animated: bool)

  /** The manager's fields: the published message, its presentation, the busy flag and the queue. */
  datatype ToastState = ToastState(
    message: Option<string>,
    position: Position,
    isAnimated: bool,
    isShowingToast: bool,
    queue: seq<ToastRequest>)

  /** The state after `init`: nothing shown, bottom position, animated, empty queue. */
  const Initial := ToastState(None, Bottom, true, false, [])

  /**
   * A message is published exactly while a toast is showing. This holds over
   * the manager's own steps only: the overlay view clears `message` on its own
   * timer while `isShowingToast` stays set.
   */
  predicate Consistent(s: ToastState) {
    s.isShowingToast <==> s.message.Some?
  }

  // ---------------------------------------------------------------------------
  // The steps, as functions of the state
  // ---------------------------------------------------------------------------

  /** `showNextToast`, up to scheduling its timeout: publish the request and mark busy. */
  function Displayed(s: ToastState, r: ToastRequest): (t: ToastState)
    ensures t.isShowingToast && t.message == Some(r.message)
    ensures t.position == r.position && t.isAnimated == r.animated
    ensures t.queue == s.queue
    ensures Consistent(t)
  {
    ToastState(Some(r.message), r.position, r.animated, true, s.queue)
  }

  /** `show`: queue the request behind the current toast, or display it at once when idle. */
  function AfterShow(s: ToastState, r: ToastRequest): (t: ToastState)
    ensures s.isShowingToast ==> t.queue == s.queue + [r]
    ensures s.isShowingToast ==>
      t.message == s.message && t.position == s.position && t.isAnimated == s.isAnimated && t.isShowingToast
    ensures !s.isShowingToast ==> t.queue == s.queue && t == Displayed(s, r)
    ensures Consistent(s) ==> Consistent(t)
  {
    if s.isShowingToast then s.(queue := s.queue + [r]) else Displayed(s, r)
  }

  /**
   * The display timeout: clear the message and the flag, and take the head of
   * the queue, if any, as the request to show after the gap.
   */
  function AfterTimeout(s: ToastState): (result: (ToastState, Option<ToastRequest>))
    ensures result.0.message == None && !result.0.isShowingToast
    ensures result.0.position == s.position && result.0.isAnimated == s.isAnimated
    ensures s.queue == [] ==> result.1 == None && result.0.queue == []
    ensures s.queue != [] ==> result.1 == Some(s.queue[0]) && result.0.queue == s.queue[1..]
    ensures Consistent(result.0)
  {
    var cleared := s.(message := None, isShowingToast := false);
    if s.queue != [] then (cleared.(queue := s.queue[1..]), Some(s.queue[0]))
    else (cleared, None)
  }

  // ---------------------------------------------------------------------------
  // Runs of the state machine
  // ---------------------------------------------------------------------------

  /** A series of `show` calls, in order. */
  function ShowAll(s: ToastState, rs: seq<ToastRequest>): ToastState
    decreases |rs|
  {
    if rs == [] then s else ShowAll(AfterShow(s, rs[0]), rs[1..])
  }

  /** While a toast is up, every `show` joins the end of the queue, in call order. */
  lemma {:induction false} ShowAllWhileBusy(s: ToastState, rs: seq<ToastRequest>)
    requires s.isShowingToast
    ensures ShowAll(s, rs) == s.(queue := s.queue + rs)
    decreases |rs|
  {
    if rs == [] {
      assert s.queue + rs == s.queue;
    } else {
      var t := AfterShow(s, rs[0]);
      ShowAllWhileBusy(t, rs[1..]);
      assert t.queue + rs[1..] == s.queue + rs;
    }
  }

  /** From the initial state, the first request is displayed and the rest wait in call order. */
  lemma ShowAllFromInitial(rs: seq<ToastRequest>)
    requires |rs| > 0
    ensures ShowAll(Initial, rs) == Displayed(Initial, rs[0]).(queue := rs[1..])
  {
    var t := AfterShow(Initial, rs[0]);
    ShowAllWhileBusy(t, rs[1..]);
    assert [] + rs[1..] == rs[1..];
  }

  /** One display cycle with no `show` in the gap: the timeout, then the gap if a request was taken. */
  function Cycle(s: ToastState): (ToastState, Option<ToastRequest>) {
    var (t, next) := AfterTimeout(s);
    if next.Some? then (Displayed(t, next.value), next) else (t, None)
  }

  /** `n` cycles: the state reached and the requests displayed, in order. */
  function Run(s: ToastState, n: nat): (ToastState, seq<ToastRequest>)
    decreases n
  {
    if n == 0 then (s, [])
    else
      var (t, shown) := Cycle(s);
      var (u, later) := Run(t, n - 1);
      (u, (if shown.Some? then [shown.value] else []) + later)
  }

  /** Cycles display the queued requests one by one from the head, and drop exactly those from the queue. */
  lemma {:induction false} RunDisplaysQueueInOrder(s: ToastState, n: nat)
    requires n <= |s.queue|
    ensures Run(s, n).1 == s.queue[..n]
    ensures Run(s, n).0.queue == s.queue[n..]
    ensures n > 0 ==> Run(s, n).0 == Displayed(Run(s, n).0, s.queue[n - 1])
    decreases n
  {
    if n > 0 {
      var (t, shown) := Cycle(s);
      assert shown == Some(s.queue[0]) && t.queue == s.queue[1..];
      RunDisplaysQueueInOrder(t, n - 1);
      assert s.queue[..n] == [s.queue[0]] + s.queue[1..][..n - 1];
      if n > 1 {
        assert s.queue[1..][n - 2] == s.queue[n - 1];
      }
    }
  }

  /** A timeout with an empty queue leaves the manager idle, with nothing further to show. */
  lemma CycleOnEmptyQueue(s: ToastState)
    requires s.queue == []
    ensures Cycle(s).1 == None
    ensures Cycle(s).0 == s.(message := None, isShowingToast := false)
  {
  }

  /**
   * Requests are displayed in the order of their `show` calls: starting idle,
   * `show(r0) ... show(rk)` displays `r0` at once, the cycles display `r1 ...
   * rk`, and one cycle later the manager is idle with an empty queue.
   */
  lemma {:induction false} DisplayedInShowOrder(rs: seq<ToastRequest>)
    requires |rs| > 0
    ensures var s := ShowAll(Initial, rs);
      && s.message == Some(rs[0].message)
      && Run(s, |rs| - 1).1 == rs[1..]
      && var (last, shown) := Run(s, |rs|);
         shown == rs[1..] && last.queue == [] && !last.isShowingToast && last.message == None
  {
    var s := ShowAll(Initial, rs);
    ShowAllFromInitial(rs);
    RunDisplaysQueueInOrder(s, |rs| - 1);
    RunSplitsLast(s, |rs| - 1);
    var m := Run(s, |rs| - 1).0;
    CycleOnEmptyQueue(m);
    assert rs[1..][..|rs| - 1] == rs[1..];
  }

  /**
   * The general FIFO statement: `show` calls made while a toast is up join
   * the queue behind the requests already waiting, and the following cycles
   * display all of them in that order.
   */
  lemma ShowWhileBusyDisplaysInOrder(s: ToastState, rs: seq<ToastRequest>)
    requires s.isShowingToast
    ensures Run(ShowAll(s, rs), |s.queue| + |rs|).1 == s.queue + rs
    ensures Run(ShowAll(s, rs), |s.queue| + |rs|).0.queue == []
  {
    ShowAllWhileBusy(s, rs);
    var t := ShowAll(s, rs);
    RunDisplaysQueueInOrder(t, |t.queue|);
    assert t.queue[..|t.queue|] == t.queue;
  }

  /** `n + 1` cycles are `n` cycles followed by one more. */
  lemma {:induction false} RunSplitsLast(s: ToastState, n: nat)
    ensures var (m, first) := Run(s, n);
      var (t, shown) := Cycle(m);
      Run(s, n + 1) == (t, first + (if shown.Some? then [shown.value] else []))
    decreases n
  {
    if n > 0 {
      var (t, shown) := Cycle(s);
      RunSplitsLast(t, n - 1);
      var head := if shown.Some? then [shown.value] else [];
      var (m, first) := Run(t, n - 1);
      var (u, last) := Cycle(m);
      var tail := if last.Some? then [last.value] else [];
      assert head + (first + tail) == (head + first) + tail;
    } else {
      var (t, shown) := Cycle(s);
      var head := if shown.Some? then [shown.value] else [];
      assert Run(s, 1) == (t, head + []);
      assert [] + head == head + [];
    }
  }

  /** Every step keeps the published message and the busy flag in agreement. */
  lemma StepsKeepConsistent(s: ToastState, r: ToastRequest)
    requires Consistent(s)
    ensures Consistent(AfterShow(s, r))
    ensures Consistent(AfterTimeout(s).0)
    ensures Consistent(Displayed(AfterTimeout(s).0, r))
  {
  }

  // ---------------------------------------------------------------------------
  // The manager
  // ---------------------------------------------------------------------------

  class ToastManager {
    var message: Option<string>
    var position: Position
    var isAnimated: bool
    var isShowingToast: bool
    var queue: seq<ToastRequest>

    function State(): ToastState
      reads this
    {
      ToastState(message, position, isAnimated, isShowingToast, queue)
    }

    constructor()
      ensures State() == Initial
    {
      message := None;
      position := Bottom;
      isAnimated := true;
      isShowingToast := false;
      queue := [];
    }

    /** `show`: queue the request while a toast is up, otherwise display it right away. */
    method Show(message: string, position: Position := Bottom, animated: bool := true)
      modifies this
      ensures State() == AfterShow(old(State()), ToastRequest(message, position, animated))
      ensures old(isShowingToast) ==> queue == old(queue) + [ToastRequest(message, position, animated)]
      ensures old(isShowingToast) ==>
        this.message == old(this.message) && this.position == old(this.position) && isAnimated == old(isAnimated)
      ensures !old(isShowingToast) ==>
        && queue == old(queue) && isShowingToast
        && this.message == Some(message) && this.position == position && isAnimated == animated
    {
      var request := ToastRequest(message, position, animated);
      if isShowingToast {
        queue := queue + [request];
      } else {
        ShowNextToast(request);
      }
    }

    /** `showNextToast`: publish the request; its timeout is `OnDisplayTimeout`. */
    method ShowNextToast(request: ToastRequest)
      modifies this
      ensures State() == Displayed(old(State()), request)
    {
      isShowingToast := true;
      message := Some(request.message);
      position := request.position;
      isAnimated := request.animated;
    }

    /**
     * The display timeout: clear the toast and take the head of the queue.
     * `next` is the request scheduled for `OnGapElapsed`, or `None` when
     * nothing further is scheduled.
     */
    method OnDisplayTimeout() returns (next: Option<ToastRequest>)
      modifies this
      ensures (State(), next) == AfterTimeout(old(State()))
      ensures message == None && !isShowingToast
      ensures old(queue) == [] ==> next == None && queue == []
      ensures old(queue) != [] ==> next == Some(old(queue)[0]) && queue == old(queue)[1..]
    {
      message := None;
      isShowingToast := false;
      if queue != [] {
        var head := queue[0];
        queue := queue[1..];
        next := Some(head);
      } else {
        next := None;
      }
    }

    /** The gap after a timeout has elapsed: display the request taken from the queue. */
    method OnGapElapsed(next: ToastRequest)
      modifies this
      ensures State() == Displayed(old(State()), next)
    {
      ShowNextToast(next);
    }
  }

  /** Two quick `show` calls: the second waits, and is displayed after the first times out. */
  method QueueScenario(a: ToastRequest, b: ToastRequest)
  {
    var toasts := new ToastManager();
    toasts.Show(a.message, a.position, a.animated);
    toasts.Show(b.message, b.position, b.animated);
    assert toasts.message == Some(a.message) && toasts.queue == [b];

    var next := toasts.OnDisplayTimeout();
    assert next == Some(b) && toasts.message == None && toasts.queue == [];
    toasts.OnGapElapsed(next.value);
    assert toasts.message == Some(b.message);

    next := toasts.OnDisplayTimeout();
    assert next == None && !toasts.isShowingToast;
  }
}
