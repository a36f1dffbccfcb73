/**
One terminal's connection to the server: the ticket request, the socket and the
reconnect timer, and the delays between attempts.

A socket that is being closed may stay in CLOSING for a while before its
`onclose` runs (sections 7.1.3 and 7.1.4 of RFC 6455).
 */
module Reconnect {
  import opened Prelude

  datatype ReadyState = Connecting | Open | Closing | Closed

  /**
  `sockets` lists every socket the instance has made, `ws` is the one it holds.
  `requests` counts ticket requests in flight, `pending` holds the reconnect
  timeouts that the page has not run or cleared. `present` says whether the
  instance map has an entry for the session id, which after the instance was
  disposed of can only be another instance's.
   */
  datatype Inst = Inst(
    connecting: bool,
    ws: Option<nat>,
    sockets: seq<ReadyState>,
    requests: nat,
    pending: set<nat>,
    reconnectTimer: Option<nat>,
    nextTimer: nat,
    attempts: nat,
    present: bool,
    disposed: bool)

  const START := Inst(false, None, [], 0, {}, None, 0, 0, false, false)

  /**
  `Closes` is the transition to CLOSED together with `onclose`; `jitter` is the
  random draw of the next delay. Once the instance is disposed of, the effect
  makes another one for the id (`Recreate`), which may go again (`Vanish`).
   */
  datatype Step =
    | Mount
    | TimerFires(k: nat)
    | TicketOk
    | TicketFails(jitter: real)
    | Opens(j: nat)
    | StartsClosing(j: nat)
    | Closes(j: nat, jitter: real)
    | Dispose
    | Recreate
    | Vanish

  // ---------- one step ----------

  predicate HeldIs(i: Inst, state: ReadyState) {
    i.ws.Some? && i.ws.value < |i.sockets| && i.sockets[i.ws.value] == state
  }

  predicate MayConnect(i: Inst) {
    !(i.connecting || HeldIs(i, Connecting) || HeldIs(i, Open))
  }

  function Connect(i: Inst): Inst {
    if MayConnect(i) then i.(connecting := true, requests := i.requests + 1) else i
  }

  function ClearTimer(i: Inst): Inst {
    if i.reconnectTimer.Some? then i.(pending := i.pending - {i.reconnectTimer.value}) else i
  }

  function Schedule(i: Inst): Inst {
    var c := ClearTimer(i);
    c.(pending := c.pending + {i.nextTimer}, reconnectTimer := Some(i.nextTimer),
       nextTimer := i.nextTimer + 1, attempts := i.attempts + 1)
  }

  predicate IsJitter(x: real) {
    0.0 <= x < 1.0
  }

  predicate Enabled(i: Inst, step: Step) {
    match step
    case Mount => !i.disposed
    case TimerFires(k) => k in i.pending
    case TicketOk => i.requests > 0
    case TicketFails(jitter) => i.requests > 0 && IsJitter(jitter)
    case Opens(j) => j < |i.sockets| && i.sockets[j] == Connecting
    case StartsClosing(j) => j < |i.sockets| && (i.sockets[j] == Connecting || i.sockets[j] == Open)
    case Closes(j, jitter) => j < |i.sockets| && i.sockets[j] != Closed && IsJitter(jitter)
    case Dispose => i.present && !i.disposed
    case Recreate => i.disposed
    case Vanish => i.disposed
  }

  function Next(i: Inst, step: Step): Inst
    requires Enabled(i, step)
  {
    match step
    case Mount =>
      var m := i.(present := true);
      if m.ws.None? || HeldIs(m, Closed) then Connect(m) else m
    case TimerFires(k) =>
      var t := i.(pending := i.pending - {k});
      if i.present then Connect(t) else t
    case TicketOk =>
      var t := i.(requests := i.requests - 1);
      if !i.present then t.(connecting := false)
      else t.(sockets := i.sockets + [Connecting], ws := Some(|i.sockets|))
    case TicketFails(_) => Schedule(i.(requests := i.requests - 1, connecting := false))
    case Opens(j) => i.(sockets := i.sockets[j := Open], connecting := false, attempts := 0)
    case StartsClosing(j) => i.(sockets := i.sockets[j := Closing])
    case Closes(j, _) => Schedule(i.(sockets := i.sockets[j := Closed], connecting := false))
    case Dispose =>
      var c := ClearTimer(i);
      if HeldIs(c, Connecting) || HeldIs(c, Open)
      then c.(present := false, disposed := true, sockets := c.sockets[c.ws.value := Closing])
      else c.(present := false, disposed := true)
    case Recreate => i.(present := true)
    case Vanish => i.(present := false)
  }

  // ---------- one connection at a time ----------

  function IsLive(state: ReadyState): nat {
    if state == Connecting || state == Open then 1 else 0
  }

  function Live(sockets: seq<ReadyState>): nat {
    if sockets == [] then 0 else Live(Front(sockets)) + IsLive(Last(sockets))
  }

  /** Ticket requests in flight, and sockets that are connecting or open. */
  function Load(i: Inst): nat {
    i.requests + Live(i.sockets)
  }

  ghost predicate AllClosed(sockets: seq<ReadyState>) {
    forall j | 0 <= j < |sockets| :: sockets[j] == Closed
  }

  /** A pending timer is the one recorded, and was drawn before. */
  ghost predicate TimerOk(i: Inst) {
    && (forall k <- i.pending :: i.reconnectTimer == Some(k))
    && (i.reconnectTimer.Some? ==> i.reconnectTimer.value < i.nextTimer)
  }

  /**
  Every socket but the one held is closed, a request is only in flight when that is
  closed too, and one timer at most is pending.
   */
  ghost predicate Inv(i: Inst) {
    && (i.ws.None? ==> i.sockets == [])
    && (i.ws.Some? ==> |i.sockets| == i.ws.value + 1 && AllClosed(Front(i.sockets)))
    && i.requests <= 1
    && (i.requests == 1 ==> i.connecting && (i.ws.None? || HeldIs(i, Closed)))
    && (HeldIs(i, Connecting) ==> i.connecting)
    && (i.connecting ==> i.requests == 1 || HeldIs(i, Connecting) || HeldIs(i, Closing))
    && TimerOk(i)
  }

  lemma {:induction false} LiveOfClosed(sockets: seq<ReadyState>)
    requires AllClosed(sockets)
    ensures Live(sockets) == 0
  {
    if sockets != [] {
      LiveOfClosed(Front(sockets));
    }
  }

  lemma InvMeansOne(i: Inst)
    requires Inv(i)
    ensures Load(i) <= 1
  {
    if i.ws.Some? {
      LiveOfClosed(Front(i.sockets));
    }
  }

  /** A reconnect timer dials while the socket held is still closing: the guard looks at CONNECTING and OPEN only. */
  predicate DialsOverClosing(i: Inst, step: Step) {
    step.TimerFires? && i.present && !i.connecting && HeldIs(i, Closing)
  }

  lemma AllClosedUpdate(sockets: seq<ReadyState>, j: nat, state: ReadyState)
    requires j < |sockets| && AllClosed(Front(sockets)) && sockets[j] != Closed
    ensures j == |sockets| - 1 && Front(sockets[j := state]) == Front(sockets)
  {
    assert forall k | 0 <= k < |sockets| - 1 :: sockets[k] == Front(sockets)[k];
  }

  lemma InvSocketStep(i: Inst, step: Step)
    requires Inv(i) && Enabled(i, step) && (step.Opens? || step.StartsClosing? || step.Closes?)
    ensures Inv(Next(i, step))
  {
    var state := match step { case Opens(_) => Open case StartsClosing(_) => Closing case _ => Closed };
    AllClosedUpdate(i.sockets, step.j, state);
  }

  lemma InvTicketOk(i: Inst)
    requires Inv(i) && i.requests > 0
    ensures Inv(Next(i, TicketOk))
  {
    if i.present {
      assert Front(i.sockets + [Connecting]) == i.sockets;
      if i.ws.Some? {
        assert i.sockets == Front(i.sockets) + [Closed];
      }
    }
  }

  lemma InvDispose(i: Inst)
    requires Inv(i) && Enabled(i, Dispose)
    ensures Inv(Next(i, Dispose))
  {
    if HeldIs(i, Connecting) || HeldIs(i, Open) {
      AllClosedUpdate(i.sockets, i.ws.value, Closing);
    }
  }

  lemma InvTimer(i: Inst, k: nat)
    requires Inv(i) && k in i.pending
    ensures Inv(Next(i, TimerFires(k))) <==> !DialsOverClosing(i, TimerFires(k))
  {
  }

  /** One step keeps the invariant, unless a timer dials over a closing socket. */
  lemma InvStep(i: Inst, step: Step)
    requires Inv(i) && Enabled(i, step)
    ensures Inv(Next(i, step)) <==> !DialsOverClosing(i, step)
  {
    match step
    case Opens(_) => InvSocketStep(i, step);
    case StartsClosing(_) => InvSocketStep(i, step);
    case Closes(_, _) => InvSocketStep(i, step);
    case Dispose => InvDispose(i);
    case TicketOk => InvTicketOk(i);
    case TimerFires(k) => InvTimer(i, k);
    case Mount =>
    case TicketFails(_) =>
    case Recreate =>
    case Vanish =>
  }

  datatype Run = Run(states: seq<Inst>, steps: seq<Step>) {
    ghost predicate Valid() {
      && |states| == |steps| + 1
      && forall k | 0 <= k < |steps| ::
           Enabled(states[k], steps[k]) && states[k + 1] == Next(states[k], steps[k])
    }

    ghost predicate FromStart() {
      Valid() && states[0] == START
    }
  }

  ghost predicate NeverDialsOverClosing(r: Run, n: nat)
    requires r.Valid() && n <= |r.steps|
  {
    forall k | 0 <= k < n :: !DialsOverClosing(r.states[k], r.steps[k])
  }

  lemma {:induction false} InvAlways(r: Run, n: nat)
    requires r.FromStart() && n <= |r.steps| && NeverDialsOverClosing(r, n)
    ensures Inv(r.states[n])
  {
    if n > 0 {
      InvAlways(r, n - 1);
      InvStep(r.states[n - 1], r.steps[n - 1]);
    }
  }

  /** Sockets close together with `onclose`, and the instance is not disposed. */
  ghost predicate AtomicCloses(r: Run, n: nat)
    requires n <= |r.steps|
  {
    forall k | 0 <= k < n :: !r.steps[k].StartsClosing? && !r.steps[k].Dispose?
  }

  lemma {:induction false} NoneClosing(r: Run, n: nat)
    requires r.FromStart() && n <= |r.steps| && AtomicCloses(r, n)
    ensures forall j | 0 <= j < |r.states[n].sockets| :: r.states[n].sockets[j] != Closing
  {
    if n > 0 {
      NoneClosing(r, n - 1);
      assert !r.steps[n - 1].StartsClosing? && !r.steps[n - 1].Dispose?;
    }
  }

  /** The instance waits for no ticket and for no opening, and the socket it holds, if any, is closing or closed. */
  predicate Free(i: Inst) {
    !i.connecting && (i.ws.Some? && i.ws.value < |i.sockets| ==>
                        i.sockets[i.ws.value] == Closing || i.sockets[i.ws.value] == Closed)
  }

  /** A timer or a mount asks for a ticket; a mount leaves a socket alone that is still closing. */
  predicate Dials(i: Inst, step: Step) {
    Free(i) && ((step.TimerFires? && i.present) || (step.Mount? && (i.ws.None? || HeldIs(i, Closed))))
  }

  /** A ticket is asked for exactly by a step that dials, and each answer uses one request up. */
  lemma DialsExactly(i: Inst, step: Step)
    requires Enabled(i, step)
    ensures Next(i, step).requests ==
            i.requests + (if Dials(i, step) then 1 else 0) - (if step.TicketOk? || step.TicketFails? then 1 else 0)
    ensures Dials(i, step) ==> Next(i, step).connecting
  {
  }

  /**
  A connect gets past the guard although a request or a live socket is there
  already: the one held is not it, or is closing.
   */
  predicate SecondDial(i: Inst, step: Step) {
    Load(i) == 1 && Dials(i, step)
  }

  lemma {:induction false} LiveUpdate(sockets: seq<ReadyState>, j: nat, state: ReadyState)
    requires j < |sockets|
    ensures Live(sockets[j := state]) == Live(sockets) - IsLive(sockets[j]) + IsLive(state)
  {
    if j < |sockets| - 1 {
      LiveUpdate(Front(sockets), j, state);
      assert Front(sockets[j := state]) == Front(sockets)[j := state];
    } else {
      assert Front(sockets[j := state]) == Front(sockets);
    }
  }

  lemma LoadSocketStep(i: Inst, step: Step)
    requires Enabled(i, step) && (step.Opens? || step.StartsClosing? || step.Closes?)
    ensures Load(Next(i, step)) <= Load(i)
  {
    var state := match step { case Opens(_) => Open case StartsClosing(_) => Closing case _ => Closed };
    LiveUpdate(i.sockets, step.j, state);
  }

  lemma LoadTicketOk(i: Inst)
    requires i.requests > 0
    ensures Load(Next(i, TicketOk)) <= Load(i)
  {
    assert Front(i.sockets + [Connecting]) == i.sockets;
  }

  lemma LoadDispose(i: Inst)
    requires Enabled(i, Dispose)
    ensures Load(Next(i, Dispose)) <= Load(i)
  {
    if HeldIs(i, Connecting) || HeldIs(i, Open) {
      LiveUpdate(i.sockets, i.ws.value, Closing);
    }
  }

  /** A step leaves at most one request or live socket if and only if it is no second dial, from any state. */
  lemma LoadStep(i: Inst, step: Step)
    requires Enabled(i, step) && Load(i) <= 1
    ensures Load(Next(i, step)) <= 1 <==> !SecondDial(i, step)
  {
    match step
    case Opens(_) => LoadSocketStep(i, step);
    case StartsClosing(_) => LoadSocketStep(i, step);
    case Closes(_, _) => LoadSocketStep(i, step);
    case TicketOk => LoadTicketOk(i);
    case Dispose => LoadDispose(i);
    case _ =>
  }

  ghost predicate OneAt(r: Run, k: nat)
    requires k < |r.states|
  {
    Load(r.states[k]) <= 1
  }

  ghost predicate SecondDialAt(r: Run, k: nat)
    requires k < |r.steps| && k < |r.states|
  {
    SecondDial(r.states[k], r.steps[k])
  }

  lemma OneAtStep(r: Run, m: nat)
    requires r.Valid() && m < |r.steps| && OneAt(r, m)
    ensures OneAt(r, m + 1) <==> !SecondDialAt(r, m)
  {
    LoadStep(r.states[m], r.steps[m]);
  }

  /**
  An instance has at most one of a ticket request in flight, a connecting socket
  and an open socket at every point of exactly the runs without a second dial.
   */
  lemma OneConnection(r: Run, n: nat)
    requires r.Valid() && n <= |r.steps| && OneAt(r, 0)
    ensures (forall k: nat | k <= n :: OneAt(r, k)) <==> (forall k: nat | k < n :: !SecondDialAt(r, k))
  {
    var good := (k: nat) => k <= n && OneAt(r, k);
    var bad := (k: nat) => k < n && SecondDialAt(r, k);
    forall m: nat {:trigger bad(m)} | m < n && good(m)
      ensures good(m + 1) <==> !bad(m)
    {
      OneAtStep(r, m);
    }
    AlwaysIffNever(good, bad, n);
    assert forall k: nat | k <= n :: good(k) <==> OneAt(r, k);
    assert forall k: nat | k < n :: bad(k) <==> SecondDialAt(r, k);
  }

  /** At most one reconnect timer is pending, in every run. */
  lemma {:induction false} OneTimer(r: Run, n: nat)
    requires r.FromStart() && n <= |r.steps|
    ensures TimerOk(r.states[n])
    ensures forall j, k | j in r.states[n].pending && k in r.states[n].pending :: j == k
  {
    if n > 0 {
      OneTimer(r, n - 1);
      assert Enabled(r.states[n - 1], r.steps[n - 1]);
    }
  }

  /** One cause is enough to look for: where no timer dials over a closing socket there is no second dial. */
  lemma OneConnectionUnlessClosing(r: Run, n: nat)
    requires r.FromStart() && n <= |r.steps| && NeverDialsOverClosing(r, n)
    ensures Load(r.states[n]) <= 1
  {
    InvAlways(r, n);
    InvMeansOne(r.states[n]);
  }

  /** In particular when sockets close at once and the instance is not disposed. */
  lemma OneConnectionAtomic(r: Run, n: nat)
    requires r.FromStart() && n <= |r.steps| && AtomicCloses(r, n)
    ensures NeverDialsOverClosing(r, n) && Load(r.states[n]) <= 1
  {
    forall k | 0 <= k < n
      ensures !DialsOverClosing(r.states[k], r.steps[k])
    {
      NoneClosing(r, k);
    }
    OneConnectionUnlessClosing(r, n);
  }

  /** A ticket is on its way, or some socket is still to close. */
  ghost predicate Busy(i: Inst) {
    i.requests > 0 || exists j :: 0 <= j < |i.sockets| && i.sockets[j] != Closed
  }

  /** Something is on its way whose end leads to the next attempt. */
  ghost predicate Trying(i: Inst) {
    i.present && !i.disposed && (i.connecting ==> Busy(i)) && (Busy(i) || i.pending != {})
  }

  lemma TryingSocketStep(i: Inst, step: Step)
    requires Enabled(i, step) && Trying(i) && (step.Opens? || step.StartsClosing?)
    ensures Trying(Next(i, step))
  {
    assert Next(i, step).sockets[step.j] != Closed;
  }

  lemma TryingAgain(i: Inst, step: Step)
    requires Enabled(i, step) && Trying(i) && (step.TicketFails? || step.Closes?)
    ensures Trying(Next(i, step))
  {
    assert i.nextTimer in Next(i, step).pending;
  }

  lemma TryingDial(i: Inst, step: Step)
    requires Enabled(i, step) && Trying(i) && (step.Mount? || step.TimerFires?)
    ensures Trying(Next(i, step))
  {
    if HeldIs(i, Connecting) || HeldIs(i, Open) {
      assert Next(i, step).sockets[i.ws.value] != Closed;
    }
  }

  lemma TryingStep(i: Inst, step: Step)
    requires Enabled(i, step) && Trying(i) && !step.Dispose?
    ensures Trying(Next(i, step))
  {
    match step
    case Opens(_) => TryingSocketStep(i, step);
    case StartsClosing(_) => TryingSocketStep(i, step);
    case Closes(_, _) => TryingAgain(i, step);
    case TicketFails(_) => TryingAgain(i, step);
    case Mount => TryingDial(i, step);
    case TimerFires(_) => TryingDial(i, step);
    case TicketOk => assert Next(i, step).sockets[|i.sockets|] != Closed;
  }

  /**
  Never stuck: from the first connect on, and until the instance is disposed, a
  ticket is on its way, a socket is connecting, open or closing, or a reconnect
  timer is pending, however slowly sockets close.
   */
  lemma {:induction false} NeverStuck(r: Run, n: nat)
    requires r.FromStart() && 0 < n <= |r.steps| && r.steps[0].Mount?
    requires forall k | 0 <= k < n :: !r.steps[k].Dispose?
    ensures Trying(r.states[n])
  {
    if n > 1 {
      NeverStuck(r, n - 1);
      TryingStep(r.states[n - 1], r.steps[n - 1]);
    }
  }

  // ---------- after the instance is disposed of ----------

  /** Disposing cancels the reconnect timer, starts to close the socket that is held, and takes the id away. */
  lemma DisposeStops(i: Inst)
    requires TimerOk(i) && Enabled(i, Dispose)
    ensures var d := Next(i, Dispose);
            && d.pending == {} && !d.present && d.disposed
            && (HeldIs(i, Connecting) || HeldIs(i, Open) ==> HeldIs(d, Closing))
            && |d.sockets| == |i.sockets|
            && (forall j | 0 <= j < |i.sockets| && i.ws != Some(j) :: d.sockets[j] == i.sockets[j])
            && d.requests == i.requests && d.attempts == i.attempts
  {
    assert forall k <- i.pending :: i.reconnectTimer == Some(k);
  }

  /**
  A disposed instance asks for a ticket or opens a socket exactly if its id is back
  when an answer arrives or a timer runs.
   */
  lemma DisposedStep(i: Inst, step: Step)
    requires Enabled(i, step) && i.disposed
    ensures var d := Next(i, step);
            d.requests > i.requests || |d.sockets| > |i.sockets|
            <==> i.present && (step.TicketOk? || (step.TimerFires? && Free(i)))
  {
  }

  lemma AbsentStep(i: Inst, step: Step)
    requires Enabled(i, step) && i.disposed && !i.present && !step.Recreate?
    ensures var d := Next(i, step);
            d.disposed && !d.present && d.requests <= i.requests && |d.sockets| == |i.sockets|
  {
  }

  /**
  From then on, as long as the id does not come back, it asks for no ticket and
  opens no socket, whatever timers and answers are still to come.
   */
  lemma {:induction false} DisposedStaysQuiet(r: Run, a: nat, b: nat)
    requires r.Valid() && a < b <= |r.steps| && r.steps[a].Dispose?
    requires forall k | a < k < b :: !r.steps[k].Recreate?
    ensures var i, d := r.states[a], r.states[b];
            d.disposed && !d.present && d.requests <= i.requests && |d.sockets| == |i.sockets|
    decreases b
  {
    assert Enabled(r.states[b - 1], r.steps[b - 1]) && r.states[b] == Next(r.states[b - 1], r.steps[b - 1]);
    if a < b - 1 {
      DisposedStaysQuiet(r, a, b - 1);
      AbsentStep(r.states[b - 1], r.steps[b - 1]);
    }
  }

  lemma Extend(r: Run, step: Step) returns (s: Run)
    requires r.FromStart() && Enabled(Last(r.states), step)
    ensures s.FromStart() && s.steps == r.steps + [step] && Last(s.states) == Next(Last(r.states), step)
  {
    s := Run(r.states + [Next(Last(r.states), step)], r.steps + [step]);
  }

  /** The id comes back while a ticket is on its way: the disposed instance opens a socket all the same. */
  lemma ReturnedIdRevivesDisposed() returns (r: Run)
    ensures r.FromStart() && Last(r.states).disposed
    ensures Last(r.states).sockets == [Connecting]
  {
    r := Run([START], []);
    r := Extend(r, Mount);
    r := Extend(r, Dispose);
    r := Extend(r, Recreate);
    r := Extend(r, TicketOk);
    assert Last(r.states) == Inst(true, Some(0), [Connecting], 0, {}, None, 0, 0, true, true);
  }

  /** The id comes back and goes again: the refused ticket sets one more timer, and that asks for nothing. */
  lemma GoneIdStaysQuiet() returns (r: Run)
    ensures r.FromStart() && Last(r.states).disposed && Last(r.states).attempts == 1
    ensures Last(r.states).requests == 0 && Last(r.states).pending == {} && Last(r.states).sockets == []
  {
    r := Run([START], []);
    r := Extend(r, Mount);
    r := Extend(r, Dispose);
    r := Extend(r, Recreate);
    r := Extend(r, Vanish);
    assert Last(r.states) == Inst(true, None, [], 1, {}, None, 0, 0, false, true);
    r := Extend(r, TicketFails(0.5));
    assert Last(r.states) == Inst(false, None, [], 0, {0}, Some(0), 1, 1, false, true);
    r := Extend(r, TimerFires(0));
  }

  /** A socket has closed and its timer is pending; the page connects again before that runs. */
  lemma ConnectedWithOldTimer() returns (r: Run)
    ensures r.FromStart()
    ensures Last(r.states) == Inst(true, Some(1), [Closed, Connecting], 0, {0}, Some(0), 1, 1, true, false)
  {
    r := Run([START], []);
    r := Extend(r, Mount);
    r := Extend(r, TicketOk);
    assert Last(r.states) == Inst(true, Some(0), [Connecting], 0, {}, None, 0, 0, true, false);
    r := Extend(r, Closes(0, 0.5));
    assert Last(r.states) == Inst(false, Some(0), [Closed], 0, {0}, Some(0), 1, 1, true, false);
    r := Extend(r, Mount);
    r := Extend(r, TicketOk);
  }

  lemma DialledOverClosing() returns (r: Run)
    ensures r.FromStart()
    ensures Last(r.states) == Inst(true, Some(1), [Closed, Closing], 1, {}, Some(0), 1, 0, true, false)
  {
    r := ConnectedWithOldTimer();
    r := Extend(r, Opens(1));
    assert Last(r.states).sockets == [Closed, Open];
    r := Extend(r, StartsClosing(1));
    assert Last(r.states).sockets == [Closed, Closing];
    r := Extend(r, TimerFires(0));
  }

  /**
  What the guard lets through: a timer left from an earlier close dials while
  the newer socket is closing, that socket's `onclose` then clears `connecting`,
  and the next timer sends a second ticket request.
   */
  lemma ClosingSocketDoublesRequests() returns (r: Run)
    ensures r.FromStart() && Load(Last(r.states)) == 2
  {
    r := DialledOverClosing();
    r := Extend(r, Closes(1, 0.5));
    assert Last(r.states) == Inst(false, Some(1), [Closed, Closed], 1, {1}, Some(1), 2, 1, true, false);
    r := Extend(r, TimerFires(1));
    LiveOfClosed(Last(r.states).sockets);
  }

  // ---------- backoff ----------

  function Pow2(n: nat): nat {
    if n == 0 then 1 else 2 * Pow2(n - 1)
  }

  function Base(attempts: nat): nat {
    if 500 * Pow2(attempts) < 10000 then 500 * Pow2(attempts) else 10000
  }

  /** `nextReconnectDelay`, with the random draw as a parameter. */
  function Delay(attempts: nat, draw: real): int {
    var base := Base(attempts) as real;
    var floor := (base + base * 0.2 * (draw * 2.0 - 1.0)).Floor;
    if floor < 250 then 250 else floor
  }

  lemma {:induction false} Pow2Grows(m: nat, n: nat)
    requires m <= n
    ensures 1 <= Pow2(m) <= Pow2(n)
    decreases n
  {
    if m < n {
      Pow2Grows(m, n - 1);
    } else if m > 0 {
      Pow2Grows(m - 1, m - 1);
    }
  }

  /** The least delay after so many failures in a row: 400 ms doubled, up to 8 s. */
  function LeastDelay(attempts: nat): nat {
    Base(attempts) / 5 * 4
  }

  lemma LeastDelayGrows(m: nat, n: nat)
    requires m <= n
    ensures 400 <= LeastDelay(m) <= LeastDelay(n) <= 8000
  {
    Pow2Grows(0, m);
    Pow2Grows(m, n);
  }

  /** The six values that `Base` takes. */
  lemma BaseValues(attempts: nat)
    ensures Base(attempts) in {500, 1000, 2000, 4000, 8000, 10000}
  {
    if attempts <= 4 {
      assert Pow2(0) == 1 && Pow2(1) == 2 && Pow2(2) == 4 && Pow2(3) == 8 && Pow2(4) == 16;
    } else {
      Pow2Grows(5, attempts);
      assert Pow2(3) == 8 && Pow2(5) == 32;
    }
  }

  lemma JitterBounds(base: int, draw: real)
    requires base in {500, 1000, 2000, 4000, 8000, 10000} && IsJitter(draw)
    ensures var x := base as real + base as real * 0.2 * (draw * 2.0 - 1.0);
            (base / 5 * 4) as real <= x < (base / 5 * 6) as real
  {
    if base == 500 {
    } else if base == 1000 {
    } else if base == 2000 {
    } else if base == 4000 {
    } else if base == 8000 {
    } else {
      assert base == 10000;
    }
  }

  /** Every delay lies in [400, 12000), so the floor of 250 never binds. */
  lemma DelayBounds(attempts: nat, draw: real)
    requires IsJitter(draw)
    ensures 400 <= LeastDelay(attempts) <= Delay(attempts, draw) < 12000
    ensures Delay(attempts, draw) < Base(attempts) / 5 * 6
    ensures var base := Base(attempts) as real;
            Delay(attempts, draw) == (base + base * 0.2 * (draw * 2.0 - 1.0)).Floor
  {
    BaseValues(attempts);
    JitterBounds(Base(attempts), draw);
    LeastDelayGrows(attempts, attempts);
  }

  function Sum(delays: seq<int>): int {
    if delays == [] then 0 else Sum(Front(delays)) + Last(delays)
  }

  /** The delay that a step sets a timer for, if it sets one. */
  function DelayOf(i: Inst, step: Step): seq<int> {
    match step
    case TicketFails(jitter) => [Delay(i.attempts, jitter)]
    case Closes(_, jitter) => [Delay(i.attempts, jitter)]
    case _ => []
  }

  /** The delays set between states `a` and `b` of a run. */
  function Delays(r: Run, a: nat, b: nat): seq<int>
    requires a <= b <= |r.steps| && b <= |r.states|
    decreases b
  {
    if a == b then [] else Delays(r, a, b - 1) + DelayOf(r.states[b - 1], r.steps[b - 1])
  }

  function LeastSum(k: nat): nat {
    if k == 0 then 0 else LeastSum(k - 1) + LeastDelay(k - 1)
  }

  lemma {:induction false} LeastSumIs(k: nat)
    requires k >= 5
    ensures LeastSum(k) == 12400 + 8000 * (k - 5)
  {
    if k == 5 {
      assert Pow2(0) == 1 && Pow2(1) == 2 && Pow2(2) == 4 && Pow2(3) == 8 && Pow2(4) == 16;
      assert LeastSum(1) == 400;
      assert LeastSum(2) == 1200;
      assert LeastSum(3) == 2800;
      assert LeastSum(4) == 6000;
    } else {
      LeastSumIs(k - 1);
      Pow2Grows(5, k - 1);
      assert Pow2(3) == 8 && Pow2(5) == 32;
    }
  }

  lemma DelayStep(i: Inst, step: Step)
    requires Enabled(i, step) && !step.Opens?
    ensures |DelayOf(i, step)| <= 1 && Next(i, step).attempts == i.attempts + |DelayOf(i, step)|
    ensures DelayOf(i, step) != [] ==> DelayOf(i, step)[0] >= LeastDelay(i.attempts)
  {
    if step.TicketFails? || step.Closes? {
      DelayBounds(i.attempts, step.jitter);
    }
  }

  lemma SumMore(delays: seq<int>, more: seq<int>, attempts: nat)
    requires Sum(delays) >= LeastSum(|delays|) && |delays| <= attempts
    requires |more| <= 1 && (more != [] ==> more[0] >= LeastDelay(attempts))
    ensures Sum(delays + more) >= LeastSum(|delays + more|)
  {
    if more == [] {
      assert delays + more == delays;
    } else {
      assert Front(delays + more) == delays && Last(delays + more) == more[0];
      LeastDelayGrows(|delays|, attempts);
    }
  }

  lemma DelaysLater(r: Run, a: nat, b: nat, more: seq<int>)
    requires r.Valid() && a < b <= |r.steps| && more == DelayOf(r.states[b - 1], r.steps[b - 1])
    requires !r.steps[b - 1].Opens?
    ensures Delays(r, a, b) == Delays(r, a, b - 1) + more && |more| <= 1
    ensures more != [] ==> more[0] >= LeastDelay(r.states[b - 1].attempts)
    ensures r.states[b].attempts == r.states[b - 1].attempts + |more|
  {
    DelayStep(r.states[b - 1], r.steps[b - 1]);
  }

  lemma {:induction false} DelaysAddUp(r: Run, a: nat, b: nat)
    requires r.Valid() && a <= b <= |r.steps|
    requires forall k | a <= k < b :: !r.steps[k].Opens?
    ensures Sum(Delays(r, a, b)) >= LeastSum(|Delays(r, a, b)|)
    ensures r.states[b].attempts == r.states[a].attempts + |Delays(r, a, b)|
    decreases b
  {
    if a < b {
      DelaysAddUp(r, a, b - 1);
      var more := DelayOf(r.states[b - 1], r.steps[b - 1]);
      DelaysLater(r, a, b, more);
      SumMore(Delays(r, a, b - 1), more, r.states[b - 1].attempts);
    }
  }

  /** Without an open, the counter grows by one with each delay. */
  lemma {:induction false} AttemptsGrow(r: Run, a: nat, b: nat)
    requires r.Valid() && a <= b <= |r.steps|
    requires forall k | a <= k < b :: !r.steps[k].Opens?
    ensures r.states[b].attempts == r.states[a].attempts + |Delays(r, a, b)|
    decreases b
  {
    if a < b {
      AttemptsGrow(r, a, b - 1);
      DelaysLater(r, a, b, DelayOf(r.states[b - 1], r.steps[b - 1]));
    }
  }

  lemma OpenClears(r: Run, a: nat)
    requires r.Valid() && a < |r.steps| && r.steps[a].Opens?
    ensures r.states[a + 1].attempts == 0
  {
  }

  lemma AttemptsSinceOpen(r: Run, a: nat, c: nat, b: nat)
    requires r.Valid() && c == a + 1 && c <= b <= |r.steps|
    requires r.steps[a].Opens? && forall k | c <= k < b :: !r.steps[k].Opens?
    ensures r.states[b].attempts == |Delays(r, c, b)|
  {
    AttemptsGrow(r, c, b);
    assert r.states[c].attempts == 0 by {
      OpenClears(r, a);
    }
  }

  /** A successful open starts the schedule again: after it, the `k`-th delay grows from half a second. */
  lemma OpenResetsBackoff(r: Run, a: nat, b: nat, draw: real)
    requires r.Valid() && a < b <= |r.steps| && IsJitter(draw)
    requires r.steps[a].Opens? && forall k | a < k < b :: !r.steps[k].Opens?
    ensures var k := |Delays(r, a + 1, b)|;
            r.states[b].attempts == k && LeastDelay(k) <= Delay(r.states[b].attempts, draw) < Base(k) / 5 * 6
  {
    AttemptsSinceOpen(r, a, a + 1, b);
    DelayBounds(r.states[b].attempts, draw);
  }

  /** With no successful open between them, `k >= 5` scheduled reconnects wait at least this long together. */
  lemma BackoffIsExponential(r: Run, a: nat, b: nat)
    requires r.Valid() && a <= b <= |r.steps|
    requires forall k | a <= k < b :: !r.steps[k].Opens?
    requires |Delays(r, a, b)| >= 5
    ensures Sum(Delays(r, a, b)) >= 12400 + 8000 * (|Delays(r, a, b)| - 5)
  {
    DelaysAddUp(r, a, b);
    LeastSumIs(|Delays(r, a, b)|);
  }
}
