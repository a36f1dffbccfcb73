/**
Any number of WebSocket handlers over one tmux manager.

Each handler has three goroutines: the one that runs `HandleTerminal`, the pump
from the pty to the socket and the pump from the socket to the pty. A step is
what one goroutine does between two points at which another may run, an admin
call, or an event of the environment.
 */
module Handlers {
  import opened Prelude
  import P = TmuxProtocol

  datatype Side = Pty | Ws

  datatype Main = Starting | Greeting | Waiting | Detaching | Closing | Returned

  /** `Exiting` is about to call `shutdown`; `InOnce(k)` has done the first `k` statements of its body. */
  datatype Pump = Off | Reading | Injecting | Locking | Writing | Exiting | InOnce(stage: nat) | Gone

  datatype Once = Idle | Held(runner: Side) | Finished

  /** `inbox` counts frames received and not yet read; `doneCloses` counts the runs of `close(done)`. */
  datatype Handler = Handler(
    id: P.Id,
    main: Main,
    handle: Option<P.Handle>,
    connOpen: bool,
    inbox: nat,
    doneCloses: nat,
    once: Once,
    writer: Option<Side>,
    pty: Pump,
    ws: Pump)
  {
    function Pump(side: Side): Pump {
      if side.Pty? then pty else ws
    }

    function Set(side: Side, pump: Pump): Handler {
      if side.Pty? then this.(pty := pump) else this.(ws := pump)
    }
  }

  datatype Frame = Input | Sized(size: P.Size, shellOk: bool) | Ping | Ignored

  datatype Act =
    | Attach(newOk: bool, ptyOk: bool)
    | Greet(ok: bool)
    | Wake
    | Detach
    | CloseConn
    | PtyData
    | ReadFails(side: Side)
    | WsFrame(frame: Frame)
    | Inject
    | Lock(side: Side)
    | Write(side: Side, ok: bool)
    | EnterOnce(side: Side)
    | RunOnce(side: Side)
    | Arrive

  datatype Step = Connect(id: P.Id) | Do(i: nat, act: Act) | Admin(step: P.Step)

  datatype Sys = Sys(mgr: P.State, handlers: seq<Handler>)

  const DEFAULT_SIZE := P.Size(120, 40)

  function Other(side: Side): Side {
    if side.Pty? then Ws else Pty
  }

  // ---------- one step ----------

  predicate PtyOpen(m: P.State, h: Handler) {
    h.handle.Some? && h.handle.value < |m.clients| && m.clients[h.handle.value].ptyOpen
  }

  predicate Enabled(m: P.State, h: Handler, act: Act) {
    match act
    case Attach(_, _) => h.main == Starting
    case Greet(ok) => h.main == Greeting && (ok ==> h.connOpen)
    case Wake => h.main == Waiting && h.doneCloses > 0
    case Detach => h.main == Detaching
    case CloseConn => h.main == Closing
    case PtyData => h.pty == Reading && PtyOpen(m, h)
    case ReadFails(side) => h.Pump(side) == Reading
    case WsFrame(_) => h.ws == Reading && h.inbox > 0
    case Inject => h.ws == Injecting
    case Lock(side) => h.Pump(side) == Locking && h.writer == None
    case Write(side, ok) => h.Pump(side) == Writing && (ok ==> h.connOpen)
    case EnterOnce(side) => h.Pump(side) == Exiting && !h.once.Held?
    case RunOnce(side) => h.Pump(side).InOnce? && h.handle.Some?
    case Arrive => h.connOpen
  }

  /** The manager call that an act makes, if any. */
  function Call(h: Handler, act: Act): Option<P.Step> {
    match act
    case Attach(newOk, ptyOk) => Some(P.Attach(h.id, DEFAULT_SIZE, newOk, ptyOk))
    case Detach => Some(P.Detach(h.id, h.handle))
    case WsFrame(Sized(size, shellOk)) =>
      if size.cols > 0 && size.rows > 0 then Some(P.Resize(h.id, size, shellOk)) else None
    case RunOnce(side) =>
      if h.Pump(side) == InOnce(2) && h.handle.Some? then Some(P.ClosePty(h.handle.value)) else None
    case _ => None
  }

  function MgrNext(m: P.State, h: Handler, act: Act): P.State {
    var call := Call(h, act);
    if call.Some? then P.Next(m, call.value) else m
  }

  function HandlerNext(m: P.State, h: Handler, act: Act): Handler
    requires Enabled(m, h, act)
  {
    match act
    case Attach(_, _) =>
      if P.AttachSucceeds(m, Call(h, act).value) then h.(main := Greeting, handle := Some(|m.clients|))
      else h.(main := Closing)
    case Greet(ok) => if ok then h.(main := Waiting, pty := Reading, ws := Reading) else h.(main := Detaching)
    case Wake => h.(main := Detaching)
    case Detach => h.(main := Closing)
    case CloseConn => h.(main := Returned, connOpen := false)
    case PtyData => h.(pty := Locking)
    case ReadFails(side) => h.Set(side, Exiting)
    case WsFrame(frame) =>
      var next := match frame { case Input => Injecting case Ping => Locking case _ => Reading };
      h.(inbox := h.inbox - 1, ws := next)
    case Inject => h.(ws := Reading)
    case Lock(side) => h.Set(side, Writing).(writer := Some(side))
    case Write(side, ok) => h.Set(side, if ok then Reading else Exiting).(writer := None)
    case EnterOnce(side) =>
      if h.once.Idle? then h.Set(side, InOnce(0)).(once := Held(side)) else h.Set(side, Gone)
    case RunOnce(side) =>
      (match h.Pump(side).stage
       case 0 => h.Set(side, InOnce(1)).(doneCloses := h.doneCloses + 1)
       case 1 => h.Set(side, InOnce(2)).(connOpen := false)
       case _ => h.Set(side, Gone).(once := Finished))
    case Arrive => h.(inbox := h.inbox + 1)
  }

  /** What runs beside the handlers: admin deletes, the server's shutdown, and sessions that appear or end. */
  predicate AdminStep(step: P.Step) {
    step.KillLocked? || step.KillServer? || step.Shutdown? || step.CreateSession? || step.ShellExit?
  }

  predicate StepEnabled(s: Sys, step: Step) {
    match step
    case Connect(_) => true
    case Do(i, act) => i < |s.handlers| && Enabled(s.mgr, s.handlers[i], act)
    case Admin(admin) => AdminStep(admin)
  }

  function NewHandler(id: P.Id): Handler {
    Handler(id, Starting, None, true, 0, 0, Idle, None, Off, Off)
  }

  function Next(s: Sys, step: Step): Sys
    requires StepEnabled(s, step)
  {
    match step
    case Connect(id) => s.(handlers := s.handlers + [NewHandler(id)])
    case Do(i, act) =>
      Sys(MgrNext(s.mgr, s.handlers[i], act), s.handlers[i := HandlerNext(s.mgr, s.handlers[i], act)])
    case Admin(admin) => s.(mgr := P.Next(s.mgr, admin))
  }

  // ---------- the invariant ----------

  /** What a handler's program counters say about its handle and its client. */
  ghost predicate HandleOk(m: P.State, h: Handler) {
    && (h.main.Starting? ==> h.handle == None)
    && (h.main.Greeting? || h.main.Waiting? || h.main.Detaching? || !h.pty.Off? ==> h.handle.Some?)
    && (h.handle.Some? ==>
          && h.handle.value < |m.clients|
          && m.clients[h.handle.value].id == h.id
          && (h.main.Closing? || h.main.Returned? ==> m.clients[h.handle.value].closed))
  }

  ghost predicate PumpsOk(h: Handler) {
    && (h.main.Starting? || h.main.Greeting? ==> h.pty.Off?)
    && (h.main.Waiting? ==> !h.pty.Off?)
    && (h.pty.Off? <==> h.ws.Off?)
    && (h.pty.Off? ==> h.once.Idle?)
    && h.pty != Injecting
    && (h.writer == Some(Pty) <==> h.pty == Writing)
    && (h.writer == Some(Ws) <==> h.ws == Writing)
    && (h.main.Detaching? || h.main.Closing? || h.main.Returned? ==> h.pty.Off? || h.doneCloses == 1)
  }

  predicate BeforeOnce(pump: Pump) {
    !pump.InOnce? && !pump.Gone?
  }

  /** How far the body of `shutdown` has come. */
  ghost predicate OnceOk(m: P.State, h: Handler) {
    match h.once
    case Idle =>
      h.doneCloses == 0 && BeforeOnce(h.pty) && BeforeOnce(h.ws)
    case Held(runner) =>
      var mine, other := h.Pump(runner), h.Pump(Other(runner));
      && mine.InOnce? && mine.stage <= 2
      && h.doneCloses == (if mine.stage == 0 then 0 else 1)
      && (mine.stage == 2 ==> !h.connOpen)
      && BeforeOnce(other)
    case Finished =>
      && h.doneCloses == 1 && !h.connOpen && !PtyOpen(m, h)
      && !h.pty.InOnce? && !h.ws.InOnce?
  }

  ghost predicate HandlerOk(m: P.State, h: Handler) {
    HandleOk(m, h) && PumpsOk(h) && OnceOk(m, h)
  }

  ghost predicate Attached(s: Sys, i: nat, k: P.Handle) {
    i < |s.handlers| && s.handlers[i].handle == Some(k)
  }

  ghost predicate Taken(s: Sys, k: P.Handle) {
    exists i: nat :: Attached(s, i, k)
  }

  /** Every client was handed to exactly one handler. */
  ghost predicate HandedOut(s: Sys) {
    && (forall k | 0 <= k < |s.mgr.clients| :: Taken(s, k))
    && (forall i: nat, j: nat, k: nat :: Attached(s, i, k) && Attached(s, j, k) ==> i == j)
  }

  ghost predicate Inv(s: Sys) {
    && P.Owned(s.mgr) && P.Reaped(s.mgr)
    && HandedOut(s)
    && forall i | 0 <= i < |s.handlers| :: HandlerOk(s.mgr, s.handlers[i])
  }

  /** Clients are only added, closed, or have their pty closed. */
  ghost predicate Grows(m: P.State, n: P.State) {
    && |m.clients| <= |n.clients|
    && forall k | 0 <= k < |m.clients| ::
         && n.clients[k].id == m.clients[k].id
         && (m.clients[k].closed ==> n.clients[k].closed)
         && (n.clients[k].ptyOpen ==> m.clients[k].ptyOpen)
  }

  lemma NextGrows(m: P.State, step: P.Step)
    ensures Grows(m, P.Next(m, step))
    ensures |P.Next(m, step).clients|
            == |m.clients| + (if step.Attach? && P.AttachSucceeds(m, step) then 1 else 0)
  {
  }

  lemma HandlerOkGrows(m: P.State, n: P.State, h: Handler)
    requires HandlerOk(m, h) && Grows(m, n)
    ensures HandlerOk(n, h)
  {
  }

  lemma MgrNextKeepsOwnership(m: P.State, h: Handler, act: Act)
    requires HandleOk(m, h) && P.Owned(m) && P.Reaped(m)
    ensures P.Owned(MgrNext(m, h, act)) && P.Reaped(MgrNext(m, h, act)) && Grows(m, MgrNext(m, h, act))
  {
    var call := Call(h, act);
    if call.Some? {
      NextGrows(m, call.value);
      P.OwnedStep(m, call.value);
      P.ReapedStep(m, call.value);
    }
  }

  /** The acts of the goroutine that runs `HandleTerminal`. */
  predicate MainAct(act: Act) {
    act.Attach? || act.Greet? || act.Wake? || act.Detach? || act.CloseConn?
  }

  lemma MgrGrows(m: P.State, h: Handler, act: Act)
    ensures Grows(m, MgrNext(m, h, act))
  {
    var call := Call(h, act);
    if call.Some? {
      NextGrows(m, call.value);
    }
  }

  lemma AttachOk(m: P.State, h: Handler, act: Act)
    requires HandleOk(m, h) && Enabled(m, h, act) && act.Attach?
    ensures HandleOk(MgrNext(m, h, act), HandlerNext(m, h, act))
  {
  }

  /** An act leaves a growing manager and the handle: what is said of the handle stays, until the handler detaches. */
  lemma HandleStays(m: P.State, n: P.State, h: Handler, g: Handler)
    requires HandleOk(m, h) && Grows(m, n) && h.handle == g.handle && h.id == g.id
    requires g.main.Starting? ==> g.handle == None
    requires g.main.Greeting? || g.main.Waiting? || g.main.Detaching? || !g.pty.Off? ==> g.handle.Some?
    requires g.main.Closing? || g.main.Returned? ==>
               h.handle.Some? ==> n.clients[h.handle.value].closed
    ensures HandleOk(n, g)
  {
  }

  lemma PumpActLeaves(m: P.State, h: Handler, act: Act)
    requires Enabled(m, h, act) && !MainAct(act)
    ensures var g := HandlerNext(m, h, act);
            g.main == h.main && g.handle == h.handle && g.id == h.id && (g.pty.Off? <==> h.pty.Off?)
  {
  }

  lemma HandleOkPump(m: P.State, h: Handler, act: Act)
    requires HandleOk(m, h) && PumpsOk(h) && Enabled(m, h, act) && !MainAct(act)
    ensures HandleOk(MgrNext(m, h, act), HandlerNext(m, h, act))
  {
    MgrGrows(m, h, act);
    PumpActLeaves(m, h, act);
    HandleStays(m, MgrNext(m, h, act), h, HandlerNext(m, h, act));
  }

  lemma HandleOkMain(m: P.State, h: Handler, act: Act)
    requires HandleOk(m, h) && PumpsOk(h) && Enabled(m, h, act) && MainAct(act) && !act.Attach?
    ensures HandleOk(MgrNext(m, h, act), HandlerNext(m, h, act))
  {
    MgrGrows(m, h, act);
    HandleStays(m, MgrNext(m, h, act), h, HandlerNext(m, h, act));
  }

  lemma HandleOkAct(m: P.State, h: Handler, act: Act)
    requires HandlerOk(m, h) && Enabled(m, h, act)
    ensures HandleOk(MgrNext(m, h, act), HandlerNext(m, h, act))
  {
    if act.Attach? {
      AttachOk(m, h, act);
    } else if MainAct(act) {
      HandleOkMain(m, h, act);
    } else {
      HandleOkPump(m, h, act);
    }
  }

  lemma PumpsOkMain(m: P.State, h: Handler, act: Act)
    requires PumpsOk(h) && OnceOk(m, h) && Enabled(m, h, act) && MainAct(act)
    ensures PumpsOk(HandlerNext(m, h, act))
  {
  }

  lemma PumpsOkWriter(m: P.State, h: Handler, act: Act)
    requires PumpsOk(h) && Enabled(m, h, act) && (act.Lock? || act.Write?)
    ensures PumpsOk(HandlerNext(m, h, act))
  {
  }

  lemma PumpsOkOnce(m: P.State, h: Handler, act: Act)
    requires PumpsOk(h) && OnceOk(m, h) && Enabled(m, h, act) && (act.EnterOnce? || act.RunOnce?)
    ensures PumpsOk(HandlerNext(m, h, act))
  {
  }

  lemma PumpsOkRead(m: P.State, h: Handler, act: Act)
    requires PumpsOk(h) && Enabled(m, h, act) && LoopAct(act) && !act.Lock? && !act.Write?
    ensures PumpsOk(HandlerNext(m, h, act))
  {
  }

  lemma PumpsOkAct(m: P.State, h: Handler, act: Act)
    requires HandlerOk(m, h) && Enabled(m, h, act)
    ensures PumpsOk(HandlerNext(m, h, act))
  {
    if MainAct(act) {
      PumpsOkMain(m, h, act);
    } else if act.Lock? || act.Write? {
      PumpsOkWriter(m, h, act);
    } else if act.EnterOnce? || act.RunOnce? {
      PumpsOkOnce(m, h, act);
    } else {
      PumpsOkRead(m, h, act);
    }
  }

  lemma OnceOkMain(m: P.State, h: Handler, act: Act)
    requires HandlerOk(m, h) && Enabled(m, h, act) && MainAct(act)
    ensures OnceOk(MgrNext(m, h, act), HandlerNext(m, h, act))
  {
    MgrGrows(m, h, act);
  }

  lemma OnceOkRun(m: P.State, h: Handler, side: Side)
    requires HandleOk(m, h) && OnceOk(m, h) && P.Reaped(m) && Enabled(m, h, RunOnce(side))
    ensures OnceOk(MgrNext(m, h, RunOnce(side)), HandlerNext(m, h, RunOnce(side)))
  {
  }

  lemma OnceOkEnter(m: P.State, h: Handler, side: Side)
    requires OnceOk(m, h) && Enabled(m, h, EnterOnce(side))
    ensures OnceOk(m, HandlerNext(m, h, EnterOnce(side)))
  {
  }

  predicate LoopAct(act: Act) {
    !MainAct(act) && !act.EnterOnce? && !act.RunOnce?
  }

  lemma LoopActLeaves(m: P.State, h: Handler, act: Act)
    requires Enabled(m, h, act) && LoopAct(act)
    ensures var g := HandlerNext(m, h, act);
            && g.once == h.once && g.doneCloses == h.doneCloses && g.connOpen == h.connOpen && g.handle == h.handle
            && (g.pty == h.pty || (BeforeOnce(h.pty) && BeforeOnce(g.pty)))
            && (g.ws == h.ws || (BeforeOnce(h.ws) && BeforeOnce(g.ws)))
  {
  }

  /** The loops do not touch the body of `shutdown`. */
  lemma OnceOkLoop(m: P.State, h: Handler, act: Act)
    requires HandleOk(m, h) && OnceOk(m, h) && Enabled(m, h, act) && LoopAct(act)
    ensures OnceOk(MgrNext(m, h, act), HandlerNext(m, h, act))
  {
    MgrGrows(m, h, act);
    LoopActLeaves(m, h, act);
    OnceStays(m, MgrNext(m, h, act), h, HandlerNext(m, h, act));
  }

  lemma OnceStays(m: P.State, n: P.State, h: Handler, g: Handler)
    requires HandleOk(m, h) && OnceOk(m, h) && Grows(m, n)
    requires g.once == h.once && g.doneCloses == h.doneCloses && g.connOpen == h.connOpen && g.handle == h.handle
    requires g.pty == h.pty || (BeforeOnce(h.pty) && BeforeOnce(g.pty))
    requires g.ws == h.ws || (BeforeOnce(h.ws) && BeforeOnce(g.ws))
    ensures OnceOk(n, g)
  {
  }

  lemma OnceOkAct(m: P.State, h: Handler, act: Act)
    requires HandlerOk(m, h) && P.Reaped(m) && Enabled(m, h, act)
    ensures OnceOk(MgrNext(m, h, act), HandlerNext(m, h, act))
  {
    if MainAct(act) {
      OnceOkMain(m, h, act);
    } else if act.RunOnce? {
      OnceOkRun(m, h, act.side);
    } else if act.EnterOnce? {
      OnceOkEnter(m, h, act.side);
    } else {
      OnceOkLoop(m, h, act);
    }
  }

  /** No handle changes hands. */
  ghost predicate SameHandles(s: Sys, t: Sys) {
    && |t.mgr.clients| == |s.mgr.clients|
    && forall i: nat, k: nat :: Attached(t, i, k) <==> Attached(s, i, k)
  }

  lemma HandedOutSame(s: Sys, t: Sys)
    requires HandedOut(s) && SameHandles(s, t)
    ensures HandedOut(t)
  {
    forall k | 0 <= k < |t.mgr.clients|
      ensures Taken(t, k)
    {
      assert Taken(s, k);
      var j: nat :| Attached(s, j, k);
      assert Attached(t, j, k);
    }
  }

  /** Handler `i`, which had none, gets the handle of the one new client. */
  lemma HandedOutNew(s: Sys, t: Sys, i: nat)
    requires HandedOut(s) && |t.mgr.clients| == |s.mgr.clients| + 1 && Attached(t, i, |s.mgr.clients|)
    requires forall j: nat, k: nat | j != i :: Attached(t, j, k) <==> Attached(s, j, k)
    requires forall k: nat :: !Attached(s, i, k)
    requires forall j: nat, k: nat :: Attached(s, j, k) ==> k < |s.mgr.clients|
    ensures HandedOut(t)
  {
    forall k | 0 <= k < |t.mgr.clients|
      ensures Taken(t, k)
    {
      if k < |s.mgr.clients| {
        assert Taken(s, k);
        var j: nat :| Attached(s, j, k);
        assert Attached(t, j, k);
      } else {
        assert Attached(t, i, k);
      }
    }
  }

  lemma HandleAfter(m: P.State, h: Handler, act: Act)
    requires HandleOk(m, h) && Enabled(m, h, act)
    ensures if act.Attach? && P.AttachSucceeds(m, Call(h, act).value)
            then h.handle == None && HandlerNext(m, h, act).handle == Some(|m.clients|)
                 && |MgrNext(m, h, act).clients| == |m.clients| + 1
            else HandlerNext(m, h, act).handle == h.handle && |MgrNext(m, h, act).clients| == |m.clients|
  {
    var call := Call(h, act);
    if call.Some? {
      NextGrows(m, call.value);
    }
  }

  lemma HandedOutAct(s: Sys, i: nat, act: Act)
    requires Inv(s) && StepEnabled(s, Do(i, act))
    ensures HandedOut(Next(s, Do(i, act)))
  {
    var t, h := Next(s, Do(i, act)), s.handlers[i];
    HandleAfter(s.mgr, h, act);
    if act.Attach? && P.AttachSucceeds(s.mgr, Call(h, act).value) {
      forall j: nat, k: nat | Attached(s, j, k)
        ensures k < |s.mgr.clients|
      {
        assert HandlerOk(s.mgr, s.handlers[j]);
      }
      HandedOutNew(s, t, i);
    } else {
      HandedOutSame(s, t);
    }
  }

  lemma InvAct(s: Sys, i: nat, act: Act)
    requires Inv(s) && StepEnabled(s, Do(i, act))
    ensures Inv(Next(s, Do(i, act)))
  {
    var t, h := Next(s, Do(i, act)), s.handlers[i];
    MgrNextKeepsOwnership(s.mgr, h, act);
    HandedOutAct(s, i, act);
    HandleOkAct(s.mgr, h, act);
    PumpsOkAct(s.mgr, h, act);
    OnceOkAct(s.mgr, h, act);
    forall j | 0 <= j < |t.handlers|
      ensures HandlerOk(t.mgr, t.handlers[j])
    {
      if j != i {
        HandlerOkGrows(s.mgr, t.mgr, s.handlers[j]);
      }
    }
  }

  lemma InvAdmin(s: Sys, step: P.Step)
    requires Inv(s) && AdminStep(step)
    ensures Inv(Next(s, Admin(step)))
  {
    var t := Next(s, Admin(step));
    NextGrows(s.mgr, step);
    P.OwnedStep(s.mgr, step);
    P.ReapedStep(s.mgr, step);
    HandedOutSame(s, t);
    forall j | 0 <= j < |t.handlers|
      ensures HandlerOk(t.mgr, t.handlers[j])
    {
      HandlerOkGrows(s.mgr, t.mgr, s.handlers[j]);
    }
  }

  lemma InvConnect(s: Sys, id: P.Id)
    requires Inv(s)
    ensures Inv(Next(s, Connect(id)))
  {
    var t := Next(s, Connect(id));
    HandedOutSame(s, t);
  }

  lemma InvStep(s: Sys, step: Step)
    requires Inv(s) && StepEnabled(s, step)
    ensures Inv(Next(s, step))
  {
    match step
    case Connect(id) => InvConnect(s, id);
    case Do(i, act) => InvAct(s, i, act);
    case Admin(admin) => InvAdmin(s, admin);
  }

  // ---------- runs ----------

  datatype Run = Run(states: seq<Sys>, steps: seq<Step>) {
    ghost predicate Valid() {
      && |states| == |steps| + 1
      && forall k | 0 <= k < |steps| ::
           StepEnabled(states[k], steps[k]) && states[k + 1] == Next(states[k], steps[k])
    }

    /** The run begins with a manager that has just been built and no connection. */
    ghost predicate FromBoot() {
      Valid() && P.Fresh(states[0].mgr) && states[0].handlers == []
    }
  }

  lemma {:induction false} InvAlways(r: Run, n: nat)
    requires r.FromBoot() && n <= |r.steps|
    ensures Inv(r.states[n])
  {
    if n == 0 {
      assert forall i: nat, k: nat :: !Attached(r.states[0], i, k);
    } else {
      InvAlways(r, n - 1);
      InvStep(r.states[n - 1], r.steps[n - 1]);
    }
  }

  /**
  Safety of every interleaving: one live attach client per id, filed under its
  id; `done` is closed at most once; the two pumps never write to the socket
  together; and once the body of `shutdown` is over, connection and pty are both
  closed, whoever closed the session before.
   */
  lemma Safety(r: Run, n: nat, i: nat)
    requires r.FromBoot() && n <= |r.steps| && i < |r.states[n].handlers|
    ensures P.Owned(r.states[n].mgr)
    ensures var h := r.states[n].handlers[i];
            && h.doneCloses <= 1
            && !(h.pty == Writing && h.ws == Writing)
            && (h.once == Finished ==> h.doneCloses == 1 && !h.connOpen && !PtyOpen(r.states[n].mgr, h))
  {
    InvAlways(r, n);
    assert HandlerOk(r.states[n].mgr, r.states[n].handlers[i]);
  }

  /**
  A handler that returned early or normally has closed its client; one that pumps
  has not run its close body twice.
   */
  lemma Conservation(r: Run, n: nat)
    requires r.FromBoot() && n <= |r.steps|
    requires forall i | 0 <= i < |r.states[n].handlers| :: r.states[n].handlers[i].main == Returned
    ensures r.states[n].mgr.slots == map[]
    ensures forall k | 0 <= k < |r.states[n].mgr.clients| ::
              r.states[n].mgr.clients[k].closed && r.states[n].mgr.clients[k].reaps == 1
  {
    InvAlways(r, n);
    var s := r.states[n];
    forall k | 0 <= k < |s.mgr.clients|
      ensures s.mgr.clients[k].closed
    {
      assert Taken(s, k);
      var i: nat :| Attached(s, i, k);
      assert HandlerOk(s.mgr, s.handlers[i]);
    }
    assert forall id :: id !in s.mgr.slots;
  }

  // ---------- shutdown finishes ----------

  function PumpRank(pump: Pump, inbox: nat): nat {
    match pump
    case Off => 0
    case Gone => 0
    case InOnce(_) => 0
    case Exiting => 1
    case Writing => 2 + 4 * inbox
    case Reading => 2 + 4 * inbox
    case Locking => 3 + 4 * inbox
    case Injecting => 3 + 4 * inbox
  }

  function MainRank(main: Main): nat {
    match main
    case Starting => 5
    case Greeting => 4
    case Waiting => 3
    case Detaching => 2
    case Closing => 1
    case Returned => 0
  }

  /** Bounds the steps a handler can still take once the body of `shutdown` is over. */
  function Rank(h: Handler): nat {
    MainRank(h.main) + PumpRank(h.pty, 0) + PumpRank(h.ws, h.inbox)
  }

  lemma RankDrops(m: P.State, h: Handler, act: Act)
    requires HandlerOk(m, h) && h.once == Finished && Enabled(m, h, act)
    ensures Rank(HandlerNext(m, h, act)) < Rank(h)
    ensures HandlerNext(m, h, act).once == Finished
  {
  }

  function IsStepOf(step: Step, i: nat): nat {
    if step.Do? && step.i == i then 1 else 0
  }

  /** The steps that handler `i` takes between states `a` and `b` of a run. */
  function StepsOf(r: Run, i: nat, a: nat, b: nat): nat
    requires a <= b <= |r.steps|
    decreases b
  {
    if a == b then 0 else StepsOf(r, i, a, b - 1) + IsStepOf(r.steps[b - 1], i)
  }

  lemma StepIsPaid(s: Sys, step: Step, i: nat)
    requires Inv(s) && StepEnabled(s, step) && i < |s.handlers| && s.handlers[i].once == Finished
    ensures var t := Next(s, step);
            i < |t.handlers| && t.handlers[i].once == Finished
            && IsStepOf(step, i) + Rank(t.handlers[i]) <= Rank(s.handlers[i])
  {
    if step.Do? && step.i == i {
      RankDrops(s.mgr, s.handlers[i], step.act);
    }
  }

  ghost predicate Over(s: Sys, i: nat) {
    i < |s.handlers| && s.handlers[i].once == Finished
  }

  ghost predicate PaidAt(r: Run, i: nat, m: nat)
    requires m < |r.steps| && m + 1 < |r.states|
  {
    Over(r.states[m], i) ==>
      && Over(r.states[m + 1], i)
      && IsStepOf(r.steps[m], i) + Rank(r.states[m + 1].handlers[i]) <= Rank(r.states[m].handlers[i])
  }

  lemma PaidAlways(r: Run, i: nat, m: nat)
    requires r.FromBoot() && m < |r.steps|
    ensures PaidAt(r, i, m)
  {
    if Over(r.states[m], i) {
      InvAlways(r, m);
      StepIsPaid(r.states[m], r.steps[m], i);
    }
  }

  lemma {:induction false} BoundedIfPaid(r: Run, i: nat, a: nat, b: nat)
    requires a <= b <= |r.steps| && |r.states| == |r.steps| + 1 && Over(r.states[a], i)
    requires forall m: nat | m < b :: PaidAt(r, i, m)
    ensures Over(r.states[b], i)
    ensures StepsOf(r, i, a, b) + Rank(r.states[b].handlers[i]) <= Rank(r.states[a].handlers[i])
    decreases b
  {
    if a < b {
      BoundedIfPaid(r, i, a, b - 1);
      assert PaidAt(r, i, b - 1);
    }
  }

  /** After its `shutdown` body, a handler takes at most `Rank` more steps, whatever the others do. */
  lemma ShutdownIsBounded(r: Run, i: nat, a: nat, b: nat)
    requires r.FromBoot() && a <= b <= |r.steps|
    requires i < |r.states[a].handlers| && r.states[a].handlers[i].once == Finished
    ensures i < |r.states[b].handlers| && r.states[b].handlers[i].once == Finished
    ensures StepsOf(r, i, a, b) + Rank(r.states[b].handlers[i]) <= Rank(r.states[a].handlers[i])
  {
    forall m: nat | m < b
      ensures PaidAt(r, i, m)
    {
      PaidAlways(r, i, m);
    }
    BoundedIfPaid(r, i, a, b);
  }

  /**
  The act can be taken without help from outside: a read from a closed end
  fails, a write to the pty returns once the pty is closed, and a socket write
  returns at its deadline at the latest.
   */
  predicate Ready(m: P.State, h: Handler, act: Act) {
    && Enabled(m, h, act)
    && match act {
         case PtyData => false
         case Arrive => false
         case ReadFails(side) => if side.Pty? then !PtyOpen(m, h) else !h.connOpen
         case Inject => !PtyOpen(m, h)
         case _ => true
       }
  }

  predicate ActOf(side: Side, act: Act) {
    match act
    case ReadFails(x) => x == side
    case Lock(x) => x == side
    case Write(x, _) => x == side
    case EnterOnce(x) => x == side
    case RunOnce(x) => x == side
    case Inject => side.Ws?
    case _ => false
  }

  ghost predicate PumpReady(m: P.State, h: Handler, side: Side) {
    exists act :: ActOf(side, act) && Ready(m, h, act)
  }

  /**
  Once the body of `shutdown` is over no goroutine stays blocked: each has
  returned, or can take a step, or waits for a socket write of the other pump
  that can itself return.
   */
  lemma NothingStaysBlocked(m: P.State, h: Handler)
    requires HandlerOk(m, h) && h.once == Finished
    ensures h.main == Returned || exists act :: MainAct(act) && Ready(m, h, act)
    ensures forall side :: h.Pump(side) == Gone || PumpReady(m, h, side)
                           || (h.writer == Some(Other(side)) && PumpReady(m, h, Other(side)))
    ensures Rank(h) == 0 <==> h.main == Returned && h.pty == Gone && h.ws == Gone
  {
    if h.main != Returned {
      var act := match h.main { case Waiting => Wake case Detaching => Detach case _ => CloseConn };
      assert MainAct(act) && Ready(m, h, act);
    }
    forall side
      ensures h.Pump(side) == Gone || PumpReady(m, h, side)
              || (h.writer == Some(Other(side)) && PumpReady(m, h, Other(side)))
    {
      match h.Pump(side)
      case Gone =>
      case Reading => assert Ready(m, h, ReadFails(side)) && ActOf(side, ReadFails(side));
      case Injecting => assert Ready(m, h, Inject) && ActOf(Ws, Inject);
      case Writing => assert Ready(m, h, Write(side, false)) && ActOf(side, Write(side, false));
      case Exiting => assert Ready(m, h, EnterOnce(side)) && ActOf(side, EnterOnce(side));
      case Locking =>
        if h.writer == None {
          assert Ready(m, h, Lock(side)) && ActOf(side, Lock(side));
        } else {
          var other := Other(side);
          assert h.writer == Some(other) by {
            var writer := h.writer.value;
            assert h.Pump(writer) == Writing by {
              if writer.Pty? { assert h.writer == Some(Pty); } else { assert h.writer == Some(Ws); }
            }
          }
          assert Ready(m, h, Write(other, false)) && ActOf(other, Write(other, false));
        }
    }
  }

  /** A pump that has left its loop is never blocked: it runs the body, waits for the pump that runs it, or leaves. */
  lemma ShutdownBodyNeverBlocks(m: P.State, h: Handler, side: Side)
    requires HandlerOk(m, h) && (h.Pump(side) == Exiting || h.Pump(side).InOnce?)
    ensures match h.once
            case Idle => HandlerNext(m, h, EnterOnce(side)).once == Held(side)
            case Finished => HandlerNext(m, h, EnterOnce(side)).Pump(side) == Gone
            case Held(runner) =>
              && Ready(m, h, RunOnce(runner))
              && h.Pump(runner).stage <= 2
              && (h.Pump(runner).stage < 2 ==>
                    HandlerNext(m, h, RunOnce(runner)).Pump(runner) == InOnce(h.Pump(runner).stage + 1))
              && (h.Pump(runner).stage == 2 ==> HandlerNext(m, h, RunOnce(runner)).once == Finished)
  {
  }

  // ---------- a handler whose client was closed by others ----------

  /** Bounds what the pty pump can still do before it leaves its loop, once its pty is closed. */
  function LoopRank(pump: Pump): nat {
    match pump
    case Locking => 3
    case Writing => 2
    case Reading => 1
    case _ => 0
  }

  /**
  A newer attach, an admin kill or the server's shutdown closes the client of a
  running handler. Then its pty pump leaves the loop after at most three acts of
  its own, and waits for nothing but a socket write of the other pump.
   */
  lemma ClosedClientEndsItsHandler(m: P.State, h: Handler, act: Act)
    requires HandlerOk(m, h) && P.Reaped(m) && h.handle.Some? && m.clients[h.handle.value].closed
    requires LoopRank(h.pty) > 0
    ensures PumpReady(m, h, Pty) || (h.writer == Some(Ws) && PumpReady(m, h, Ws))
    ensures ActOf(Pty, act) && Enabled(m, h, act) ==> LoopRank(HandlerNext(m, h, act).pty) < LoopRank(h.pty)
    ensures !Enabled(m, h, PtyData)
  {
    match h.pty
    case Reading => assert Ready(m, h, ReadFails(Pty)) && ActOf(Pty, ReadFails(Pty));
    case Writing => assert Ready(m, h, Write(Pty, false)) && ActOf(Pty, Write(Pty, false));
    case Locking =>
      if h.writer == None {
        assert Ready(m, h, Lock(Pty)) && ActOf(Pty, Lock(Pty));
      } else {
        assert h.writer.value == Ws by {
          assert h.writer != Some(Pty);
        }
        assert Ready(m, h, Write(Ws, false)) && ActOf(Ws, Write(Ws, false));
      }
  }

  /** Bounds what the pty pump can still do before it is gone, once its pty is closed. */
  function ExitRank(pump: Pump): nat {
    match pump
    case Locking => 7
    case Writing => 6
    case Reading => 5
    case Exiting => 4
    case InOnce(stage) => if stage <= 2 then 3 - stage else 0
    case _ => 0
  }

  predicate PtyAct(act: Act) {
    act.PtyData? || ActOf(Pty, act)
  }

  /** Handler `i` pumps for a client that others, or its own `Detach`, have closed. */
  ghost predicate PumpsClosed(s: Sys, i: nat) {
    && i < |s.handlers| && !s.handlers[i].pty.Off? && s.handlers[i].handle.Some?
    && s.handlers[i].handle.value < |s.mgr.clients| && s.mgr.clients[s.handlers[i].handle.value].closed
  }

  function IsPtyStepOf(step: Step, i: nat): nat {
    if step.Do? && step.i == i && PtyAct(step.act) then 1 else 0
  }

  function PtyStepsOf(r: Run, i: nat, a: nat, b: nat): nat
    requires a <= b <= |r.steps|
    decreases b
  {
    if a == b then 0 else PtyStepsOf(r, i, a, b - 1) + IsPtyStepOf(r.steps[b - 1], i)
  }

  lemma PtyActIsPaid(m: P.State, h: Handler, act: Act)
    requires HandlerOk(m, h) && P.Reaped(m) && Enabled(m, h, act)
    requires !h.pty.Off? && m.clients[h.handle.value].closed
    ensures var g := HandlerNext(m, h, act);
            && !g.pty.Off? && g.handle == h.handle
            && (if PtyAct(act) then 1 else 0) + ExitRank(g.pty) <= ExitRank(h.pty)
  {
  }

  lemma PtyStepIsPaid(s: Sys, step: Step, i: nat)
    requires Inv(s) && StepEnabled(s, step) && PumpsClosed(s, i)
    ensures var t := Next(s, step);
            PumpsClosed(t, i) && IsPtyStepOf(step, i) + ExitRank(t.handlers[i].pty) <= ExitRank(s.handlers[i].pty)
  {
    match step
    case Do(j, act) =>
      MgrGrows(s.mgr, s.handlers[j], act);
      if j == i {
        PtyActIsPaid(s.mgr, s.handlers[i], act);
      }
    case Admin(admin) => NextGrows(s.mgr, admin);
    case Connect(_) =>
  }

  ghost predicate PtyPaidAt(r: Run, i: nat, m: nat)
    requires m < |r.steps| && m + 1 < |r.states|
  {
    PumpsClosed(r.states[m], i) ==>
      && PumpsClosed(r.states[m + 1], i)
      && IsPtyStepOf(r.steps[m], i) + ExitRank(r.states[m + 1].handlers[i].pty) <= ExitRank(r.states[m].handlers[i].pty)
  }

  lemma PtyPaidAlways(r: Run, i: nat, m: nat)
    requires r.FromBoot() && m < |r.steps|
    ensures PtyPaidAt(r, i, m)
  {
    if PumpsClosed(r.states[m], i) {
      InvAlways(r, m);
      PtyStepIsPaid(r.states[m], r.steps[m], i);
    }
  }

  lemma {:induction false} PumpBoundedIfPaid(r: Run, i: nat, a: nat, b: nat)
    requires a <= b <= |r.steps| && |r.states| == |r.steps| + 1 && PumpsClosed(r.states[a], i)
    requires forall m: nat | m < b :: PtyPaidAt(r, i, m)
    ensures PumpsClosed(r.states[b], i)
    ensures PtyStepsOf(r, i, a, b) + ExitRank(r.states[b].handlers[i].pty) <= ExitRank(r.states[a].handlers[i].pty)
    decreases b
  {
    if a < b {
      PumpBoundedIfPaid(r, i, a, b - 1);
      assert PtyPaidAt(r, i, b - 1);
    }
  }

  /**
  From the moment the client of a running handler is closed, its pty pump takes
  at most seven more steps in any run, and is out of its loop after three.
   */
  lemma ClosedPumpIsBounded(r: Run, i: nat, a: nat, b: nat)
    requires r.FromBoot() && a <= b <= |r.steps| && PumpsClosed(r.states[a], i)
    ensures PumpsClosed(r.states[b], i)
    ensures PtyStepsOf(r, i, a, b) + ExitRank(r.states[b].handlers[i].pty) <= ExitRank(r.states[a].handlers[i].pty) <= 7
    ensures PtyStepsOf(r, i, a, b) >= 3 ==> LoopRank(r.states[b].handlers[i].pty) == 0
  {
    forall m: nat | m < b
      ensures PtyPaidAt(r, i, m)
    {
      PtyPaidAlways(r, i, m);
    }
    PumpBoundedIfPaid(r, i, a, b);
  }

  /** No handler ever ends a tmux session: only admin kills and the exit of a shell do. */
  lemma HandlersNeverEndSessions(s: Sys, step: Step, id: P.Id)
    requires StepEnabled(s, step) && id in s.mgr.windows
    ensures id in Next(s, step).mgr.windows <==> !(step.Admin? && P.Ends(step.step, id))
  {
    match step
    case Do(i, act) =>
      var call := Call(s.handlers[i], act);
      if call.Some? {
        P.WindowStep(s.mgr, call.value, id);
      }
    case Admin(admin) => P.WindowStep(s.mgr, admin, id);
    case Connect(_) =>
  }
}
