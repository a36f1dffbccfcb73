/**
What the handlers do for the client while they run: when the pty and the socket
are open, what a frame changes, and that no output and no frame is lost or
answered twice while the pumps go on.
 */
module HandlerRuns {
  import opened Prelude
  import opened Handlers
  import P = TmuxProtocol

  // ---------- when the two ends are open ----------

  /** The body of `shutdown` has closed the connection. */
  predicate PastClose(h: Handler) {
    h.once.Finished? || h.pty == InOnce(2) || h.ws == InOnce(2)
  }

  /**
  The pty is open until the client is closed or the body is over, the connection
  until the body or the handler closes it.
   */
  ghost predicate LinkOk(m: P.State, h: Handler) {
    && (h.handle.Some? ==>
          h.handle.value < |m.clients|
          && (PtyOpen(m, h) <==> !m.clients[h.handle.value].closed && !h.once.Finished?))
    && (h.connOpen <==> h.main != Returned && !PastClose(h))
  }

  /** A manager step other than the `ClosePTMX` of this very client. */
  lemma LinkKept(m: P.State, step: P.Step, h: Handler)
    requires P.Owned(m) && P.Reaped(m) && LinkOk(m, h) && (step.ClosePty? ==> h.handle != Some(step.h))
    ensures LinkOk(P.Next(m, step), h)
  {
    if h.handle.Some? {
      P.PtyStep(m, step, h.handle.value);
      NextGrows(m, step);
      P.ClosedStep(m, step, h.handle.value);
    }
  }

  lemma ConnAct(m: P.State, h: Handler, act: Act)
    requires HandlerOk(m, h) && Enabled(m, h, act) && (h.connOpen <==> h.main != Returned && !PastClose(h))
    ensures var g := HandlerNext(m, h, act); g.connOpen <==> g.main != Returned && !PastClose(g)
  {
  }

  lemma LinkAttach(m: P.State, h: Handler, act: Act)
    requires HandlerOk(m, h) && LinkOk(m, h) && Enabled(m, h, act) && act.Attach?
    ensures LinkOk(MgrNext(m, h, act), HandlerNext(m, h, act))
  {
  }

  lemma LinkBodyEnds(m: P.State, h: Handler, side: Side)
    requires P.Reaped(m) && HandlerOk(m, h) && LinkOk(m, h) && Enabled(m, h, RunOnce(side))
    ensures LinkOk(MgrNext(m, h, RunOnce(side)), HandlerNext(m, h, RunOnce(side)))
  {
    ConnAct(m, h, RunOnce(side));
  }

  lemma OnceAct(m: P.State, h: Handler, act: Act)
    requires HandlerOk(m, h) && Enabled(m, h, act) && !act.RunOnce? && !act.Attach?
    ensures var g := HandlerNext(m, h, act);
            (g.once.Finished? <==> h.once.Finished?) && g.handle == h.handle
    ensures Call(h, act).Some? ==> !Call(h, act).value.ClosePty?
  {
  }

  lemma LinkAct(m: P.State, h: Handler, act: Act)
    requires P.Owned(m) && P.Reaped(m) && HandlerOk(m, h) && LinkOk(m, h) && Enabled(m, h, act)
    ensures LinkOk(MgrNext(m, h, act), HandlerNext(m, h, act))
  {
    if act.Attach? {
      LinkAttach(m, h, act);
    } else if act.RunOnce? {
      LinkBodyEnds(m, h, act.side);
    } else {
      var call := Call(h, act);
      OnceAct(m, h, act);
      ConnAct(m, h, act);
      if call.Some? {
        LinkKept(m, call.value, h);
      }
    }
  }

  ghost predicate LinksOk(s: Sys) {
    forall i | 0 <= i < |s.handlers| :: LinkOk(s.mgr, s.handlers[i])
  }

  lemma LinkOther(s: Sys, i: nat, act: Act, j: nat)
    requires Inv(s) && LinksOk(s) && StepEnabled(s, Do(i, act)) && j < |s.handlers| && j != i
    ensures LinkOk(MgrNext(s.mgr, s.handlers[i], act), s.handlers[j])
  {
    var call := Call(s.handlers[i], act);
    if call.Some? {
      if call.value.ClosePty? {
        var k := call.value.h;
        assert Attached(s, i, k);
        assert !Attached(s, j, k);
      }
      LinkKept(s.mgr, call.value, s.handlers[j]);
    }
  }

  lemma LinksStep(s: Sys, step: Step)
    requires Inv(s) && LinksOk(s) && StepEnabled(s, step)
    ensures LinksOk(Next(s, step))
  {
    var t := Next(s, step);
    forall j | 0 <= j < |t.handlers|
      ensures LinkOk(t.mgr, t.handlers[j])
    {
      match step
      case Do(i, act) =>
        if i == j {
          assert HandlerOk(s.mgr, s.handlers[i]);
          LinkAct(s.mgr, s.handlers[i], act);
        } else {
          LinkOther(s, i, act, j);
        }
      case Admin(admin) => LinkKept(s.mgr, admin, s.handlers[j]);
      case Connect(_) =>
        if j < |s.handlers| {
          assert LinkOk(s.mgr, s.handlers[j]);
        }
    }
  }

  lemma {:induction false} LinksAlways(r: Run, n: nat)
    requires r.FromBoot() && n <= |r.steps|
    ensures LinksOk(r.states[n])
  {
    if n > 0 {
      LinksAlways(r, n - 1);
      InvAlways(r, n - 1);
      LinksStep(r.states[n - 1], r.steps[n - 1]);
    }
  }

  /**
  In every reachable state a handler with a client can read and write its pty
  exactly until someone closes the client or its own `shutdown` body is over,
  and its socket is open exactly until that body or the handler closes it.
   */
  lemma EndsAreOpen(r: Run, n: nat, i: nat)
    requires r.FromBoot() && n <= |r.steps| && i < |r.states[n].handlers|
    ensures var m, h := r.states[n].mgr, r.states[n].handlers[i];
            && (h.connOpen <==> h.main != Returned && !PastClose(h))
            && (h.handle.Some? ==>
                  h.handle.value < |m.clients|
                  && (m.clients[h.handle.value].ptyOpen <==> !m.clients[h.handle.value].closed && !h.once.Finished?)
                  && (h.pty == Reading && !m.clients[h.handle.value].closed && !h.once.Finished? ==> Enabled(m, h, PtyData)))
  {
    LinksAlways(r, n);
    InvAlways(r, n);
    assert HandlerOk(r.states[n].mgr, r.states[n].handlers[i]);
    assert LinkOk(r.states[n].mgr, r.states[n].handlers[i]);
  }

  // ---------- what gives a window its size ----------

  /**
  The step gives the tmux session of `id` this size: an attach or an admin create
  that makes the session, or a resize frame with positive dimensions, read by a
  handler of that id, that the cache does not skip and whose command works.
   */
  predicate GivesSize(s: Sys, step: Step, id: P.Id, size: P.Size) {
    match step
    case Do(i, Attach(newOk, _)) =>
      i < |s.handlers| && s.handlers[i].id == id && newOk && id !in s.mgr.windows && size == P.Size(120, 40)
    case Do(i, WsFrame(Sized(asked, shellOk))) =>
      && i < |s.handlers| && s.handlers[i].id == id && size == asked && asked.cols > 0 && asked.rows > 0
      && shellOk && id in s.mgr.windows && !(id in s.mgr.lastSize && s.mgr.lastSize[id] == asked)
    case Admin(CreateSession(x, asked, newOk)) => x == id && newOk && id !in s.mgr.windows && size == asked
    case _ => false
  }

  /** The step ends the tmux session of `id`. */
  predicate EndsWindow(step: Step, id: P.Id) {
    step == Admin(P.KillServer(id)) || step == Admin(P.ShellExit(id))
  }

  lemma FrameAct(m: P.State, h: Handler, act: Act, id: P.Id, t: P.State)
    requires Enabled(m, h, act) && t == MgrNext(m, h, act)
    ensures !act.Attach? && !act.WsFrame? ==> t.windows == m.windows && t.lastSize == m.lastSize
    ensures act.Attach? ==>
              t.lastSize == m.lastSize
              && t.windows == if h.id !in m.windows && act.newOk then m.windows[h.id := P.Size(120, 40)] else m.windows
    ensures act.WsFrame? ==>
              if act.frame.Sized? && act.frame.size.cols > 0 && act.frame.size.rows > 0 && act.frame.shellOk
                 && h.id in m.windows && !(h.id in m.lastSize && m.lastSize[h.id] == act.frame.size)
              then t.windows == m.windows[h.id := act.frame.size] && t.lastSize == m.lastSize[h.id := act.frame.size]
              else t.windows == m.windows && t.lastSize == m.lastSize
  {
  }

  /** The windows change by exactly these steps. */
  lemma WindowChanges(s: Sys, step: Step, id: P.Id)
    requires StepEnabled(s, step)
    ensures var t := Next(s, step);
            if exists size :: GivesSize(s, step, id, size)
            then id in t.mgr.windows && GivesSize(s, step, id, t.mgr.windows[id])
            else (id in t.mgr.windows <==> id in s.mgr.windows && !EndsWindow(step, id))
                 && (id in t.mgr.windows ==> t.mgr.windows[id] == s.mgr.windows[id])
  {
    match step
    case Do(i, act) =>
      FrameAct(s.mgr, s.handlers[i], act, id, MgrNext(s.mgr, s.handlers[i], act));
      if s.handlers[i].id == id {
        if act.Attach? && act.newOk && id !in s.mgr.windows {
          assert GivesSize(s, step, id, P.Size(120, 40));
        } else if act.WsFrame? && act.frame.Sized? {
          assert GivesSize(s, step, id, act.frame.size) <==> exists size :: GivesSize(s, step, id, size);
        }
      }
    case Admin(admin) =>
      if admin.CreateSession? && admin.id == id && admin.newOk && id !in s.mgr.windows {
        assert GivesSize(s, step, id, admin.size);
      }
    case Connect(_) =>
  }

  /** The cache changes by exactly these: such a frame enters its size, the locked part of a kill drops it. */
  lemma CacheChanges(s: Sys, step: Step, id: P.Id)
    requires StepEnabled(s, step)
    ensures var t := Next(s, step);
            if step.Do? && step.act.WsFrame? && exists size :: GivesSize(s, step, id, size)
            then id in t.mgr.lastSize && GivesSize(s, step, id, t.mgr.lastSize[id])
            else if step == Admin(P.KillLocked(id)) then id !in t.mgr.lastSize
            else (id in t.mgr.lastSize <==> id in s.mgr.lastSize)
                 && (id in t.mgr.lastSize ==> t.mgr.lastSize[id] == s.mgr.lastSize[id])
  {
    match step
    case Do(i, act) =>
      FrameAct(s.mgr, s.handlers[i], act, id, MgrNext(s.mgr, s.handlers[i], act));
      if s.handlers[i].id == id && act.WsFrame? && act.frame.Sized? {
        assert GivesSize(s, step, id, act.frame.size) <==> exists size :: GivesSize(s, step, id, size);
      }
    case Admin(admin) =>
    case Connect(_) =>
  }

  ghost predicate Gives(s: Sys, step: Step, id: P.Id) {
    exists size :: GivesSize(s, step, id, size)
  }

  /** None of the first `n` steps after step `k` (or, for `-1`, of all) sizes or ends the session of `id`. */
  ghost predicate LeftAlone(r: Run, n: nat, k: int, id: P.Id)
    requires r.Valid() && n <= |r.steps|
  {
    forall j: nat | k < j < n :: !Gives(r.states[j], r.steps[j], id) && !EndsWindow(r.steps[j], id)
  }

  /**
  The size of a live tmux session is that of the latest attach or create that
  made it, or resize frame that reached it, whichever came last; if there was
  none it is the size it had when the server came up.
   */
  lemma {:induction false} SizeIsLatestGiven(r: Run, n: nat, id: P.Id) returns (k: int)
    requires r.FromBoot() && n <= |r.steps| && id in r.states[n].mgr.windows
    ensures -1 <= k < n && LeftAlone(r, n, k, id)
    ensures if k == -1 then id in r.states[0].mgr.windows && r.states[n].mgr.windows[id] == r.states[0].mgr.windows[id]
            else GivesSize(r.states[k], r.steps[k], id, r.states[n].mgr.windows[id])
  {
    k := n - 1;
    if n > 0 {
      WindowChanges(r.states[n - 1], r.steps[n - 1], id);
      if !Gives(r.states[n - 1], r.steps[n - 1], id) {
        k := SizeIsLatestGiven(r, n - 1, id);
      }
    }
  }

  // ---------- nothing is lost while the pumps go on ----------

  /** How often handler `i` has taken an act of this kind among the first `n` steps. */
  function Count(r: Run, n: nat, i: nat, kind: Act -> bool): nat
    requires n <= |r.steps|
  {
    if n == 0 then 0
    else
      var step := r.steps[n - 1];
      Count(r, n - 1, i, kind) + One(step.Do? && step.i == i && kind(step.act))
  }

  function One(b: bool): nat {
    if b then 1 else 0
  }

  function PtyReads(): Act -> bool {
    (act: Act) => act == PtyData
  }

  function WritesOf(side: Side): Act -> bool {
    (act: Act) => act.Write? && act.side == side
  }

  function Frames(): Act -> bool {
    (act: Act) => act.WsFrame?
  }

  function Pings(): Act -> bool {
    (act: Act) => act == WsFrame(Ping)
  }

  function Inputs(): Act -> bool {
    (act: Act) => act == WsFrame(Input)
  }

  function Injects(): Act -> bool {
    (act: Act) => act == Inject
  }

  function Arrivals(): Act -> bool {
    (act: Act) => act == Arrive
  }

  lemma ChunkAct(m: P.State, h: Handler, act: Act)
    requires HandlerOk(m, h) && Enabled(m, h, act)
    ensures var g := HandlerNext(m, h, act);
            One(PtyReads()(act)) + One(h.pty == Locking || h.pty == Writing)
            == One(WritesOf(Pty)(act)) + One(g.pty == Locking || g.pty == Writing)
  {
  }

  lemma PingAct(m: P.State, h: Handler, act: Act)
    requires HandlerOk(m, h) && Enabled(m, h, act)
    ensures var g := HandlerNext(m, h, act);
            One(Pings()(act)) + One(h.ws == Locking || h.ws == Writing)
            == One(WritesOf(Ws)(act)) + One(g.ws == Locking || g.ws == Writing)
  {
  }

  lemma InputAct(m: P.State, h: Handler, act: Act)
    requires HandlerOk(m, h) && Enabled(m, h, act)
    ensures var g := HandlerNext(m, h, act);
            One(Inputs()(act)) + One(h.ws == Injecting) == One(Injects()(act)) + One(g.ws == Injecting)
  {
  }

  lemma ArrivalAct(m: P.State, h: Handler, act: Act)
    requires HandlerOk(m, h) && Enabled(m, h, act)
    ensures One(Arrivals()(act)) + h.inbox == One(Frames()(act)) + HandlerNext(m, h, act).inbox
  {
  }

  function HandlerAt(s: Sys, i: nat): Handler {
    if i < |s.handlers| then s.handlers[i] else NewHandler("")
  }

  function Takes(step: Step, i: nat, kind: Act -> bool): nat {
    One(step.Do? && step.i == i && kind(step.act))
  }

  ghost predicate Accounted(r: Run, n: nat, i: nat)
    requires n <= |r.steps| && n < |r.states|
  {
    var h := HandlerAt(r.states[n], i);
    && Count(r, n, i, PtyReads()) == Count(r, n, i, WritesOf(Pty)) + One(h.pty == Locking || h.pty == Writing)
    && Count(r, n, i, Pings()) == Count(r, n, i, WritesOf(Ws)) + One(h.ws == Locking || h.ws == Writing)
    && Count(r, n, i, Inputs()) == Count(r, n, i, Injects()) + One(h.ws == Injecting)
    && Count(r, n, i, Arrivals()) == Count(r, n, i, Frames()) + h.inbox
  }

  lemma StepIsAccounted(s: Sys, step: Step, i: nat)
    requires Inv(s) && StepEnabled(s, step)
    ensures var h, g := HandlerAt(s, i), HandlerAt(Next(s, step), i);
            && Takes(step, i, PtyReads()) + One(h.pty == Locking || h.pty == Writing)
               == Takes(step, i, WritesOf(Pty)) + One(g.pty == Locking || g.pty == Writing)
            && Takes(step, i, Pings()) + One(h.ws == Locking || h.ws == Writing)
               == Takes(step, i, WritesOf(Ws)) + One(g.ws == Locking || g.ws == Writing)
            && Takes(step, i, Inputs()) + One(h.ws == Injecting) == Takes(step, i, Injects()) + One(g.ws == Injecting)
            && Takes(step, i, Arrivals()) + h.inbox == Takes(step, i, Frames()) + g.inbox
  {
    if step.Do? && step.i == i {
      assert HandlerOk(s.mgr, s.handlers[i]);
      ChunkAct(s.mgr, s.handlers[i], step.act);
      PingAct(s.mgr, s.handlers[i], step.act);
      InputAct(s.mgr, s.handlers[i], step.act);
      ArrivalAct(s.mgr, s.handlers[i], step.act);
    }
  }

  lemma Counted(r: Run, m: nat, n: nat, i: nat, kind: Act -> bool)
    requires n == m + 1 && n <= |r.steps|
    ensures Count(r, n, i, kind) == Count(r, m, i, kind) + Takes(r.steps[m], i, kind)
  {
  }

  lemma AccountedLater(r: Run, m: nat, n: nat, i: nat)
    requires r.FromBoot() && n == m + 1 && n <= |r.steps|
    ensures var h, g := HandlerAt(r.states[m], i), HandlerAt(r.states[n], i); var step := r.steps[m];
            && Takes(step, i, PtyReads()) + One(h.pty == Locking || h.pty == Writing)
               == Takes(step, i, WritesOf(Pty)) + One(g.pty == Locking || g.pty == Writing)
            && Takes(step, i, Pings()) + One(h.ws == Locking || h.ws == Writing)
               == Takes(step, i, WritesOf(Ws)) + One(g.ws == Locking || g.ws == Writing)
            && Takes(step, i, Inputs()) + One(h.ws == Injecting) == Takes(step, i, Injects()) + One(g.ws == Injecting)
            && Takes(step, i, Arrivals()) + h.inbox == Takes(step, i, Frames()) + g.inbox
  {
    InvAlways(r, m);
    StepIsAccounted(r.states[m], r.steps[m], i);
  }

  /**
  In every run, each chunk read from the pty is written to the socket before the
  next is read, each ping is answered once, each input frame reaches the pty
  once, and every frame that has arrived is read or still waiting.
   */
  lemma {:induction false} NothingIsLost(r: Run, n: nat, i: nat)
    requires r.FromBoot() && n <= |r.steps|
    ensures Accounted(r, n, i)
  {
    if n > 0 {
      NothingIsLost(r, n - 1, i);
      AccountedLater(r, n - 1, n, i);
      Counted(r, n - 1, n, i, PtyReads());
      Counted(r, n - 1, n, i, WritesOf(Pty));
      Counted(r, n - 1, n, i, Pings());
      Counted(r, n - 1, n, i, WritesOf(Ws));
      Counted(r, n - 1, n, i, Inputs());
      Counted(r, n - 1, n, i, Injects());
      Counted(r, n - 1, n, i, Arrivals());
      Counted(r, n - 1, n, i, Frames());
    }
  }

  // ---------- how long the pumps go on ----------

  predicate InLoop(pump: Pump) {
    pump == Reading || pump == Injecting || pump == Locking || pump == Writing
  }

  /** A read or a write of this pump fails. */
  predicate Fails(act: Act, side: Side) {
    act == ReadFails(side) || act == Write(side, false)
  }

  lemma LoopSideAct(m: P.State, h: Handler, act: Act, side: Side)
    requires HandlerOk(m, h) && Enabled(m, h, act)
    requires act.ReadFails? || act.Lock? || act.Write? || act.EnterOnce? || act.RunOnce?
    ensures InLoop(HandlerNext(m, h, act).Pump(side)) <==> InLoop(h.Pump(side)) && !Fails(act, side)
  {
  }

  lemma LoopAct(m: P.State, h: Handler, act: Act, side: Side)
    requires HandlerOk(m, h) && Enabled(m, h, act)
    ensures InLoop(HandlerNext(m, h, act).Pump(side))
            <==> act == Greet(true) || (InLoop(h.Pump(side)) && !Fails(act, side))
  {
    if act.ReadFails? || act.Lock? || act.Write? || act.EnterOnce? || act.RunOnce? {
      LoopSideAct(m, h, act, side);
    }
  }

  /** What the goroutine that runs the handler waits for, and until when. */
  lemma MainWaits(m: P.State, h: Handler, act: Act)
    requires HandlerOk(m, h) && Enabled(m, h, act)
    ensures HandlerNext(m, h, act).main == Greeting
            <==> (act.Attach? && (h.id in m.windows || act.newOk) && act.ptyOk) || (h.main == Greeting && !act.Greet?)
    ensures HandlerNext(m, h, act).main == Waiting <==> act == Greet(true) || (h.main == Waiting && act != Wake)
  {
  }

  predicate IsLooping(s: Sys, i: nat, side: Side) {
    i < |s.handlers| && InLoop(s.handlers[i].Pump(side))
  }

  predicate Starts(step: Step, i: nat) {
    step == Do(i, Greet(true))
  }

  predicate FailsIn(step: Step, i: nat, side: Side) {
    step.Do? && step.i == i && Fails(step.act, side)
  }

  /** Step `k` greeted the client, and no read or write of this pump has failed since. */
  ghost predicate StartedAt(r: Run, n: nat, k: nat, i: nat, side: Side)
    requires n <= |r.steps|
  {
    k < n && Starts(r.steps[k], i) && forall j | k < j < n :: !FailsIn(r.steps[j], i, side)
  }

  ghost predicate IsStarted(r: Run, n: nat, i: nat, side: Side)
    requires n <= |r.steps|
  {
    exists k: nat :: StartedAt(r, n, k, i, side)
  }

  lemma StartedStep(r: Run, m: nat, n: nat, i: nat, side: Side)
    requires n == m + 1 && n <= |r.steps|
    ensures IsStarted(r, n, i, side) <==> Starts(r.steps[m], i) || (IsStarted(r, m, i, side) && !FailsIn(r.steps[m], i, side))
  {
    if Starts(r.steps[m], i) {
      assert StartedAt(r, n, m, i, side);
    }
    if k: nat :| StartedAt(r, n, k, i, side) && k < m {
      assert StartedAt(r, m, k, i, side);
    }
    if k: nat :| StartedAt(r, m, k, i, side) && !FailsIn(r.steps[m], i, side) {
      assert StartedAt(r, n, k, i, side);
    }
  }

  lemma LoopingStep(s: Sys, step: Step, i: nat, side: Side)
    requires Inv(s) && StepEnabled(s, step)
    ensures IsLooping(Next(s, step), i, side) <==> Starts(step, i) || (IsLooping(s, i, side) && !FailsIn(step, i, side))
  {
    if step.Do? && step.i == i {
      assert HandlerOk(s.mgr, s.handlers[i]);
      LoopAct(s.mgr, s.handlers[i], step.act, side);
    }
  }

  lemma LoopingLater(r: Run, m: nat, n: nat, i: nat, side: Side)
    requires r.FromBoot() && n == m + 1 && n <= |r.steps|
    ensures IsLooping(r.states[n], i, side)
            <==> Starts(r.steps[m], i) || (IsLooping(r.states[m], i, side) && !FailsIn(r.steps[m], i, side))
  {
    InvAlways(r, m);
    LoopingStep(r.states[m], r.steps[m], i, side);
  }

  /** A pump goes on exactly from the greeting to its own first failed read or write, whatever the others do. */
  lemma {:induction false} PumpsUntilFailure(r: Run, n: nat, i: nat, side: Side)
    requires r.FromBoot() && n <= |r.steps|
    ensures IsLooping(r.states[n], i, side) <==> IsStarted(r, n, i, side)
  {
    if n == 0 {
      assert !IsStarted(r, 0, i, side);
    } else {
      PumpsUntilFailure(r, n - 1, i, side);
      LoopingLater(r, n - 1, n, i, side);
      StartedStep(r, n - 1, n, i, side);
    }
  }

  // ---------- a handler serves ----------

  /**
  From any state, a connection for an id, a successful attach and a delivered
  greeting lead to a handler whose pumps both read and whose pty is open.
   */
  lemma HandlerServes(s: Sys, id: P.Id) returns (t: Sys)
    ensures var i, u := |s.handlers|, Next(s, Connect(id));
            && StepEnabled(u, Do(i, Attach(true, true)))
            && var v := Next(u, Do(i, Attach(true, true)));
               && StepEnabled(v, Do(i, Greet(true))) && t == Next(v, Do(i, Greet(true)))
               && |t.handlers| == i + 1 && t.handlers[i].id == id
               && t.handlers[i].pty == Reading && t.handlers[i].ws == Reading && Enabled(t.mgr, t.handlers[i], PtyData)
               && id in t.mgr.windows && t.mgr.slots[id] == |s.mgr.clients|
  {
    var u := Next(s, Connect(id));
    var v := Next(u, Do(|s.handlers|, Attach(true, true)));
    t := Next(v, Do(|s.handlers|, Greet(true)));
  }

  /**
  A resize frame that arrives at a reading pump sets the size of the tmux
  session and is remembered, unless the cache holds that size already; then the
  pump reads on.
   */
  lemma ResizeReachesTmux(s: Sys, i: nat, size: P.Size) returns (t: Sys)
    requires i < |s.handlers| && s.handlers[i].ws == Reading && s.handlers[i].connOpen
    requires s.handlers[i].id in s.mgr.windows && size.cols > 0 && size.rows > 0
    ensures var u := Next(s, Do(i, Arrive));
            && StepEnabled(s, Do(i, Arrive)) && StepEnabled(u, Do(i, WsFrame(Sized(size, true))))
            && t == Next(u, Do(i, WsFrame(Sized(size, true))))
    ensures var id := s.handlers[i].id;
            && id in t.mgr.windows && id in t.mgr.lastSize && t.mgr.lastSize[id] == size
            && (t.mgr.windows[id] == size || (id in s.mgr.lastSize && s.mgr.lastSize[id] == size && t.mgr == s.mgr))
            && |t.handlers| == |s.handlers| && t.handlers[i] == s.handlers[i]
  {
    var u := Next(s, Do(i, Arrive));
    t := Next(u, Do(i, WsFrame(Sized(size, true))));
  }

  /**
  At any time the server can be shut down, which closes every client; a session
  can be killed, which closes every client of its id and then ends it; its shell
  can exit; and it can be created again.
   */
  lemma OthersMayAct(s: Sys, id: P.Id, size: P.Size)
    requires Inv(s)
    ensures StepEnabled(s, Admin(P.Shutdown)) && var m := Next(s, Admin(P.Shutdown)).mgr;
            m.slots == map[] && m.windows == s.mgr.windows && forall h | 0 <= h < |m.clients| :: m.clients[h].closed
    ensures StepEnabled(s, Admin(P.KillLocked(id))) && var m := Next(s, Admin(P.KillLocked(id))).mgr;
            id !in m.slots && id !in m.lastSize && forall h | 0 <= h < |m.clients| && m.clients[h].id == id :: m.clients[h].closed
    ensures StepEnabled(s, Admin(P.KillServer(id))) && id !in Next(s, Admin(P.KillServer(id))).mgr.windows
    ensures StepEnabled(s, Admin(P.ShellExit(id))) && id !in Next(s, Admin(P.ShellExit(id))).mgr.windows
    ensures StepEnabled(s, Admin(P.CreateSession(id, size, true)))
    ensures var m := Next(s, Admin(P.CreateSession(id, size, true))).mgr; id in m.windows && (id !in s.mgr.windows ==> m.windows[id] == size)
  {
    forall h | 0 <= h < |s.mgr.clients|
      ensures Next(s, Admin(P.Shutdown)).mgr.clients[h].closed
    {
      P.ClosedStep(s.mgr, P.Shutdown, h);
    }
    forall h | 0 <= h < |s.mgr.clients| && s.mgr.clients[h].id == id
      ensures Next(s, Admin(P.KillLocked(id))).mgr.clients[h].closed
    {
      P.ClosedStep(s.mgr, P.KillLocked(id), h);
    }
  }
}
