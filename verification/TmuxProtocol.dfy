/**
The attach/detach protocol of the tmux manager, as a state machine.

A `State` holds the manager's two maps (`slots` is `m.sessions`, with each
*Session named by a handle), every attach client ever started, and the tmux
server seen as a map from session id to window size. One `Step` is one critical
section under `m.mu`, one command sent to tmux, or one event of the environment.
`KillSession` is two steps, because it releases the lock before it runs
`kill-session`.
 */
module TmuxProtocol {
  import opened Prelude

  type Id = string
  type Handle = nat
  type Uint16 = n: int | 0 <= n < 0x1_0000

  datatype Size = Size(cols: Uint16, rows: Uint16)

  /** An attach client: `closed` and the pty as in `Session`; `reaps` counts the runs of the close body. */
  datatype Client = Client(id: Id, ptyOpen: bool, closed: bool, reaps: nat)

  datatype State = State(
    slots: map<Id, Handle>,
    lastSize: map<Id, Size>,
    clients: seq<Client>,
    windows: map<Id, Size>)

  /** `newOk`, `ptyOk` and `shellOk` say whether a command sent at this point succeeds. */
  datatype Step =
    | Attach(id: Id, size: Size, newOk: bool, ptyOk: bool)
    | Detach(id: Id, handle: Option<Handle>)
    | Resize(id: Id, size: Size, shellOk: bool)
    | KillLocked(id: Id)
    | KillServer(id: Id)
    | Shutdown
    | ClosePty(h: Handle)
    | CreateSession(id: Id, size: Size, newOk: bool)
    | ShellExit(id: Id)

  // ---------- one step ----------

  function CloseClient(c: Client): Client {
    if c.closed then c else c.(closed := true, ptyOpen := false, reaps := c.reaps + 1)
  }

  function ClosePtyOf(c: Client): Client {
    if c.closed then c else c.(ptyOpen := false)
  }

  function CloseAt(clients: seq<Client>, h: Handle): (r: seq<Client>)
    ensures |r| == |clients|
  {
    if h < |clients| then clients[h := CloseClient(clients[h])] else clients
  }

  function CloseAll(clients: seq<Client>, hs: set<Handle>): (r: seq<Client>)
    ensures |r| == |clients|
  {
    seq(|clients|, i requires 0 <= i < |clients| => if i in hs then CloseClient(clients[i]) else clients[i])
  }

  lemma CloseOneMore(clients: seq<Client>, hs: set<Handle>, h: Handle)
    ensures CloseAt(CloseAll(clients, hs), h) == CloseAll(clients, hs + {h})
    ensures CloseAll(clients, {}) == clients
  {
  }

  predicate AttachSucceeds(s: State, step: Step)
    requires step.Attach?
  {
    (step.id in s.windows || step.newOk) && step.ptyOk
  }

  /** What `AttachResult.Recreated` reports. */
  predicate Recreated(s: State, step: Step)
    requires step.Attach?
  {
    step.id !in s.windows
  }

  /** `new-session` ran for this id and succeeded. */
  predicate Creates(s: State, step: Step, id: Id) {
    && (step.Attach? || step.CreateSession?)
    && step.id == id && step.newOk && id !in s.windows
  }

  /** A `resize-window` sent now would succeed. */
  predicate ResizeWorks(s: State, step: Step)
    requires step.Resize?
  {
    step.shellOk && step.id in s.windows
  }

  predicate Cached(s: State, id: Id, size: Size) {
    id in s.lastSize && s.lastSize[id] == size
  }

  /** `resize-window` is sent, and succeeds. */
  predicate ShellsOut(s: State, step: Step)
    requires step.Resize?
  {
    !Cached(s, step.id, step.size) && ResizeWorks(s, step)
  }

  function AttachNext(s: State, step: Step): State
    requires step.Attach?
  {
    var windows := if Creates(s, step, step.id) then s.windows[step.id := step.size] else s.windows;
    if !AttachSucceeds(s, step) then s.(windows := windows)
    else
      var closed := if step.id in s.slots then CloseAt(s.clients, s.slots[step.id]) else s.clients;
      s.(windows := windows,
         clients := closed + [Client(step.id, true, false, 0)],
         slots := s.slots[step.id := |s.clients|])
  }

  function DetachNext(s: State, id: Id, h: Handle): State {
    var slots := if id in s.slots && s.slots[id] == h then s.slots - {id} else s.slots;
    s.(slots := slots, clients := CloseAt(s.clients, h))
  }

  function KillLockedNext(s: State, id: Id): State {
    s.(clients := if id in s.slots then CloseAt(s.clients, s.slots[id]) else s.clients,
       slots := s.slots - {id},
       lastSize := s.lastSize - {id})
  }

  function Next(s: State, step: Step): State {
    match step
    case Attach(_, _, _, _) => AttachNext(s, step)
    case Detach(id, handle) => if handle.None? then s else DetachNext(s, id, handle.value)
    case Resize(id, size, _) =>
      if ShellsOut(s, step) then s.(lastSize := s.lastSize[id := size], windows := s.windows[id := size]) else s
    case KillLocked(id) => KillLockedNext(s, id)
    case KillServer(id) => s.(windows := s.windows - {id})
    case Shutdown => s.(clients := CloseAll(s.clients, s.slots.Values), slots := map[])
    case ClosePty(h) => if h < |s.clients| then s.(clients := s.clients[h := ClosePtyOf(s.clients[h])]) else s
    case CreateSession(id, size, _) => if Creates(s, step, id) then s.(windows := s.windows[id := size]) else s
    case ShellExit(id) => s.(windows := s.windows - {id})
  }

  // ---------- runs ----------

  /** A finite run: `states[k + 1]` is what `steps[k]` makes of `states[k]`. */
  datatype Run = Run(states: seq<State>, steps: seq<Step>) {
    ghost predicate Valid() {
      && |states| == |steps| + 1
      && forall k | 0 <= k < |steps| :: states[k + 1] == Next(states[k], steps[k])
    }
  }

  /** The state that a sequence of steps leads to. */
  function Exec(s: State, steps: seq<Step>): State {
    if steps == [] then s else Next(Exec(s, Front(steps)), Last(steps))
  }

  lemma ExecSnoc(s: State, steps: seq<Step>, step: Step)
    ensures Exec(s, steps + [step]) == Next(Exec(s, steps), step)
  {
    assert Front(steps + [step]) == steps;
  }

  /** A manager that has just been built; the tmux server may already hold sessions. */
  predicate Fresh(s: State) {
    s.slots == map[] && s.lastSize == map[] && s.clients == []
  }

  // ---------- ownership ----------

  /** The clients that are not closed are exactly the values of `slots`, each filed under its own id. */
  ghost predicate Owned(s: State) {
    && (forall id <- s.slots :: s.slots[id] < |s.clients| && s.clients[s.slots[id]].id == id
                                && !s.clients[s.slots[id]].closed)
    && (forall h | 0 <= h < |s.clients| ::
          !s.clients[h].closed ==> s.clients[h].id in s.slots && s.slots[s.clients[h].id] == h)
  }

  /** The close body runs once, when the client is closed, and leaves the pty closed. */
  ghost predicate Reaped(s: State) {
    forall h | 0 <= h < |s.clients| ::
      && s.clients[h].reaps == (if s.clients[h].closed then 1 else 0)
      && (s.clients[h].closed ==> !s.clients[h].ptyOpen)
  }

  /** A `Detach` of a live client under an id that is not its own. */
  predicate Misfiled(s: State, step: Step) {
    && step.Detach? && step.handle.Some? && step.handle.value < |s.clients|
    && !s.clients[step.handle.value].closed
    && s.clients[step.handle.value].id != step.id
  }

  lemma OwnedAttach(s: State, step: Step)
    requires Owned(s) && step.Attach?
    ensures Owned(AttachNext(s, step))
  {
    var t := AttachNext(s, step);
    if AttachSucceeds(s, step) {
      forall h | 0 <= h < |t.clients| && !t.clients[h].closed
        ensures t.clients[h].id in t.slots && t.slots[t.clients[h].id] == h
      {
        if h < |s.clients| {
          assert !s.clients[h].closed;
        }
      }
    }
  }

  lemma OwnedDetach(s: State, id: Id, h: Handle)
    requires Owned(s)
    ensures Owned(DetachNext(s, id, h)) <==> !Misfiled(s, Detach(id, Some(h)))
  {
    var t := DetachNext(s, id, h);
    if Misfiled(s, Detach(id, Some(h))) {
      assert t.slots[s.clients[h].id] == h && t.clients[h].closed;
    }
  }

  lemma OwnedShutdown(s: State)
    requires Owned(s)
    ensures Owned(Next(s, Shutdown))
  {
    forall h | 0 <= h < |s.clients| && !s.clients[h].closed
      ensures h in s.slots.Values
    {
      assert s.slots[s.clients[h].id] in s.slots.Values;
    }
  }

  /** One step keeps ownership, unless it detaches a live client under an id that is not its own. */
  lemma OwnedStep(s: State, step: Step)
    requires Owned(s)
    ensures Owned(Next(s, step)) <==> !Misfiled(s, step)
  {
    match step
    case Attach(_, _, _, _) => OwnedAttach(s, step);
    case Detach(id, handle) => if handle.Some? { OwnedDetach(s, id, handle.value); }
    case Shutdown => OwnedShutdown(s);
    case KillLocked(id) =>
    case Resize(_, _, _) =>
    case KillServer(_) =>
    case ClosePty(_) =>
    case CreateSession(_, _, _) =>
    case ShellExit(_) =>
  }

  /** A live client handed back under another id leaves a closed client in its slot. */
  lemma MisfiledDetachLosesOwnership(size: Size) returns (r: Run)
    ensures r.Valid() && Fresh(r.states[0])
    ensures r.steps == [Attach("a", size, true, true), Detach("b", Some(0))] && !Owned(Last(r.states))
  {
    var attach, detach := Attach("a", size, true, true), Detach("b", Some(0));
    var s := State(map[], map[], [], map[]);
    var t := Next(s, attach);
    OwnedStep(s, attach);
    OwnedStep(t, detach);
    r := Run([s, t, Next(t, detach)], [attach, detach]);
  }

  lemma ReapedStep(s: State, step: Step)
    requires Reaped(s)
    ensures Reaped(Next(s, step))
  {
  }

  /** Every caller hands its handle back under the id it attached with. */
  ghost predicate Disciplined(r: Run)
    requires r.Valid()
  {
    forall k | 0 <= k < |r.steps| :: !Misfiled(r.states[k], r.steps[k])
  }

  /** Ownership after every step of every interleaving. */
  lemma {:induction false} OwnershipAlways(r: Run, n: nat)
    requires r.Valid() && Disciplined(r) && n < |r.states|
    requires Owned(r.states[0]) && Reaped(r.states[0])
    ensures Owned(r.states[n]) && Reaped(r.states[n])
  {
    if n > 0 {
      OwnershipAlways(r, n - 1);
      OwnedStep(r.states[n - 1], r.steps[n - 1]);
      ReapedStep(r.states[n - 1], r.steps[n - 1]);
    }
  }

  // ---------- stale detaches ----------

  /** A `Detach` whose handle is no longer in the slot. */
  predicate Stale(s: State, step: Step) {
    && step.Detach? && step.handle.Some?
    && !(step.id in s.slots && s.slots[step.id] == step.handle.value)
  }

  lemma StaleDetachIsInvisible(s: State, step: Step)
    requires Owned(s) && Stale(s, step) && !Misfiled(s, step)
    ensures Next(s, step) == s
  {
    var h := step.handle.value;
    if h < |s.clients| {
      assert s.clients[h].closed;
      assert CloseAt(s.clients, h) == s.clients;
    }
  }

  /** The first `n` steps of a run without its stale detaches. */
  function WithoutStale(r: Run, n: nat): seq<Step>
    requires n <= |r.steps| && n <= |r.states|
  {
    if n == 0 then []
    else WithoutStale(r, n - 1) + (if Stale(r.states[n - 1], r.steps[n - 1]) then [] else [r.steps[n - 1]])
  }

  /** Erasing every stale `Detach` from a run leaves the map, the clients and the tmux sessions as they were. */
  lemma {:induction false} StaleDetachesCanBeErased(r: Run, n: nat)
    requires r.Valid() && Disciplined(r) && n < |r.states|
    requires Owned(r.states[0]) && Reaped(r.states[0])
    ensures Exec(r.states[0], WithoutStale(r, n)) == r.states[n]
  {
    if n > 0 {
      StaleDetachesCanBeErased(r, n - 1);
      OwnershipAlways(r, n - 1);
      if Stale(r.states[n - 1], r.steps[n - 1]) {
        StaleDetachIsInvisible(r.states[n - 1], r.steps[n - 1]);
        assert WithoutStale(r, n) == WithoutStale(r, n - 1);
      } else {
        ExecSnoc(r.states[0], WithoutStale(r, n - 1), r.steps[n - 1]);
      }
    }
  }

  // ---------- the slot holds the latest attach ----------

  /** An attach of `id` that returns handle `h`. */
  predicate Installs(s: State, step: Step, id: Id, h: Handle) {
    step.Attach? && step.id == id && AttachSucceeds(s, step) && h == |s.clients|
  }

  /** A step that takes `h` out of the slot of `id`: a newer attach, its owner's detach, a kill, a shutdown. */
  predicate Evicts(s: State, step: Step, id: Id, h: Handle) {
    match step
    case Attach(i, _, _, _) => i == id && AttachSucceeds(s, step)
    case Detach(i, handle) => i == id && handle == Some(h)
    case KillLocked(i) => i == id
    case Shutdown => true
    case _ => false
  }

  /** Step `k` installed `h` for `id`, and no later step among the first `n` evicted it. */
  ghost predicate LatestAttach(r: Run, n: nat, k: nat, id: Id, h: Handle)
    requires r.Valid() && n <= |r.steps|
  {
    && k < n && Installs(r.states[k], r.steps[k], id, h)
    && forall j | k < j < n :: !Evicts(r.states[j], r.steps[j], id, h)
  }

  /** `h` is what the latest successful attach of `id` returned, and it is still in place. */
  ghost predicate HasLatest(r: Run, n: nat, id: Id, h: Handle)
    requires r.Valid() && n <= |r.steps|
  {
    exists k: nat :: LatestAttach(r, n, k, id, h)
  }

  predicate Holds(s: State, id: Id, h: Handle) {
    id in s.slots && s.slots[id] == h
  }

  lemma HoldsStep(s: State, step: Step, id: Id, h: Handle)
    ensures Holds(Next(s, step), id, h)
            <==> Installs(s, step, id, h) || (Holds(s, id, h) && !Evicts(s, step, id, h))
  {
  }

  lemma HoldsLater(r: Run, m: nat, id: Id, h: Handle)
    requires r.Valid() && m < |r.steps|
    ensures Holds(r.states[m + 1], id, h)
            <==> Installs(r.states[m], r.steps[m], id, h)
                 || (Holds(r.states[m], id, h) && !Evicts(r.states[m], r.steps[m], id, h))
  {
    HoldsStep(r.states[m], r.steps[m], id, h);
  }

  lemma LatestAttachStep(r: Run, n: nat, id: Id, h: Handle)
    requires r.Valid() && 0 < n <= |r.steps|
    ensures var m := n - 1;
            HasLatest(r, n, id, h)
            <==> Installs(r.states[m], r.steps[m], id, h)
                 || (HasLatest(r, m, id, h) && !Evicts(r.states[m], r.steps[m], id, h))
  {
    var m := n - 1;
    if Installs(r.states[m], r.steps[m], id, h) {
      assert LatestAttach(r, n, m, id, h);
    }
    if k: nat :| LatestAttach(r, n, k, id, h) && k < m {
      assert LatestAttach(r, m, k, id, h);
    }
    if k: nat :| LatestAttach(r, m, k, id, h) && !Evicts(r.states[m], r.steps[m], id, h) {
      assert LatestAttach(r, n, k, id, h);
    }
  }

  lemma SlotStep(r: Run, m: nat, id: Id, h: Handle)
    requires r.Valid() && m < |r.steps| && (Holds(r.states[m], id, h) <==> HasLatest(r, m, id, h))
    ensures Holds(r.states[m + 1], id, h) <==> HasLatest(r, m + 1, id, h)
  {
    HoldsLater(r, m, id, h);
    LatestAttachStep(r, m + 1, id, h);
  }

  /** The slot holds `h` exactly when the latest successful attach of `id` returned `h` and nothing has evicted it. */
  lemma {:induction false} SlotHoldsLatestAttach(r: Run, n: nat, id: Id, h: Handle)
    requires r.Valid() && n <= |r.steps| && Fresh(r.states[0])
    ensures Holds(r.states[n], id, h) <==> HasLatest(r, n, id, h)
  {
    if n == 0 {
      assert !HasLatest(r, 0, id, h);
    } else {
      SlotHoldsLatestAttach(r, n - 1, id, h);
      SlotStep(r, n - 1, id, h);
    }
  }

  // ---------- the pty of a client ----------

  predicate PtyOpenAt(s: State, h: Handle) {
    h < |s.clients| && s.clients[h].ptyOpen
  }

  /** An attach that starts its client, which gets handle `h`. */
  predicate StartsClient(s: State, step: Step, h: Handle) {
    step.Attach? && (step.id in s.windows || step.newOk) && step.ptyOk && h == |s.clients|
  }

  /** The step closes client `h`: a newer client in its slot, its own detach, a kill of its slot, a shutdown. */
  predicate ClosesClient(s: State, step: Step, h: Handle) {
    match step
    case Attach(id, _, newOk, ptyOk) => (id in s.windows || newOk) && ptyOk && Holds(s, id, h)
    case Detach(_, handle) => handle == Some(h)
    case KillLocked(id) => Holds(s, id, h)
    case Shutdown => exists id :: id in s.slots && s.slots[id] == h
    case _ => false
  }

  predicate EndsPty(s: State, step: Step, h: Handle) {
    step == ClosePty(h) || ClosesClient(s, step, h)
  }

  /**
  A pty is open after a step exactly if the step started the client, or it was open
  and the step did not close it.
   */
  lemma PtyStep(s: State, step: Step, h: Handle)
    requires Reaped(s)
    ensures PtyOpenAt(Next(s, step), h)
            <==> StartsClient(s, step, h) || (PtyOpenAt(s, h) && !EndsPty(s, step, h))
  {
    if step.Shutdown? {
      assert h in s.slots.Values <==> exists id :: id in s.slots && s.slots[id] == h;
    }
  }

  /** A client is closed after a step exactly if it was, or the step closed it; a client just started is not. */
  lemma ClosedStep(s: State, step: Step, h: Handle)
    requires Owned(s) && h < |Next(s, step).clients|
    ensures Next(s, step).clients[h].closed
            <==> h < |s.clients| && (s.clients[h].closed || ClosesClient(s, step, h))
  {
    if step.Shutdown? {
      assert h in s.slots.Values <==> exists id :: id in s.slots && s.slots[id] == h;
    }
  }

  /** Step `k` started client `h`, and none since has closed its pty. */
  ghost predicate OpenSince(r: Run, n: nat, k: nat, h: Handle)
    requires r.Valid() && n <= |r.steps|
  {
    && k < n && StartsClient(r.states[k], r.steps[k], h)
    && forall j | k < j < n :: !EndsPty(r.states[j], r.steps[j], h)
  }

  ghost predicate IsOpenSince(r: Run, n: nat, h: Handle)
    requires r.Valid() && n <= |r.steps|
  {
    exists k: nat :: OpenSince(r, n, k, h)
  }

  lemma OpenSinceStep(r: Run, m: nat, n: nat, h: Handle)
    requires r.Valid() && n == m + 1 && n <= |r.steps|
    ensures IsOpenSince(r, n, h)
            <==> StartsClient(r.states[m], r.steps[m], h)
                 || (IsOpenSince(r, m, h) && !EndsPty(r.states[m], r.steps[m], h))
  {
    if StartsClient(r.states[m], r.steps[m], h) {
      assert OpenSince(r, n, m, h);
    }
    if k: nat :| OpenSince(r, n, k, h) && k < m {
      assert OpenSince(r, m, k, h);
    }
    if k: nat :| OpenSince(r, m, k, h) && !EndsPty(r.states[m], r.steps[m], h) {
      assert OpenSince(r, n, k, h);
    }
  }

  lemma PtyLater(r: Run, m: nat, n: nat, h: Handle)
    requires r.Valid() && n == m + 1 && n <= |r.steps| && Reaped(r.states[m])
    requires PtyOpenAt(r.states[m], h) <==> IsOpenSince(r, m, h)
    ensures PtyOpenAt(r.states[n], h) <==> IsOpenSince(r, n, h)
  {
    PtyStep(r.states[m], r.steps[m], h);
    OpenSinceStep(r, m, n, h);
  }

  lemma {:induction false} ReapedAlways(r: Run, n: nat)
    requires r.Valid() && n <= |r.steps| && Reaped(r.states[0])
    ensures Reaped(r.states[n])
  {
    if n > 0 {
      ReapedAlways(r, n - 1);
      ReapedStep(r.states[n - 1], r.steps[n - 1]);
    }
  }

  /**
  In every run from a fresh manager a pty is open exactly from the attach that
  started its client to the first step that closes it.
   */
  lemma {:induction false} PtyIsOpenSinceAttach(r: Run, n: nat, h: Handle)
    requires r.Valid() && n <= |r.steps| && Fresh(r.states[0])
    ensures PtyOpenAt(r.states[n], h) <==> IsOpenSince(r, n, h)
  {
    if n == 0 {
      assert !IsOpenSince(r, 0, h);
    } else {
      PtyIsOpenSinceAttach(r, n - 1, h);
      ReapedAlways(r, n - 1);
      PtyLater(r, n - 1, n, h);
    }
  }

  // ---------- persistence of tmux sessions ----------

  predicate Ends(step: Step, id: Id) {
    (step.KillServer? || step.ShellExit?) && step.id == id
  }

  ghost predicate NoEnd(r: Run, k: int, n: nat, id: Id)
    requires n <= |r.steps|
  {
    forall j | 0 <= j < n :: k < j ==> !Ends(r.steps[j], id)
  }

  /**
  A tmux session of `id` was there at the start, or was created by a step, and has
  not ended among the first `n` steps.
   */
  ghost predicate AliveSince(r: Run, n: nat, k: int, id: Id)
    requires r.Valid() && n <= |r.steps|
  {
    && -1 <= k < n && NoEnd(r, k, n, id)
    && if k == -1 then id in r.states[0].windows else Creates(r.states[k], r.steps[k], id)
  }

  lemma WindowStep(s: State, step: Step, id: Id)
    ensures id in Next(s, step).windows <==> Creates(s, step, id) || (id in s.windows && !Ends(step, id))
  {
  }

  /** The step gives the tmux session of `id` its size: it creates the session, or its resize reaches it. */
  predicate Sizes(s: State, step: Step, id: Id) {
    Creates(s, step, id) || (step.Resize? && step.id == id && ShellsOut(s, step))
  }

  lemma WindowSizeStep(s: State, step: Step, id: Id)
    requires id in Next(s, step).windows
    ensures if Sizes(s, step, id) then Next(s, step).windows[id] == step.size
            else id in s.windows && Next(s, step).windows[id] == s.windows[id] && !Ends(step, id)
  {
  }

  /** Among the first `n` steps, none since `k` (or, for `-1`, since the start) sizes or ends the session of `id`. */
  ghost predicate Undisturbed(r: Run, n: nat, k: int, id: Id)
    requires r.Valid() && n <= |r.steps|
  {
    forall j: nat | k < j < n :: !Sizes(r.states[j], r.steps[j], id) && !Ends(r.steps[j], id)
  }

  /**
  The size of a live tmux session is that of the latest step that created or
  resized it, and that session has not ended since; or nothing has touched it
  and it is the size it had at the start.
   */
  lemma {:induction false} WindowSizeIsLatest(r: Run, n: nat, id: Id) returns (k: int)
    requires r.Valid() && n <= |r.steps| && id in r.states[n].windows
    ensures -1 <= k < n && Undisturbed(r, n, k, id)
    ensures if k == -1 then id in r.states[0].windows && r.states[n].windows[id] == r.states[0].windows[id]
            else Sizes(r.states[k], r.steps[k], id) && r.states[n].windows[id] == r.steps[k].size
  {
    k := n - 1;
    if n > 0 {
      WindowSizeStep(r.states[n - 1], r.steps[n - 1], id);
      if !Sizes(r.states[n - 1], r.steps[n - 1], id) {
        k := WindowSizeIsLatest(r, n - 1, id);
      }
    }
  }

  lemma AliveStep(r: Run, m: nat, n: nat, id: Id)
    requires r.Valid() && n == m + 1 && n <= |r.steps|
    ensures (exists k :: AliveSince(r, n, k, id))
            <==> Creates(r.states[m], r.steps[m], id) || ((exists k :: AliveSince(r, m, k, id)) && !Ends(r.steps[m], id))
  {
    if Creates(r.states[m], r.steps[m], id) {
      assert AliveSince(r, n, m, id);
    }
    if k :| AliveSince(r, m, k, id) && !Ends(r.steps[m], id) {
      assert AliveSince(r, n, k, id);
    }
    if k :| AliveSince(r, n, k, id) && k < m {
      assert AliveSince(r, m, k, id) && !Ends(r.steps[m], id);
    }
  }

  /** A tmux session survives everything but its own `kill-session` and the exit of its shell. */
  lemma {:induction false} SessionLivesUntilEnded(r: Run, n: nat, id: Id)
    requires r.Valid() && n <= |r.steps|
    ensures id in r.states[n].windows <==> exists k :: AliveSince(r, n, k, id)
  {
    if n == 0 {
      assert id in r.states[0].windows ==> AliveSince(r, 0, -1, id);
    } else {
      SessionLivesUntilEnded(r, n - 1, id);
      WindowStep(r.states[n - 1], r.steps[n - 1], id);
      AliveStep(r, n - 1, n, id);
    }
  }

  /** `Attach` reports `Recreated` exactly when no creation has followed the last kill or shell exit. */
  lemma RecreatedMeansLost(r: Run, n: nat)
    requires r.Valid() && n < |r.steps| && r.steps[n].Attach?
    ensures Recreated(r.states[n], r.steps[n]) <==> !exists k :: AliveSince(r, n, k, r.steps[n].id)
  {
    SessionLivesUntilEnded(r, n, r.steps[n].id);
  }

  // ---------- the resize cache ----------

  function Dedup<T(==)>(xs: seq<T>): seq<T> {
    if |xs| <= 1 then xs
    else Dedup(Front(xs)) + (if xs[|xs| - 2] == Last(xs) then [] else [Last(xs)])
  }

  lemma DedupSnoc<T>(xs: seq<T>, x: T)
    ensures Dedup(xs + [x]) == if xs != [] && Last(xs) == x then Dedup(xs) else Dedup(xs) + [x]
  {
    assert Front(xs + [x]) == xs;
  }

  /** The size this step asks for `id`, if the request does not fail. */
  function WantedNow(s: State, step: Step, id: Id): seq<Size> {
    if step.Resize? && step.id == id && ResizeWorks(s, step) then [step.size] else []
  }

  /** The size this step sends to tmux for `id`, if it sends one with success. */
  function SentNow(s: State, step: Step, id: Id): seq<Size> {
    if step.Resize? && step.id == id && ShellsOut(s, step) then [step.size] else []
  }

  function Wanted(r: Run, n: nat, id: Id): seq<Size>
    requires n <= |r.steps| && n <= |r.states|
  {
    if n == 0 then [] else Wanted(r, n - 1, id) + WantedNow(r.states[n - 1], r.steps[n - 1], id)
  }

  function Sent(r: Run, n: nat, id: Id): seq<Size>
    requires n <= |r.steps| && n <= |r.states|
  {
    if n == 0 then [] else Sent(r, n - 1, id) + SentNow(r.states[n - 1], r.steps[n - 1], id)
  }

  /** The cache entry of `id` is the last of `sizes`, or absent when there is none. */
  predicate CachesLast(s: State, id: Id, sizes: seq<Size>) {
    if sizes == [] then id !in s.lastSize else Cached(s, id, Last(sizes))
  }

  lemma SentStep(s: State, step: Step, id: Id, wanted: seq<Size>)
    requires CachesLast(s, id, wanted)
    ensures Dedup(wanted + WantedNow(s, step, id)) == Dedup(wanted) + SentNow(s, step, id)
  {
    if WantedNow(s, step, id) == [] {
      assert wanted + [] == wanted;
    } else {
      DedupSnoc(wanted, step.size);
    }
  }

  lemma CacheStep(s: State, step: Step, id: Id, wanted: seq<Size>)
    requires CachesLast(s, id, wanted) && step != KillLocked(id)
    ensures CachesLast(Next(s, step), id, wanted + WantedNow(s, step, id))
  {
    var t := Next(s, step);
    if step.Resize? && step.id == id && ResizeWorks(s, step) {
      assert Cached(t, id, step.size);
    } else {
      assert wanted + WantedNow(s, step, id) == wanted;
      assert id in t.lastSize <==> id in s.lastSize;
      assert id in t.lastSize ==> t.lastSize[id] == s.lastSize[id];
    }
  }

  /**
  Between two kills of `id`, what reaches tmux is the non-failing requests with
  consecutive repeats removed, and the cache is the last of them: a failed
  resize is never cached.
   */
  lemma {:induction false} ResizesAreDeduplicated(r: Run, n: nat, id: Id)
    requires r.Valid() && n <= |r.steps|
    requires id !in r.states[0].lastSize && KillLocked(id) !in r.steps
    ensures Sent(r, n, id) == Dedup(Wanted(r, n, id))
    ensures CachesLast(r.states[n], id, Wanted(r, n, id))
  {
    if n > 0 {
      ResizesAreDeduplicated(r, n - 1, id);
      assert r.steps[n - 1] in r.steps;
      SentStep(r.states[n - 1], r.steps[n - 1], id, Wanted(r, n - 1, id));
      CacheStep(r.states[n - 1], r.steps[n - 1], id, Wanted(r, n - 1, id));
    }
  }

  /** The cache tells the truth about the tmux server. */
  ghost predicate Coherent(s: State) {
    forall id <- s.lastSize :: id in s.windows && s.windows[id] == s.lastSize[id]
  }

  /** A tmux session ends while its size is still cached. */
  predicate CachedEnd(s: State, step: Step) {
    (step.KillServer? || step.ShellExit?) && step.id in s.lastSize
  }

  lemma CoherentStep(s: State, step: Step)
    requires Coherent(s)
    ensures Coherent(Next(s, step)) <==> !CachedEnd(s, step)
  {
    if CachedEnd(s, step) {
      assert step.id in Next(s, step).lastSize && step.id !in Next(s, step).windows;
    }
  }

  /** Exactly the runs in which no session ends while cached keep the cache true at every point. */
  lemma {:induction false} CoherentRuns(r: Run, n: nat)
    requires r.Valid() && n <= |r.steps| && Coherent(r.states[0])
    ensures (forall k | 0 <= k <= n :: Coherent(r.states[k]))
            <==> (forall k | 0 <= k < n :: !CachedEnd(r.states[k], r.steps[k]))
  {
    if n > 0 {
      var m := n - 1;
      CoherentRuns(r, m);
      if Coherent(r.states[m]) {
        CoherentStep(r.states[m], r.steps[m]);
        assert r.states[m + 1] == r.states[n];
      }
    }
  }

  /** The manager that never skips a resize. */
  function NaiveNext(s: State, step: Step): State {
    if step.Resize? then
      if ResizeWorks(s, step) then s.(windows := s.windows[step.id := step.size]) else s
    else Next(s, step)
  }

  function NaiveExec(s: State, steps: seq<Step>): State {
    if steps == [] then s else NaiveNext(NaiveExec(s, Front(steps)), Last(steps))
  }

  lemma NaiveSnoc(s: State, steps: seq<Step>, step: Step)
    ensures NaiveExec(s, steps + [step]) == NaiveNext(NaiveExec(s, steps), step)
  {
    assert Front(steps + [step]) == steps;
  }

  /** Equal but for the cache. */
  predicate SameServer(s: State, t: State) {
    s.windows == t.windows && s.slots == t.slots && s.clients == t.clients
  }

  /** A resize that would work is skipped although the window does not have the size. */
  predicate StaleSkip(s: State, step: Step) {
    && step.Resize? && Cached(s, step.id, step.size) && ResizeWorks(s, step)
    && s.windows[step.id] != step.size
  }

  lemma NaiveStep(s: State, t: State, step: Step)
    requires SameServer(s, t)
    ensures SameServer(Next(s, step), NaiveNext(t, step)) <==> !StaleSkip(s, step)
  {
    if step.Resize? && Cached(s, step.id, step.size) && ResizeWorks(s, step) {
      assert s.windows[step.id := step.size] == s.windows <==> s.windows[step.id] == step.size;
    }
  }

  /** After `n` steps the two managers have the same windows, slots and clients. */
  ghost predicate AgreesAt(r: Run, n: nat)
    requires n <= |r.steps| && n < |r.states|
  {
    SameServer(r.states[n], NaiveExec(r.states[0], r.steps[..n]))
  }

  lemma AgreesStep(r: Run, m: nat)
    requires r.Valid() && m < |r.steps| && AgreesAt(r, m)
    ensures AgreesAt(r, m + 1) <==> !StaleSkip(r.states[m], r.steps[m])
  {
    assert Front(r.steps[..m + 1]) == r.steps[..m] && Last(r.steps[..m + 1]) == r.steps[m];
    NaiveStep(r.states[m], NaiveExec(r.states[0], r.steps[..m]), r.steps[m]);
  }

  /** Skipping repeats refines the manager that never skips in exactly the runs without a stale skip, from any state. */
  lemma DedupRefinesNaive(r: Run, n: nat)
    requires r.Valid() && n <= |r.steps|
    ensures (forall k: nat | k <= n :: AgreesAt(r, k)) <==> (forall k: nat | k < n :: !StaleSkip(r.states[k], r.steps[k]))
  {
    var good := (k: nat) => k <= n && AgreesAt(r, k);
    var bad := (k: nat) => k < n && StaleSkip(r.states[k], r.steps[k]);
    forall m: nat {:trigger bad(m)} | m < n && good(m)
      ensures good(m + 1) <==> !bad(m)
    {
      AgreesStep(r, m);
    }
    AlwaysIffNever(good, bad, n);
    assert forall k: nat | k <= n :: good(k) <==> AgreesAt(r, k);
    assert forall k: nat | k < n :: bad(k) <==> StaleSkip(r.states[k], r.steps[k]);
  }

  /** In particular when no session ends while its size is cached. */
  lemma NoCachedEndRefines(r: Run, n: nat)
    requires r.Valid() && n <= |r.steps| && Coherent(r.states[0])
    requires forall k | 0 <= k < n :: !CachedEnd(r.states[k], r.steps[k])
    ensures AgreesAt(r, n)
  {
    CoherentRuns(r, n);
    forall k: nat | k < n
      ensures !StaleSkip(r.states[k], r.steps[k])
    {
      assert Coherent(r.states[k]);
    }
    DedupRefinesNaive(r, n);
  }

  /** Tmux sessions end only by a `kill-session` that follows its locked part at once. */
  ghost predicate AtomicKills(r: Run) {
    forall k: nat | k < |r.steps| :: !r.steps[k].ShellExit? && KillIsAtomic(r, k)
  }

  predicate KillIsAtomic(r: Run, k: nat)
    requires k < |r.steps|
  {
    r.steps[k].KillServer? ==> k > 0 && r.steps[k - 1] == KillLocked(r.steps[k].id)
  }

  /** Such kills never end a cached session, so there the cache is true and the deduplication a refinement. */
  lemma AtomicKillsRefine(r: Run, n: nat)
    requires r.Valid() && n <= |r.steps| && Coherent(r.states[0]) && AtomicKills(r)
    ensures Coherent(r.states[n]) && AgreesAt(r, n)
  {
    forall k | 0 <= k < n
      ensures !CachedEnd(r.states[k], r.steps[k])
    {
      assert KillIsAtomic(r, k);
      if r.steps[k].KillServer? {
        assert r.states[k] == Next(r.states[k - 1], KillLocked(r.steps[k].id));
      }
    }
    CoherentRuns(r, n);
    NoCachedEndRefines(r, n);
  }

  lemma ExecThree(s: State, a: Step, b: Step, c: Step)
    ensures Exec(s, [a] + [b] + [c]) == Next(Next(Next(s, a), b), c)
  {
    assert [] + [a] == [a];
    ExecSnoc(s, [], a);
    ExecSnoc(s, [a], b);
    ExecSnoc(s, [a] + [b], c);
  }

  lemma ExecFive(s: State, a: Step, b: Step, c: Step, d: Step, e: Step)
    ensures Exec(s, [a] + [b] + [c] + [d] + [e]) == Next(Next(Next(Next(Next(s, a), b), c), d), e)
  {
    ExecThree(s, a, b, c);
    ExecSnoc(s, [a] + [b] + [c], d);
    ExecSnoc(s, [a] + [b] + [c] + [d], e);
  }

  lemma NaiveThree(s: State, a: Step, b: Step, c: Step)
    ensures NaiveExec(s, [a] + [b] + [c]) == NaiveNext(NaiveNext(NaiveNext(s, a), b), c)
  {
    assert [] + [a] == [a];
    NaiveSnoc(s, [], a);
    NaiveSnoc(s, [a], b);
    NaiveSnoc(s, [a] + [b], c);
  }

  lemma NaiveFive(s: State, a: Step, b: Step, c: Step, d: Step, e: Step)
    ensures NaiveExec(s, [a] + [b] + [c] + [d] + [e])
            == NaiveNext(NaiveNext(NaiveNext(NaiveNext(NaiveNext(s, a), b), c), d), e)
  {
    NaiveThree(s, a, b, c);
    NaiveSnoc(s, [a] + [b] + [c], d);
    NaiveSnoc(s, [a] + [b] + [c] + [d], e);
  }

  /**
  With stale skips the refinement fails: a shell exits, `Attach` starts a fresh
  session at its default size, and the client's resize is skipped because the
  size cached for the lost session was never dropped.
   */
  lemma RecreatedSessionKeepsStaleSize(s: State, small: Size, default: Size)
    requires Fresh(s) && s.windows == map[] && small != default
    ensures var attach, resize := Attach("a", default, true, true), Resize("a", small, true);
            var steps := [attach] + [resize] + [ShellExit("a")] + [attach] + [resize];
            Exec(s, steps).windows == map["a" := default] && NaiveExec(s, steps).windows == map["a" := small]
  {
    var attach, resize, exit := Attach("a", default, true, true), Resize("a", small, true), ShellExit("a");
    ExecFive(s, attach, resize, exit, attach, resize);
    NaiveFive(s, attach, resize, exit, attach, resize);
  }

  /**
  They fail without any exit of a shell, too: a resize between the two halves of
  a kill is cached again, and the cache entry outlives the session.
   */
  lemma ResizeDuringKillKeepsStaleSize(s: State, small: Size, default: Size)
    requires Fresh(s) && s.windows == map["a" := default] && small != default
    ensures var attach, resize := Attach("a", default, true, true), Resize("a", small, true);
            var steps := [KillLocked("a")] + [resize] + [KillServer("a")] + [attach] + [resize];
            Exec(s, steps).windows == map["a" := default] && NaiveExec(s, steps).windows == map["a" := small]
  {
    var attach, resize := Attach("a", default, true, true), Resize("a", small, true);
    ExecFive(s, KillLocked("a"), resize, KillServer("a"), attach, resize);
    NaiveFive(s, KillLocked("a"), resize, KillServer("a"), attach, resize);
  }
}
