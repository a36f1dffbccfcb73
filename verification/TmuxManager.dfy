/**
The manager and its attach clients as the objects they are, each method proved
to take the step of `TmuxProtocol` that is named after it.
 */
module TmuxManager {
  import opened Prelude
  import P = TmuxProtocol

  class Session {
    const id: P.Id
    ghost const handle: P.Handle
    var ptmxOpen: bool
    var closed: bool
    var reaps: nat

    constructor (id: P.Id, ghost handle: P.Handle)
      ensures View() == P.Client(id, true, false, 0) && this.handle == handle
    {
      this.id, this.handle := id, handle;
      ptmxOpen, closed, reaps := true, false, 0;
    }

    ghost function View(): P.Client
      reads this
    {
      P.Client(id, ptmxOpen, closed, reaps)
    }

    /** Closes the pty, kills the attach client and waits for it, unless that has been done. */
    method Close()
      modifies this
      ensures View() == P.CloseClient(old(View()))
    {
      if closed {
        return;
      }
      closed := true;
      ptmxOpen := false;
      reaps := reaps + 1;
    }

    /** Closes only the pty, so that a blocked reader or writer returns. */
    method ClosePTMX()
      modifies this
      ensures View() == P.ClosePtyOf(old(View()))
    {
      if closed {
        return;
      }
      ptmxOpen := false;
    }
  }

  /** The manager's map with each session replaced by its handle. */
  ghost function Handles(sessions: map<P.Id, Session>): map<P.Id, P.Handle> {
    map id <- sessions :: sessions[id].handle
  }

  lemma HandlesUpdate(sessions: map<P.Id, Session>, id: P.Id, session: Session)
    ensures Handles(sessions[id := session]) == Handles(sessions)[id := session.handle]
    ensures Handles(sessions - {id}) == Handles(sessions) - {id}
  {
  }

  lemma ValuesSplit(sessions: map<P.Id, Session>, id: P.Id)
    requires id in sessions
    ensures Handles(sessions).Values == {sessions[id].handle} + Handles(sessions - {id}).Values
  {
    var all, rest := Handles(sessions), Handles(sessions - {id});
    forall h <- all.Values
      ensures h in {sessions[id].handle} + rest.Values
    {
      var k :| k in all && all[k] == h;
      assert k == id || rest[k] == h;
    }
    forall h <- rest.Values
      ensures h in all.Values
    {
      var k :| k in rest && rest[k] == h;
      assert all[k] == h;
    }
    assert all[id] in all.Values;
  }

  datatype AttachResult = Failed | Attached(session: Session, recreated: bool)

  /** `windows` is the tmux server that the manager's commands reach; `created` lists every session ever attached. */
  class Manager {
    var sessions: map<P.Id, Session>
    var lastSize: map<P.Id, P.Size>
    var windows: map<P.Id, P.Size>
    ghost var created: seq<Session>

    constructor (windows: map<P.Id, P.Size>)
      ensures Valid() && P.Fresh(View()) && View().windows == windows
    {
      sessions, lastSize, created := map[], map[], [];
      this.windows := windows;
    }

    ghost predicate Valid()
      reads this
    {
      && (forall i | 0 <= i < |created| :: created[i].handle == i)
      && (forall id <- sessions :: Ours(sessions[id]))
    }

    /** This session came from an `Attach` of this manager. */
    ghost predicate Ours(s: Session)
      reads this
    {
      s.handle < |created| && created[s.handle] == s
    }

    ghost function View(): P.State
      reads this, created
    {
      P.State(
        Handles(sessions),
        lastSize,
        seq(|created|, i requires 0 <= i < |created| reads this, created => created[i].View()),
        windows)
    }

    /** Closes one of the manager's sessions. */
    method Reap(session: Session)
      requires Valid() && Ours(session)
      modifies session
      ensures View() == old(View()).(clients := P.CloseAt(old(View()).clients, session.handle))
    {
      session.Close();
      assert View().clients == P.CloseAt(old(View()).clients, session.handle);
    }

    /** Closes the session in a slot and empties the slot. */
    method CloseSlot(id: P.Id)
      requires Valid() && id in sessions
      modifies this`sessions, sessions[id]
      ensures Valid() && sessions == old(sessions) - {id}
      ensures View() == old(View()).(clients := P.CloseAt(old(View()).clients, old(View()).slots[id]),
                                     slots := old(View()).slots - {id})
    {
      HandlesUpdate(sessions, id, sessions[id]);
      Reap(sessions[id]);
      sessions := sessions - {id};
    }

    /** Starts an attach client and puts it into the slot of its id. */
    method Install(id: P.Id) returns (session: Session)
      requires Valid()
      modifies this`sessions, this`created
      ensures Valid() && fresh(session) && created == old(created) + [session]
      ensures View() == old(View()).(clients := old(View()).clients + [P.Client(id, true, false, 0)],
                                     slots := old(View()).slots[id := |old(View()).clients|])
    {
      session := new Session(id, |created|);
      HandlesUpdate(sessions, id, session);
      sessions := sessions[id := session];
      created := created + [session];
      assert View().clients == old(View()).clients + [session.View()];
    }

    /** Creates the tmux session of `id` if there is none. */
    method EnsureWindow(id: P.Id, size: P.Size, newOk: bool) returns (ok: bool, recreated: bool)
      modifies this`windows
      ensures ok <==> id in old(windows) || newOk
      ensures recreated <==> ok && id !in old(windows)
      ensures windows == if recreated then old(windows)[id := size] else old(windows)
    {
      ok, recreated := true, false;
      if id !in windows {
        if !newOk {
          return false, false;
        }
        windows := windows[id := size];
        recreated := true;
      }
    }

    /** Starts an attach client and closes the one it replaces. */
    method Replace(id: P.Id) returns (session: Session)
      requires Valid()
      modifies this`sessions, this`created, created
      ensures Valid() && fresh(session) && created == old(created) + [session]
      ensures var s := old(View());
              View() == s.(clients := (if id in s.slots then P.CloseAt(s.clients, s.slots[id]) else s.clients)
                                      + [P.Client(id, true, false, 0)],
                           slots := s.slots[id := |s.clients|])
    {
      if id in sessions {
        assert Ours(sessions[id]);
        Reap(sessions[id]);
      }
      session := Install(id);
    }

    method Attach(id: P.Id, size: P.Size, newOk: bool, ptyOk: bool) returns (r: AttachResult)
      requires Valid()
      modifies this, created
      ensures Valid()
      ensures View() == P.Next(old(View()), P.Attach(id, size, newOk, ptyOk))
      ensures r.Attached? <==> P.AttachSucceeds(old(View()), P.Attach(id, size, newOk, ptyOk))
      ensures r.Attached? ==> created == old(created) + [r.session] && fresh(r.session)
      ensures r.Attached? ==> (r.recreated <==> P.Recreated(old(View()), P.Attach(id, size, newOk, ptyOk)))
      ensures r.Failed? ==> created == old(created)
    {
      var ok, recreated := EnsureWindow(id, size, newOk);
      if !ok || !ptyOk {
        return Failed;
      }
      var session := Replace(id);
      return Attached(session, recreated);
    }

    /** Takes a session out of its slot, if it is the one there. */
    method Unfile(id: P.Id, session: Session)
      requires Valid() && Ours(session)
      modifies this`sessions
      ensures Valid()
      ensures var s := old(View());
              View() == if P.Holds(s, id, session.handle) then s.(slots := s.slots - {id}) else s
    {
      if id in sessions && sessions[id] == session {
        HandlesUpdate(sessions, id, session);
        sessions := sessions - {id};
      }
    }

    method Detach(id: P.Id, session: Session?)
      requires Valid()
      requires session != null ==> Ours(session)
      modifies this, created
      ensures Valid() && created == old(created)
      ensures View() == P.Next(old(View()), P.Detach(id, if session == null then None else Some(session.handle)))
    {
      if session == null {
        return;
      }
      Unfile(id, session);
      Reap(session);
    }

    method Resize(id: P.Id, size: P.Size, shellOk: bool) returns (ok: bool)
      requires Valid()
      modifies this`lastSize, this`windows
      ensures Valid()
      ensures View() == P.Next(old(View()), P.Resize(id, size, shellOk))
      ensures ok <==> P.Cached(old(View()), id, size) || P.ResizeWorks(old(View()), P.Resize(id, size, shellOk))
    {
      if id in lastSize && lastSize[id] == size {
        return true;
      }
      if !shellOk || id !in windows {
        return false;
      }
      windows := windows[id := size];
      lastSize := lastSize[id := size];
      return true;
    }

    /** The admin path, when no other goroutine runs between its locked part and its command. */
    method KillSession(id: P.Id)
      requires Valid()
      modifies this, created
      ensures Valid() && created == old(created)
      ensures View() == P.Next(P.Next(old(View()), P.KillLocked(id)), P.KillServer(id))
    {
      if id in sessions {
        CloseSlot(id);
      }
      lastSize := lastSize - {id};
      assert View() == P.KillLockedNext(old(View()), id);
      windows := windows - {id};
    }

    /** The loop of `Shutdown` has closed the clients in `closed`, and only their slots are gone. */
    ghost predicate Draining(before: P.State, closed: set<P.Handle>)
      reads this, created
    {
      && Valid()
      && closed + Handles(sessions).Values == before.slots.Values
      && View() == before.(clients := P.CloseAll(before.clients, closed), slots := Handles(sessions))
    }

    lemma StartDraining()
      requires Valid()
      ensures Draining(View(), {})
    {
      P.CloseOneMore(View().clients, {}, 0);
    }

    lemma Drained(before: P.State, closed: set<P.Handle>)
      requires Draining(before, closed) && sessions.Keys == {}
      ensures View() == P.Next(before, P.Shutdown)
    {
      assert Handles(sessions) == map[];
    }

    method DrainSlot(id: P.Id, ghost before: P.State, ghost closed: set<P.Handle>)
      requires Draining(before, closed) && id in sessions
      modifies this`sessions, sessions[id]
      ensures Draining(before, closed + {old(sessions)[id].handle}) && sessions == old(sessions) - {id}
    {
      P.CloseOneMore(before.clients, closed, sessions[id].handle);
      ValuesSplit(sessions, id);
      CloseSlot(id);
    }

    /** One round of the loop, for whatever entry the map yields next. */
    method DrainNext(ghost before: P.State, ghost closed: set<P.Handle>) returns (ghost more: set<P.Handle>)
      requires Draining(before, closed) && sessions.Keys != {}
      modifies this`sessions, created
      ensures Draining(before, more) && sessions.Keys < old(sessions).Keys
    {
      var id :| id in sessions.Keys;
      more := closed + {sessions[id].handle};
      assert Ours(sessions[id]);
      DrainSlot(id, before, closed);
    }

    method Shutdown()
      requires Valid()
      modifies this, created
      ensures Valid() && created == old(created)
      ensures View() == P.Next(old(View()), P.Shutdown)
    {
      ghost var closed: set<P.Handle>, before := {}, View();
      StartDraining();
      while sessions.Keys != {}
        invariant created == old(created) && Draining(before, closed)
        decreases sessions.Keys
      {
        closed := DrainNext(before, closed);
      }
      Drained(before, closed);
    }
  }
}
