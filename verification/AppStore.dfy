/**
The browser store as the object it is: two module-level maps, the page's queue
of timeouts, and a record that `set` replaces. Each method is proved to take the
step of `ClientState` that it stands for.
 */
module AppStore {
  import opened Prelude
  import opened Model
  import opened ClientState

  /** `Array.prototype.find` by id. */
  function Find(list: seq<Session>, sid: Id): (r: Option<Session>)
    ensures r.None? <==> sid !in Ids(list)
    ensures r.Some? ==> exists i | 0 <= i < |list| ::
                          list[i] == r.value && r.value.id == sid && sid !in Ids(list[..i])
  {
    if list == [] then None
    else if list[0].id == sid then
      assert list[..0] == [];
      Some(list[0])
    else
      var r := Find(list[1..], sid);
      assert list == [list[0]] + list[1..];
      assert forall i | 0 < i <= |list| :: list[..i] == [list[0]] + list[1..][..i - 1];
      r
  }

  lemma CancelTwice(t: Tracker, ids: set<Id>, id: Id)
    ensures Cancel(Cancel(t, ids), {id}) == Cancel(t, ids + {id})
    ensures Cancel(t, {}) == t
  {
    var u := Cancel(Cancel(t, ids), {id});
    var v := Cancel(t, ids + {id});
    assert forall k :: k in u.queue <==> k in v.queue;
    assert u.tracks == v.tracks && u.timers == v.timers && u.queue == v.queue;
  }

  class AppStore {
    var busyTrack: map<Id, Track>
    var idleTimers: map<Id, nat>
    var queue: map<nat, Timer>
    var nextTimer: nat
    var clock: nat
    var state: AppState

    constructor ()
      ensures View() == START
    {
      busyTrack, idleTimers, queue, nextTimer, clock := map[], map[], map[], 0, 0;
      state := EMPTY;
    }

    ghost function Tracking(): Tracker
      reads this
    {
      Tracker(busyTrack, idleTimers, queue, nextTimer)
    }

    ghost function View(): Client
      reads this
    {
      Client(state, Tracking(), clock)
    }

    method CancelIdleTracking(sid: Id)
      modifies this`busyTrack, this`idleTimers, this`queue
      ensures Tracking() == Cancel(old(Tracking()), {sid})
    {
      if sid in idleTimers {
        queue := queue - {idleTimers[sid]};
        idleTimers := idleTimers - {sid};
      }
      busyTrack := busyTrack - {sid};
    }

    method MarkSessionOutput(sid: Id, visible: bool, now: nat)
      requires clock <= now
      modifies this
      ensures View() == Next(old(View()), Output(sid, visible, now))
    {
      clock := now;
      if state.activeSession == Some(sid) && visible {
        CancelIdleTracking(sid);
        return;
      }
      if sid in busyTrack {
        busyTrack := busyTrack[sid := busyTrack[sid].(lastByteAt := now)];
      } else {
        busyTrack := busyTrack[sid := Track(now, now)];
      }
      if sid in idleTimers {
        queue := queue - {idleTimers[sid]};
      }
      queue := queue[nextTimer := Timer(sid, now + IDLE_MS)];
      idleTimers := idleTimers[sid := nextTimer];
      nextTimer := nextTimer + 1;
    }

    /** Searches the loaded lists, in whatever order the object lists its keys. */
    method FindSession(sid: Id) returns (found: Option<Session>, wid: Id)
      ensures FoundIn(state, sid, found, wid)
    {
      var left := state.sessions.Keys;
      while left != {}
        invariant left <= state.sessions.Keys
        invariant forall w <- state.sessions :: w !in left ==> sid !in Ids(state.sessions[w])
        decreases left
      {
        wid :| wid in left;
        left := left - {wid};
        found := Find(state.sessions[wid], sid);
        if found.Some? {
          return;
        }
      }
      return None, "";
    }

    /** The timeout callback set by `MarkSessionOutput`. */
    method OnIdle(k: nat, visible: bool, now: nat) returns (found: Option<Session>, wid: Id)
      requires clock <= now && k in queue && queue[k].due <= now
      requires forall j <- queue :: queue[k].due <= queue[j].due
      modifies this
      ensures Enabled(old(View()), Fire(k, visible, now, found, wid))
      ensures View() == Next(old(View()), Fire(k, visible, now, found, wid))
    {
      var sid := queue[k].sid;
      found, wid := FindSession(sid);
      clock := now;
      queue := queue - {k};
      idleTimers := idleTimers - {sid};
      if sid !in busyTrack {
        return;
      }
      var track := busyTrack[sid];
      busyTrack := busyTrack - {sid};
      if track.lastByteAt - track.startedAt < MIN_BUSY_MS {
        return;
      }
      var stillBackground := state.activeSession != Some(sid) || !visible;
      if !stillBackground {
        return;
      }
      if sid in state.activity && state.activity[sid].unread {
        return;
      }
      MarkUnread(sid, track, found, wid);
    }

    /** The commit of the callback, for a session that is not unread. */
    method MarkUnread(sid: Id, track: Track, found: Option<Session>, wid: Id)
      requires !Unread(state, sid)
      modifies this`state
      ensures state == Notify(old(state), sid, track, found, wid)
    {
      var at := track.lastByteAt;
      state := state.(activity := state.activity[sid := Activity(true, at, at)]);
      if found == None || wid == "" {
        return;
      }
      var filtered := Filter(state.toasts, NotOf({sid}));
      var stack := filtered + [Toast(ToastId(sid, at), sid, wid, found.value.title, at)];
      if |stack| > MAX_TOASTS {
        stack := stack[|stack| - MAX_TOASTS..];
      }
      state := state.(toasts := stack);
    }

    method ClearSessionUnread(sid: Id)
      modifies this
      ensures View() == Next(old(View()), Set(UnreadCleared(sid)))
    {
      CancelIdleTracking(sid);
      if sid in state.activity && state.activity[sid].unread {
        state := state.(activity := state.activity[sid := state.activity[sid].(unread := false)]);
      }
      state := state.(toasts := Filter(state.toasts, NotOf({sid})));
    }

    method SetActiveSession(sid: Id)
      modifies this
      ensures View() == Next(old(View()), Set(SessionActivated(sid)))
    {
      ClearSessionUnread(sid);
      if state.activeWorkspace.Some? {
        state := state.(remembered := state.remembered[state.activeWorkspace.value := sid]);
      }
      state := state.(activeSession := Some(sid));
    }

    /** The commit of `setActiveWorkspace`, with the list it found loaded or fetched. */
    method SetActiveWorkspace(id: Id, list: seq<Session>)
      modifies this
      ensures View() == Next(old(View()), Set(WorkspaceActivated(id, list)))
    {
      var next: Option<Id> := None;
      if id in state.remembered && Find(list, state.remembered[id]).Some? {
        next := Some(state.remembered[id]);
      } else if list != [] {
        next := Some(list[0].id);
      }
      if next.Some? {
        ClearSessionUnread(next.value);
        state := state.(remembered := state.remembered[id := next.value]);
      } else {
        CancelTwice(Tracking(), {}, id);
      }
      state := state.(sessions := state.sessions[id := list], activeWorkspace := Some(id), activeSession := next);
    }

    /** The commit of `deleteSession`. */
    method DeleteSession(id: Id)
      modifies this
      ensures View() == Next(old(View()), Set(SessionDeleted(id)))
    {
      CancelIdleTracking(id);
      if state.activeWorkspace.None? {
        return;
      }
      var wid := state.activeWorkspace.value;
      var list := if wid in state.sessions then state.sessions[wid] else [];
      list := Filter(list, OtherSessions(id));
      var next := state.activeSession;
      if next == Some(id) {
        next := if list == [] then None else Some(list[0].id);
      }
      if wid in state.remembered && state.remembered[wid] == id {
        if next.Some? {
          state := state.(remembered := state.remembered[wid := next.value]);
        } else {
          state := state.(remembered := state.remembered - {wid});
        }
      }
      state := state.(sessions := state.sessions[wid := list], activeSession := next,
                      activity := state.activity - {id}, toasts := Filter(state.toasts, NotOf({id})));
    }

    /** The loop of `deleteWorkspace` that forgets each removed session. */
    method ForgetSessions(list: seq<Session>) returns (removed: set<Id>)
      modifies this
      ensures removed == Ids(list)
      ensures Tracking() == Cancel(old(Tracking()), removed) && clock == old(clock)
      ensures state == old(state).(activity := old(state).activity - removed)
    {
      removed := {};
      CancelTwice(Tracking(), {}, "");
      for i := 0 to |list|
        invariant removed == Ids(list[..i])
        invariant Tracking() == Cancel(old(Tracking()), removed) && clock == old(clock)
        invariant state == old(state).(activity := old(state).activity - removed)
      {
        var id := list[i].id;
        CancelTwice(old(Tracking()), removed, id);
        assert list[..i + 1] == list[..i] + [list[i]];
        assert state.activity - {id} == old(state).activity - (removed + {id});
        state := state.(activity := state.activity - {id});
        CancelIdleTracking(id);
        removed := removed + {id};
      }
      assert list[..|list|] == list;
    }

    /** The commit of `deleteWorkspace`. */
    method DeleteWorkspace(id: Id)
      modifies this
      ensures View() == Next(old(View()), Set(WorkspaceDeleted(id)))
    {
      var workspaces := Filter(state.workspaces, OtherWorkspaces(id));
      var removed := ForgetSessions(if id in state.sessions then state.sessions[id] else []);
      var sessions: map<Id, seq<Session>> := state.sessions - {id};
      var remembered: map<Id, Id> := state.remembered - {id};
      var nextWid: Option<Id>, nextActive: Option<Id> := None, None;
      if |workspaces| > 0 {
        var wid := workspaces[0].id;
        nextWid := Some(wid);
        if wid in remembered {
          nextActive := Some(remembered[wid]);
        } else if wid in sessions && sessions[wid] != [] {
          nextActive := Some(sessions[wid][0].id);
        }
      }
      state := state.(workspaces := workspaces, sessions := sessions, remembered := remembered,
                      activeWorkspace := nextWid, activeSession := nextActive,
                      toasts := Filter(state.toasts, NotOf(removed)));
    }

    method SessionsAreEqual(a: seq<Session>, b: seq<Session>) returns (same: bool)
      ensures same <==> SessionsEqual(a, b)
    {
      if |a| != |b| {
        return false;
      }
      for i := 0 to |a|
        invariant forall j | 0 <= j < i :: SameShown(a[j], b[j])
      {
        if a[i].id != b[i].id || a[i].title != b[i].title || a[i].cwd != b[i].cwd || a[i].updatedAt != b[i].updatedAt {
          return false;
        }
      }
      return true;
    }

    /** The commit of `pollActive`: nothing is set when nothing that is shown has changed. */
    method PollActive(wid: Id, list: seq<Session>)
      modifies this`state
      ensures View() == Next(old(View()), Set(Polled(wid, list)))
    {
      var same := SessionsAreEqual(if wid in state.sessions then state.sessions[wid] else [], list);
      CancelTwice(Tracking(), {}, wid);
      if !same {
        state := state.(sessions := state.sessions[wid := list]);
      }
    }

    /** The badge of a workspace: some session of its loaded list is unread. */
    method WorkspaceUnread(wid: Id) returns (unread: bool)
      ensures unread <==> exists x :: x in ListOf(state, wid) && Unread(state, x.id)
    {
      if wid !in state.sessions {
        return false;
      }
      var list := state.sessions[wid];
      for i := 0 to |list|
        invariant forall j | 0 <= j < i :: !Unread(state, list[j].id)
      {
        if list[i].id in state.activity && state.activity[list[i].id].unread {
          assert list[i] in ListOf(state, wid);
          return true;
        }
      }
      return false;
    }
  }
}
