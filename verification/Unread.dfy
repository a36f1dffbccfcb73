/** What a deletion leaves behind, and when the session that is shown can be unread. */
module Unread {
  import opened Prelude
  import opened Model
  import opened ClientState
  import Tracking

  // ---------- what a deletion leaves ----------

  /** No badge, toast, track or pending timeout of the session. */
  ghost predicate Traceless(c: Client, id: Id) {
    && id !in c.app.activity && id !in c.tracker.tracks
    && (forall t <- c.app.toasts :: t.sessionId != id)
    && (forall k <- c.tracker.queue :: c.tracker.queue[k].sid != id)
  }

  /** With a record and a track gone the invariant leaves nothing else. */
  lemma TracelessMeans(c: Client, id: Id)
    requires Tracking.Inv(c)
    ensures Traceless(c, id) <==> id !in c.app.activity && id !in c.tracker.tracks
  {
    assert forall t <- c.app.toasts :: Tracking.ToastOk(c, t);
  }

  /** `deleteSession` looks for the session in the active workspace, `deleteWorkspace` in the list it has loaded. */
  predicate Reaches(s: AppState, commit: Commit, id: Id) {
    match commit
    case SessionDeleted(x) => x == id && s.activeWorkspace.Some?
    case WorkspaceDeleted(wid) => id in Ids(ListOf(s, wid))
    case _ => false
  }

  /**
  A deleted session leaves no trace if and only if there is an active workspace
  or it had no badge: without one, its timeout is cancelled and the rest stays.
   */
  lemma DeletedSessionIsForgotten(c: Client, id: Id)
    requires Tracking.Inv(c)
    ensures Traceless(Next(c, Set(SessionDeleted(id))), id)
            <==> Reaches(c.app, SessionDeleted(id), id) || id !in c.app.activity
  {
    var d := Next(c, Set(SessionDeleted(id)));
    Tracking.SetOk(c, SessionDeleted(id));
    TracelessMeans(d, id);
  }

  /**
  A session leaves no trace of itself when a workspace is deleted if and only if
  the list loaded for that workspace has it, or there was no trace of it before.
   */
  lemma DeletedWorkspaceIsForgotten(c: Client, wid: Id, id: Id)
    requires Tracking.Inv(c)
    ensures Traceless(Next(c, Set(WorkspaceDeleted(wid))), id)
            <==> Reaches(c.app, WorkspaceDeleted(wid), id)
                 || (id !in c.app.activity && id !in c.tracker.tracks)
  {
    var d := Next(c, Set(WorkspaceDeleted(wid)));
    Tracking.SetOk(c, WorkspaceDeleted(wid));
    TracelessMeans(d, id);
  }

  /** A deletion leaves the badges, toasts and timeouts of all other sessions. */
  lemma DeletionSparesOthers(c: Client, commit: Commit, id: Id)
    requires (commit.SessionDeleted? && commit.id != id) || (commit.WorkspaceDeleted? && !Reaches(c.app, commit, id))
    ensures var d := Next(c, Set(commit));
            && (id in d.app.activity <==> id in c.app.activity)
            && (id in c.app.activity ==> d.app.activity[id] == c.app.activity[id])
            && (forall t <- c.app.toasts :: t.sessionId == id ==> t in d.app.toasts)
  {
    FilterMembers(c.app.toasts, NotOf(Cancels(c.app, commit)));
  }

  lemma DeletionSparesTimers(c: Client, commit: Commit, id: Id)
    requires Tracking.Inv(c) && id !in Cancels(c.app, commit)
    ensures var d := Next(c, Set(commit));
            && (id in d.tracker.tracks <==> id in c.tracker.tracks)
            && (id in c.tracker.tracks ==> d.tracker.tracks[id] == c.tracker.tracks[id])
            && (forall k <- c.tracker.queue :: c.tracker.queue[k].sid == id ==> k in d.tracker.queue)
  {
  }

  // ---------- the session that is shown ----------

  predicate ActiveRead(s: AppState) {
    s.activeSession.Some? ==> !Unread(s, s.activeSession.value)
  }

  predicate Selects(s: AppState, id: Option<Id>) {
    id.Some? && Unread(s, id.value)
  }

  /**
  The branches that show an unread session without viewing it: a burst of the
  active session ends while the page is hidden; a deletion promotes an unread
  session; a load or a creation selects an id that is unread already.
   */
  predicate Exposes(c: Client, step: Step) {
    match step
    case Output(_, _, _) => false
    case Fire(k, visible, _, _, _) =>
      && !visible && k in c.tracker.queue && c.app.activeSession == Some(c.tracker.queue[k].sid)
      && c.tracker.queue[k].sid in c.tracker.tracks && Qualifies(c.tracker.tracks[c.tracker.queue[k].sid])
    case Set(Loaded(_, _, _, first, _)) => Selects(c.app, first)
    case Set(WorkspaceCreated(_, sess)) => Unread(c.app, sess.id)
    case Set(SessionCreated(_, sess)) => Unread(c.app, sess.id)
    case Set(SessionDeleted(id)) =>
      && c.app.activeWorkspace.Some? && c.app.activeSession == Some(id)
      && Selects(c.app, ShownAfterSession(c.app, c.app.activeWorkspace.value, id))
    case Set(WorkspaceDeleted(id)) =>
      var shown := ShownAfterWorkspace(c.app, id);
      Selects(c.app, shown) && shown.value !in Ids(ListOf(c.app, id))
    case Set(_) => false
  }

  lemma ActiveReadFire(c: Client, step: Step)
    requires Enabled(c, step) && ActiveRead(c.app) && step.Fire?
    ensures ActiveRead(Next(c, step).app) <==> !Exposes(c, step)
  {
  }

  lemma ActiveReadDelete(c: Client, id: Id)
    requires ActiveRead(c.app)
    ensures ActiveRead(DeleteSessionNext(c.app, id)) <==> !Exposes(c, Set(SessionDeleted(id)))
  {
    if c.app.activeWorkspace.Some? {
      FilterMembers(ListOf(c.app, c.app.activeWorkspace.value), OtherSessions(id));
    }
  }

  /** A step leaves the session that is shown read, if it was, exactly if it is none of these. */
  lemma ActiveReadStep(c: Client, step: Step)
    requires Enabled(c, step) && ActiveRead(c.app)
    ensures ActiveRead(Next(c, step).app) <==> !Exposes(c, step)
  {
    match step
    case Fire(_, _, _, _, _) => ActiveReadFire(c, step);
    case Set(SessionDeleted(id)) => ActiveReadDelete(c, id);
    case Output(_, _, _) =>
    case Set(_) =>
  }

  predicate ReadAt(r: Run, k: nat)
    requires k < |r.states|
  {
    ActiveRead(r.states[k].app)
  }

  predicate ExposesAt(r: Run, k: nat)
    requires k < |r.steps| && k < |r.states|
  {
    Exposes(r.states[k], r.steps[k])
  }

  lemma ReadAtStep(r: Run, m: nat)
    requires r.Valid() && m < |r.steps| && ReadAt(r, m)
    ensures ReadAt(r, m + 1) <==> !ExposesAt(r, m)
  {
    ActiveReadStep(r.states[m], r.steps[m]);
  }

  /** The session that is shown is never unread in exactly the runs without such a step. */
  lemma ActiveReadRuns(r: Run, n: nat)
    requires r.Valid() && n <= |r.steps| && ReadAt(r, 0)
    ensures (forall k: nat | k <= n :: ReadAt(r, k)) <==> (forall k: nat | k < n :: !ExposesAt(r, k))
  {
    var good := (k: nat) => k <= n && ReadAt(r, k);
    var bad := (k: nat) => k < n && ExposesAt(r, k);
    forall m: nat {:trigger bad(m)} | m < n && good(m)
      ensures good(m + 1) <==> !bad(m)
    {
      ReadAtStep(r, m);
    }
    AlwaysIffNever(good, bad, n);
    assert forall k: nat | k <= n :: good(k) <==> ReadAt(r, k);
    assert forall k: nat | k < n :: bad(k) <==> ExposesAt(r, k);
  }

  // ---------- runs in which it is ----------

  /** Half a second of output in the background, then silence. */
  lemma Burst(r: Run, sid: Id, visible: bool, found: Option<Session>, wid: Id) returns (s: Run)
    requires r.Valid() && Last(r.states).tracker == START.tracker && Last(r.states).clock == 0
    requires !Foreground(Last(r.states).app, sid, visible) && !Unread(Last(r.states).app, sid)
    requires FoundIn(Last(r.states).app, sid, found, wid)
    ensures s.Valid() && s.states[0] == r.states[0]
    ensures Last(s.states).app == Notify(Last(r.states).app, sid, Track(0, 500), found, wid)
  {
    s := Continue(r, Output(sid, visible, 0));
    assert Last(s.states).tracker == Tracker(map[sid := Track(0, 0)], map[sid := 0], map[0 := Timer(sid, IDLE_MS)], 1);
    s := Continue(s, Output(sid, visible, 500));
    assert Last(s.states).tracker == Tracker(map[sid := Track(0, 500)], map[sid := 1], map[1 := Timer(sid, 2000)], 2);
    s := Continue(s, Fire(1, visible, 2000, found, wid));
  }

  /** The page is hidden while the session that it shows finishes a burst. */
  lemma HiddenPageExposes(id: Id) returns (r: Run)
    ensures r.Valid() && r.states[0] == START
    ensures Last(r.states).app.activeSession == Some(id) && Unread(Last(r.states).app, id)
  {
    r := Continue(Run([START], []), Set(SessionActivated(id)));
    r := Burst(r, id, false, None, "");
  }

  lemma SecondIsLeft(a: Session, b: Session)
    requires a.id != b.id
    ensures Filter([a, b], OtherSessions(a.id)) == [b]
  {
    var both, one := [a, b], [b];
    assert both[1..] == one && one[1..] == [] && Filter(one, OtherSessions(a.id)) == one + [];
    assert Filter(both, OtherSessions(a.id)) == [] + one;
  }

  /** The session shown is deleted and the next one has finished a burst in the background. */
  lemma DeletionExposes(w: Workspace, a: Session, b: Session) returns (r: Run)
    requires a.id != b.id
    ensures r.Valid() && r.states[0] == START
    ensures Last(r.states).app.activeSession == Some(b.id) && Unread(Last(r.states).app, b.id)
  {
    var both := [a, b];
    r := Continue(Run([START], []), Set(Loaded([w], map[w.id := both], w.id, Some(a.id), map[w.id := a.id])));
    assert both[1] == b && both[..1] == [a];
    r := Burst(r, b.id, true, Some(b), w.id);
    SecondIsLeft(a, b);
    assert ListOf(Last(r.states).app, w.id) == both;
    r := Continue(r, Set(SessionDeleted(a.id)));
  }

  /** With no active workspace the badge of a deleted session stays. */
  lemma DeletionLeavesBadge(id: Id) returns (r: Run)
    ensures r.Valid() && r.states[0] == START && r.steps != [] && Last(r.steps) == Set(SessionDeleted(id))
    ensures Unread(Last(r.states).app, id)
  {
    r := Burst(Run([START], []), id, false, None, "");
    r := Continue(r, Set(SessionDeleted(id)));
  }

  /** So does the badge of a session whose workspace is deleted before its list was loaded. */
  lemma WorkspaceDeletionLeavesBadge(id: Id, wid: Id) returns (r: Run)
    ensures r.Valid() && r.states[0] == START && r.steps != [] && Last(r.steps) == Set(WorkspaceDeleted(wid))
    ensures Unread(Last(r.states).app, id)
  {
    r := Burst(Run([START], []), id, false, None, "");
    r := Continue(r, Set(WorkspaceDeleted(wid)));
  }
}
