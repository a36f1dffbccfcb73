/** What holds of the output tracker and of the toast stack in every reachable state, whatever the interleaving. */
module Tracking {
  import opened Prelude
  import opened Model
  import opened ClientState
  import Text

  // ---------- timer bookkeeping ----------

  /**
  The two maps have the same keys, and each key has exactly one pending timeout, due
  when its silence is long enough.
   */
  ghost predicate TrackerOk(t: Tracker, clock: nat) {
    && t.tracks.Keys == t.timers.Keys
    && (forall sid <- t.timers ::
          && t.timers[sid] in t.queue
          && t.queue[t.timers[sid]] == Timer(sid, t.tracks[sid].lastByteAt + IDLE_MS)
          && t.tracks[sid].startedAt <= t.tracks[sid].lastByteAt <= clock)
    && (forall k <- t.queue :: k < t.nextTimer && t.queue[k].sid in t.timers && t.timers[t.queue[k].sid] == k)
  }

  lemma CancelOk(t: Tracker, clock: nat, ids: set<Id>)
    requires TrackerOk(t, clock)
    ensures TrackerOk(Cancel(t, ids), clock)
  {
    var u := Cancel(t, ids);
    forall sid | sid in u.timers
      ensures u.timers[sid] in u.queue
    {
      forall id | id in ids && id in t.timers
        ensures t.timers[id] != t.timers[sid]
      {
        assert t.queue[t.timers[id]].sid == id;
      }
    }
  }

  lemma MarkOk(t: Tracker, clock: nat, sid: Id, now: nat)
    requires TrackerOk(t, clock) && clock <= now
    ensures TrackerOk(Mark(t, sid, now), now)
  {
    var u := Mark(t, sid, now);
    forall other | other in u.timers
      ensures u.timers[other] in u.queue
              && u.queue[u.timers[other]] == Timer(other, u.tracks[other].lastByteAt + IDLE_MS)
    {
      if other != sid {
        assert t.queue[t.timers[other]].sid == other;
      }
    }
  }

  lemma ExpireOk(t: Tracker, clock: nat, k: nat)
    requires TrackerOk(t, clock) && k in t.queue
    ensures TrackerOk(Expire(t, k), clock)
    ensures t.queue[k].sid in t.tracks && t.queue[k].due == t.tracks[t.queue[k].sid].lastByteAt + IDLE_MS
  {
    var u := Expire(t, k);
    forall other | other in u.timers
      ensures u.timers[other] in u.queue
    {
      assert t.queue[t.timers[other]].sid == other;
    }
  }

  // ---------- the toast stack ----------

  /** An earlier toast is of another session and not younger. */
  predicate Before(a: Toast, b: Toast) {
    a.sessionId != b.sessionId && a.createdAt <= b.createdAt
  }

  /** Every toast is of an unread session, named after its session and time, and older than what is still pending. */
  ghost predicate ToastOk(c: Client, t: Toast) {
    && t.id == ToastId(t.sessionId, t.createdAt)
    && Unread(c.app, t.sessionId)
    && t.createdAt <= c.clock
    && forall k <- c.tracker.queue :: t.createdAt + IDLE_MS <= c.tracker.queue[k].due
  }

  ghost predicate ToastsOk(c: Client) {
    && |c.app.toasts| <= MAX_TOASTS
    && Pairwise(c.app.toasts, Before)
    && forall t <- c.app.toasts :: ToastOk(c, t)
  }

  ghost predicate Inv(c: Client) {
    TrackerOk(c.tracker, c.clock) && ToastsOk(c)
  }

  lemma ToastsFiltered(c: Client, d: Client, keep: Toast -> bool)
    requires ToastsOk(c) && d.app.toasts == Filter(c.app.toasts, keep)
    requires forall t <- c.app.toasts :: keep(t) ==> ToastOk(d, t)
    ensures ToastsOk(d)
  {
    FilterMembers(c.app.toasts, keep);
    FilterPairwise(c.app.toasts, keep, Before);
  }

  /** The toasts that stay when a commit is applied. */
  predicate Keeps(s: AppState, commit: Commit, t: Toast) {
    match commit
    case ToastDismissed(id) => t.id != id
    case SessionDeleted(id) => s.activeWorkspace.None? || t.sessionId != id
    case _ => t.sessionId !in Cancels(s, commit)
  }

  lemma KeptIsUnread(s: AppState, commit: Commit, t: Toast)
    requires Keeps(s, commit, t) && Unread(s, t.sessionId)
    ensures Unread(Apply(s, commit), t.sessionId)
  {
  }

  lemma ApplyToasts(s: AppState, commit: Commit)
    ensures Apply(s, commit).toasts == Filter(s.toasts, t => Keeps(s, commit, t))
    ensures forall t: Toast | Keeps(s, commit, t) && Unread(s, t.sessionId) :: Unread(Apply(s, commit), t.sessionId)
  {
    forall t: Toast | Keeps(s, commit, t) && Unread(s, t.sessionId)
      ensures Unread(Apply(s, commit), t.sessionId)
    {
      KeptIsUnread(s, commit, t);
    }
    var keep := t => Keeps(s, commit, t);
    match commit
    case ToastDismissed(id) => FilterSame(s.toasts, keep, (t: Toast) => t.id != id);
    case WorkspaceDeleted(id) =>
      FilterSame(s.toasts, keep, NotOf(Ids(ListOf(s, id))));
    case WorkspaceActivated(id, list) =>
      var active := NextActive(s, id, list);
      if active.Some? {
        FilterSame(s.toasts, keep, NotOf({active.value}));
      } else {
        FilterAll(s.toasts, keep);
      }
    case SessionDeleted(id) =>
      if s.activeWorkspace.Some? {
        FilterSame(s.toasts, keep, NotOf({id}));
      } else {
        FilterAll(s.toasts, keep);
      }
    case SessionActivated(id) => FilterSame(s.toasts, keep, NotOf({id}));
    case UnreadCleared(id) => FilterSame(s.toasts, keep, NotOf({id}));
    case _ => FilterAll(s.toasts, keep);
  }

  lemma SetOk(c: Client, commit: Commit)
    requires Inv(c)
    ensures Inv(Next(c, Set(commit)))
  {
    var d := Next(c, Set(commit));
    CancelOk(c.tracker, c.clock, Cancels(c.app, commit));
    ApplyToasts(c.app, commit);
    ToastsFiltered(c, d, t => Keeps(c.app, commit, t));
  }

  lemma OutputOk(c: Client, sid: Id, visible: bool, now: nat)
    requires Inv(c) && c.clock <= now
    ensures Inv(Next(c, Output(sid, visible, now)))
  {
    if Foreground(c.app, sid, visible) {
      CancelOk(c.tracker, now, {sid});
    } else {
      MarkOk(c.tracker, c.clock, sid, now);
    }
  }

  /** A session that is not unread has no toast, so there is nothing to replace. */
  lemma NothingToCoalesce(c: Client, sid: Id)
    requires ToastsOk(c) && !Unread(c.app, sid)
    ensures WithoutToastsOf(c.app.toasts, {sid}) == c.app.toasts
  {
    FilterAll(c.app.toasts, NotOf({sid}));
  }

  /** A toast that is younger than the others, and of another session, goes on top. */
  lemma PushOk(c: Client, d: Client, toast: Toast)
    requires ToastsOk(c) && ToastOk(d, toast) && d.app.toasts == Capped(c.app.toasts + [toast])
    requires forall t <- c.app.toasts :: ToastOk(d, t) && Before(t, toast)
    ensures ToastsOk(d)
  {
    var stack := c.app.toasts + [toast];
    assert Pairwise(stack, Before);
  }

  lemma OldToastsOk(c: Client, step: Step)
    requires Inv(c) && step.Fire? && Enabled(c, step)
    ensures forall t <- c.app.toasts :: ToastOk(Next(c, step), t)
  {
    var d := Next(c, step);
    assert forall x :: Unread(c.app, x) ==> Unread(d.app, x);
    assert forall k <- d.tracker.queue :: k in c.tracker.queue && d.tracker.queue[k] == c.tracker.queue[k];
  }

  lemma TrackerAfterFire(c: Client, step: Step)
    requires Inv(c) && step.Fire? && Enabled(c, step)
    ensures TrackerOk(Next(c, step).tracker, step.now)
  {
    ExpireOk(c.tracker, step.now, step.k);
  }

  /** The timeouts that are left were set later than the one that fires, and the toasts there are earlier. */
  lemma ToastOnTop(c: Client, step: Step, toast: Toast)
    requires Inv(c) && step.Fire? && Enabled(c, step)
    requires var sid := c.tracker.queue[step.k].sid;
             && sid in c.tracker.tracks && toast.sessionId == sid && !Unread(c.app, sid)
             && toast.createdAt == c.tracker.tracks[sid].lastByteAt && toast.id == ToastId(sid, toast.createdAt)
             && Unread(Next(c, step).app, sid)
    ensures ToastOk(Next(c, step), toast)
    ensures forall t <- c.app.toasts :: Before(t, toast)
  {
    ExpireOk(c.tracker, step.now, step.k);
    assert forall t <- c.app.toasts :: ToastOk(c, t);
  }

  lemma FireOk(c: Client, step: Step)
    requires Inv(c) && step.Fire? && Enabled(c, step)
    ensures Inv(Next(c, step))
  {
    var d, sid := Next(c, step), c.tracker.queue[step.k].sid;
    TrackerAfterFire(c, step);
    OldToastsOk(c, step);
    if d.app.toasts != c.app.toasts {
      NothingToCoalesce(c, sid);
      var at := c.tracker.tracks[sid].lastByteAt;
      var toast := Toast(ToastId(sid, at), sid, step.wid, step.found.value.title, at);
      ToastOnTop(c, step, toast);
      PushOk(c, d, toast);
    }
  }

  lemma InvStep(c: Client, step: Step)
    requires Inv(c) && Enabled(c, step)
    ensures Inv(Next(c, step))
  {
    match step
    case Output(sid, visible, now) => OutputOk(c, sid, visible, now);
    case Fire(_, _, _, _, _) => FireOk(c, step);
    case Set(commit) => SetOk(c, commit);
  }

  lemma {:induction false} InvAlways(r: Run, n: nat)
    requires r.Valid() && r.states[0] == START && n <= |r.steps|
    ensures Inv(r.states[n])
  {
    if n > 0 {
      InvAlways(r, n - 1);
      InvStep(r.states[n - 1], r.steps[n - 1]);
    }
  }

  // ---------- what the invariant says ----------

  /**
  In every reachable state the two maps have the same keys, every tracked session
  has its pending timeout, no session has two, each is due after its silence, and
  its track is there when it fires.
   */
  lemma TimerBookkeeping(r: Run, n: nat)
    requires r.Valid() && r.states[0] == START && n <= |r.steps|
    ensures var t := r.states[n].tracker;
            && t.tracks.Keys == t.timers.Keys
            && (forall sid <- t.tracks :: t.tracks[sid].startedAt <= t.tracks[sid].lastByteAt <= r.states[n].clock)
            && (forall sid <- t.tracks :: t.timers[sid] in t.queue && t.queue[t.timers[sid]].sid == sid)
            && (forall k <- t.queue :: t.queue[k].sid in t.tracks)
            && (forall k <- t.queue :: t.queue[k].due == t.tracks[t.queue[k].sid].lastByteAt + 1500)
            && (forall j, k | j in t.queue && k in t.queue && t.queue[j].sid == t.queue[k].sid :: j == k)
  {
    InvAlways(r, n);
  }

  lemma DistinctIds(c: Client, i: nat, j: nat)
    requires ToastsOk(c) && i < j < |c.app.toasts|
    ensures c.app.toasts[i].id != c.app.toasts[j].id
  {
    var a, b := c.app.toasts[i], c.app.toasts[j];
    assert Before(a, b) && ToastOk(c, a) && ToastOk(c, b);
    if a.id == b.id {
      Text.SuffixInjective(a.sessionId, b.sessionId, '-', a.createdAt, b.createdAt);
    }
  }

  /**
  In every reachable state: at most five toasts, each of an unread
  session, in order of time, no two of one session and no two with one id.
   */
  lemma ToastStack(r: Run, n: nat)
    requires r.Valid() && r.states[0] == START && n <= |r.steps|
    ensures var s := r.states[n].app; var toasts := s.toasts;
            && |toasts| <= 5
            && (forall i | 0 <= i < |toasts| :: Unread(s, toasts[i].sessionId))
            && (forall i, j | 0 <= i < j < |toasts| :: toasts[i].createdAt <= toasts[j].createdAt)
            && (forall i, j | 0 <= i < j < |toasts| :: toasts[i].sessionId != toasts[j].sessionId)
            && (forall i, j | 0 <= i < j < |toasts| :: toasts[i].id != toasts[j].id)
  {
    InvAlways(r, n);
    var c := r.states[n];
    assert forall i | 0 <= i < |c.app.toasts| :: ToastOk(c, c.app.toasts[i]);
    assert forall i, j | 0 <= i < j < |c.app.toasts| :: Before(c.app.toasts[i], c.app.toasts[j]);
    forall i, j | 0 <= i < j < |c.app.toasts|
      ensures c.app.toasts[i].id != c.app.toasts[j].id
    {
      DistinctIds(c, i, j);
    }
  }

  /** The coalescing filter never removes anything: a session about to get a toast has none. */
  lemma CoalescingRemovesNothing(r: Run, n: nat)
    requires r.Valid() && r.states[0] == START && n < |r.steps| && r.steps[n].Fire?
    ensures var c := r.states[n]; var sid := c.tracker.queue[r.steps[n].k].sid;
            !Unread(c.app, sid) ==> WithoutToastsOf(c.app.toasts, {sid}) == c.app.toasts
  {
    InvAlways(r, n);
    var c := r.states[n];
    var sid := c.tracker.queue[r.steps[n].k].sid;
    if !Unread(c.app, sid) {
      NothingToCoalesce(c, sid);
    }
  }

  // ---------- viewing a session ----------

  lemma ViewingClears(c: Client, commit: Commit, id: Id)
    requires commit == SessionActivated(id) || commit == UnreadCleared(id)
             || (commit.WorkspaceActivated? && NextActive(c.app, commit.id, commit.list) == Some(id))
    ensures !Unread(Apply(c.app, commit), id) && Cancels(c.app, commit) == {id}
    ensures commit.UnreadCleared? || Apply(c.app, commit).activeSession == Some(id)
    ensures ReadUpTo(c.app.activity, Apply(c.app, commit).activity, id)
  {
  }

  /** The records are those of `before`, but that of `id` is read now. */
  ghost predicate ReadUpTo(before: map<Id, Activity>, after: map<Id, Activity>, id: Id) {
    && after.Keys == before.Keys
    && forall x <- before :: after[x] == before[x].(unread := before[x].unread && x != id)
  }

  /**
  Viewing a session, directly or by switching to its workspace, clears its badge,
  its toasts and its pending timeout. The times in its record stay, and so does
  every other record.
   */
  lemma ViewedIsRead(c: Client, commit: Commit, id: Id)
    requires Inv(c)
    requires commit == SessionActivated(id) || commit == UnreadCleared(id)
             || (commit.WorkspaceActivated? && NextActive(c.app, commit.id, commit.list) == Some(id))
    ensures var d := Next(c, Set(commit));
            && !Unread(d.app, id)
            && (forall i | 0 <= i < |d.app.toasts| :: d.app.toasts[i].sessionId != id)
            && (forall k <- d.tracker.queue :: d.tracker.queue[k].sid != id)
            && (commit.UnreadCleared? || d.app.activeSession == Some(id))
            && ReadUpTo(c.app.activity, d.app.activity, id)
  {
    SetOk(c, commit);
    ViewingClears(c, commit, id);
    ApplyToasts(c.app, commit);
    FilterMembers(c.app.toasts, t => Keeps(c.app, commit, t));
  }

  /** A new toast goes on top, names a session of a loaded list, and pushes out only what is over the cap. */
  lemma NewToast(c: Client, step: Step)
    requires Inv(c) && step.Fire? && Enabled(c, step) && Next(c, step).app.toasts != c.app.toasts
    ensures var toasts, sid := Next(c, step).app.toasts, c.tracker.queue[step.k].sid;
            && toasts != []
            && var t := Last(toasts);
               && t.sessionId == sid && t.createdAt == c.tracker.tracks[sid].lastByteAt
               && t.id == sid + "-" + Text.Decimal(t.createdAt)
               && (exists x <- ListOf(c.app, t.workspaceId) :: x.id == sid && x.title == t.title)
               && (|c.app.toasts| < 5 ==> toasts == c.app.toasts + [t])
               && (|c.app.toasts| == 5 ==> toasts == c.app.toasts[1..] + [t])
  {
    var sid := c.tracker.queue[step.k].sid;
    ExpireOk(c.tracker, c.clock, step.k);
    NothingToCoalesce(c, sid);
    assert step.found.value in ListOf(c.app, step.wid);
  }
}
