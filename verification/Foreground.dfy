/**
Which output is tracked: what is shown while it arrives is not, and what is
tracked is the background output since the session was last seen.
 */
module Foreground {
  import opened Prelude
  import opened Model
  import opened ClientState
  import Tracking

  /** Output of this session, while it is the one shown on a visible page. */
  predicate Seen(s: AppState, step: Step, sid: Id) {
    step.Output? && step.sid == sid && s.activeSession == Some(sid) && step.visible
  }

  predicate Unseen(s: AppState, step: Step, sid: Id) {
    step.Output? && step.sid == sid && !(s.activeSession == Some(sid) && step.visible)
  }

  /** The page is told to show the session, to mark it read, or to delete it alone or with its loaded workspace. */
  predicate Attends(s: AppState, commit: Commit, sid: Id) {
    match commit
    case SessionActivated(id) => id == sid
    case UnreadCleared(id) => id == sid
    case SessionDeleted(id) => id == sid
    case WorkspaceDeleted(wid) => wid in s.sessions && exists x <- s.sessions[wid] :: x.id == sid
    case WorkspaceActivated(_, _) => Apply(s, commit).activeSession == Some(sid)
    case _ => false
  }

  /** The step ends what is tracked of the session: it is seen, attended to, or its timeout runs. */
  predicate Forgets(c: Client, step: Step, sid: Id) {
    match step
    case Output(_, _, _) => Seen(c.app, step, sid)
    case Fire(k, _, _, _, _) => k in c.tracker.queue && c.tracker.queue[k].sid == sid
    case Set(commit) => Attends(c.app, commit, sid)
  }

  /** Output that is seen leaves nothing pending of its session, and the other sessions as they were. */
  lemma SeenIsNotTracked(c: Client, step: Step, sid: Id)
    requires Tracking.Inv(c) && Enabled(c, step) && Seen(c.app, step, sid)
    ensures var d := Next(c, step);
            && d.app == c.app
            && sid !in d.tracker.tracks && sid !in d.tracker.timers && (forall k <- d.tracker.queue :: d.tracker.queue[k].sid != sid)
            && (forall x | x != sid ::
                  && (x in d.tracker.tracks <==> x in c.tracker.tracks) && (x in d.tracker.timers <==> x in c.tracker.timers)
                  && (x in c.tracker.tracks ==> d.tracker.tracks[x] == c.tracker.tracks[x])
                  && (x in c.tracker.timers ==> d.tracker.timers[x] == c.tracker.timers[x]))
            && (forall k <- c.tracker.queue :: c.tracker.queue[k].sid != sid ==>
                  k in d.tracker.queue && d.tracker.queue[k] == c.tracker.queue[k])
  {
    Tracking.OutputOk(c, sid, step.visible, step.now);
  }

  lemma AttendsIsCancels(s: AppState, commit: Commit, sid: Id)
    ensures Attends(s, commit, sid) <==> sid in Cancels(s, commit)
  {
  }

  /** What a step does to the track of a session. */
  lemma TrackStep(c: Client, step: Step, sid: Id)
    requires Tracking.Inv(c) && Enabled(c, step)
    ensures var d := Next(c, step);
            && (sid in d.tracker.tracks <==> Unseen(c.app, step, sid) || (sid in c.tracker.tracks && !Forgets(c, step, sid)))
            && (sid in d.tracker.tracks ==>
                  d.tracker.tracks[sid] ==
                  if !Unseen(c.app, step, sid) then c.tracker.tracks[sid]
                  else if sid in c.tracker.tracks then Track(c.tracker.tracks[sid].startedAt, step.now)
                  else Track(step.now, step.now))
  {
    match step
    case Output(_, _, _) =>
    case Fire(k, _, _, _, _) => Tracking.ExpireOk(c.tracker, c.clock, k);
    case Set(commit) => AttendsIsCancels(c.app, commit, sid);
  }

  predicate UnseenAt(r: Run, k: nat, sid: Id)
    requires k < |r.steps| && k < |r.states|
  {
    Unseen(r.states[k].app, r.steps[k], sid)
  }

  predicate ForgetsAt(r: Run, k: nat, sid: Id)
    requires k < |r.steps| && k < |r.states|
  {
    Forgets(r.states[k], r.steps[k], sid)
  }

  /** Unseen output at step `k`, and nothing since that ends what is tracked. */
  ghost predicate UnseenSince(r: Run, n: nat, k: nat, sid: Id)
    requires n <= |r.steps| && n <= |r.states|
  {
    k < n && UnseenAt(r, k, sid) && forall j: nat | k < j < n :: !ForgetsAt(r, j, sid)
  }

  ghost predicate IsUnseenSince(r: Run, n: nat, sid: Id)
    requires n <= |r.steps| && n <= |r.states|
  {
    exists k: nat :: UnseenSince(r, n, k, sid)
  }

  lemma UnseenSinceStep(r: Run, m: nat, n: nat, sid: Id)
    requires n == m + 1 && n <= |r.steps| && n <= |r.states|
    ensures IsUnseenSince(r, n, sid) <==> UnseenAt(r, m, sid) || (IsUnseenSince(r, m, sid) && !ForgetsAt(r, m, sid))
  {
    if UnseenAt(r, m, sid) {
      assert UnseenSince(r, n, m, sid);
    }
    if k: nat :| UnseenSince(r, n, k, sid) && k < m {
      assert UnseenSince(r, m, k, sid);
    }
    if k: nat :| UnseenSince(r, m, k, sid) && !ForgetsAt(r, m, sid) {
      assert UnseenSince(r, n, k, sid);
    }
  }

  lemma TrackLater(r: Run, m: nat, n: nat, sid: Id)
    requires r.Valid() && r.states[0] == START && n == m + 1 && n <= |r.steps|
    ensures sid in r.states[n].tracker.tracks
            <==> UnseenAt(r, m, sid) || (sid in r.states[m].tracker.tracks && !ForgetsAt(r, m, sid))
    ensures sid in r.states[n].tracker.tracks ==>
              r.states[n].tracker.tracks[sid] ==
              if !UnseenAt(r, m, sid) then r.states[m].tracker.tracks[sid]
              else if sid in r.states[m].tracker.tracks then Track(r.states[m].tracker.tracks[sid].startedAt, r.steps[m].now)
              else Track(r.steps[m].now, r.steps[m].now)
  {
    Tracking.InvAlways(r, m);
    TrackStep(r.states[m], r.steps[m], sid);
  }

  /**
  In every reachable state a session is tracked if and only if it had output that
  was not seen since it was last seen, attended to, or its timeout ran.
   */
  lemma {:induction false} TrackedIsUnseen(r: Run, n: nat, sid: Id)
    requires r.Valid() && r.states[0] == START && n <= |r.steps|
    ensures sid in r.states[n].tracker.tracks <==> IsUnseenSince(r, n, sid)
  {
    if n == 0 {
      assert !IsUnseenSince(r, 0, sid);
    } else {
      TrackedIsUnseen(r, n - 1, sid);
      TrackLater(r, n - 1, n, sid);
      UnseenSinceStep(r, n - 1, n, sid);
    }
  }

  /**
  `a` is the first and `b` the last output that the track covers: all of them
  unseen, and nothing between ended it.
   */
  ghost predicate Covers(r: Run, n: nat, a: nat, b: nat, sid: Id)
    requires n <= |r.steps| && n < |r.states|
  {
    && a <= b < n && UnseenAt(r, a, sid) && UnseenAt(r, b, sid)
    && sid !in r.states[a].tracker.tracks
    && (forall j: nat | a < j < n :: !ForgetsAt(r, j, sid))
    && (forall j: nat | b < j < n :: !UnseenAt(r, j, sid))
  }

  lemma UnseenForgetsNothing(r: Run, m: nat, sid: Id)
    requires m < |r.steps| && m < |r.states| && UnseenAt(r, m, sid)
    ensures !ForgetsAt(r, m, sid)
  {
  }

  lemma CoversLater(r: Run, m: nat, n: nat, a: nat, b: nat, sid: Id) returns (c: nat)
    requires r.Valid() && n == m + 1 && n <= |r.steps| && Covers(r, m, a, b, sid)
    requires UnseenAt(r, m, sid) || !ForgetsAt(r, m, sid)
    ensures c == (if UnseenAt(r, m, sid) then m else b) && Covers(r, n, a, c, sid)
  {
    if UnseenAt(r, m, sid) {
      UnseenForgetsNothing(r, m, sid);
    }
    c := if UnseenAt(r, m, sid) then m else b;
  }

  /**
  The two numbers of a track are the times of the first and the last unseen output
  since the session was last seen.
   */
  lemma {:induction false} TrackCoversUnseen(r: Run, n: nat, sid: Id) returns (a: nat, b: nat)
    requires r.Valid() && r.states[0] == START && n <= |r.steps| && sid in r.states[n].tracker.tracks
    ensures Covers(r, n, a, b, sid)
    ensures r.states[n].tracker.tracks[sid] == Track(r.steps[a].now, r.steps[b].now)
  {
    var m := n - 1;
    TrackLater(r, m, n, sid);
    if sid !in r.states[m].tracker.tracks {
      a, b := m, m;
    } else {
      a, b := TrackCoversUnseen(r, m, sid);
      b := CoversLater(r, m, n, a, b, sid);
    }
  }

  // ---------- badges and toasts ----------

  /**
  The timeout of the session runs while it is not shown on a visible page, after at
  least half a second of output.
   */
  predicate Reports(c: Client, step: Step, sid: Id) {
    && step.Fire? && step.k in c.tracker.queue && c.tracker.queue[step.k].sid == sid
    && !(c.app.activeSession == Some(sid) && step.visible)
    && sid in c.tracker.tracks && c.tracker.tracks[sid].lastByteAt - c.tracker.tracks[sid].startedAt >= 500
  }

  lemma BadgeFire(c: Client, step: Step, sid: Id)
    requires Tracking.Inv(c) && Enabled(c, step) && step.Fire? && !Unread(c.app, sid)
    ensures Unread(Next(c, step).app, sid) <==> Reports(c, step, sid)
  {
    Tracking.ExpireOk(c.tracker, c.clock, step.k);
  }

  lemma CommitsLightNoBadge(s: AppState, commit: Commit, sid: Id)
    requires !Unread(s, sid)
    ensures !Unread(Apply(s, commit), sid)
  {
  }

  /** A badge is lit by exactly these steps. */
  lemma BadgeStep(c: Client, step: Step, sid: Id)
    requires Tracking.Inv(c) && Enabled(c, step) && !Unread(c.app, sid)
    ensures Unread(Next(c, step).app, sid) <==> Reports(c, step, sid)
  {
    match step
    case Output(_, _, _) =>
    case Fire(_, _, _, _, _) => BadgeFire(c, step, sid);
    case Set(commit) => CommitsLightNoBadge(c.app, commit, sid);
  }

  predicate HasToast(s: AppState, sid: Id) {
    exists i | 0 <= i < |s.toasts| :: s.toasts[i].sessionId == sid
  }

  lemma ToastFire(c: Client, step: Step, sid: Id)
    requires Tracking.Inv(c) && Enabled(c, step) && step.Fire? && !Unread(c.app, sid)
    ensures HasToast(Next(c, step).app, sid) <==> Reports(c, step, sid) && step.found.Some? && step.wid != ""
  {
    var d := Next(c, step);
    Tracking.ExpireOk(c.tracker, c.clock, step.k);
    assert forall t <- c.app.toasts :: Tracking.ToastOk(c, t);
    if c.tracker.queue[step.k].sid == sid {
      Tracking.NothingToCoalesce(c, sid);
      if Reports(c, step, sid) && step.found.Some? && step.wid != "" {
        var at := c.tracker.tracks[sid].lastByteAt;
        var stack := c.app.toasts + [Toast(ToastId(sid, at), sid, step.wid, step.found.value.title, at)];
        assert d.app.toasts == Capped(stack);
        assert d.app.toasts[|d.app.toasts| - 1] == stack[|stack| - 1];
      } else {
        assert d.app.toasts == c.app.toasts;
        assert forall i | 0 <= i < |c.app.toasts| :: Tracking.ToastOk(c, c.app.toasts[i]);
      }
    } else {
      NoOtherToast(c, step, sid);
    }
  }

  lemma NoOtherToast(c: Client, step: Step, sid: Id)
    requires Tracking.Inv(c) && Enabled(c, step) && step.Fire? && c.tracker.queue[step.k].sid != sid && !Unread(c.app, sid)
    ensures !HasToast(Next(c, step).app, sid)
  {
    Tracking.FireOk(c, step);
    var d := Next(c, step);
    assert !Unread(d.app, sid);
    assert forall i | 0 <= i < |d.app.toasts| :: Tracking.ToastOk(d, d.app.toasts[i]);
  }

  /** A session without a badge gets a toast by exactly those of these steps at which it is in a loaded list. */
  lemma ToastStep(c: Client, step: Step, sid: Id)
    requires Tracking.Inv(c) && Enabled(c, step) && !Unread(c.app, sid)
    ensures HasToast(Next(c, step).app, sid) <==> Reports(c, step, sid) && step.found.Some? && step.wid != ""
  {
    if step.Fire? {
      ToastFire(c, step, sid);
    } else {
      BadgeStep(c, step, sid);
      Tracking.InvStep(c, step);
      var d := Next(c, step);
      assert forall i | 0 <= i < |d.app.toasts| :: Tracking.ToastOk(d, d.app.toasts[i]);
    }
  }

  /**
  In every run a badge is lit only for unseen output: at least half a second of it,
  with a second and a half of silence after it.
   */
  lemma BadgeCoversUnseen(r: Run, n: nat, sid: Id) returns (a: nat, b: nat)
    requires r.Valid() && r.states[0] == START && n < |r.steps|
    requires !Unread(r.states[n].app, sid) && Unread(r.states[n + 1].app, sid)
    ensures Covers(r, n, a, b, sid) && r.steps[n].Fire?
    ensures r.steps[b].now - r.steps[a].now >= 500 && r.steps[n].now - r.steps[b].now >= 1500
    ensures r.states[n + 1].app.activity[sid] == Activity(true, r.steps[b].now, r.steps[b].now)
  {
    Tracking.InvAlways(r, n);
    BadgeStep(r.states[n], r.steps[n], sid);
    Tracking.ExpireOk(r.states[n].tracker, r.states[n].clock, r.steps[n].k);
    a, b := TrackCoversUnseen(r, n, sid);
  }
}
