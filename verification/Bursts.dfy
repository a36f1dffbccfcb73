/**
The output tracker against an offline reading of the same history.

Offline, the times at which a session produced output are split into bursts,
each gap inside a burst shorter than `IDLE_MS` and each gap between bursts at
least that. A burst is closed when `IDLE_MS` of silence has followed it. The
tracker, which sees one time after the other and keeps only two numbers and a
timer, reports the same bursts.
 */
module Bursts {
  import opened Prelude
  import opened Model
  import opened ClientState
  import Tracking

  // ---------- the offline split ----------

  function Concat(bursts: seq<seq<nat>>): seq<nat> {
    if bursts == [] then [] else bursts[0] + Concat(bursts[1..])
  }

  /** A burst: output with no silence of `IDLE_MS` in it. */
  ghost predicate Tight(burst: seq<nat>) {
    burst != [] && forall i | 0 < i < |burst| :: burst[i] - burst[i - 1] < IDLE_MS
  }

  /** Two bursts with at least `IDLE_MS` of silence between them. */
  ghost predicate Apart(a: seq<nat>, b: seq<nat>) {
    a != [] && b != [] && b[0] - Last(a) >= IDLE_MS
  }

  /** The bursts in order make up the history; inside a burst gaps are short, between neighbours they are not. */
  ghost predicate IsSplit(h: seq<nat>, bursts: seq<seq<nat>>) {
    && Concat(bursts) == h
    && (forall i | 0 <= i < |bursts| :: Tight(bursts[i]))
    && (forall i, j | 0 <= i && j == i + 1 && j < |bursts| :: Apart(bursts[i], bursts[j]))
  }

  /** Puts one earlier time in front of a split. */
  function Prepend(t: nat, bursts: seq<seq<nat>>): seq<seq<nat>> {
    if bursts != [] && bursts[0] != [] && bursts[0][0] - t < IDLE_MS then [[t] + bursts[0]] + bursts[1..]
    else [[t]] + bursts
  }

  function Split(h: seq<nat>): seq<seq<nat>> {
    if h == [] then [] else Prepend(h[0], Split(h[1..]))
  }

  lemma PrependIsSplit(t: nat, h: seq<nat>, bursts: seq<seq<nat>>)
    requires IsSplit(h, bursts)
    ensures IsSplit([t] + h, Prepend(t, bursts))
  {
    var r := Prepend(t, bursts);
    if bursts != [] {
      assert Tight(bursts[0]);
    }
    assert r[1..] == bursts || r[1..] == bursts[1..];
    if bursts != [] && bursts[0][0] - t < IDLE_MS {
      assert Tight(r[0]);
      assert [t] + (bursts[0] + Concat(bursts[1..])) == ([t] + bursts[0]) + Concat(bursts[1..]);
      if |bursts| > 1 {
        assert Apart(bursts[0], bursts[1]) && Last(r[0]) == Last(bursts[0]);
      }
    } else {
      assert Tight(r[0]);
    }
  }

  /** `Split` is a split, so every history has one. */
  lemma {:induction false} SplitIsSplit(h: seq<nat>)
    ensures IsSplit(h, Split(h))
  {
    if h != [] {
      SplitIsSplit(h[1..]);
      PrependIsSplit(h[0], h[1..], Split(h[1..]));
      assert h == [h[0]] + h[1..];
    }
  }

  function WithoutFirst(bursts: seq<seq<nat>>): seq<seq<nat>>
    requires bursts != [] && bursts[0] != []
  {
    if |bursts[0]| == 1 then bursts[1..] else [bursts[0][1..]] + bursts[1..]
  }

  lemma ConcatWithoutFirst(h: seq<nat>, bursts: seq<seq<nat>>)
    requires bursts != [] && bursts[0] != [] && Concat(bursts) == h
    ensures h != [] && h[0] == bursts[0][0] && Concat(WithoutFirst(bursts)) == h[1..]
  {
    var b := bursts[0];
    assert h == b + Concat(bursts[1..]);
    assert h[1..] == b[1..] + Concat(bursts[1..]);
    if |b| > 1 {
      assert WithoutFirst(bursts)[1..] == bursts[1..];
    } else {
      assert b[1..] == [];
    }
  }

  lemma RestIsTight(b: seq<nat>)
    requires Tight(b) && |b| > 1
    ensures Tight(b[1..]) && Last(b[1..]) == Last(b) && b[1] - b[0] < IDLE_MS
  {
    forall i | 0 < i < |b[1..]|
      ensures b[1..][i] - b[1..][i - 1] < IDLE_MS
    {
      assert b[i + 1] - b[i] < IDLE_MS;
    }
  }

  /** Taking the first time off a split leaves a split. */
  lemma TakeFirst(h: seq<nat>, bursts: seq<seq<nat>>)
    requires IsSplit(h, bursts) && bursts != []
    ensures bursts[0] != [] && h != [] && h[0] == bursts[0][0] && IsSplit(h[1..], WithoutFirst(bursts))
  {
    var b, rest := bursts[0], WithoutFirst(bursts);
    assert Tight(b);
    ConcatWithoutFirst(h, bursts);
    if |b| > 1 {
      RestIsTight(b);
      assert rest[1..] == bursts[1..];
    }
    forall i, j | 0 <= i && j == i + 1 && j < |rest|
      ensures Apart(rest[i], rest[j])
    {
      if |b| == 1 {
        assert Apart(bursts[i + 1], bursts[j + 1]);
      } else {
        assert Apart(bursts[i], bursts[j]);
      }
    }
  }

  /** Putting it back gives the same. */
  lemma PutFirstBack(h: seq<nat>, bursts: seq<seq<nat>>)
    requires IsSplit(h, bursts) && bursts != [] && bursts[0] != []
    ensures Prepend(bursts[0][0], WithoutFirst(bursts)) == bursts
  {
    var b := bursts[0];
    assert Tight(b) && bursts == [b] + bursts[1..];
    if |b| == 1 {
      assert b == [b[0]];
      if |bursts| > 1 {
        assert Apart(bursts[0], bursts[1]);
      }
    } else {
      RestIsTight(b);
      assert b == [b[0]] + b[1..];
    }
  }

  /** There is no other split. */
  lemma {:induction false} SplitIsUnique(h: seq<nat>, bursts: seq<seq<nat>>)
    requires IsSplit(h, bursts)
    ensures bursts == Split(h)
    decreases |h|
  {
    if bursts != [] {
      TakeFirst(h, bursts);
      PutFirstBack(h, bursts);
      SplitIsUnique(h[1..], WithoutFirst(bursts));
    }
  }

  /** Adds one later time to a split. */
  function Extend(bursts: seq<seq<nat>>, t: nat): seq<seq<nat>> {
    if bursts != [] && Last(bursts) != [] && t - Last(Last(bursts)) < IDLE_MS
    then Front(bursts) + [Last(bursts) + [t]]
    else bursts + [[t]]
  }

  lemma {:induction false} ConcatAppend(a: seq<seq<nat>>, b: seq<seq<nat>>)
    ensures Concat(a + b) == Concat(a) + Concat(b)
  {
    if a == [] {
      assert a + b == b;
    } else {
      var first, rest := a[0], a[1..];
      ConcatAppend(rest, b);
      assert (a + b)[1..] == rest + b && (a + b)[0] == first;
      assert first + (Concat(rest) + Concat(b)) == (first + Concat(rest)) + Concat(b);
    }
  }

  lemma ConcatOne(burst: seq<nat>)
    ensures Concat([burst]) == burst
  {
    var one: seq<seq<nat>> := [burst];
    assert one[1..] == [];
  }

  lemma ConcatExtend(bursts: seq<seq<nat>>, t: nat)
    ensures Concat(Extend(bursts, t)) == Concat(bursts) + [t]
  {
    ConcatOne([t]);
    ConcatAppend(bursts, [[t]]);
    if bursts != [] {
      var front, last := Front(bursts), Last(bursts);
      assert bursts == front + [last];
      ConcatAppend(front, [last]);
      ConcatAppend(front, [last + [t]]);
      ConcatOne(last);
      ConcatOne(last + [t]);
      assert Concat(front) + (last + [t]) == (Concat(front) + last) + [t];
    }
  }

  lemma ExtendIsSplit(h: seq<nat>, bursts: seq<seq<nat>>, t: nat)
    requires IsSplit(h, bursts)
    ensures IsSplit(h + [t], Extend(bursts, t))
  {
    var r := Extend(bursts, t);
    ConcatExtend(bursts, t);
    if bursts != [] {
      assert Tight(bursts[|bursts| - 1]);
    }
    forall i | 0 <= i < |r|
      ensures Tight(r[i])
    {
      if i < |bursts| {
        assert Tight(bursts[i]);
      }
    }
    forall i, j | 0 <= i && j == i + 1 && j < |r|
      ensures Apart(r[i], r[j])
    {
      if j < |bursts| {
        assert Apart(bursts[i], bursts[j]);
      }
    }
  }

  lemma SplitSnoc(h: seq<nat>, t: nat)
    ensures Split(h + [t]) == Extend(Split(h), t)
  {
    SplitIsSplit(h);
    ExtendIsSplit(h, Split(h), t);
    SplitIsUnique(h + [t], Extend(Split(h), t));
  }

  lemma LastOfSplit(h: seq<nat>)
    ensures h != [] <==> Split(h) != []
    ensures h != [] ==> Last(Split(h)) != [] && Last(Last(Split(h))) == Last(h)
  {
    if h != [] {
      SplitSnoc(Front(h), Last(h));
      assert h == Front(h) + [Last(h)];
    }
  }

  // ---------- the offline report ----------

  function AsTrack(burst: seq<nat>): Track
    requires burst != []
  {
    Track(burst[0], Last(burst))
  }

  /** `IDLE_MS` of silence have followed the burst. */
  predicate ClosedBy(burst: seq<nat>, now: nat) {
    burst != [] && Last(burst) + IDLE_MS <= now
  }

  function IfBusy(b: seq<nat>, now: nat): seq<Track> {
    if ClosedBy(b, now) && Qualifies(AsTrack(b)) then [AsTrack(b)] else []
  }

  /** The bursts that are over and were long enough. */
  function BusyBursts(bursts: seq<seq<nat>>, now: nat): seq<Track> {
    if bursts == [] then [] else BusyBursts(Front(bursts), now) + IfBusy(Last(bursts), now)
  }

  lemma {:induction false} BusyLater(bursts: seq<seq<nat>>, now: nat, later: nat)
    requires now <= later && forall i | 0 <= i < |bursts| :: ClosedBy(bursts[i], now)
    ensures BusyBursts(bursts, now) == BusyBursts(bursts, later)
  {
    if bursts != [] {
      BusyLater(Front(bursts), now, later);
      assert ClosedBy(bursts[|bursts| - 1], now);
    }
  }

  lemma BusySnoc(bursts: seq<seq<nat>>, b: seq<nat>, now: nat)
    ensures BusyBursts(bursts + [b], now) == BusyBursts(bursts, now) + IfBusy(b, now)
  {
    assert Front(bursts + [b]) == bursts && Last(bursts + [b]) == b;
  }

  // ---------- runs of a session in the background ----------

  /** Nothing that views or deletes the session happens, and it is never in the foreground. */
  ghost predicate Background(c: Client, step: Step, sid: Id)
    requires Enabled(c, step)
  {
    match step
    case Output(x, visible, _) => x == sid ==> !Foreground(c.app, sid, visible)
    case Fire(k, visible, _, _, _) => c.tracker.queue[k].sid == sid ==> !Foreground(c.app, sid, visible)
    case Set(commit) => sid !in Cancels(c.app, commit)
  }

  /** The session's own timeout is due and has not run. */
  predicate Late(c: Client, sid: Id, now: nat) {
    sid in c.tracker.tracks && now - c.tracker.tracks[sid].lastByteAt >= IDLE_MS
  }

  /** Output of the session is handled before the timeout that should have come first. */
  predicate LateOutput(c: Client, step: Step, sid: Id) {
    IsOutput(step, sid) && Late(c, sid, step.now)
  }

  predicate IsOutput(step: Step, sid: Id) {
    step.Output? && step.sid == sid
  }

  predicate IsFire(c: Client, step: Step, sid: Id) {
    step.Fire? && step.k in c.tracker.queue && c.tracker.queue[step.k].sid == sid
  }

  /** The times of the session's output among the first `n` steps. */
  function History(r: Run, n: nat, sid: Id): seq<nat>
    requires n <= |r.steps|
  {
    if n == 0 then []
    else History(r, n - 1, sid) + (if IsOutput(r.steps[n - 1], sid) then [r.steps[n - 1].now] else [])
  }

  /** The burst that this step reports for the session, if it is a callback that lets one pass. */
  function Report(c: Client, step: Step, sid: Id): seq<Track> {
    if IsFire(c, step, sid) && sid in c.tracker.tracks && Qualifies(c.tracker.tracks[sid])
    then [c.tracker.tracks[sid]] else []
  }

  function Reports(r: Run, n: nat, sid: Id): seq<Track>
    requires n <= |r.steps| && n <= |r.states|
  {
    if n == 0 then [] else Reports(r, n - 1, sid) + Report(r.states[n - 1], r.steps[n - 1], sid)
  }

  /** The bursts that the tracker is done with: all, but for the one it still follows. */
  function Done(c: Client, sid: Id, h: seq<nat>): seq<seq<nat>> {
    if sid in c.tracker.tracks && Split(h) != [] then Front(Split(h)) else Split(h)
  }

  function ActivityOf(c: Client, sid: Id): Option<Activity> {
    if sid in c.app.activity then Some(c.app.activity[sid]) else None
  }

  /** The unread record after these reports: the first of them wrote it. */
  predicate Recorded(before: Option<Activity>, after: Option<Activity>, reports: seq<Track>) {
    if reports == [] then after == before
    else after == Some(Activity(true, reports[0].lastByteAt, reports[0].lastByteAt))
  }

  /** What the tracker knows of a history. */
  ghost predicate Follows(c: Client, sid: Id, h: seq<nat>, reports: seq<Track>) {
    && (sid in c.tracker.tracks ==>
          h != [] && Split(h) != [] && Last(Split(h)) != [] && c.tracker.tracks[sid] == AsTrack(Last(Split(h))))
    && (forall i | 0 <= i < |Done(c, sid, h)| :: ClosedBy(Done(c, sid, h)[i], c.clock))
    && reports == BusyBursts(Done(c, sid, h), c.clock)
  }

  lemma PromptFollows(c: Client, sid: Id, visible: bool, now: nat, h: seq<nat>, reports: seq<Track>)
    requires Tracking.Inv(c) && c.clock <= now && Follows(c, sid, h, reports)
    requires !Foreground(c.app, sid, visible) && !Late(c, sid, now)
    ensures Follows(Next(c, Output(sid, visible, now)), sid, h + [now], reports)
  {
    var d := Next(c, Output(sid, visible, now));
    SplitSnoc(h, now);
    LastOfSplit(h);
    LastOfSplit(h + [now]);
    BusyLater(Done(c, sid, h), c.clock, now);
    var bursts := Split(h);
    if sid in c.tracker.tracks {
      assert Split(h + [now]) == Front(bursts) + [Last(bursts) + [now]];
      assert Done(d, sid, h + [now]) == Front(bursts);
    } else {
      if h != [] {
        assert ClosedBy(bursts[|bursts| - 1], c.clock);
      }
      assert Split(h + [now]) == bursts + [[now]];
      assert Done(d, sid, h + [now]) == bursts;
    }
  }

  lemma LateLoses(c: Client, sid: Id, visible: bool, now: nat, h: seq<nat>, reports: seq<Track>)
    requires Tracking.Inv(c) && c.clock <= now && Follows(c, sid, h, reports)
    requires !Foreground(c.app, sid, visible) && Late(c, sid, now)
    ensures !Follows(Next(c, Output(sid, visible, now)), sid, h + [now], reports)
  {
    SplitSnoc(h, now);
    LastOfSplit(h);
    assert Last(Split(h + [now])) == [now];
    assert c.tracker.tracks[sid].startedAt < now;
  }

  /** What a burst adds to the reports when it closes. */
  function Closing(track: Track): seq<Track> {
    if Qualifies(track) then [track] else []
  }

  lemma FireFacts(c: Client, step: Step, sid: Id)
    requires Tracking.Inv(c) && Enabled(c, step) && IsFire(c, step, sid)
    ensures sid in c.tracker.tracks && sid !in Next(c, step).tracker.tracks
    ensures c.clock <= Next(c, step).clock && c.tracker.tracks[sid].lastByteAt + IDLE_MS <= Next(c, step).clock
    ensures Report(c, step, sid) == Closing(c.tracker.tracks[sid])
  {
    Tracking.ExpireOk(c.tracker, c.clock, step.k);
  }

  /** The open burst closes: with it the tracker is done with all of them. */
  lemma FollowsClosing(c: Client, d: Client, sid: Id, h: seq<nat>, reports: seq<Track>)
    requires Follows(c, sid, h, reports) && sid in c.tracker.tracks && sid !in d.tracker.tracks
    requires c.clock <= d.clock && c.tracker.tracks[sid].lastByteAt + IDLE_MS <= d.clock
    ensures Follows(d, sid, h, reports + Closing(c.tracker.tracks[sid]))
  {
    var bursts := Split(h);
    BusyLater(Front(bursts), c.clock, d.clock);
    BusySnoc(Front(bursts), Last(bursts), d.clock);
    assert bursts == Front(bursts) + [Last(bursts)];
  }

  /**
  Output keeps the two numbers equal to the ends of the open burst if and only if
  the session's own timeout is not late.
   */
  lemma FollowsOutput(c: Client, sid: Id, visible: bool, now: nat, h: seq<nat>, reports: seq<Track>)
    requires Tracking.Inv(c) && c.clock <= now && Follows(c, sid, h, reports) && !Foreground(c.app, sid, visible)
    ensures Follows(Next(c, Output(sid, visible, now)), sid, h + [now], reports) <==> !Late(c, sid, now)
  {
    if Late(c, sid, now) {
      LateLoses(c, sid, visible, now, h, reports);
    } else {
      PromptFollows(c, sid, visible, now, h, reports);
    }
  }

  lemma FollowsFire(c: Client, step: Step, sid: Id, h: seq<nat>, reports: seq<Track>)
    requires Tracking.Inv(c) && Enabled(c, step) && IsFire(c, step, sid) && Follows(c, sid, h, reports)
    ensures Follows(Next(c, step), sid, h, reports + Report(c, step, sid))
  {
    FireFacts(c, step, sid);
    FollowsClosing(c, Next(c, step), sid, h, reports);
  }

  lemma UntouchedFire(c: Client, step: Step, sid: Id)
    requires Enabled(c, step) && step.Fire? && c.tracker.queue[step.k].sid != sid
    ensures var d := Next(c, step);
            && (sid in d.tracker.tracks <==> sid in c.tracker.tracks)
            && (sid in c.tracker.tracks ==> d.tracker.tracks[sid] == c.tracker.tracks[sid])
            && ActivityOf(d, sid) == ActivityOf(c, sid)
  {
  }

  lemma UntouchedSet(c: Client, commit: Commit, sid: Id)
    requires sid !in Cancels(c.app, commit)
    ensures var d := Next(c, Set(commit));
            && (sid in d.tracker.tracks <==> sid in c.tracker.tracks)
            && (sid in c.tracker.tracks ==> d.tracker.tracks[sid] == c.tracker.tracks[sid])
            && ActivityOf(d, sid) == ActivityOf(c, sid)
  {
  }

  lemma UntouchedTracks(c: Client, step: Step, sid: Id)
    requires Enabled(c, step) && Background(c, step, sid)
    requires !IsOutput(step, sid) && !IsFire(c, step, sid)
    ensures var d := Next(c, step);
            && (sid in d.tracker.tracks <==> sid in c.tracker.tracks)
            && (sid in c.tracker.tracks ==> d.tracker.tracks[sid] == c.tracker.tracks[sid])
            && ActivityOf(d, sid) == ActivityOf(c, sid)
            && c.clock <= d.clock
  {
    match step
    case Output(_, _, _) =>
    case Fire(_, _, _, _, _) => UntouchedFire(c, step, sid);
    case Set(commit) => UntouchedSet(c, commit, sid);
  }

  lemma FollowsStep(c: Client, step: Step, sid: Id, h: seq<nat>, reports: seq<Track>)
    requires Tracking.Inv(c) && Enabled(c, step) && Background(c, step, sid) && Follows(c, sid, h, reports)
    ensures Follows(Next(c, step), sid,
                    h + (if IsOutput(step, sid) then [step.now] else []), reports + Report(c, step, sid))
            <==> !LateOutput(c, step, sid)
  {
    if IsOutput(step, sid) {
      FollowsOutput(c, sid, step.visible, step.now, h, reports);
      assert reports + [] == reports;
    } else if IsFire(c, step, sid) {
      FollowsFire(c, step, sid, h, reports);
      assert h + [] == h;
    } else {
      UntouchedTracks(c, step, sid);
      assert h + [] == h && reports + [] == reports;
      BusyLater(Done(c, sid, h), c.clock, Next(c, step).clock);
    }
  }

  /** A report of a session that is unread already changes nothing; the first one writes the record. */
  lemma RecordedStep(c: Client, step: Step, sid: Id, before: Option<Activity>, reports: seq<Track>)
    requires Tracking.Inv(c) && Enabled(c, step) && Background(c, step, sid)
    requires (before.Some? ==> !before.value.unread) && Recorded(before, ActivityOf(c, sid), reports)
    ensures Recorded(before, ActivityOf(Next(c, step), sid), reports + Report(c, step, sid))
  {
    if IsFire(c, step, sid) {
      assert reports + [] == reports;
    } else if IsOutput(step, sid) {
      assert reports + [] == reports;
    } else {
      UntouchedTracks(c, step, sid);
      assert reports + [] == reports;
    }
  }

  /** The session starts with nothing pending and no badge, and stays in the background. */
  ghost predicate BackgroundRun(r: Run, n: nat, sid: Id) {
    && r.Valid() && n <= |r.steps|
    && Tracking.Inv(r.states[0]) && sid !in r.states[0].tracker.tracks && !Unread(r.states[0].app, sid)
    && forall k | 0 <= k < n :: Background(r.states[k], r.steps[k], sid)
  }

  /** The unread record is the first report's, late timeouts or not. */
  lemma {:induction false} RecordedAlways(r: Run, n: nat, sid: Id)
    requires BackgroundRun(r, n, sid)
    ensures Tracking.Inv(r.states[n])
    ensures Recorded(ActivityOf(r.states[0], sid), ActivityOf(r.states[n], sid), Reports(r, n, sid))
  {
    if n > 0 {
      RecordedAlways(r, n - 1, sid);
      assert Background(r.states[n - 1], r.steps[n - 1], sid);
      Tracking.InvStep(r.states[n - 1], r.steps[n - 1]);
      RecordedStep(r.states[n - 1], r.steps[n - 1], sid, ActivityOf(r.states[0], sid), Reports(r, n - 1, sid));
    }
  }

  ghost predicate FollowsAt(r: Run, k: nat, sid: Id)
    requires k <= |r.steps| && k < |r.states|
  {
    Follows(r.states[k], sid, History(r, k, sid), Reports(r, k, sid))
  }

  predicate LateAt(r: Run, k: nat, sid: Id)
    requires k < |r.steps| && k < |r.states|
  {
    LateOutput(r.states[k], r.steps[k], sid)
  }

  lemma FollowsAtStart(r: Run, n: nat, sid: Id)
    requires BackgroundRun(r, n, sid)
    ensures FollowsAt(r, 0, sid)
  {
  }

  lemma FollowsAtStep(r: Run, m: nat, sid: Id)
    requires BackgroundRun(r, m + 1, sid) && FollowsAt(r, m, sid)
    ensures FollowsAt(r, m + 1, sid) <==> !LateAt(r, m, sid)
  {
    RecordedAlways(r, m, sid);
    assert Background(r.states[m], r.steps[m], sid);
    FollowsStep(r.states[m], r.steps[m], sid, History(r, m, sid), Reports(r, m, sid));
  }

  /**
  The tracker follows the split at every point of exactly the runs in which the
  session's own timeout is never late.
   */
  lemma FollowsRuns(r: Run, n: nat, sid: Id)
    requires BackgroundRun(r, n, sid)
    ensures (forall k: nat | k <= n :: FollowsAt(r, k, sid)) <==> (forall k: nat | k < n :: !LateAt(r, k, sid))
  {
    var good := (k: nat) => k <= n && FollowsAt(r, k, sid);
    var bad := (k: nat) => k < n && LateAt(r, k, sid);
    FollowsAtStart(r, n, sid);
    forall m: nat {:trigger bad(m)} | m < n && good(m)
      ensures good(m + 1) <==> !bad(m)
    {
      FollowsAtStep(r, m, sid);
    }
    AlwaysIffNever(good, bad, n);
    assert forall k: nat | k <= n :: good(k) <==> FollowsAt(r, k, sid);
    assert forall k: nat | k < n :: bad(k) <==> LateAt(r, k, sid);
  }

  lemma SettledBurst(c: Client, sid: Id, h: seq<nat>, reports: seq<Track>)
    requires Follows(c, sid, h, reports) && !Late(c, sid, c.clock)
    ensures sid in c.tracker.tracks <==> Split(h) != [] && !ClosedBy(Last(Split(h)), c.clock)
  {
    if sid !in c.tracker.tracks && Split(h) != [] {
      assert ClosedBy(Done(c, sid, h)[|Split(h)| - 1], c.clock);
    }
  }

  lemma SettledReports(c: Client, sid: Id, h: seq<nat>, reports: seq<Track>)
    requires Follows(c, sid, h, reports) && !Late(c, sid, c.clock)
    ensures reports == BusyBursts(Split(h), c.clock)
  {
    SettledBurst(c, sid, h, reports);
    if sid in c.tracker.tracks {
      assert reports + [] == reports;
    }
  }

  /**
  For any history of a background session whose own timeouts come in time,
  whatever happens to other sessions and their timeouts meanwhile: the tracker
  reports exactly the closed bursts of the offline split that last
  `MIN_BUSY_MS`, the first of them since the last clear writes the unread record
  with its own last time, and the burst still open is the one it follows.
   */
  lemma TrackerRefinesSplit(r: Run, n: nat, sid: Id, bursts: seq<seq<nat>>)
    requires BackgroundRun(r, n, sid) && IsSplit(History(r, n, sid), bursts)
    requires !Late(r.states[n], sid, r.states[n].clock) && forall k: nat | k < n :: !LateAt(r, k, sid)
    ensures var c := r.states[n];
            && Reports(r, n, sid) == BusyBursts(bursts, c.clock)
            && Recorded(ActivityOf(r.states[0], sid), ActivityOf(c, sid), BusyBursts(bursts, c.clock))
            && (sid in c.tracker.tracks <==> bursts != [] && !ClosedBy(Last(bursts), c.clock))
            && (sid in c.tracker.tracks ==> Last(bursts) != [] && c.tracker.tracks[sid] == AsTrack(Last(bursts)))
  {
    var c, h := r.states[n], History(r, n, sid);
    SplitIsUnique(h, bursts);
    FollowsRuns(r, n, sid);
    RecordedAlways(r, n, sid);
    assert FollowsAt(r, n, sid);
    SettledBurst(c, sid, h, Reports(r, n, sid));
    SettledReports(c, sid, h, Reports(r, n, sid));
  }
}
