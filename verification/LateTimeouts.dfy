/**
What a late timeout does to the reports: a burst that goes on over the silence
that should have ended it is reported in the end, and the split has no such burst.
 */
module LateTimeouts {
  import opened Prelude
  import opened Model
  import opened ClientState
  import opened Bursts
  import Tracking

  // ---------- tracks that span a silence ----------

  ghost predicate Ordered(h: seq<nat>) {
    forall i, j | 0 <= i < j < |h| :: h[i] <= h[j]
  }

  /** The history has a silence of `IDLE_MS` inside the time of the track, after output `p`. */
  predicate SilentAt(h: seq<nat>, track: Track, p: nat) {
    p + 1 < |h| && track.startedAt <= h[p] && h[p + 1] <= track.lastByteAt && h[p + 1] - h[p] >= IDLE_MS
  }

  ghost predicate Spans(h: seq<nat>, track: Track) {
    exists p: nat :: SilentAt(h, track, p)
  }

  ghost predicate NoneSpans(h: seq<nat>, bursts: seq<seq<nat>>) {
    forall i | 0 <= i < |bursts| ::
      h != [] && bursts[i] != [] && Last(bursts[i]) <= Last(h) && !Spans(h, AsTrack(bursts[i]))
  }

  lemma SpansLater(h: seq<nat>, t: nat, track: Track, later: Track)
    requires Spans(h, track) && later.startedAt == track.startedAt && track.lastByteAt <= later.lastByteAt
    ensures Spans(h + [t], later)
  {
    var p: nat :| SilentAt(h, track, p);
    assert SilentAt(h + [t], later, p);
  }

  /** A later output spans nothing for a track that ended before. */
  lemma SpansEarlier(h: seq<nat>, t: nat, track: Track)
    requires h != [] && Ordered(h + [t]) && track.lastByteAt <= Last(h)
    ensures Spans(h + [t], track) ==> Spans(h, track)
  {
    var g := h + [t];
    assert g[|h| - 1] == Last(h);
    if p: nat :| SilentAt(g, track, p) {
      assert p + 1 < |h| && g[p] == h[p] && g[p + 1] == h[p + 1];
      assert SilentAt(h, track, p);
    }
  }

  /** Nor does it for the track it extends without a silence. */
  lemma SpansExtended(h: seq<nat>, t: nat, start: nat)
    requires h != [] && Ordered(h + [t]) && t - Last(h) < IDLE_MS
    ensures Spans(h + [t], Track(start, t)) ==> Spans(h, Track(start, Last(h)))
  {
    var g := h + [t];
    assert g[|h| - 1] == Last(h) && g[|h|] == t;
    if p: nat :| SilentAt(g, Track(start, t), p) {
      assert p + 1 < |h| && g[p] == h[p] && g[p + 1] == h[p + 1];
      assert p + 1 == |h| - 1 || g[p + 1] <= g[|h| - 1];
      assert SilentAt(h, Track(start, Last(h)), p);
    }
  }

  lemma NoneSpansExtend(h: seq<nat>, t: nat, bursts: seq<seq<nat>>)
    requires h != [] && bursts != [] && NoneSpans(h, bursts) && Ordered(h + [t])
    requires Last(bursts) != [] && Last(Last(bursts)) == Last(h)
    ensures NoneSpans(h + [t], Extend(bursts, t))
  {
    var g, r := h + [t], Extend(bursts, t);
    assert Last(h) == g[|h| - 1] && g[|h|] == t;
    forall i | 0 <= i < |r|
      ensures r[i] != [] && Last(r[i]) <= Last(g) && !Spans(g, AsTrack(r[i]))
    {
      if i < |bursts| && r[i] == bursts[i] {
        SpansEarlier(h, t, AsTrack(r[i]));
      } else if i < |bursts| {
        assert r[i] == Last(bursts) + [t] && t - Last(h) < IDLE_MS;
        assert AsTrack(bursts[|bursts| - 1]) == Track(r[i][0], Last(h));
        SpansExtended(h, t, r[i][0]);
      } else {
        assert r[i] == [t];
      }
    }
  }

  /** No burst of the split has a silence in it. */
  lemma {:induction false} SplitSpansNothing(h: seq<nat>)
    requires Ordered(h)
    ensures NoneSpans(h, Split(h))
    decreases |h|
  {
    if h != [] {
      var front, t := Front(h), Last(h);
      assert h == front + [t];
      SplitSnoc(front, t);
      if front == [] {
        assert Split(h) == [[t]];
      } else {
        SplitSpansNothing(front);
        LastOfSplit(front);
        NoneSpansExtend(front, t, Split(front));
      }
    }
  }

  lemma {:induction false} BusyAreBursts(bursts: seq<seq<nat>>, now: nat, track: Track)
    requires track in BusyBursts(bursts, now)
    ensures exists i :: 0 <= i < |bursts| && bursts[i] != [] && track == AsTrack(bursts[i])
  {
    if track in BusyBursts(Front(bursts), now) {
      BusyAreBursts(Front(bursts), now, track);
      var i :| 0 <= i < |Front(bursts)| && Front(bursts)[i] != [] && track == AsTrack(Front(bursts)[i]);
      assert bursts[i] == Front(bursts)[i];
    } else {
      assert track in IfBusy(Last(bursts), now) && bursts[|bursts| - 1] == Last(bursts);
    }
  }

  // ---------- they are reported ----------

  /** The tracker knows the latest output, late or not. */
  ghost predicate KnowsLast(c: Client, sid: Id, h: seq<nat>) {
    && Ordered(h) && (h != [] ==> Last(h) <= c.clock)
    && (sid in c.tracker.tracks ==> h != [] && c.tracker.tracks[sid].lastByteAt == Last(h))
  }

  /** A track that spans a silence is followed, or has been reported. */
  ghost predicate Lost(c: Client, sid: Id, h: seq<nat>, reports: seq<Track>) {
    || (sid in c.tracker.tracks && Spans(h, c.tracker.tracks[sid]))
    || (exists i :: 0 <= i < |reports| && Spans(h, reports[i]))
  }

  function More(step: Step, sid: Id): seq<nat> {
    if IsOutput(step, sid) then [step.now] else []
  }

  lemma KnowsLastStep(c: Client, step: Step, sid: Id, h: seq<nat>)
    requires Tracking.Inv(c) && Enabled(c, step) && Background(c, step, sid) && KnowsLast(c, sid, h)
    ensures KnowsLast(Next(c, step), sid, h + More(step, sid))
  {
    if IsOutput(step, sid) {
      assert Last(h + [step.now]) == step.now;
    } else {
      assert h + [] == h;
      if IsFire(c, step, sid) {
        FireFacts(c, step, sid);
      } else {
        UntouchedTracks(c, step, sid);
      }
    }
  }

  lemma SpansLong(h: seq<nat>, track: Track)
    requires Spans(h, track)
    ensures Qualifies(track)
  {
    var p: nat :| SilentAt(h, track, p);
  }

  lemma LateIsLost(c: Client, step: Step, sid: Id, h: seq<nat>, reports: seq<Track>)
    requires Tracking.Inv(c) && Enabled(c, step) && Background(c, step, sid) && KnowsLast(c, sid, h)
    requires LateOutput(c, step, sid)
    ensures Lost(Next(c, step), sid, h + More(step, sid), reports)
  {
    assert SilentAt(h + [step.now], Next(c, step).tracker.tracks[sid], |h| - 1);
  }

  lemma LostReported(h: seq<nat>, more: seq<nat>, reports: seq<Track>, i: nat, extra: seq<Track>)
    requires i < |reports| && Spans(h, reports[i]) && |more| <= 1
    ensures exists j :: 0 <= j < |reports + extra| && Spans(h + more, (reports + extra)[j])
  {
    if more == [] {
      assert h + more == h;
    } else {
      SpansLater(h, more[0], reports[i], reports[i]);
      assert more == [more[0]];
    }
    assert (reports + extra)[i] == reports[i];
  }

  lemma LostFollowed(c: Client, step: Step, sid: Id, h: seq<nat>, reports: seq<Track>)
    requires Tracking.Inv(c) && Enabled(c, step) && Background(c, step, sid)
    requires sid in c.tracker.tracks && Spans(h, c.tracker.tracks[sid])
    ensures Lost(Next(c, step), sid, h + More(step, sid), reports + Report(c, step, sid))
  {
    var track := c.tracker.tracks[sid];
    if IsOutput(step, sid) {
      SpansLater(h, step.now, track, track.(lastByteAt := step.now));
    } else {
      assert h + [] == h;
      if IsFire(c, step, sid) {
        SpansLong(h, track);
        assert (reports + [track])[|reports|] == track;
      } else {
        UntouchedTracks(c, step, sid);
      }
    }
  }

  /** What is lost stays lost. */
  lemma LostStep(c: Client, step: Step, sid: Id, h: seq<nat>, reports: seq<Track>)
    requires Tracking.Inv(c) && Enabled(c, step) && Background(c, step, sid) && Lost(c, sid, h, reports)
    ensures Lost(Next(c, step), sid, h + More(step, sid), reports + Report(c, step, sid))
  {
    if sid in c.tracker.tracks && Spans(h, c.tracker.tracks[sid]) {
      LostFollowed(c, step, sid, h, reports);
    } else {
      var i :| 0 <= i < |reports| && Spans(h, reports[i]);
      LostReported(h, More(step, sid), reports, i, Report(c, step, sid));
    }
  }

  lemma {:induction false} KnowsLastAlways(r: Run, n: nat, sid: Id)
    requires BackgroundRun(r, n, sid)
    ensures KnowsLast(r.states[n], sid, History(r, n, sid))
  {
    if n > 0 {
      KnowsLastAlways(r, n - 1, sid);
      RecordedAlways(r, n - 1, sid);
      assert Background(r.states[n - 1], r.steps[n - 1], sid);
      KnowsLastStep(r.states[n - 1], r.steps[n - 1], sid, History(r, n - 1, sid));
    }
  }

  lemma {:induction false} LostAfterLate(r: Run, n: nat, k: nat, sid: Id)
    requires BackgroundRun(r, n, sid) && k < n && LateAt(r, k, sid)
    ensures Lost(r.states[n], sid, History(r, n, sid), Reports(r, n, sid))
    decreases n
  {
    var m := n - 1;
    RecordedAlways(r, m, sid);
    assert Background(r.states[m], r.steps[m], sid);
    if k == m {
      KnowsLastAlways(r, m, sid);
      LateIsLost(r.states[m], r.steps[m], sid, History(r, m, sid), Reports(r, n, sid));
    } else {
      LostAfterLate(r, m, k, sid);
      LostStep(r.states[m], r.steps[m], sid, History(r, m, sid), Reports(r, m, sid));
    }
  }

  /** A report that spans a silence is none of the split's. */
  lemma LostDiffers(h: seq<nat>, now: nat, reports: seq<Track>, i: nat)
    requires Ordered(h) && i < |reports| && Spans(h, reports[i])
    ensures reports != BusyBursts(Split(h), now)
  {
    if reports == BusyBursts(Split(h), now) {
      assert reports[i] in BusyBursts(Split(h), now);
      BusyAreBursts(Split(h), now, reports[i]);
      SplitSpansNothing(h);
    }
  }

  /**
  At any point of a background run at which the tracker follows nothing, its
  reports are those of the split if and only if the session's own timeout was
  never late.
   */
  lemma ReportsAreExact(r: Run, n: nat, sid: Id)
    requires BackgroundRun(r, n, sid) && sid !in r.states[n].tracker.tracks
    ensures Reports(r, n, sid) == BusyBursts(Split(History(r, n, sid)), r.states[n].clock)
            <==> forall k: nat | k < n :: !LateAt(r, k, sid)
  {
    var h := History(r, n, sid);
    if k: nat :| k < n && LateAt(r, k, sid) {
      LostAfterLate(r, n, k, sid);
      KnowsLastAlways(r, n, sid);
      var i :| 0 <= i < |Reports(r, n, sid)| && Spans(h, Reports(r, n, sid)[i]);
      LostDiffers(h, r.states[n].clock, Reports(r, n, sid), i);
    } else {
      SplitIsSplit(h);
      TrackerRefinesSplit(r, n, sid, Split(h));
    }
  }

  // ---------- a run ----------

  /** One byte, another `IDLE_MS` later, and only then the timeouts. */
  ghost predicate TwoBytes(r: Run, sid: Id) {
    && r.Valid() && r.states[0] == START
    && r.steps == [Output(sid, true, 0), Output(sid, true, 1500), Fire(1, true, 3000, None, "")]
    && r.states[2] == Client(EMPTY, Tracker(map[sid := Track(0, 1500)], map[sid := 1], map[1 := Timer(sid, 3000)], 2), 1500)
  }

  lemma TwoBytesRun(sid: Id) returns (r: Run)
    ensures TwoBytes(r, sid)
  {
    r := Run([START], []);
    r := Continue(r, Output(sid, true, 0));
    assert r.states[1].tracker == Tracker(map[sid := Track(0, 0)], map[sid := 0], map[0 := Timer(sid, 1500)], 1);
    r := Continue(r, Output(sid, true, 1500));
    assert r.states[2].tracker == Tracker(map[sid := Track(0, 1500)], map[sid := 1], map[1 := Timer(sid, 3000)], 2);
    r := Continue(r, Fire(1, true, 3000, None, ""));
  }

  lemma TwoBytesOnline(r: Run, sid: Id)
    requires TwoBytes(r, sid)
    ensures Reports(r, 3, sid) == [Track(0, 1500)]
  {
    assert Reports(r, 0, sid) == [] && Reports(r, 1, sid) == [] && Reports(r, 2, sid) == [];
  }

  lemma TwoBytesOffline(r: Run, sid: Id)
    requires TwoBytes(r, sid)
    ensures History(r, 3, sid) == [0, 1500] && BusyBursts(Split([0, 1500]), 3000) == []
  {
    assert History(r, 1, sid) == [0] && History(r, 2, sid) == [0, 1500];
    TwoBursts();
  }

  lemma TwoBursts()
    ensures BusyBursts(Split([0, 1500]), 3000) == []
  {
    var one: seq<seq<nat>>, two: seq<seq<nat>> := [[0]], [[0], [1500]];
    SplitSnoc([0], 1500);
    SplitSnoc([], 0);
    assert Split([0]) == one && Front(one) == [] && [0] + [1500] == [0, 1500];
    assert Split([0, 1500]) == two && Front(two) == one;
    assert BusyBursts(one, 3000) == [] + IfBusy([0], 3000);
  }

  /**
  A late timeout joins two bursts: the tracker reports one that is long enough,
  where the split has two single bytes.
   */
  lemma LateTimeoutJoinsBursts(sid: Id) returns (r: Run)
    ensures r.Valid() && r.states[0] == START && |r.steps| == 3 && LateAt(r, 1, sid)
    ensures Reports(r, 3, sid) == [Track(0, 1500)]
    ensures BusyBursts(Split(History(r, 3, sid)), r.states[3].clock) == []
  {
    r := TwoBytesRun(sid);
    TwoBytesOnline(r, sid);
    TwoBytesOffline(r, sid);
  }
}
