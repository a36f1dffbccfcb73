/**
The browser's state: the store that the components see, and the output tracker
kept beside it. Each `Commit` is one synchronous `set` of `appStore.ts`, with
whatever the API returned; each `Step` is one event of the page.
 */
module ClientState {
  import opened Prelude
  import opened Model
  import Text

  const MAX_TOASTS := 5
  const IDLE_MS := 1500
  const MIN_BUSY_MS := 500

  datatype Activity = Activity(unread: bool, lastOutputAt: nat, notifiedAt: nat)

  datatype Toast = Toast(id: string, sessionId: Id, workspaceId: Id, title: string, createdAt: nat)

  datatype AppState = AppState(
    workspaces: seq<Workspace>,
    sessions: map<Id, seq<Session>>,
    activeWorkspace: Option<Id>,
    activeSession: Option<Id>,
    remembered: map<Id, Id>,
    activity: map<Id, Activity>,
    toasts: seq<Toast>)

  const EMPTY := AppState([], map[], None, None, map[], map[], [])

  // ---------- the store's updaters ----------

  datatype Commit =
    | Loaded(workspaces: seq<Workspace>, sessions: map<Id, seq<Session>>, wid: Id, first: Option<Id>,
             remembered: map<Id, Id>)
    | WorkspacesFetched(workspaces: seq<Workspace>)
    | WorkspaceCreated(ws: Workspace, sess: Session)
    | WorkspaceDeleted(id: Id)
    | WorkspaceRenamed(id: Id, renamed: Workspace)
    | WorkspaceActivated(id: Id, list: seq<Session>)
    | SessionsFetched(wid: Id, list: seq<Session>)
    | Polled(wid: Id, list: seq<Session>)
    | SessionCreated(wid: Id, sess: Session)
    | SessionDeleted(id: Id)
    | SessionRenamed(id: Id, updated: Session)
    | SessionActivated(id: Id)
    | UnreadCleared(id: Id)
    | ToastDismissed(id: string)

  function ListOf(s: AppState, wid: Id): seq<Session> {
    if wid in s.sessions then s.sessions[wid] else []
  }

  function Lookup(m: map<Id, Id>, id: Id): Option<Id> {
    if id in m then Some(m[id]) else None
  }

  function FirstId(list: seq<Session>): Option<Id> {
    if list == [] then None else Some(list[0].id)
  }

  function Ids(list: seq<Session>): set<Id> {
    set x <- list :: x.id
  }

  predicate Unread(s: AppState, id: Id) {
    id in s.activity && s.activity[id].unread
  }

  function NotOf(ids: set<Id>): Toast -> bool {
    (t: Toast) => t.sessionId !in ids
  }

  function ReplaceWorkspace(id: Id, newer: Workspace): Workspace -> Workspace {
    (w: Workspace) => if w.id == id then newer else w
  }

  function ReplaceSession(id: Id, newer: Session): Session -> Session {
    (x: Session) => if x.id == id then newer else x
  }

  function WithoutToastsOf(toasts: seq<Toast>, ids: set<Id>): seq<Toast> {
    Filter(toasts, NotOf(ids))
  }

  /** Viewing a session: its unread flag and its toasts go, its timestamps stay. */
  function Viewed(s: AppState, id: Id): AppState {
    s.(activity := if Unread(s, id) then s.activity[id := s.activity[id].(unread := false)] else s.activity,
       toasts := WithoutToastsOf(s.toasts, {id}))
  }

  /** Equality on what the sidebar and the tabs show. */
  predicate SameShown(a: Session, b: Session) {
    a.id == b.id && a.title == b.title && a.cwd == b.cwd && a.updatedAt == b.updatedAt
  }

  predicate SessionsEqual(a: seq<Session>, b: seq<Session>) {
    |a| == |b| && forall i | 0 <= i < |a| :: SameShown(a[i], b[i])
  }

  /** The session that `setActiveWorkspace` shows: the remembered one if it still exists, else the first. */
  function NextActive(s: AppState, wid: Id, list: seq<Session>): Option<Id> {
    if wid in s.remembered && s.remembered[wid] in Ids(list) then Some(s.remembered[wid]) else FirstId(list)
  }

  /**
  The session that `deleteWorkspace` shows next: of the first workspace left, the
  remembered one or else the first.
   */
  function ShownAfterWorkspace(s: AppState, id: Id): Option<Id> {
    var workspaces := Filter(s.workspaces, OtherWorkspaces(id));
    if workspaces == [] then None
    else
      var wid := workspaces[0].id;
      if wid in s.remembered - {id} then Some(s.remembered[wid])
      else FirstId(if wid in s.sessions - {id} then s.sessions[wid] else [])
  }

  /** The session that `deleteSession` shows next when the active one is deleted. */
  function ShownAfterSession(s: AppState, wid: Id, id: Id): Option<Id> {
    FirstId(Filter(ListOf(s, wid), OtherSessions(id)))
  }

  function DeleteWorkspaceNext(s: AppState, id: Id): AppState {
    var workspaces := Filter(s.workspaces, OtherWorkspaces(id));
    var removed := Ids(ListOf(s, id));
    s.(workspaces := workspaces, sessions := s.sessions - {id},
       activeWorkspace := if workspaces == [] then None else Some(workspaces[0].id),
       activeSession := ShownAfterWorkspace(s, id), remembered := s.remembered - {id},
       activity := s.activity - removed, toasts := WithoutToastsOf(s.toasts, removed))
  }

  function ActivateWorkspaceNext(s: AppState, id: Id, list: seq<Session>): AppState {
    var active := NextActive(s, id, list);
    var t := if active.Some? then Viewed(s, active.value) else s;
    t.(sessions := s.sessions[id := list], activeWorkspace := Some(id), activeSession := active,
       remembered := if active.Some? then s.remembered[id := active.value] else s.remembered)
  }

  function DeleteSessionNext(s: AppState, id: Id): AppState {
    if s.activeWorkspace.None? then s
    else
      var wid := s.activeWorkspace.value;
      var list := Filter(ListOf(s, wid), OtherSessions(id));
      var active := if s.activeSession == Some(id) then ShownAfterSession(s, wid, id) else s.activeSession;
      var remembered :=
        if Lookup(s.remembered, wid) != Some(id) then s.remembered
        else if active.Some? then s.remembered[wid := active.value]
        else s.remembered - {wid};
      s.(sessions := s.sessions[wid := list], activeSession := active, remembered := remembered,
         activity := s.activity - {id}, toasts := WithoutToastsOf(s.toasts, {id}))
  }

  function ActivateSessionNext(s: AppState, id: Id): AppState {
    Viewed(s, id).(
      activeSession := Some(id),
      remembered := if s.activeWorkspace.Some? then s.remembered[s.activeWorkspace.value := id] else s.remembered)
  }

  function Apply(s: AppState, commit: Commit): AppState {
    match commit
    case Loaded(workspaces, sessions, wid, first, remembered) =>
      s.(workspaces := workspaces, sessions := sessions, activeWorkspace := Some(wid), activeSession := first,
         remembered := remembered)
    case WorkspacesFetched(workspaces) => s.(workspaces := workspaces)
    case WorkspaceCreated(ws, sess) =>
      s.(workspaces := s.workspaces + [ws], sessions := s.sessions[ws.id := [sess]], activeWorkspace := Some(ws.id),
         activeSession := Some(sess.id), remembered := s.remembered[ws.id := sess.id])
    case WorkspaceDeleted(id) => DeleteWorkspaceNext(s, id)
    case WorkspaceRenamed(id, renamed) =>
      s.(workspaces := Map(s.workspaces, ReplaceWorkspace(id, renamed)))
    case WorkspaceActivated(id, list) => ActivateWorkspaceNext(s, id, list)
    case SessionsFetched(wid, list) => s.(sessions := s.sessions[wid := list])
    case Polled(wid, list) =>
      if SessionsEqual(ListOf(s, wid), list) then s else s.(sessions := s.sessions[wid := list])
    case SessionCreated(wid, sess) =>
      s.(sessions := s.sessions[wid := ListOf(s, wid) + [sess]], activeSession := Some(sess.id),
         remembered := s.remembered[wid := sess.id])
    case SessionDeleted(id) => DeleteSessionNext(s, id)
    case SessionRenamed(id, updated) =>
      if s.activeWorkspace.None? then s
      else
        var wid := s.activeWorkspace.value;
        s.(sessions := s.sessions[wid := Map(ListOf(s, wid), ReplaceSession(id, updated))])
    case SessionActivated(id) => ActivateSessionNext(s, id)
    case UnreadCleared(id) => Viewed(s, id)
    case ToastDismissed(id) => s.(toasts := Filter(s.toasts, (t: Toast) => t.id != id))
  }

  /** The sessions whose tracking a commit cancels. */
  function Cancels(s: AppState, commit: Commit): set<Id> {
    match commit
    case WorkspaceDeleted(id) => Ids(ListOf(s, id))
    case WorkspaceActivated(id, list) =>
      var active := NextActive(s, id, list);
      if active.Some? then {active.value} else {}
    case SessionDeleted(id) => {id}
    case SessionActivated(id) => {id}
    case UnreadCleared(id) => {id}
    case _ => {}
  }

  // ---------- the output tracker ----------

  datatype Track = Track(startedAt: nat, lastByteAt: nat)

  datatype Timer = Timer(sid: Id, due: nat)

  /** `tracks` and `timers` are the two module-level maps; `queue` holds the page's pending timeouts. */
  datatype Tracker = Tracker(tracks: map<Id, Track>, timers: map<Id, nat>, queue: map<nat, Timer>, nextTimer: nat)

  function Cancel(t: Tracker, ids: set<Id>): Tracker {
    t.(tracks := t.tracks - ids,
       timers := t.timers - ids,
       queue := t.queue - (set id | id in ids && id in t.timers :: t.timers[id]))
  }

  function Mark(t: Tracker, sid: Id, now: nat): Tracker {
    var track := if sid in t.tracks then t.tracks[sid].(lastByteAt := now) else Track(now, now);
    var queue := if sid in t.timers then t.queue - {t.timers[sid]} else t.queue;
    Tracker(t.tracks[sid := track], t.timers[sid := t.nextTimer],
            queue[t.nextTimer := Timer(sid, now + IDLE_MS)], t.nextTimer + 1)
  }

  /** What the timeout callback forgets before it decides anything. */
  function Expire(t: Tracker, k: nat): Tracker
    requires k in t.queue
  {
    var sid := t.queue[k].sid;
    t.(tracks := t.tracks - {sid}, timers := t.timers - {sid}, queue := t.queue - {k})
  }

  function ToastId(sid: Id, at: nat): string {
    sid + "-" + Text.Decimal(at)
  }

  predicate Qualifies(track: Track) {
    track.lastByteAt - track.startedAt >= MIN_BUSY_MS
  }

  /** The latest toasts, as many as fit. */
  function Capped(stack: seq<Toast>): seq<Toast> {
    if |stack| > MAX_TOASTS then stack[|stack| - MAX_TOASTS..] else stack
  }

  /** The end of a burst lights the badge and, when the session is in a loaded list, stacks a toast. */
  function Notify(s: AppState, sid: Id, track: Track, found: Option<Session>, wid: Id): AppState {
    if Unread(s, sid) then s
    else
      var at := track.lastByteAt;
      var t := s.(activity := s.activity[sid := Activity(true, at, at)]);
      if found.None? || wid == "" then t
      else
        var stack := WithoutToastsOf(s.toasts, {sid}) + [Toast(ToastId(sid, at), sid, wid, found.value.title, at)];
        t.(toasts := Capped(stack))
  }

  // ---------- one event of the page ----------

  /** `clock` is the time of the latest event that read it. */
  datatype Client = Client(app: AppState, tracker: Tracker, clock: nat)

  /** `found` and `wid` are the session and the list in which the callback's search finds it. */
  datatype Step =
    | Output(sid: Id, visible: bool, now: nat)
    | Fire(k: nat, visible: bool, now: nat, found: Option<Session>, wid: Id)
    | Set(commit: Commit)

  predicate Foreground(s: AppState, sid: Id, visible: bool) {
    s.activeSession == Some(sid) && visible
  }

  /** `found` is the first session with this id in the loaded list of `wid`, or none has it. */
  ghost predicate FoundIn(s: AppState, sid: Id, found: Option<Session>, wid: Id) {
    match found
    case None => forall w <- s.sessions :: sid !in Ids(s.sessions[w])
    case Some(x) =>
      wid in s.sessions && exists i | 0 <= i < |s.sessions[wid]| ::
        s.sessions[wid][i] == x && x.id == sid && sid !in Ids(s.sessions[wid][..i])
  }

  /**
  The clock never runs back. All timeouts have the same delay, so the page runs
  them in the order in which they were set, none before it is due.
   */
  ghost predicate Enabled(c: Client, step: Step) {
    match step
    case Output(_, _, now) => c.clock <= now
    case Fire(k, _, now, found, wid) =>
      && c.clock <= now
      && k in c.tracker.queue && c.tracker.queue[k].due <= now
      && (forall j <- c.tracker.queue :: c.tracker.queue[k].due <= c.tracker.queue[j].due)
      && FoundIn(c.app, c.tracker.queue[k].sid, found, wid)
    case Set(_) => true
  }

  function FireNext(c: Client, k: nat, visible: bool, now: nat, found: Option<Session>, wid: Id): Client
    requires k in c.tracker.queue
  {
    var sid := c.tracker.queue[k].sid;
    var tracker := Expire(c.tracker, k);
    var app :=
      if sid !in c.tracker.tracks || !Qualifies(c.tracker.tracks[sid]) || Foreground(c.app, sid, visible) then c.app
      else Notify(c.app, sid, c.tracker.tracks[sid], found, wid);
    Client(app, tracker, now)
  }

  ghost function Next(c: Client, step: Step): Client
    requires Enabled(c, step)
  {
    match step
    case Output(sid, visible, now) =>
      var tracker := if Foreground(c.app, sid, visible) then Cancel(c.tracker, {sid}) else Mark(c.tracker, sid, now);
      Client(c.app, tracker, now)
    case Fire(k, visible, now, found, wid) => FireNext(c, k, visible, now, found, wid)
    case Set(commit) => Client(Apply(c.app, commit), Cancel(c.tracker, Cancels(c.app, commit)), c.clock)
  }

  const START := Client(EMPTY, Tracker(map[], map[], map[], 0), 0)

  datatype Run = Run(states: seq<Client>, steps: seq<Step>) {
    ghost predicate Valid() {
      && |states| == |steps| + 1
      && forall k | 0 <= k < |steps| ::
           Enabled(states[k], steps[k]) && states[k + 1] == Next(states[k], steps[k])
    }
  }

  /** A run goes on with any enabled step. */
  lemma Continue(r: Run, step: Step) returns (s: Run)
    requires r.Valid() && Enabled(Last(r.states), step)
    ensures s.Valid() && s.steps == r.steps + [step] && s.states == r.states + [Next(Last(r.states), step)]
  {
    s := Run(r.states + [Next(Last(r.states), step)], r.steps + [step]);
  }
}
