/** Whole runs of one client against the server, from `init` on. */
module ClientRuns {
  import opened Prelude
  import opened Model
  import opened ClientState
  import opened ClientCache
  import T = Tables

  ghost predicate ActiveLoaded(app: AppState) {
    app.activeWorkspace.Some? ==> app.activeWorkspace.value in app.sessions
  }

  /** A delete, or a rename that changes the row, of a session listed under a workspace other than the active one. */
  ghost predicate Breaks(db: T.Db, app: AppState, op: Op) {
    match op
    case DeleteSession(id) => Elsewhere(app, id)
    case RenameSession(id, title, now) => Elsewhere(app, id) && !AlreadyNamed(db, id, title, now)
    case _ => false
  }

  /** Sessions are created in, and picked from, the active workspace. */
  ghost predicate OnActive(app: AppState, op: Op) {
    match op
    case CreateSession(wid, _, _, _) => app.activeWorkspace == Some(wid)
    case SetActiveSession(id) => app.activeWorkspace.Some? && id in Ids(ListOf(app, app.activeWorkspace.value))
    case _ => true
  }

  ghost predicate Synced(db: T.Db, app: AppState) {
    T.DbOk(db) && Coherent(db, app) && ActiveLoaded(app)
  }

  lemma SyncedInit(db: T.Db, app: AppState, op: Op)
    requires T.DbOk(db) && op.Init? && Succeeds(db, op)
    ensures Synced(Server(db, op), ClientNext(db, app, op))
  {
    ServerOk(db, op);
    InitCoherent(db, app, op);
    InitDbOk(db, op);
    var d, wid := InitDb(db, op), InitWid(db, op);
    assert InitLists(d, op.cwd)[d.workspaces[0].id] == Listing(d, wid, op.cwd);
  }

  lemma SyncedCreateWorkspace(db: T.Db, app: AppState, op: Op)
    requires Synced(db, app) && op.CreateWorkspace? && Succeeds(db, op)
    ensures Synced(Server(db, op), ClientNext(db, app, op))
  {
    var create := T.CreateWorkspace(op.wsId, op.name, op.wsAt.created, op.wsAt.updated);
    var d := T.Next(db, create);
    T.DbOkStep(db, create);
    ServerOk(db, op);
    CreateWorkspaceCoherent(db, d, app, T.NewWorkspace(db, op.wsId, op.name, op.wsAt.created, op.wsAt.updated),
                            T.NewSession(d, op.wsId, "Terminal", op.sessId, op.sessAt.created, op.sessAt.updated));
  }

  lemma SyncedCreateSession(db: T.Db, app: AppState, op: Op)
    requires Synced(db, app) && op.CreateSession? && Succeeds(db, op)
    ensures Synced(Server(db, op), ClientNext(db, app, op))
  {
    ServerOk(db, op);
    CreateSessionCoherent(db, app, T.NewSession(db, op.wid, op.title, op.sessId, op.sessAt.created, op.sessAt.updated));
  }

  /** The workspace that a deletion makes active is the first that is left. */
  lemma NextIsLoaded(app: AppState, id: Id)
    requires var s := DeleteWorkspaceNext(app, id);
             forall i | 0 <= i < |s.workspaces| :: s.workspaces[i].id in s.sessions
    ensures ActiveLoaded(DeleteWorkspaceNext(app, id))
  {
  }

  lemma SyncedDeleteWorkspace(db: T.Db, app: AppState, op: Op)
    requires Synced(db, app) && op.DeleteWorkspace?
    ensures Synced(Server(db, op), ClientNext(db, app, op))
  {
    ServerOk(db, op);
    DeleteWorkspaceCoherent(db, app, op.id);
    NextIsLoaded(app, op.id);
  }

  lemma SyncedDeleteSession(db: T.Db, app: AppState, op: Op)
    requires Synced(db, app) && op.DeleteSession?
    ensures Synced(Server(db, op), ClientNext(db, app, op)) <==> !Breaks(db, app, op)
  {
    ServerOk(db, op);
    assert Server(db, op) == T.DeleteSession(db, op.id);
    assert ClientNext(db, app, op) == DeleteSessionNext(app, op.id);
    DeleteSessionCoherent(db, app, op.id);
  }

  lemma SyncedFetch(db: T.Db, app: AppState, op: Op)
    requires Synced(db, app) && (op.SetActiveWorkspace? || op.FetchSessions? || op.PollActive?)
    ensures Synced(Server(db, op), ClientNext(db, app, op))
  {
    if op.SetActiveWorkspace? {
      SetActiveWorkspaceCoherent(db, app, op);
    } else {
      FetchCoherent(db, app, op);
    }
  }

  lemma SyncedSelect(db: T.Db, app: AppState, op: Op)
    requires Synced(db, app) && (op.FetchWorkspaces? || op.SetActiveSession?)
    ensures Synced(Server(db, op), ClientNext(db, app, op))
  {
  }

  lemma SyncedRenameWorkspace(db: T.Db, app: AppState, op: Op)
    requires Synced(db, app) && op.RenameWorkspace? && Succeeds(db, op)
    ensures Synced(Server(db, op), ClientNext(db, app, op))
  {
    ServerOk(db, op);
    RenamedListing(db, op.id, op.name, op.now);
    var d := T.UpdateWorkspace(db, op.id, op.name, op.now);
    RenameWorkspaceCoherent(db, d, app, WorkspaceRow(d.workspaces, op.id).value);
  }

  lemma RenamedStates(db: T.Db, app: AppState, op: Op)
    requires T.DbOk(db) && op.RenameSession? && T.HasSession(db, op.id)
    ensures var d := T.UpdateSession(db, op.id, op.title, op.now); var row := RowOf(d.sessions, op.id);
            Server(db, op) == d && row.Some? && ClientNext(db, app, op) == Apply(app, SessionRenamed(op.id, row.value))
  {
    SessionRowAfter(db, op.id, op.title, op.now);
  }

  lemma SyncedRenameSession(db: T.Db, app: AppState, op: Op)
    requires Synced(db, app) && op.RenameSession? && Succeeds(db, op)
    ensures Synced(Server(db, op), ClientNext(db, app, op)) <==> !Breaks(db, app, op)
  {
    ServerOk(db, op);
    RenamedStates(db, app, op);
    RenameSessionCoherent(db, app, op.id, op.title, op.now);
  }

  /** An operation keeps the cache exactly if it is no delete or rename, with effect, outside the active workspace. */
  lemma SyncedStep(db: T.Db, app: AppState, op: Op)
    requires Synced(db, app) && Succeeds(db, op)
    ensures Synced(Server(db, op), ClientNext(db, app, op)) <==> !Breaks(db, app, op)
  {
    match op
    case Init(_, _, _, _, _) => SyncedInit(db, app, op);
    case FetchWorkspaces => SyncedSelect(db, app, op);
    case CreateWorkspace(_, _, _, _, _) => SyncedCreateWorkspace(db, app, op);
    case DeleteWorkspace(_) => SyncedDeleteWorkspace(db, app, op);
    case RenameWorkspace(_, _, _) => SyncedRenameWorkspace(db, app, op);
    case SetActiveWorkspace(_, _) => SyncedFetch(db, app, op);
    case FetchSessions(_, _) => SyncedFetch(db, app, op);
    case PollActive(_) => SyncedFetch(db, app, op);
    case CreateSession(_, _, _, _) => SyncedCreateSession(db, app, op);
    case DeleteSession(_) => SyncedDeleteSession(db, app, op);
    case RenameSession(_, _, _) => SyncedRenameSession(db, app, op);
    case SetActiveSession(_) => SyncedSelect(db, app, op);
  }

  // ---------- the selection ----------

  lemma SelectedInit(db: T.Db, app: AppState, op: Op)
    requires T.DbOk(db) && op.Init? && Succeeds(db, op)
    ensures Selected(ClientNext(db, app, op))
  {
    InitDbOk(db, op);
    var d, wid := InitDb(db, op), InitWid(db, op);
    assert InitLists(d, op.cwd)[d.workspaces[0].id] == Listing(d, wid, op.cwd);
    var commit := InitCommit(db, op);
    forall w | w in commit.sessions
      ensures RememberedOk(commit.sessions[w], Lookup(commit.remembered, w))
    {
      if commit.sessions[w] != [] {
        assert commit.sessions[w][0] in commit.sessions[w];
      }
    }
  }

  /** A list fetched for a workspace has the ids of the list it replaces. */
  lemma FetchedIds(db: T.Db, app: AppState, wid: Id, cwd: map<Id, string>)
    requires Synced(db, app)
    ensures Ids(Listing(db, wid, cwd)) == Ids(ListOf(app, wid)) && |Listing(db, wid, cwd)| == |ListOf(app, wid)|
  {
    StripListing(db, wid, cwd);
    StripIds(Listing(db, wid, cwd));
    StripIds(ListOf(app, wid));
    if wid !in app.sessions {
      if T.HasWorkspace(db, wid) {
        LoadedWorkspace(db, app, wid);
      } else {
        NoRowsOutside(db, wid);
      }
    }
  }

  lemma RenamedIds(list: seq<Session>, id: Id, row: Session)
    requires row.id == id
    ensures Ids(Map(list, ReplaceSession(id, row))) == Ids(list)
  {
    var renamed := Map(list, ReplaceSession(id, row));
    forall x <- list
      ensures x.id in Ids(renamed)
    {
      var i :| 0 <= i < |list| && list[i] == x;
      assert renamed[i].id == x.id;
    }
    forall x <- renamed
      ensures x.id in Ids(list)
    {
      var i :| 0 <= i < |list| && renamed[i] == x;
      assert list[i].id == x.id;
    }
  }

  lemma SelectedCreateSession(db: T.Db, app: AppState, op: Op)
    requires Synced(db, app) && Selected(app) && op.CreateSession? && Succeeds(db, op)
    ensures Selected(ClientNext(db, app, op)) <==> OnActive(app, op)
  {
    var x := T.NewSession(db, op.wid, op.title, op.sessId, op.sessAt.created, op.sessAt.updated);
    forall w | w in app.sessions
      ensures x.id !in Ids(app.sessions[w])
    {
      StripIds(app.sessions[w]);
      T.ListingsAreRows(db, w);
      FilterMembers(db.sessions, T.InWorkspace(w));
      var rows := T.ListSessions(db, w);
      forall y <- rows
        ensures y.id != x.id
      {
        assert y in db.sessions;
      }
    }
    CreateSessionSelected(app, op.wid, x);
  }

  lemma SelectedRename(db: T.Db, app: AppState, op: Op)
    requires Synced(db, app) && Selected(app) && op.RenameSession? && Succeeds(db, op)
    ensures Selected(ClientNext(db, app, op))
  {
    SessionRowAfter(db, op.id, op.title, op.now);
    var row := RowOf(T.UpdateSession(db, op.id, op.title, op.now).sessions, op.id).value;
    assert ClientNext(db, app, op) == Apply(app, SessionRenamed(op.id, row));
    RenamedSelected(app, op.id, row);
  }

  lemma RenamedSelected(app: AppState, id: Id, row: Session)
    requires Selected(app) && row.id == id
    ensures Selected(Apply(app, SessionRenamed(id, row)))
  {
    if app.activeWorkspace.Some? {
      var wid := app.activeWorkspace.value;
      RenamedIds(ListOf(app, wid), id, row);
      ReplaceListSelected(app, wid, Map(ListOf(app, wid), ReplaceSession(id, row)));
    }
  }

  lemma SelectedFetch(db: T.Db, app: AppState, wid: Id, cwd: map<Id, string>)
    requires Synced(db, app) && Selected(app)
    ensures Selected(Apply(app, SessionsFetched(wid, Listing(db, wid, cwd))))
    ensures Selected(Apply(app, Polled(wid, Listing(db, wid, cwd))))
  {
    var list := Listing(db, wid, cwd);
    FetchedIds(db, app, wid, cwd);
    ReplaceListSelected(app, wid, list);
    assert Apply(app, SessionsFetched(wid, list)) == app.(sessions := app.sessions[wid := list]);
    assert Apply(app, Polled(wid, list)) in {app, app.(sessions := app.sessions[wid := list])};
  }

  lemma SelectedCreateWorkspace(app: AppState, w: Workspace, x: Session)
    requires Selected(app)
    ensures Selected(Apply(app, WorkspaceCreated(w, x)))
  {
    var after := Apply(app, WorkspaceCreated(w, x));
    assert [x][0] in [x];
    forall id | id in after.sessions
      ensures RememberedOk(after.sessions[id], Lookup(after.remembered, id))
    {
      if id != w.id {
        assert RememberedOk(app.sessions[id], Lookup(app.remembered, id));
      }
    }
  }

  lemma SelectedDelete(db: T.Db, app: AppState, op: Op)
    requires Synced(db, app) && Selected(app) && (op.DeleteWorkspace? || op.DeleteSession?)
    ensures Selected(ClientNext(db, app, op))
  {
    if op.DeleteWorkspace? {
      DeleteWorkspaceSelected(app, op.id);
    } else {
      DeleteSessionSelected(app, op.id);
    }
  }

  lemma SelectedWorkspaces(db: T.Db, app: AppState, op: Op)
    requires Selected(app) && (op.FetchWorkspaces? || op.RenameWorkspace? || op.CreateWorkspace?)
    ensures Selected(ClientNext(db, app, op))
  {
    if op.CreateWorkspace? {
      SelectedCreateWorkspace(app, CommitOf(db, app, op).value.ws, CommitOf(db, app, op).value.sess);
    }
  }

  lemma SelectedActivate(db: T.Db, app: AppState, op: Op)
    requires Selected(app) && op.SetActiveWorkspace?
    ensures Selected(ClientNext(db, app, op))
  {
    var list := if op.id in app.sessions then app.sessions[op.id] else Listing(db, op.id, op.cwd);
    assert ClientNext(db, app, op) == ActivateWorkspaceNext(app, op.id, list);
    SetActiveWorkspaceSelected(app, op.id, list);
  }

  lemma SelectedPoll(db: T.Db, app: AppState, op: Op)
    requires Synced(db, app) && Selected(app) && op.PollActive?
    ensures Selected(ClientNext(db, app, op))
  {
    if app.activeWorkspace.Some? {
      SelectedFetch(db, app, app.activeWorkspace.value, op.cwd);
    }
  }

  /** Exactly the creations in, and picks from, another workspace break the selection. */
  lemma SelectedStep(db: T.Db, app: AppState, op: Op)
    requires Synced(db, app) && Selected(app) && Succeeds(db, op)
    ensures Selected(ClientNext(db, app, op)) <==> OnActive(app, op)
  {
    match op
    case Init(_, _, _, _, _) => SelectedInit(db, app, op);
    case FetchWorkspaces => SelectedWorkspaces(db, app, op);
    case CreateWorkspace(_, _, _, _, _) => SelectedWorkspaces(db, app, op);
    case RenameWorkspace(_, _, _) => SelectedWorkspaces(db, app, op);
    case DeleteWorkspace(_) => SelectedDelete(db, app, op);
    case DeleteSession(_) => SelectedDelete(db, app, op);
    case SetActiveWorkspace(_, _) => SelectedActivate(db, app, op);
    case FetchSessions(id, cwd) => SelectedFetch(db, app, id, cwd);
    case PollActive(_) => SelectedPoll(db, app, op);
    case CreateSession(_, _, _, _) => SelectedCreateSession(db, app, op);
    case RenameSession(_, _, _) => SelectedRename(db, app, op);
    case SetActiveSession(id) => SetActiveSessionSelected(app, id);
  }

  // ---------- runs ----------

  /** Operations one at a time: `dbs[k]` and `apps[k]` are the two sides before `ops[k]`. */
  datatype Run = Run(dbs: seq<T.Db>, apps: seq<AppState>, ops: seq<Op>) {
    ghost predicate Valid() {
      && |dbs| == |ops| + 1 && |apps| == |ops| + 1
      && forall k | 0 <= k < |ops| ::
           && Succeeds(dbs[k], ops[k])
           && dbs[k + 1] == Server(dbs[k], ops[k])
           && apps[k + 1] == ClientNext(dbs[k], apps[k], ops[k])
    }

    /** The page calls `init` first, on whatever the server holds. */
    ghost predicate FromInit() {
      Valid() && |ops| > 0 && ops[0].Init? && T.DbOk(dbs[0])
    }
  }

  /** After `k + 1` operations cache and tables agree. */
  ghost predicate SyncedAt(r: Run, k: nat)
    requires k + 1 < |r.dbs| && k + 1 < |r.apps|
  {
    Synced(r.dbs[k + 1], r.apps[k + 1])
  }

  /** The operation after those breaks the cache. */
  ghost predicate BreaksAt(r: Run, k: nat)
    requires k + 1 < |r.ops| && k + 1 < |r.dbs| && k + 1 < |r.apps|
  {
    Breaks(r.dbs[k + 1], r.apps[k + 1], r.ops[k + 1])
  }

  /** The selection is right, too. */
  ghost predicate RightAt(r: Run, k: nat)
    requires k + 1 < |r.dbs| && k + 1 < |r.apps|
  {
    SyncedAt(r, k) && Selected(r.apps[k + 1])
  }

  /** The next operation breaks the cache, or creates in or picks from a workspace that is not active. */
  ghost predicate StraysAt(r: Run, k: nat)
    requires k + 1 < |r.ops| && k + 1 < |r.dbs| && k + 1 < |r.apps|
  {
    BreaksAt(r, k) || !OnActive(r.apps[k + 1], r.ops[k + 1])
  }

  lemma AfterInit(r: Run)
    requires r.FromInit()
    ensures SyncedAt(r, 0) && RightAt(r, 0)
  {
    SyncedInit(r.dbs[0], r.apps[0], r.ops[0]);
    SelectedInit(r.dbs[0], r.apps[0], r.ops[0]);
  }

  lemma SyncedAtStep(r: Run, m: nat)
    requires r.Valid() && m + 1 < |r.ops| && SyncedAt(r, m)
    ensures SyncedAt(r, m + 1) <==> !BreaksAt(r, m)
  {
    SyncedStep(r.dbs[m + 1], r.apps[m + 1], r.ops[m + 1]);
  }

  lemma RightAtStep(r: Run, m: nat)
    requires r.Valid() && m + 1 < |r.ops| && RightAt(r, m)
    ensures RightAt(r, m + 1) <==> !StraysAt(r, m)
  {
    SyncedAtStep(r, m);
    SelectedStep(r.dbs[m + 1], r.apps[m + 1], r.ops[m + 1]);
  }

  ghost function SyncedUpTo(r: Run, n: nat): (f: nat -> bool)
    requires n + 1 < |r.dbs| && n + 1 < |r.apps|
    ensures forall k: nat | k <= n :: f(k) <==> SyncedAt(r, k)
  {
    (k: nat) => k <= n && SyncedAt(r, k)
  }

  ghost function BreaksUpTo(r: Run, n: nat): (f: nat -> bool)
    requires n < |r.ops| && n < |r.dbs| && n < |r.apps|
    ensures forall k: nat | k < n :: f(k) <==> BreaksAt(r, k)
  {
    (k: nat) => k < n && BreaksAt(r, k)
  }

  lemma SyncedSteps(r: Run, n: nat)
    requires r.FromInit() && n < |r.ops|
    ensures var good, bad := SyncedUpTo(r, n), BreaksUpTo(r, n);
            good(0) && forall m: nat {:trigger bad(m)} | m < n && good(m) :: good(m + 1) <==> !bad(m)
  {
    var good, bad := SyncedUpTo(r, n), BreaksUpTo(r, n);
    AfterInit(r);
    forall m: nat {:trigger bad(m)} | m < n && good(m)
      ensures good(m + 1) <==> !bad(m)
    {
      SyncedAtStep(r, m);
    }
  }

  lemma SyncedMeans(r: Run, n: nat)
    requires n < |r.ops| && n + 1 < |r.dbs| && n + 1 < |r.apps|
    requires var good, bad := SyncedUpTo(r, n), BreaksUpTo(r, n);
             good(0) && forall m: nat {:trigger bad(m)} | m < n && good(m) :: good(m + 1) <==> !bad(m)
    ensures (forall k: nat | k <= n :: SyncedAt(r, k)) <==> (forall k: nat | k < n :: !BreaksAt(r, k))
  {
    AlwaysIffNever(SyncedUpTo(r, n), BreaksUpTo(r, n), n);
  }

  ghost function RightUpTo(r: Run, n: nat): (f: nat -> bool)
    requires n + 1 < |r.dbs| && n + 1 < |r.apps|
    ensures forall k: nat | k <= n :: f(k) <==> RightAt(r, k)
  {
    (k: nat) => k <= n && RightAt(r, k)
  }

  ghost function StraysUpTo(r: Run, n: nat): (f: nat -> bool)
    requires n < |r.ops| && n < |r.dbs| && n < |r.apps|
    ensures forall k: nat | k < n :: f(k) <==> StraysAt(r, k)
  {
    (k: nat) => k < n && StraysAt(r, k)
  }

  lemma RightStart(r: Run, n: nat)
    requires r.FromInit() && n < |r.ops|
    ensures RightUpTo(r, n)(0)
  {
    AfterInit(r);
  }

  lemma RightUpToStep(r: Run, n: nat, m: nat)
    requires r.Valid() && m < n < |r.ops| && RightUpTo(r, n)(m)
    ensures RightUpTo(r, n)(m + 1) <==> !StraysUpTo(r, n)(m)
  {
    RightAtStep(r, m);
  }

  lemma RightSteps(r: Run, n: nat)
    requires r.FromInit() && n < |r.ops|
    ensures var good, bad := RightUpTo(r, n), StraysUpTo(r, n);
            good(0) && forall m: nat {:trigger bad(m)} | m < n && good(m) :: good(m + 1) <==> !bad(m)
  {
    var good, bad := RightUpTo(r, n), StraysUpTo(r, n);
    RightStart(r, n);
    forall m: nat {:trigger bad(m)} | m < n && good(m)
      ensures good(m + 1) <==> !bad(m)
    {
      RightUpToStep(r, n, m);
    }
  }

  lemma RightMeans(r: Run, n: nat)
    requires n < |r.ops| && n + 1 < |r.dbs| && n + 1 < |r.apps|
    requires var good, bad := RightUpTo(r, n), StraysUpTo(r, n);
             good(0) && forall m: nat {:trigger bad(m)} | m < n && good(m) :: good(m + 1) <==> !bad(m)
    ensures (forall k: nat | k <= n :: RightAt(r, k)) <==> (forall k: nat | k < n :: !StraysAt(r, k))
  {
    AlwaysIffNever(RightUpTo(r, n), StraysUpTo(r, n), n);
  }

  /**
  Over a sequential run from `init`, the workspace list and every loaded session
  list equal the server's ordered lists apart from `cwd` after each operation if
  and only if none deletes, or renames with effect, a session outside the active
  workspace.
   */
  lemma CacheCoherence(r: Run, n: nat)
    requires r.FromInit() && n < |r.ops|
    ensures (forall k: nat | k <= n :: SyncedAt(r, k)) <==> (forall k: nat | k < n :: !BreaksAt(r, k))
  {
    SyncedSteps(r, n);
    SyncedMeans(r, n);
  }

  /**
  Besides, the remembered and active sessions are right after each operation if
  and only if sessions are also created in, and picked from, the active workspace
  only.
   */
  lemma ActiveSelection(r: Run, n: nat)
    requires r.FromInit() && n < |r.ops|
    ensures (forall k: nat | k <= n :: RightAt(r, k)) <==> (forall k: nat | k < n :: !StraysAt(r, k))
  {
    RightSteps(r, n);
    RightMeans(r, n);
  }

  // ---------- runs that stray ----------

  lemma Continue(r: Run, op: Op) returns (s: Run)
    requires r.FromInit() && Succeeds(Last(r.dbs), op)
    ensures s.FromInit() && s.ops == r.ops + [op]
    ensures Front(s.dbs) == r.dbs && Last(s.dbs) == Server(Last(r.dbs), op)
    ensures Front(s.apps) == r.apps && Last(s.apps) == ClientNext(Last(r.dbs), Last(r.apps), op)
  {
    s := Run.Run(r.dbs + [Server(Last(r.dbs), op)], r.apps + [ClientNext(Last(r.dbs), Last(r.apps), op)], r.ops + [op]);
  }

  /** Session `a` is listed under `w`, and not under the workspace that is active. */
  ghost predicate Crossed(db: T.Db, app: AppState, w: Id, a: Id) {
    && Synced(db, app) && Selected(app) && T.HasWorkspace(db, w) && T.HasSession(db, a)
    && app.activeWorkspace.Some? && app.activeWorkspace.value != w
    && w in app.sessions && a in Ids(app.sessions[w])
    && a !in Ids(ListOf(app, app.activeWorkspace.value))
  }

  lemma FirstLists(op: Op) returns (ws: Workspace, x: Session)
    requires op.Init?
    ensures Succeeds(T.Db([], []), op)
    ensures ws.id == op.wsId && x.id == op.sessId && x.workspaceId == op.wsId && x.updatedAt == op.sessAt.updated
    ensures Server(T.Db([], []), op) == T.Db([ws], [x])
    ensures ClientNext(T.Db([], []), EMPTY, op).sessions == map[op.wsId := [x]]
  {
    var empty := T.Db([], []);
    InitDbOk(empty, op);
    InitListsCover(InitDb(empty, op), op.cwd);
    assert T.ListWorkspaces(empty) == [] && T.ListSessions(InitDb(empty, op), op.wsId) == [];
    ws, x := Server(empty, op).workspaces[0], Server(empty, op).sessions[0];
  }

  lemma StartRun(op: Op) returns (r: Run)
    requires op.Init? && Succeeds(T.Db([], []), op)
    ensures r.FromInit() && r.ops == [op] && |r.dbs| == 2 && |r.apps| == 2 && r.dbs[0] == T.Db([], [])
    ensures r.dbs[1] == Server(T.Db([], []), op) && r.apps[1] == ClientNext(T.Db([], []), EMPTY, op)
  {
    var empty := T.Db([], []);
    r := Run.Run([empty, Server(empty, op)], [EMPTY, ClientNext(empty, EMPTY, op)], [op]);
  }

  lemma FirstPage(w: Id, a: Id, now: Stamp) returns (r: Run, ws: Workspace, x: Session)
    ensures r.FromInit() && |r.ops| == 1 && |r.dbs| == 2 && r.dbs[0] == T.Db([], [])
    ensures ws.id == w && x.id == a && x.workspaceId == w && x.updatedAt == now.updated
    ensures r.dbs[1] == T.Db([ws], [x]) && r.apps[1].sessions == map[w := [x]]
    ensures Synced(r.dbs[1], r.apps[1]) && Selected(r.apps[1])
  {
    var empty, op := T.Db([], []), Init(w, a, now, now, map[]);
    ws, x := FirstLists(op);
    SyncedInit(empty, EMPTY, op);
    SelectedInit(empty, EMPTY, op);
    r := StartRun(op);
  }

  lemma SecondPage(db: T.Db, app: AppState, op: Op, ws: Workspace, x: Session)
    requires db == T.Db([ws], [x]) && app.sessions == map[ws.id := [x]]
    requires op.CreateWorkspace? && op.name != "" && op.wsId != ws.id && op.sessId != x.id
    ensures var d, s := Server(db, op), ClientNext(db, app, op);
            && Succeeds(db, op) && |d.sessions| == 2 && d.sessions[0] == x && d.sessions[1].id == op.sessId
            && T.HasWorkspace(d, ws.id) && T.HasSession(d, x.id)
            && s.activeWorkspace == Some(op.wsId) && s.sessions == map[ws.id := [x], op.wsId := [d.sessions[1]]]
  {
    var d, s := Server(db, op), ClientNext(db, app, op);
    var between := T.Next(db, T.CreateWorkspace(op.wsId, op.name, op.wsAt.created, op.wsAt.updated));
    assert between.workspaces[0] == ws && between.workspaces[1].id == op.wsId && between.sessions == [x];
    assert d.workspaces[0] == ws && d.sessions[0] == x && d.sessions[1].id == op.sessId;
    assert s.sessions[op.wsId] == [d.sessions[1]] && s.sessions[ws.id] == [x];
  }

  lemma TwoListsCross(db: T.Db, app: AppState, w: Id, v: Id, x: Session, y: Session)
    requires Synced(db, app) && Selected(app) && T.HasWorkspace(db, w) && T.HasSession(db, x.id)
    requires app.activeWorkspace == Some(v) && v != w && x.id != y.id && app.sessions == map[w := [x], v := [y]]
    ensures Crossed(db, app, w, x.id)
  {
    assert x in app.sessions[w];
  }

  lemma SecondCrossed(db: T.Db, app: AppState, op: Op, ws: Workspace, x: Session)
    requires db == T.Db([ws], [x]) && app.sessions == map[ws.id := [x]] && Synced(db, app) && Selected(app)
    requires op.CreateWorkspace? && op.name != "" && op.wsId != ws.id && op.sessId != x.id
    ensures Succeeds(db, op) && Crossed(Server(db, op), ClientNext(db, app, op), ws.id, x.id)
  {
    SecondPage(db, app, op, ws, x);
    SyncedCreateWorkspace(db, app, op);
    SelectedWorkspaces(db, app, op);
    TwoListsCross(Server(db, op), ClientNext(db, app, op), ws.id, op.wsId, x, Server(db, op).sessions[1]);
  }

  lemma NotYetNamed(db: T.Db, a: Id, title: string, later: int)
    requires |db.sessions| == 2 && db.sessions[0].updatedAt != later && db.sessions[1].id != a
    ensures !AlreadyNamed(db, a, title, later)
  {
  }

  /** `init` on an empty server, then a second workspace. */
  lemma CrossedRun(w: Id, a: Id, v: Id, b: Id, now: Stamp) returns (r: Run)
    requires w != v && a != b
    ensures r.FromInit() && |r.ops| == 2 && Crossed(Last(r.dbs), Last(r.apps), w, a)
    ensures var rows := Last(r.dbs).sessions;
            |rows| == 2 && rows[0].id == a && rows[0].updatedAt == now.updated && rows[1].id == b
  {
    var ws, x;
    r, ws, x := FirstPage(w, a, now);
    var op := CreateWorkspace("Second", v, b, now, now);
    SecondPage(r.dbs[1], r.apps[1], op, ws, x);
    SecondCrossed(r.dbs[1], r.apps[1], op, ws, x);
    r := Continue(r, op);
  }

  lemma CrossedIsElsewhere(db: T.Db, app: AppState, w: Id, a: Id)
    requires Crossed(db, app, w, a)
    ensures T.DbOk(db) && Coherent(db, app) && ActiveLoaded(app) && Elsewhere(app, a) && T.HasSession(db, a)
  {
    assert app.activeWorkspace != Some(w) && a in Ids(app.sessions[w]);
  }

  lemma CrossedDelete(db: T.Db, app: AppState, a: Id)
    requires T.DbOk(db) && Coherent(db, app) && ActiveLoaded(app) && Elsewhere(app, a)
    ensures !Coherent(Server(db, DeleteSession(a)), ClientNext(db, app, DeleteSession(a)))
  {
    assert Server(db, DeleteSession(a)) == T.DeleteSession(db, a);
    assert ClientNext(db, app, DeleteSession(a)) == DeleteSessionNext(app, a);
    DeleteSessionCoherent(db, app, a);
  }

  lemma CrossedRename(db: T.Db, app: AppState, a: Id, title: string, now: int)
    requires T.DbOk(db) && Coherent(db, app) && ActiveLoaded(app) && Elsewhere(app, a)
    requires T.HasSession(db, a) && !AlreadyNamed(db, a, title, now)
    ensures !Coherent(Server(db, RenameSession(a, title, now)), ClientNext(db, app, RenameSession(a, title, now)))
  {
    RenamedStates(db, app, RenameSession(a, title, now));
    RenameSessionCoherent(db, app, a, title, now);
  }

  lemma NotYetThere(db: T.Db, c: Id)
    requires |db.sessions| == 2 && db.sessions[0].id != c && db.sessions[1].id != c
    ensures !T.HasSession(db, c)
  {
  }

  lemma CrossedCreate(db: T.Db, app: AppState, w: Id, a: Id, op: Op)
    requires Crossed(db, app, w, a) && op.CreateSession? && op.wid == w && !T.HasSession(db, op.sessId)
    ensures Succeeds(db, op) && !Selected(ClientNext(db, app, op))
  {
    SelectedCreateSession(db, app, op);
  }

  lemma CrossedPick(db: T.Db, app: AppState, a: Id)
    requires Selected(app) && app.activeWorkspace.Some? && a !in Ids(ListOf(app, app.activeWorkspace.value))
    ensures !Selected(ClientNext(db, app, SetActiveSession(a)))
  {
    assert ClientNext(db, app, SetActiveSession(a)) == ActivateSessionNext(app, a);
    SetActiveSessionSelected(app, a);
  }

  /** Deleting a session of the other workspace leaves it in the client's list. */
  lemma DeleteElsewhere(w: Id, a: Id, v: Id, b: Id, now: Stamp) returns (r: Run)
    requires w != v && a != b
    ensures r.FromInit() && |r.ops| == 3 && r.ops[2] == DeleteSession(a) && !Coherent(Last(r.dbs), Last(r.apps))
  {
    var before := CrossedRun(w, a, v, b, now);
    CrossedIsElsewhere(Last(before.dbs), Last(before.apps), w, a);
    CrossedDelete(Last(before.dbs), Last(before.apps), a);
    r := Continue(before, DeleteSession(a));
  }

  /** Renaming one leaves the old title in the client's list. */
  lemma RenameElsewhere(w: Id, a: Id, v: Id, b: Id, now: Stamp, title: string, later: int) returns (r: Run)
    requires w != v && a != b && later != now.updated
    ensures r.FromInit() && |r.ops| == 3 && r.ops[2] == RenameSession(a, title, later)
    ensures !Coherent(Last(r.dbs), Last(r.apps))
  {
    var before := CrossedRun(w, a, v, b, now);
    CrossedIsElsewhere(Last(before.dbs), Last(before.apps), w, a);
    NotYetNamed(Last(before.dbs), a, title, later);
    CrossedRename(Last(before.dbs), Last(before.apps), a, title, later);
    r := Continue(before, RenameSession(a, title, later));
  }

  /** Creating one in the other workspace makes it active, while its workspace is not. */
  lemma CreateElsewhere(w: Id, a: Id, v: Id, b: Id, c: Id, now: Stamp) returns (r: Run)
    requires w != v && a != b && c != a && c != b
    ensures r.FromInit() && |r.ops| == 3 && r.ops[2] == CreateSession(w, "", c, now) && !Selected(Last(r.apps))
  {
    var before := CrossedRun(w, a, v, b, now);
    NotYetThere(Last(before.dbs), c);
    CrossedCreate(Last(before.dbs), Last(before.apps), w, a, CreateSession(w, "", c, now));
    r := Continue(before, CreateSession(w, "", c, now));
  }

  /** Picking one of the other workspace shows it under the active one. */
  lemma PickElsewhere(w: Id, a: Id, v: Id, b: Id, now: Stamp) returns (r: Run)
    requires w != v && a != b
    ensures r.FromInit() && |r.ops| == 3 && r.ops[2] == SetActiveSession(a) && !Selected(Last(r.apps))
  {
    var before := CrossedRun(w, a, v, b, now);
    CrossedPick(Last(before.dbs), Last(before.apps), a);
    r := Continue(before, SetActiveSession(a));
  }
}
