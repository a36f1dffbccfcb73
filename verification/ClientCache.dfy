/**
The client's lists as a cache of the server's tables.

Operations run one at a time, by one client, with API calls that succeed; each
is the server's statements followed by the client's commit. The client never
reloads after a write: it appends, filters and maps its own lists instead.
 */
module ClientCache {
  import opened Prelude
  import opened Model
  import opened ClientState
  import T = Tables

  /** The two times that the server draws for a new row, one after the other. */
  datatype Stamp = Stamp(created: int, updated: int)

  /** Ids and times that the server would draw are parameters; `cwd` is what tmux reports at the time. */
  datatype Op =
    | Init(wsId: Id, sessId: Id, wsAt: Stamp, sessAt: Stamp, cwd: map<Id, string>)
    | FetchWorkspaces
    | CreateWorkspace(name: string, wsId: Id, sessId: Id, wsAt: Stamp, sessAt: Stamp)
    | DeleteWorkspace(id: Id)
    | RenameWorkspace(id: Id, name: string, now: int)
    | SetActiveWorkspace(id: Id, cwd: map<Id, string>)
    | FetchSessions(id: Id, cwd: map<Id, string>)
    | PollActive(cwd: map<Id, string>)
    | CreateSession(wid: Id, title: string, sessId: Id, sessAt: Stamp)
    | DeleteSession(id: Id)
    | RenameSession(id: Id, title: string, now: int)
    | SetActiveSession(id: Id)

  // ---------- the server's side ----------

  function WithCwd(cwd: map<Id, string>): Session -> Session {
    (x: Session) => x.(cwd := if x.id in cwd then cwd[x.id] else "")
  }

  /** What the session listing returns: the rows, each with its current directory. */
  function Listing(db: T.Db, wid: Id, cwd: map<Id, string>): seq<Session> {
    Map(T.ListSessions(db, wid), WithCwd(cwd))
  }

  function RowOf(rows: seq<Session>, id: Id): Option<Session> {
    if rows == [] then None else if rows[0].id == id then Some(rows[0]) else RowOf(rows[1..], id)
  }

  function WorkspaceRow(rows: seq<Workspace>, id: Id): Option<Workspace> {
    if rows == [] then None else if rows[0].id == id then Some(rows[0]) else WorkspaceRow(rows[1..], id)
  }

  /** `init` creates a workspace when there is none. */
  function InitDb(db: T.Db, op: Op): T.Db
    requires op.Init?
  {
    if T.ListWorkspaces(db) == [] then T.Next(db, T.CreateWorkspace(op.wsId, "Default", op.wsAt.created, op.wsAt.updated)) else db
  }

  function InitWid(db: T.Db, op: Op): Id
    requires op.Init?
  {
    var workspaces := T.ListWorkspaces(InitDb(db, op));
    if workspaces == [] then op.wsId else workspaces[0].id
  }

  function Server(db: T.Db, op: Op): T.Db {
    match op
    case Init(_, sessId, _, at, _) =>
      var d, wid := InitDb(db, op), InitWid(db, op);
      if T.ListSessions(d, wid) == []
      then T.Next(d, T.CreateSession(wid, "Terminal", sessId, at.created, at.updated)) else d
    case CreateWorkspace(name, wsId, sessId, wsAt, at) =>
      T.Next(T.Next(db, T.CreateWorkspace(wsId, name, wsAt.created, wsAt.updated)),
             T.CreateSession(wsId, "Terminal", sessId, at.created, at.updated))
    case DeleteWorkspace(id) => T.Next(db, T.RemoveWorkspace(id))
    case RenameWorkspace(id, name, now) => T.Next(db, T.RenameWorkspace(id, name, now))
    case CreateSession(wid, title, sessId, at) => T.Next(db, T.CreateSession(wid, title, sessId, at.created, at.updated))
    case DeleteSession(id) => T.Next(db, T.RemoveSession(id))
    case RenameSession(id, title, now) => T.Next(db, T.RenameSession(id, title, now))
    case _ => db
  }

  /** Every API call of the operation succeeds. */
  predicate Succeeds(db: T.Db, op: Op) {
    match op
    case Init(wsId, sessId, _, _, _) => !T.HasWorkspace(db, wsId) && !T.HasSession(db, sessId)
    case CreateWorkspace(name, wsId, sessId, _, _) =>
      name != "" && !T.HasWorkspace(db, wsId) && !T.HasSession(db, sessId)
    case RenameWorkspace(id, name, _) => name != "" && T.HasWorkspace(db, id)
    case CreateSession(wid, _, sessId, _) => T.HasWorkspace(db, wid) && !T.HasSession(db, sessId)
    case RenameSession(id, _, _) => T.HasSession(db, id)
    case _ => true
  }

  // ---------- the client's side ----------

  function InitLists(db: T.Db, cwd: map<Id, string>): map<Id, seq<Session>> {
    var ws := T.ListWorkspaces(db);
    map i | 0 <= i < |ws| :: ws[i].id := Listing(db, ws[i].id, cwd)
  }

  /** One list a workspace, one new session if the first list is empty, the first of each list remembered. */
  function InitCommit(db: T.Db, op: Op): Commit
    requires op.Init?
  {
    var d, wid := InitDb(db, op), InitWid(db, op);
    var lists := InitLists(d, op.cwd);
    var sess := T.NewSession(d, wid, "Terminal", op.sessId, op.sessAt.created, op.sessAt.updated);
    var sessions := if Listing(d, wid, op.cwd) == [] then lists[wid := [sess]] else lists;
    var remembered := map w | w in sessions && sessions[w] != [] :: sessions[w][0].id;
    Loaded(T.ListWorkspaces(d), sessions, wid, Lookup(remembered, wid), remembered)
  }

  function CommitOf(db: T.Db, app: AppState, op: Op): Option<Commit> {
    match op
    case Init(_, _, _, _, _) => Some(InitCommit(db, op))
    case FetchWorkspaces => Some(WorkspacesFetched(T.ListWorkspaces(db)))
    case CreateWorkspace(name, wsId, sessId, wsAt, at) =>
      var d := T.Next(db, T.CreateWorkspace(wsId, name, wsAt.created, wsAt.updated));
      Some(WorkspaceCreated(T.NewWorkspace(db, wsId, name, wsAt.created, wsAt.updated),
                            T.NewSession(d, wsId, "Terminal", sessId, at.created, at.updated)))
    case DeleteWorkspace(id) => Some(WorkspaceDeleted(id))
    case RenameWorkspace(id, _, _) =>
      var row := WorkspaceRow(Server(db, op).workspaces, id);
      if row.Some? then Some(WorkspaceRenamed(id, row.value)) else None
    case SetActiveWorkspace(id, cwd) =>
      Some(WorkspaceActivated(id, if id in app.sessions then app.sessions[id] else Listing(db, id, cwd)))
    case FetchSessions(id, cwd) => Some(SessionsFetched(id, Listing(db, id, cwd)))
    case PollActive(cwd) =>
      if app.activeWorkspace.None? then None
      else Some(Polled(app.activeWorkspace.value, Listing(db, app.activeWorkspace.value, cwd)))
    case CreateSession(wid, title, sessId, at) =>
      Some(SessionCreated(wid, T.NewSession(db, wid, title, sessId, at.created, at.updated)))
    case DeleteSession(id) => Some(SessionDeleted(id))
    case RenameSession(id, _, _) =>
      var row := RowOf(Server(db, op).sessions, id);
      if row.Some? then Some(SessionRenamed(id, row.value)) else None
    case SetActiveSession(id) => Some(SessionActivated(id))
  }

  function ClientNext(db: T.Db, app: AppState, op: Op): AppState {
    var commit := CommitOf(db, app, op);
    if commit.Some? then Apply(app, commit.value) else app
  }

  // ---------- what the statements do to the listings ----------

  function NoCwd(): Session -> Session {
    (x: Session) => x.(cwd := "")
  }

  function Strip(list: seq<Session>): seq<Session> {
    Map(list, NoCwd())
  }

  lemma RowsHaveNoCwd(db: T.Db, wid: Id)
    requires T.DbOk(db)
    ensures Strip(T.ListSessions(db, wid)) == T.ListSessions(db, wid)
  {
    T.ListingsAreRows(db, wid);
    FilterMembers(db.sessions, T.InWorkspace(wid));
  }

  lemma StripListing(db: T.Db, wid: Id, cwd: map<Id, string>)
    requires T.DbOk(db)
    ensures Strip(Listing(db, wid, cwd)) == T.ListSessions(db, wid)
  {
    RowsHaveNoCwd(db, wid);
    var rows := T.ListSessions(db, wid);
    forall i | 0 <= i < |rows|
      ensures Strip(Listing(db, wid, cwd))[i] == rows[i]
    {
      assert Strip(rows)[i] == rows[i];
    }
  }

  lemma ServerOk(db: T.Db, op: Op)
    requires T.DbOk(db)
    ensures T.DbOk(Server(db, op))
  {
    match op
    case Init(wsId, sessId, wsAt, at, _) =>
      T.DbOkStep(db, T.CreateWorkspace(wsId, "Default", wsAt.created, wsAt.updated));
      T.DbOkStep(InitDb(db, op), T.CreateSession(InitWid(db, op), "Terminal", sessId, at.created, at.updated));
    case CreateWorkspace(name, wsId, sessId, wsAt, at) =>
      var create := T.CreateWorkspace(wsId, name, wsAt.created, wsAt.updated);
      T.DbOkStep(db, create);
      T.DbOkStep(T.Next(db, create), T.CreateSession(wsId, "Terminal", sessId, at.created, at.updated));
    case DeleteWorkspace(id) => T.DbOkStep(db, T.RemoveWorkspace(id));
    case RenameWorkspace(id, name, now) => T.DbOkStep(db, T.RenameWorkspace(id, name, now));
    case CreateSession(wid, title, sessId, at) => T.DbOkStep(db, T.CreateSession(wid, title, sessId, at.created, at.updated));
    case DeleteSession(id) => T.DbOkStep(db, T.RemoveSession(id));
    case RenameSession(id, title, now) => T.DbOkStep(db, T.RenameSession(id, title, now));
    case _ =>
  }

  lemma ListAfterInsert(db: T.Db, x: Session, wid: Id)
    requires T.DbOk(db) && T.DbOk(T.InsertSession(db, x))
    requires !T.HasSession(db, x.id) && T.HasWorkspace(db, x.workspaceId)
    ensures T.ListSessions(T.InsertSession(db, x), wid)
            == T.ListSessions(db, wid) + (if x.workspaceId == wid then [x] else [])
  {
    T.ListingsAreRows(db, wid);
    T.ListingsAreRows(T.InsertSession(db, x), wid);
    FilterAppend(db.sessions, [x], T.InWorkspace(wid));
    var one := [x];
    assert one[1..] == [];
  }

  lemma ListAfterDelete(db: T.Db, id: Id, wid: Id)
    requires T.DbOk(db)
    ensures T.ListSessions(T.DeleteSession(db, id), wid) == Filter(T.ListSessions(db, wid), OtherSessions(id))
  {
    T.DbOkStep(db, T.RemoveSession(id));
    T.ListingsAreRows(db, wid);
    T.ListingsAreRows(T.DeleteSession(db, id), wid);
    T.FilterSwap(db.sessions, OtherSessions(id), T.InWorkspace(wid));
  }

  lemma ListAfterUpdate(db: T.Db, id: Id, title: string, now: int, wid: Id)
    requires T.DbOk(db)
    ensures T.ListSessions(T.UpdateSession(db, id, title, now), wid)
            == Map(T.ListSessions(db, wid), T.Retitled(id, title, now))
  {
    T.DbOkStep(db, T.RenameSession(id, title, now));
    T.ListingsAreRows(db, wid);
    T.ListingsAreRows(T.UpdateSession(db, id, title, now), wid);
    FilterMap(db.sessions, T.Retitled(id, title, now), T.InWorkspace(wid));
  }

  lemma ListAfterCascade(db: T.Db, id: Id, wid: Id)
    requires T.DbOk(db) && wid != id
    ensures T.ListSessions(T.DeleteWorkspace(db, id), wid) == T.ListSessions(db, wid)
  {
    T.DbOkStep(db, T.RemoveWorkspace(id));
    T.ListingsAreRows(db, wid);
    T.ListingsAreRows(T.DeleteWorkspace(db, id), wid);
    if T.HasWorkspace(db, id) {
      T.FilterSwap(db.sessions, T.Outside(id), T.InWorkspace(wid));
      FilterMembers(db.sessions, T.InWorkspace(wid));
      FilterAll(Filter(db.sessions, T.InWorkspace(wid)), T.Outside(id));
    }
  }

  /** A workspace that is not in the table has no sessions. */
  lemma NoRowsOutside(db: T.Db, wid: Id)
    requires T.DbOk(db) && !T.HasWorkspace(db, wid)
    ensures T.ListSessions(db, wid) == []
  {
    T.ListingsAreRows(db, wid);
    FilterMembers(db.sessions, T.InWorkspace(wid));
    assert forall x <- db.sessions :: x.workspaceId != wid;
  }

  // ---------- coherence ----------

  ghost predicate ListsOk(db: T.Db, lists: map<Id, seq<Session>>) {
    forall wid <- lists :: Strip(lists[wid]) == T.ListSessions(db, wid)
  }

  /** The workspace list and every loaded session list are the server's ordered lists, apart from `cwd`. */
  ghost predicate Coherent(db: T.Db, app: AppState) {
    && app.workspaces == T.ListWorkspaces(db)
    && ListsOk(db, app.sessions)
    && (forall i | 0 <= i < |app.workspaces| :: app.workspaces[i].id in app.sessions)
  }

  /** The session is in a loaded list that is not the active one. */
  ghost predicate Elsewhere(app: AppState, id: Id) {
    exists wid <- app.sessions :: app.activeWorkspace != Some(wid) && id in Ids(app.sessions[wid])
  }

  /** A fresh row in a workspace keeps the lists, if the client appends it to that workspace's list. */
  lemma ListsAfterInsert(db: T.Db, x: Session, lists: map<Id, seq<Session>>)
    requires T.DbOk(db) && T.DbOk(T.InsertSession(db, x)) && x.cwd == ""
    requires !T.HasSession(db, x.id) && T.HasWorkspace(db, x.workspaceId)
    requires ListsOk(db, lists)
    requires x.workspaceId in lists || T.ListSessions(db, x.workspaceId) == []
    ensures var before := if x.workspaceId in lists then lists[x.workspaceId] else [];
            ListsOk(T.InsertSession(db, x), lists[x.workspaceId := before + [x]])
  {
    var wid := x.workspaceId;
    var list := if wid in lists then lists[wid] else [];
    forall w | w in lists || w == wid
      ensures T.ListSessions(T.InsertSession(db, x), w)
              == T.ListSessions(db, w) + (if wid == w then [x] else [])
    {
      ListAfterInsert(db, x, w);
    }
    assert Strip(list + [x]) == Strip(list) + [x];
  }

  lemma ListingsOk(db: T.Db, cwd: map<Id, string>)
    requires T.DbOk(db)
    ensures ListsOk(db, InitLists(db, cwd))
  {
    var lists := InitLists(db, cwd);
    forall w | w in lists
      ensures Strip(lists[w]) == T.ListSessions(db, w)
    {
      StripListing(db, w, cwd);
    }
  }

  lemma InitDbOk(db: T.Db, op: Op)
    requires T.DbOk(db) && op.Init? && Succeeds(db, op)
    ensures var d, wid := InitDb(db, op), InitWid(db, op);
            && T.DbOk(d) && d.sessions == db.sessions
            && d.workspaces != [] && d.workspaces[0].id == wid && T.HasWorkspace(d, wid)
            && T.ListWorkspaces(d) == d.workspaces
  {
    var d := InitDb(db, op);
    T.DbOkStep(db, T.CreateWorkspace(op.wsId, "Default", op.wsAt.created, op.wsAt.updated));
    T.ListingsAreRows(db, op.wsId);
    T.ListingsAreRows(d, op.wsId);
  }

  lemma InitListsCover(d: T.Db, cwd: map<Id, string>)
    requires T.ListWorkspaces(d) == d.workspaces
    ensures forall i | 0 <= i < |d.workspaces| ::
              d.workspaces[i].id in InitLists(d, cwd)
              && InitLists(d, cwd)[d.workspaces[i].id] == Listing(d, d.workspaces[i].id, cwd)
  {
  }

  lemma FirstSessionOk(d: T.Db, wid: Id, x: Session, lists: map<Id, seq<Session>>)
    requires T.DbOk(d) && T.HasWorkspace(d, wid) && !T.HasSession(d, x.id) && x.workspaceId == wid && x.cwd == ""
    requires T.DbOk(T.InsertSession(d, x)) && ListsOk(d, lists) && T.ListSessions(d, wid) == []
    requires T.ListWorkspaces(d) == d.workspaces
    ensures ListsOk(T.InsertSession(d, x), lists[wid := [x]])
    ensures T.ListWorkspaces(T.InsertSession(d, x)) == d.workspaces
  {
    FirstInWorkspace(d, x, lists);
    T.ListingsAreRows(T.InsertSession(d, x), wid);
  }

  lemma InitListsOk(db: T.Db, op: Op)
    requires T.DbOk(db) && op.Init? && Succeeds(db, op)
    ensures ListsOk(Server(db, op), InitCommit(db, op).sessions)
    ensures T.ListWorkspaces(Server(db, op)) == T.ListWorkspaces(InitDb(db, op))
    ensures InitLists(InitDb(db, op), op.cwd).Keys <= InitCommit(db, op).sessions.Keys
  {
    var d, wid := InitDb(db, op), InitWid(db, op);
    InitDbOk(db, op);
    ListingsOk(d, op.cwd);
    if T.ListSessions(d, wid) == [] {
      var at := op.sessAt;
      T.DbOkStep(d, T.CreateSession(wid, "Terminal", op.sessId, at.created, at.updated));
      FirstSessionOk(d, wid, T.NewSession(d, wid, "Terminal", op.sessId, at.created, at.updated), InitLists(d, op.cwd));
    }
  }

  lemma InitCoherent(db: T.Db, app: AppState, op: Op)
    requires T.DbOk(db) && op.Init? && Succeeds(db, op)
    ensures Coherent(Server(db, op), ClientNext(db, app, op))
  {
    InitDbOk(db, op);
    InitListsOk(db, op);
    InitListsCover(InitDb(db, op), op.cwd);
  }

  /** Statements on the workspace table leave the session listings. */
  lemma SameListings(db: T.Db, d: T.Db, lists: map<Id, seq<Session>>)
    requires db.sessions == d.sessions && ListsOk(db, lists)
    ensures ListsOk(d, lists)
  {
    forall w <- lists
      ensures Strip(lists[w]) == T.ListSessions(d, w)
    {
      assert T.ListSessions(db, w) == T.ListSessions(d, w);
    }
  }

  lemma FirstInWorkspace(d: T.Db, x: Session, lists: map<Id, seq<Session>>)
    requires T.DbOk(d) && T.DbOk(T.InsertSession(d, x)) && x.cwd == "" && ListsOk(d, lists)
    requires !T.HasSession(d, x.id) && T.HasWorkspace(d, x.workspaceId) && T.ListSessions(d, x.workspaceId) == []
    ensures ListsOk(T.InsertSession(d, x), lists[x.workspaceId := [x]])
  {
    var others := lists - {x.workspaceId};
    var one: seq<Session> := [x];
    ListsAfterInsert(d, x, others);
    assert [] + one == one && others[x.workspaceId := one] == lists[x.workspaceId := one];
  }

  lemma CreateWorkspaceCoherent(db: T.Db, d: T.Db, app: AppState, w: Workspace, x: Session)
    requires T.DbOk(db) && Coherent(db, app) && !T.HasWorkspace(db, w.id)
    requires d == db.(workspaces := db.workspaces + [w]) && T.DbOk(d)
    requires x.workspaceId == w.id && !T.HasSession(d, x.id) && T.DbOk(T.InsertSession(d, x)) && x.cwd == ""
    ensures Coherent(T.InsertSession(d, x), Apply(app, WorkspaceCreated(w, x)))
  {
    assert d.workspaces[|db.workspaces|].id == w.id;
    NoRowsOutside(db, w.id);
    SameListings(db, d, app.sessions);
    FirstInWorkspace(d, x, app.sessions);
    T.ListingsAreRows(db, w.id);
    T.ListingsAreRows(T.InsertSession(d, x), w.id);
  }

  lemma LoadedWorkspace(db: T.Db, app: AppState, wid: Id)
    requires T.DbOk(db) && Coherent(db, app) && T.HasWorkspace(db, wid)
    ensures wid in app.sessions
  {
    T.ListingsAreRows(db, wid);
    var i :| 0 <= i < |db.workspaces| && db.workspaces[i].id == wid;
    assert app.workspaces[i].id in app.sessions;
  }

  lemma CreateSessionCoherent(db: T.Db, app: AppState, x: Session)
    requires T.DbOk(db) && Coherent(db, app) && T.DbOk(T.InsertSession(db, x)) && x.cwd == ""
    requires !T.HasSession(db, x.id) && T.HasWorkspace(db, x.workspaceId)
    ensures Coherent(T.InsertSession(db, x), Apply(app, SessionCreated(x.workspaceId, x)))
  {
    LoadedWorkspace(db, app, x.workspaceId);
    ListsAfterInsert(db, x, app.sessions);
  }

  lemma WorkspacesAfterDelete(db: T.Db, id: Id)
    requires T.DbOk(db)
    ensures T.ListWorkspaces(T.DeleteWorkspace(db, id)) == Filter(T.ListWorkspaces(db), OtherWorkspaces(id))
  {
    T.DbOkStep(db, T.RemoveWorkspace(id));
    T.ListingsAreRows(db, id);
    T.ListingsAreRows(T.DeleteWorkspace(db, id), id);
    if !T.HasWorkspace(db, id) {
      FilterAll(db.workspaces, OtherWorkspaces(id));
    }
  }

  lemma DeleteWorkspaceCoherent(db: T.Db, app: AppState, id: Id)
    requires T.DbOk(db) && Coherent(db, app)
    ensures Coherent(T.DeleteWorkspace(db, id), DeleteWorkspaceNext(app, id))
  {
    var e, after := T.DeleteWorkspace(db, id), DeleteWorkspaceNext(app, id);
    WorkspacesAfterDelete(db, id);
    forall w | w in after.sessions
      ensures Strip(after.sessions[w]) == T.ListSessions(e, w)
    {
      ListAfterCascade(db, id, w);
    }
    FilterMembers(app.workspaces, OtherWorkspaces(id));
  }

  lemma {:induction false} WorkspaceRowIs(rows: seq<Workspace>, i: nat)
    requires i < |rows| && forall j | 0 <= j < i :: rows[j].id != rows[i].id
    ensures WorkspaceRow(rows, rows[i].id) == Some(rows[i])
  {
    if i > 0 {
      assert rows[1..][i - 1] == rows[i];
      assert forall j | 0 <= j < i - 1 :: rows[1..][j] == rows[j + 1];
      WorkspaceRowIs(rows[1..], i - 1);
    }
  }

  lemma {:induction false} RowIs(rows: seq<Session>, i: nat)
    requires i < |rows| && forall j | 0 <= j < i :: rows[j].id != rows[i].id
    ensures RowOf(rows, rows[i].id) == Some(rows[i])
  {
    if i > 0 {
      assert rows[1..][i - 1] == rows[i];
      assert forall j | 0 <= j < i - 1 :: rows[1..][j] == rows[j + 1];
      RowIs(rows[1..], i - 1);
    }
  }

  lemma WorkspaceRowAfter(db: T.Db, id: Id, name: string, now: int)
    requires T.DbOk(db) && T.HasWorkspace(db, id)
    ensures var rows := T.UpdateWorkspace(db, id, name, now).workspaces;
            var row := WorkspaceRow(rows, id);
            && row.Some? && row.value.id == id && row.value.name == name && row.value.updatedAt == now
            && rows == Map(db.workspaces, ReplaceWorkspace(id, row.value))
  {
    var rows := T.UpdateWorkspace(db, id, name, now).workspaces;
    var i :| 0 <= i < |db.workspaces| && db.workspaces[i].id == id;
    forall j | 0 <= j < |db.workspaces| && j != i
      ensures db.workspaces[j].id != id
    {
      assert j < i ==> T.WorkspaceBefore(db.workspaces[j], db.workspaces[i]);
      assert i < j ==> T.WorkspaceBefore(db.workspaces[i], db.workspaces[j]);
    }
    WorkspaceRowIs(rows, i);
  }

  lemma SessionRowAfter(db: T.Db, id: Id, title: string, now: int)
    requires T.DbOk(db) && T.HasSession(db, id)
    ensures var rows := T.UpdateSession(db, id, title, now).sessions;
            var row := RowOf(rows, id);
            && row.Some? && row.value.id == id && row.value.cwd == ""
            && row.value.title == title && row.value.updatedAt == now
            && rows == Map(db.sessions, ReplaceSession(id, row.value))
  {
    var rows := T.UpdateSession(db, id, title, now).sessions;
    var i :| 0 <= i < |db.sessions| && db.sessions[i].id == id;
    forall j | 0 <= j < |db.sessions| && j != i
      ensures db.sessions[j].id != id
    {
      T.SameRow(db.sessions, j, i);
    }
    RowIs(rows, i);
  }

  lemma RenamedListing(db: T.Db, id: Id, name: string, now: int)
    requires T.DbOk(db) && T.HasWorkspace(db, id)
    ensures var d := T.UpdateWorkspace(db, id, name, now); var row := WorkspaceRow(d.workspaces, id);
            && row.Some? && row.value.id == id
            && T.ListWorkspaces(d) == Map(T.ListWorkspaces(db), ReplaceWorkspace(id, row.value))
  {
    WorkspaceRowAfter(db, id, name, now);
    assert T.ListWorkspaces(db) == db.workspaces by {
      T.ListingsAreRows(db, id);
    }
    var d := T.UpdateWorkspace(db, id, name, now);
    assert T.ListWorkspaces(d) == d.workspaces by {
      T.DbOkStep(db, T.RenameWorkspace(id, name, now));
      T.ListingsAreRows(d, id);
    }
  }

  lemma RenameWorkspaceCoherent(db: T.Db, d: T.Db, app: AppState, row: Workspace)
    requires Coherent(db, app) && d.sessions == db.sessions
    requires T.ListWorkspaces(d) == Map(T.ListWorkspaces(db), ReplaceWorkspace(row.id, row))
    ensures Coherent(d, Apply(app, WorkspaceRenamed(row.id, row)))
  {
    SameListings(db, d, app.sessions);
  }

  lemma ActivateCoherent(db: T.Db, app: AppState, id: Id, list: seq<Session>)
    requires Coherent(db, app) && Strip(list) == T.ListSessions(db, id)
    ensures Coherent(db, ActivateWorkspaceNext(app, id, list))
  {
  }

  lemma ActivateIs(db: T.Db, app: AppState, op: Op) returns (list: seq<Session>)
    requires T.DbOk(db) && ListsOk(db, app.sessions) && op.SetActiveWorkspace?
    ensures Server(db, op) == db && ClientNext(db, app, op) == ActivateWorkspaceNext(app, op.id, list)
    ensures Strip(list) == T.ListSessions(db, op.id)
  {
    if op.id in app.sessions {
      list := app.sessions[op.id];
    } else {
      StripListing(db, op.id, op.cwd);
      list := Listing(db, op.id, op.cwd);
    }
  }

  lemma SetActiveWorkspaceCoherent(db: T.Db, app: AppState, op: Op)
    requires T.DbOk(db) && Coherent(db, app) && op.SetActiveWorkspace?
    ensures Coherent(Server(db, op), ClientNext(db, app, op))
  {
    var list := ActivateIs(db, app, op);
    ActivateCoherent(db, app, op.id, list);
  }

  lemma FetchCoherent(db: T.Db, app: AppState, op: Op)
    requires T.DbOk(db) && Coherent(db, app) && (op.FetchSessions? || op.PollActive?)
    ensures Coherent(Server(db, op), ClientNext(db, app, op))
  {
    if op.FetchSessions? {
      StripListing(db, op.id, op.cwd);
    } else if app.activeWorkspace.Some? {
      StripListing(db, app.activeWorkspace.value, op.cwd);
    }
  }

  lemma StripIds(list: seq<Session>)
    ensures Ids(Strip(list)) == Ids(list)
  {
    forall x <- list
      ensures x.id in Ids(Strip(list))
    {
      var i :| 0 <= i < |list| && list[i] == x;
      assert Strip(list)[i].id == x.id;
    }
    forall x <- Strip(list)
      ensures x.id in Ids(list)
    {
      var i :| 0 <= i < |list| && Strip(list)[i] == x;
      assert list[i].id == x.id;
    }
  }

  lemma FilterOut(list: seq<Session>, id: Id)
    ensures Strip(Filter(list, OtherSessions(id))) == Filter(Strip(list), OtherSessions(id))
    ensures id !in Ids(list) <==> Filter(list, OtherSessions(id)) == list
  {
    T.MapFilter(list, NoCwd(), OtherSessions(id), OtherSessions(id));
    FilterMembers(list, OtherSessions(id));
    if id !in Ids(list) {
      forall i | 0 <= i < |list|
        ensures list[i].id != id
      {
        assert list[i] in list;
      }
      FilterAll(list, OtherSessions(id));
    } else {
      var x :| x in list && x.id == id;
      assert x !in Filter(list, OtherSessions(id));
    }
  }

  lemma DeletedFromList(db: T.Db, app: AppState, id: Id, wid: Id)
    requires T.DbOk(db) && ListsOk(db, app.sessions) && wid in app.sessions
    ensures var list := T.ListSessions(T.DeleteSession(db, id), wid);
            && Strip(Filter(app.sessions[wid], OtherSessions(id))) == list
            && (Strip(app.sessions[wid]) == list <==> id !in Ids(app.sessions[wid]))
  {
    ListAfterDelete(db, id, wid);
    FilterOut(app.sessions[wid], id);
    FilterOut(Strip(app.sessions[wid]), id);
    StripIds(app.sessions[wid]);
  }

  lemma DeletedLists(db: T.Db, app: AppState, id: Id)
    requires T.DbOk(db) && ListsOk(db, app.sessions)
    requires app.activeWorkspace.Some? ==> app.activeWorkspace.value in app.sessions
    ensures ListsOk(T.DeleteSession(db, id), DeleteSessionNext(app, id).sessions) <==> !Elsewhere(app, id)
  {
    var e, after := T.DeleteSession(db, id), DeleteSessionNext(app, id).sessions;
    assert after.Keys == app.sessions.Keys;
    forall w | w in app.sessions
      ensures Strip(after[w]) == T.ListSessions(e, w)
              <==> (app.activeWorkspace == Some(w) || id !in Ids(app.sessions[w]))
    {
      DeletedFromList(db, app, id, w);
    }
  }

  /**
  `deleteSession` filters only the active workspace's list, so it keeps the cache
  exactly when the session is in no other loaded list.
   */
  lemma DeleteSessionCoherent(db: T.Db, app: AppState, id: Id)
    requires T.DbOk(db) && Coherent(db, app)
    requires app.activeWorkspace.Some? ==> app.activeWorkspace.value in app.sessions
    ensures Coherent(T.DeleteSession(db, id), DeleteSessionNext(app, id)) <==> !Elsewhere(app, id)
  {
    var after := DeleteSessionNext(app, id);
    DeletedLists(db, app, id);
    assert after.workspaces == T.ListWorkspaces(T.DeleteSession(db, id));
    assert after.sessions.Keys == app.sessions.Keys;
  }

  lemma RetitledIsReplaced(db: T.Db, id: Id, title: string, now: int, row: Session, x: Session)
    requires T.UpdateSession(db, id, title, now).sessions == Map(db.sessions, ReplaceSession(id, row)) && x in db.sessions
    ensures T.Retitled(id, title, now)(x) == ReplaceSession(id, row)(x)
  {
    var k :| 0 <= k < |db.sessions| && db.sessions[k] == x;
    assert T.UpdateSession(db, id, title, now).sessions[k] == ReplaceSession(id, row)(x);
  }

  lemma RenamedInList(db: T.Db, app: AppState, id: Id, title: string, now: int, wid: Id)
    requires T.DbOk(db) && T.HasSession(db, id) && ListsOk(db, app.sessions) && wid in app.sessions
    ensures var d := T.UpdateSession(db, id, title, now); var row := RowOf(d.sessions, id);
            && row.Some?
            && Strip(Map(app.sessions[wid], ReplaceSession(id, row.value))) == T.ListSessions(d, wid)
            && (id !in Ids(app.sessions[wid]) ==> Strip(app.sessions[wid]) == T.ListSessions(d, wid))
  {
    var d := T.UpdateSession(db, id, title, now);
    SessionRowAfter(db, id, title, now);
    ListAfterUpdate(db, id, title, now, wid);
    var row, list, rows := RowOf(d.sessions, id).value, app.sessions[wid], T.ListSessions(db, wid);
    T.ListingsAreRows(db, wid);
    FilterMembers(db.sessions, T.InWorkspace(wid));
    forall i | 0 <= i < |rows|
      ensures T.Retitled(id, title, now)(rows[i]) == ReplaceSession(id, row)(rows[i])
    {
      assert rows[i] in db.sessions;
      RetitledIsReplaced(db, id, title, now, row, rows[i]);
    }
    forall i | 0 <= i < |list|
      ensures NoCwd()(ReplaceSession(id, row)(list[i])) == T.ListSessions(d, wid)[i]
    {
      assert Strip(list)[i] == rows[i];
    }
    if id !in Ids(list) {
      forall i | 0 <= i < |list|
        ensures Strip(list)[i] == T.ListSessions(d, wid)[i]
      {
        assert list[i] in list && Strip(list)[i] == rows[i];
      }
    }
  }

  lemma RetitledRow(db: T.Db, id: Id, title: string, now: int, k: nat)
    requires T.DbOk(db) && k < |db.sessions| && db.sessions[k].id == id
    requires T.Retitled(id, title, now)(db.sessions[k]) == db.sessions[k]
    ensures T.UpdateSession(db, id, title, now) == db
  {
    var retitle := T.Retitled(id, title, now);
    forall j | 0 <= j < |db.sessions|
      ensures retitle(db.sessions[j]) == db.sessions[j]
    {
      T.SameRow(db.sessions, j, k);
    }
    assert Map(db.sessions, retitle) == db.sessions;
  }

  /** The row is in the listing, so a listing that has not changed means a rename that wrote what was there. */
  lemma UnchangedListing(db: T.Db, id: Id, title: string, now: int, wid: Id)
    requires T.DbOk(db) && id in Ids(T.ListSessions(db, wid))
    requires T.ListSessions(T.UpdateSession(db, id, title, now), wid) == T.ListSessions(db, wid)
    ensures T.UpdateSession(db, id, title, now) == db
  {
    var rows := T.ListSessions(db, wid);
    var i :| 0 <= i < |rows| && rows[i].id == id;
    assert T.Retitled(id, title, now)(rows[i]) == rows[i] by {
      ListAfterUpdate(db, id, title, now, wid);
    }
    assert rows[i] in db.sessions by {
      T.ListingsAreRows(db, wid);
      FilterMembers(db.sessions, T.InWorkspace(wid));
    }
    var k :| 0 <= k < |db.sessions| && db.sessions[k] == rows[i];
    RetitledRow(db, id, title, now, k);
  }

  lemma RenamedListAgrees(db: T.Db, app: AppState, id: Id, title: string, now: int, wid: Id)
    requires T.DbOk(db) && T.HasSession(db, id) && ListsOk(db, app.sessions) && wid in app.sessions
    ensures var d := T.UpdateSession(db, id, title, now);
            Strip(app.sessions[wid]) == T.ListSessions(d, wid) <==> id !in Ids(app.sessions[wid]) || d == db
  {
    RenamedInList(db, app, id, title, now, wid);
    StripIds(app.sessions[wid]);
    if Strip(app.sessions[wid]) == T.ListSessions(T.UpdateSession(db, id, title, now), wid) {
      if id in Ids(app.sessions[wid]) {
        UnchangedListing(db, id, title, now, wid);
      }
    }
  }

  lemma RenamedList(db: T.Db, d: T.Db, app: AppState, row: Session, title: string, now: int, w: Id)
    requires T.DbOk(db) && T.HasSession(db, row.id) && ListsOk(db, app.sessions) && w in app.sessions
    requires app.activeWorkspace.Some? ==> app.activeWorkspace.value in app.sessions
    requires d == T.UpdateSession(db, row.id, title, now) && RowOf(d.sessions, row.id) == Some(row)
    ensures var after := Apply(app, SessionRenamed(row.id, row)).sessions;
            && after.Keys == app.sessions.Keys
            && (Strip(after[w]) == T.ListSessions(d, w)
                <==> (app.activeWorkspace == Some(w) || row.id !in Ids(app.sessions[w]) || d == db))
  {
    if app.activeWorkspace == Some(w) {
      assert Apply(app, SessionRenamed(row.id, row)).sessions[w] == Map(app.sessions[w], ReplaceSession(row.id, row));
      RenamedInList(db, app, row.id, title, now, w);
    } else {
      assert Apply(app, SessionRenamed(row.id, row)).sessions[w] == app.sessions[w];
      RenamedListAgrees(db, app, row.id, title, now, w);
    }
  }

  lemma RenamedLists(db: T.Db, d: T.Db, app: AppState, row: Session, title: string, now: int)
    requires T.DbOk(db) && T.HasSession(db, row.id) && ListsOk(db, app.sessions)
    requires app.activeWorkspace.Some? ==> app.activeWorkspace.value in app.sessions
    requires d == T.UpdateSession(db, row.id, title, now) && RowOf(d.sessions, row.id) == Some(row)
    ensures ListsOk(d, Apply(app, SessionRenamed(row.id, row)).sessions) <==> !Elsewhere(app, row.id) || d == db
  {
    var after := Apply(app, SessionRenamed(row.id, row)).sessions;
    assert after.Keys == app.sessions.Keys;
    forall w | w in app.sessions
      ensures Strip(after[w]) == T.ListSessions(d, w)
              <==> (app.activeWorkspace == Some(w) || row.id !in Ids(app.sessions[w]) || d == db)
    {
      RenamedList(db, d, app, row, title, now, w);
    }
  }

  /** The row has this title and this time already. */
  predicate AlreadyNamed(db: T.Db, id: Id, title: string, now: int) {
    exists i | 0 <= i < |db.sessions| ::
      db.sessions[i].id == id && db.sessions[i].title == title && db.sessions[i].updatedAt == now
  }

  lemma UpdateChangesNothing(db: T.Db, id: Id, title: string, now: int)
    requires T.DbOk(db) && T.HasSession(db, id)
    ensures T.UpdateSession(db, id, title, now) == db <==> AlreadyNamed(db, id, title, now)
  {
    if AlreadyNamed(db, id, title, now) {
      var i :| 0 <= i < |db.sessions| && db.sessions[i].id == id
               && db.sessions[i].title == title && db.sessions[i].updatedAt == now;
      RetitledRow(db, id, title, now, i);
    } else {
      var i :| 0 <= i < |db.sessions| && db.sessions[i].id == id;
      assert T.UpdateSession(db, id, title, now).sessions[i] != db.sessions[i];
    }
  }

  /**
  `renameSession` maps only the active list: it keeps the cache exactly when the
  session is in no other list, or has the title and time already.
   */
  lemma RenameSessionCoherent(db: T.Db, app: AppState, id: Id, title: string, now: int)
    requires T.DbOk(db) && Coherent(db, app) && T.HasSession(db, id)
    requires app.activeWorkspace.Some? ==> app.activeWorkspace.value in app.sessions
    ensures var d := T.UpdateSession(db, id, title, now); var row := RowOf(d.sessions, id);
            && row.Some? && row.value.id == id
            && (Coherent(d, Apply(app, SessionRenamed(id, row.value)))
                <==> !Elsewhere(app, id) || AlreadyNamed(db, id, title, now))
  {
    var d := T.UpdateSession(db, id, title, now);
    SessionRowAfter(db, id, title, now);
    RenamedLists(db, d, app, RowOf(d.sessions, id).value, title, now);
    UpdateChangesNothing(db, id, title, now);
    assert T.ListWorkspaces(d) == T.ListWorkspaces(db);
  }

  /** What the comparison leaves out of a row is what the listing cannot change. */
  lemma SameRows(list: seq<Session>, fetched: seq<Session>)
    requires Strip(list) == Strip(fetched) && SessionsEqual(list, fetched)
    ensures list == fetched
  {
    forall i | 0 <= i < |list|
      ensures list[i] == fetched[i]
    {
      assert Strip(list)[i] == Strip(fetched)[i];
      assert SameShown(list[i], fetched[i]);
    }
  }

  /** After a poll the active list is the server's listing in every field, also when the update was skipped. */
  lemma PollRefreshes(db: T.Db, app: AppState, cwd: map<Id, string>)
    requires T.DbOk(db) && Coherent(db, app) && app.activeWorkspace.Some?
    requires app.activeWorkspace.value in app.sessions
    ensures var wid := app.activeWorkspace.value;
            ListOf(ClientNext(db, app, PollActive(cwd)), wid) == Listing(db, wid, cwd)
  {
    var wid := app.activeWorkspace.value;
    var list, fetched := app.sessions[wid], Listing(db, wid, cwd);
    StripListing(db, wid, cwd);
    assert Strip(list) == Strip(fetched);
    assert ClientNext(db, app, PollActive(cwd)) == Apply(app, Polled(wid, fetched));
    if SessionsEqual(list, fetched) {
      SameRows(list, fetched);
    }
  }

  // ---------- the active selection ----------

  /**
  Exactly the non-empty loaded workspaces have a remembered session, one of their
  own; the active session is the one remembered for the active workspace.
   */
  ghost predicate Selected(app: AppState) {
    && app.remembered.Keys <= app.sessions.Keys
    && (forall w <- app.sessions :: RememberedOk(app.sessions[w], Lookup(app.remembered, w)))
    && match app.activeWorkspace {
         case None => app.activeSession == None
         case Some(w) => w in app.sessions && app.activeSession == Lookup(app.remembered, w)
       }
  }

  predicate RememberedOk(list: seq<Session>, id: Option<Id>) {
    match id
    case None => list == []
    case Some(x) => x in Ids(list)
  }

  /**
  What the invariant promises a component: the active session is in the active list,
  and missing only if that is empty.
   */
  lemma ActiveSessionIsListed(app: AppState, wid: Id)
    requires Selected(app) && app.activeWorkspace == Some(wid)
    ensures app.activeSession.Some? ==> app.activeSession.value in Ids(ListOf(app, wid))
    ensures app.activeSession.None? <==> ListOf(app, wid) == []
  {
    assert RememberedOk(app.sessions[wid], Lookup(app.remembered, wid));
  }

  lemma SetActiveSessionSelected(app: AppState, id: Id)
    requires Selected(app)
    ensures Selected(ActivateSessionNext(app, id))
            <==> app.activeWorkspace.Some? && id in Ids(ListOf(app, app.activeWorkspace.value))
  {
    var after := ActivateSessionNext(app, id);
    if Selected(after) {
      var w := after.activeWorkspace.value;
      assert RememberedOk(after.sessions[w], Lookup(after.remembered, w));
    }
  }

  /** `createSession` selects what it creates, so it must be called on the active workspace. */
  lemma CreateSessionSelected(app: AppState, wid: Id, x: Session)
    requires Selected(app) && forall w <- app.sessions :: x.id !in Ids(app.sessions[w])
    ensures Selected(Apply(app, SessionCreated(wid, x))) <==> app.activeWorkspace == Some(wid)
  {
    var list := ListOf(app, wid);
    assert (list + [x])[|list|] == x;
    if app.activeWorkspace.Some? {
      var w := app.activeWorkspace.value;
      assert RememberedOk(app.sessions[w], Lookup(app.remembered, w));
    }
  }

  lemma DeleteSessionSelected(app: AppState, id: Id)
    requires Selected(app)
    ensures Selected(DeleteSessionNext(app, id))
  {
    if app.activeWorkspace.Some? {
      var wid, after := app.activeWorkspace.value, DeleteSessionNext(app, id);
      var list := app.sessions[wid];
      FilterMembers(list, OtherSessions(id));
      assert RememberedOk(list, app.activeSession);
      assert RememberedOk(after.sessions[wid], after.activeSession) by {
        if app.activeSession == Some(id) {
          var rest := Filter(list, OtherSessions(id));
          if rest != [] { assert rest[0] in rest; }
        } else if app.activeSession.Some? {
          var x :| x in list && x.id == app.activeSession.value;
          assert x in Filter(list, OtherSessions(id));
        }
      }
    }
  }

  lemma DeleteWorkspaceSelected(app: AppState, id: Id)
    requires Selected(app) && forall i | 0 <= i < |app.workspaces| :: app.workspaces[i].id in app.sessions
    ensures Selected(DeleteWorkspaceNext(app, id))
  {
    var after := DeleteWorkspaceNext(app, id);
    FilterMembers(app.workspaces, OtherWorkspaces(id));
    forall w | w in after.sessions
      ensures RememberedOk(after.sessions[w], Lookup(after.remembered, w))
    {
      assert RememberedOk(app.sessions[w], Lookup(app.remembered, w));
    }
    if after.workspaces != [] {
      var w := after.workspaces[0].id;
      assert after.workspaces[0] in app.workspaces;
      assert RememberedOk(app.sessions[w], Lookup(app.remembered, w));
    }
  }

  lemma SetActiveWorkspaceSelected(app: AppState, id: Id, list: seq<Session>)
    requires Selected(app) && (id in app.sessions ==> list == app.sessions[id])
    ensures Selected(ActivateWorkspaceNext(app, id, list))
  {
    var after := ActivateWorkspaceNext(app, id, list);
    if list != [] {
      assert list[0] in list;
    }
    forall w | w in after.sessions
      ensures RememberedOk(after.sessions[w], Lookup(after.remembered, w))
    {
      if w != id {
        assert RememberedOk(app.sessions[w], Lookup(app.remembered, w));
      }
    }
    if id in app.sessions {
      assert RememberedOk(app.sessions[id], Lookup(app.remembered, id));
    }
  }

  /**
  Switching to another loaded workspace and back shows the session that was active,
  and leaves both lists and both choices.
   */
  lemma SwitchBack(app: AppState, home: Id, other: Id)
    requires Selected(app) && app.activeWorkspace == Some(home) && other in app.sessions && other != home
    ensures var away := ActivateWorkspaceNext(app, other, app.sessions[other]);
            var back := ActivateWorkspaceNext(away, home, away.sessions[home]);
            && away.activeSession == Lookup(app.remembered, other)
            && back.activeWorkspace == app.activeWorkspace && back.activeSession == app.activeSession
            && back.sessions == app.sessions && back.remembered == app.remembered
  {
    assert RememberedOk(app.sessions[home], Lookup(app.remembered, home));
    assert RememberedOk(app.sessions[other], Lookup(app.remembered, other));
    var away := ActivateWorkspaceNext(app, other, app.sessions[other]);
    assert away.sessions == app.sessions && away.remembered == app.remembered;
  }

  /** After a deletion the client shows the workspace that the server lists first. */
  lemma DeletionShowsFirst(db: T.Db, app: AppState, id: Id)
    requires T.DbOk(db) && Coherent(db, app)
    ensures var listed := T.ListWorkspaces(T.DeleteWorkspace(db, id));
            DeleteWorkspaceNext(app, id).activeWorkspace == if listed == [] then None else Some(listed[0].id)
  {
    WorkspacesAfterDelete(db, id);
  }

  /** Replacing a loaded list by one with the same ids, or adding an empty one, keeps the selection. */
  lemma ReplaceListSelected(app: AppState, wid: Id, list: seq<Session>)
    requires Selected(app) && Ids(list) == Ids(ListOf(app, wid)) && |list| == |ListOf(app, wid)|
    ensures Selected(app.(sessions := app.sessions[wid := list]))
  {
    var after := app.(sessions := app.sessions[wid := list]);
    forall w | w in after.sessions
      ensures RememberedOk(after.sessions[w], Lookup(after.remembered, w))
    {
      if w in app.sessions {
        assert RememberedOk(app.sessions[w], Lookup(app.remembered, w));
      }
    }
  }
}
