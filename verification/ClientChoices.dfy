/** What the client shows after each operation, and what it leaves as it was. */
module ClientChoices {
  import opened Prelude
  import opened Model
  import opened ClientState
  import opened ClientCache
  import T = Tables

  /** The id of the first session of a list that is not this one. */
  ghost predicate IsFirstOther(list: seq<Session>, id: Id, shown: Option<Id>) {
    match shown
    case None => forall i | 0 <= i < |list| :: list[i].id == id
    case Some(x) => exists i | 0 <= i < |list| :: list[i].id == x && x != id && forall j | 0 <= j < i :: list[j].id == id
  }

  lemma {:induction false} FirstOfRest(list: seq<Session>, id: Id)
    ensures IsFirstOther(list, id, FirstId(Filter(list, OtherSessions(id))))
  {
    if list != [] && list[0].id == id {
      FirstOfRest(list[1..], id);
      var shown := FirstId(Filter(list[1..], OtherSessions(id)));
      assert Filter(list, OtherSessions(id)) == [] + Filter(list[1..], OtherSessions(id));
      if shown.Some? {
        var i :| 0 <= i < |list[1..]| && list[1..][i].id == shown.value && forall j | 0 <= j < i :: list[1..][j].id == id;
        assert list[i + 1].id == shown.value;
        assert forall j | 0 <= j < i + 1 :: j > 0 ==> list[j] == list[1..][j - 1];
      } else {
        assert forall i | 0 < i < |list| :: list[i] == list[1..][i - 1];
      }
    }
  }

  /**
  Deleting a tab: if it was shown, the first tab left is shown; if not, the one
  shown stays; no other list or choice changes.
   */
  lemma DeletedTab(s: AppState, wid: Id, id: Id)
    requires s.activeWorkspace == Some(wid)
    ensures var t := DeleteSessionNext(s, id);
            && t.activeWorkspace == s.activeWorkspace && t.workspaces == s.workspaces
            && (s.activeSession == Some(id) ==> IsFirstOther(ListOf(s, wid), id, t.activeSession))
            && (s.activeSession != Some(id) ==> t.activeSession == s.activeSession)
            && (forall w <- s.sessions :: w != wid ==> w in t.sessions && t.sessions[w] == s.sessions[w])
            && (forall w | w != wid :: Lookup(t.remembered, w) == Lookup(s.remembered, w))
            && (Lookup(s.remembered, wid) != Some(id) ==> t.remembered == s.remembered)
            && (Lookup(s.remembered, wid) == Some(id) ==> Lookup(t.remembered, wid) == t.activeSession)
  {
    FirstOfRest(ListOf(s, wid), id);
  }

  /**
  Deleting a workspace shows the first one left with its remembered session, and
  keeps lists and choices of all others.
   */
  lemma DeletedWorkspace(s: AppState, id: Id)
    ensures var t := DeleteWorkspaceNext(s, id);
            && (t.workspaces == [] ==> t.activeWorkspace == None && t.activeSession == None)
            && (t.workspaces != [] ==>
                  var w := t.workspaces[0].id;
                  && t.activeWorkspace == Some(w)
                  && (w in t.remembered ==> t.activeSession == Some(t.remembered[w]))
                  && (w !in t.remembered && ListOf(t, w) != [] ==> t.activeSession == Some(ListOf(t, w)[0].id))
                  && (w !in t.remembered && ListOf(t, w) == [] ==> t.activeSession == None))
            && (forall w | w != id :: Lookup(t.remembered, w) == Lookup(s.remembered, w) && ListOf(t, w) == ListOf(s, w))
            && id !in t.remembered && id !in t.sessions
  {
  }

  /**
  Switching shows the remembered tab if the list still has it, else the first one,
  and keeps the other lists and choices.
   */
  lemma SwitchedTo(s: AppState, id: Id, list: seq<Session>)
    ensures var t := ActivateWorkspaceNext(s, id, list); var before := Lookup(s.remembered, id);
            && t.activeWorkspace == Some(id) && ListOf(t, id) == list && t.workspaces == s.workspaces
            && (before.Some? && (exists x <- list :: x.id == before.value) ==> t.activeSession == before)
            && (!(before.Some? && (exists x <- list :: x.id == before.value)) && list != [] ==> t.activeSession == Some(list[0].id))
            && (list == [] ==> t.activeSession == None && t.remembered == s.remembered)
            && (list != [] ==> Lookup(t.remembered, id) == t.activeSession)
            && (forall w | w != id :: Lookup(t.remembered, w) == Lookup(s.remembered, w) && ListOf(t, w) == ListOf(s, w))
  {
  }

  /** What is created is shown, at the end of its list, and nothing else moves. */
  lemma CreatedIsShown(s: AppState, wid: Id, x: Session)
    ensures var t := Apply(s, SessionCreated(wid, x));
            && t.activeSession == Some(x.id) && Lookup(t.remembered, wid) == Some(x.id)
            && ListOf(t, wid) != [] && Last(ListOf(t, wid)) == x && Front(ListOf(t, wid)) == ListOf(s, wid)
            && t.activeWorkspace == s.activeWorkspace && t.workspaces == s.workspaces
            && (forall w | w != wid :: Lookup(t.remembered, w) == Lookup(s.remembered, w) && ListOf(t, w) == ListOf(s, w))
  {
    Appended(ListOf(s, wid), x);
    assert ListOf(Apply(s, SessionCreated(wid, x)), wid) == ListOf(s, wid) + [x];
  }

  lemma Appended<X>(list: seq<X>, x: X)
    ensures Last(list + [x]) == x && Front(list + [x]) == list
  {
  }

  lemma CreatedWorkspaceIsShown(s: AppState, ws: Workspace, x: Session)
    ensures var t := Apply(s, WorkspaceCreated(ws, x));
            && t.activeWorkspace == Some(ws.id) && t.activeSession == Some(x.id) && Lookup(t.remembered, ws.id) == Some(x.id)
            && ListOf(t, ws.id) == [x] && t.workspaces != [] && Last(t.workspaces) == ws && Front(t.workspaces) == s.workspaces
            && (forall w | w != ws.id :: Lookup(t.remembered, w) == Lookup(s.remembered, w) && ListOf(t, w) == ListOf(s, w))
  {
    Appended(s.workspaces, ws);
  }

  /** Picking a tab shows it and remembers it for the active workspace only; no list changes. */
  lemma PickedIsShown(s: AppState, id: Id)
    ensures var t := ActivateSessionNext(s, id);
            && t.activeSession == Some(id) && t.activeWorkspace == s.activeWorkspace
            && t.sessions == s.sessions && t.workspaces == s.workspaces
            && (forall w :: Lookup(t.remembered, w) == if s.activeWorkspace == Some(w) then Some(id) else Lookup(s.remembered, w))
  {
  }

  /**
  After `init` the first workspace and its first session are shown, and for every
  workspace its first session is remembered.
   */
  lemma InitShowsFirst(db: T.Db, app: AppState, op: Op)
    requires T.DbOk(db) && op.Init? && Succeeds(db, op)
    ensures var t := ClientNext(db, app, op);
            && t.workspaces != [] && t.activeWorkspace == Some(t.workspaces[0].id)
            && ListOf(t, t.workspaces[0].id) != [] && t.activeSession == Some(ListOf(t, t.workspaces[0].id)[0].id)
            && (forall w <- t.sessions :: Lookup(t.remembered, w) == if t.sessions[w] == [] then None else Some(t.sessions[w][0].id))
    ensures var t := ClientNext(db, app, op);
            && (db.workspaces == [] ==> |t.workspaces| == 1 && t.workspaces[0].id == op.wsId && t.workspaces[0].name == "Default")
            && (ListOf(t, t.workspaces[0].id)[0].id == op.sessId ==> ListOf(t, t.workspaces[0].id)[0].title == "Terminal")
  {
    InitDbOk(db, op);
    InitListsCover(InitDb(db, op), op.cwd);
    T.ListingsAreRows(db, op.wsId);
    var d, wid := InitDb(db, op), InitWid(db, op);
    var t := ClientNext(db, app, op);
    assert t == Apply(app, InitCommit(db, op));
    assert t.workspaces == d.workspaces && t.activeWorkspace == Some(wid);
    FreshSession(db, op);
  }

  /** The session that `init` would create is in no list before. */
  lemma FreshSession(db: T.Db, op: Op)
    requires T.DbOk(db) && op.Init? && Succeeds(db, op)
    ensures var d, wid := InitDb(db, op), InitWid(db, op);
            forall i | 0 <= i < |Listing(d, wid, op.cwd)| :: Listing(d, wid, op.cwd)[i].id != op.sessId
  {
    var d, wid := InitDb(db, op), InitWid(db, op);
    InitDbOk(db, op);
    T.ListingsAreRows(d, wid);
    FilterMembers(d.sessions, T.InWorkspace(wid));
    var rows := T.ListSessions(d, wid);
    forall i | 0 <= i < |rows|
      ensures rows[i].id != op.sessId
    {
      assert rows[i] in d.sessions;
    }
  }

  /** The lists agree on every field that the sidebar and the tabs show. */
  ghost predicate LooksLike(a: seq<Session>, b: seq<Session>) {
    && |a| == |b|
    && forall i | 0 <= i < |a| ::
         a[i].id == b[i].id && a[i].title == b[i].title && a[i].cwd == b[i].cwd && a[i].updatedAt == b[i].updatedAt
  }

  /**
  Whatever the client holds, a poll leaves a list that looks like the fetched one,
  and changes nothing exactly if the list looked like it before.
   */
  lemma PollShowsFetched(s: AppState, wid: Id, list: seq<Session>)
    requires wid in s.sessions
    ensures var t := Apply(s, Polled(wid, list));
            && LooksLike(ListOf(t, wid), list)
            && (t == s <==> LooksLike(ListOf(s, wid), list))
            && t == s.(sessions := t.sessions) && (forall w | w != wid :: ListOf(t, w) == ListOf(s, w))
  {
    if !LooksLike(s.sessions[wid], list) {
      assert Apply(s, Polled(wid, list)).sessions[wid] == list;
    }
  }

  /** A poll brings the directory that tmux reports of each session, or none, and every other field from its row. */
  lemma PollBringsDirectories(db: T.Db, app: AppState, cwd: map<Id, string>, i: nat)
    requires T.DbOk(db) && Coherent(db, app) && app.activeWorkspace.Some?
    requires app.activeWorkspace.value in app.sessions && i < |T.ListSessions(db, app.activeWorkspace.value)|
    ensures var wid := app.activeWorkspace.value; var list := ListOf(ClientNext(db, app, PollActive(cwd)), wid);
            && |list| == |T.ListSessions(db, wid)|
            && list[i].cwd == (if list[i].id in cwd then cwd[list[i].id] else "")
            && list[i].(cwd := "") == T.ListSessions(db, wid)[i].(cwd := "")
  {
    PollRefreshes(db, app, cwd);
  }

  /** A rename replaces the one row, in place. */
  lemma RenamedInPlace(s: AppState, wid: Id, id: Id, row: Session)
    requires s.activeWorkspace == Some(wid)
    ensures var t := Apply(s, SessionRenamed(id, row));
            && |ListOf(t, wid)| == |ListOf(s, wid)|
            && (forall i | 0 <= i < |ListOf(s, wid)| :: ListOf(t, wid)[i] == if ListOf(s, wid)[i].id == id then row else ListOf(s, wid)[i])
            && (forall w | w != wid :: ListOf(t, w) == ListOf(s, w))
            && t.activeSession == s.activeSession && t.remembered == s.remembered && t.activeWorkspace == s.activeWorkspace
  {
  }

  /**
  Whatever the client holds, a fetch brings the rows of the server with the
  directories that tmux reports, and nothing else changes.
   */
  lemma FetchBringsRows(db: T.Db, app: AppState, id: Id, cwd: map<Id, string>, i: nat)
    ensures ClientNext(db, app, FetchWorkspaces) == app.(workspaces := T.ListWorkspaces(db))
    ensures var t, rows := ClientNext(db, app, FetchSessions(id, cwd)), T.ListSessions(db, id);
            && t == app.(sessions := t.sessions) && (forall w | w != id :: ListOf(t, w) == ListOf(app, w))
            && |ListOf(t, id)| == |rows|
            && (i < |rows| ==> ListOf(t, id)[i] == rows[i].(cwd := if rows[i].id in cwd then cwd[rows[i].id] else ""))
  {
    assert ListOf(ClientNext(db, app, FetchSessions(id, cwd)), id) == Listing(db, id, cwd);
  }

  lemma WorkspaceRenamedInPlace(app: AppState, id: Id, row: Workspace)
    ensures var t := Apply(app, WorkspaceRenamed(id, row));
            && |t.workspaces| == |app.workspaces| && t == app.(workspaces := t.workspaces)
            && (forall j | 0 <= j < |app.workspaces| :: t.workspaces[j] == if app.workspaces[j].id == id then row else app.workspaces[j])
  {
  }

  lemma RenamedWorkspaceCommit(db: T.Db, app: AppState, id: Id, name: string, now: int, i: nat)
    requires T.DbOk(db) && i < |db.workspaces| && db.workspaces[i].id == id && name != ""
    ensures Succeeds(db, RenameWorkspace(id, name, now))
    ensures CommitOf(db, app, RenameWorkspace(id, name, now))
            == Some(WorkspaceRenamed(id, db.workspaces[i].(name := name, updatedAt := now)))
  {
    WorkspaceRowAfter(db, id, name, now);
    assert T.UpdateWorkspace(db, id, name, now).workspaces[i] == db.workspaces[i].(name := name, updatedAt := now);
  }

  /**
  Renaming a workspace that exists, to a name that is not empty, goes through and
  shows the new name in its place.
   */
  lemma RenamedWorkspaceIsShown(db: T.Db, app: AppState, id: Id, name: string, now: int, i: nat)
    requires T.DbOk(db) && Coherent(db, app) && i < |app.workspaces| && app.workspaces[i].id == id && name != ""
    ensures Succeeds(db, RenameWorkspace(id, name, now))
    ensures var t := ClientNext(db, app, RenameWorkspace(id, name, now));
            && |t.workspaces| == |app.workspaces| && t == app.(workspaces := t.workspaces)
            && t.workspaces[i] == app.workspaces[i].(name := name, updatedAt := now)
            && (forall j | 0 <= j < |app.workspaces| && app.workspaces[j].id != id :: t.workspaces[j] == app.workspaces[j])
  {
    T.ListingsAreRows(db, id);
    RenamedWorkspaceCommit(db, app, id, name, now, i);
    WorkspaceRenamedInPlace(app, id, db.workspaces[i].(name := name, updatedAt := now));
  }
}
