/** The store as the object it is, and the handler that deletes a workspace together with its tmux sessions. */
module Store {
  import opened Prelude
  import opened Model
  import T = Tables
  import P = TmuxProtocol
  import M = TmuxManager

  class SqliteStore {
    var workspaces: seq<Workspace>
    var sessions: seq<Session>

    constructor ()
      ensures View() == T.Db([], [])
    {
      workspaces, sessions := [], [];
    }

    ghost function View(): T.Db
      reads this
    {
      T.Db(workspaces, sessions)
    }

    method ListWorkspaces() returns (out: seq<Workspace>)
      ensures out == T.ListWorkspaces(View())
      ensures T.Sorted(out, T.WorkspaceKey()) && multiset(out) == multiset(workspaces)
    {
      T.OrderBySorts(workspaces, T.WorkspaceKey());
      var rows := T.OrderBy(workspaces, T.WorkspaceKey());
      out := [];
      for i := 0 to |rows|
        invariant out == rows[..i]
      {
        out := out + [rows[i]];
      }
    }

    method ListSessions(wid: Id) returns (out: seq<Session>)
      ensures out == T.ListSessions(View(), wid)
      ensures T.Sorted(out, T.SessionKey()) && multiset(out) == multiset(Filter(sessions, T.InWorkspace(wid)))
    {
      T.OrderBySorts(Filter(sessions, T.InWorkspace(wid)), T.SessionKey());
      var rows := T.OrderBy(Filter(sessions, T.InWorkspace(wid)), T.SessionKey());
      out := [];
      for i := 0 to |rows|
        invariant out == rows[..i]
      {
        out := out + [rows[i]];
      }
    }

    /** `SELECT ... WHERE id = ?`, which the primary key makes a search for one row. */
    method GetSession(id: Id) returns (r: Option<Session>)
      ensures r.None? <==> !T.HasSession(View(), id)
      ensures r.Some? ==> r.value in sessions && r.value.id == id
    {
      for i := 0 to |sessions|
        invariant forall j | 0 <= j < i :: sessions[j].id != id
      {
        if sessions[i].id == id {
          return Some(sessions[i]);
        }
      }
      return None;
    }

    method GetWorkspace(id: Id) returns (r: Option<Workspace>)
      ensures r.None? <==> !T.HasWorkspace(View(), id)
      ensures r.Some? ==> r.value in workspaces && r.value.id == id
    {
      for i := 0 to |workspaces|
        invariant forall j | 0 <= j < i :: workspaces[j].id != id
      {
        if workspaces[i].id == id {
          return Some(workspaces[i]);
        }
      }
      return None;
    }

    method CreateWorkspace(id: Id, name: string, created: int, updated: int) returns (r: Option<Workspace>)
      modifies this
      ensures View() == T.Next(old(View()), T.CreateWorkspace(id, name, created, updated))
      ensures r == if T.HasWorkspace(old(View()), id) then None
                   else Some(T.NewWorkspace(old(View()), id, name, created, updated))
    {
      var maxOrder := T.MaxOrder(Map(workspaces, (w: Workspace) => w.sortOrder));
      var w := Workspace(id, name, maxOrder + 1, created, updated);
      if exists i | 0 <= i < |workspaces| :: workspaces[i].id == id {
        return None;
      }
      workspaces := workspaces + [w];
      return Some(w);
    }

    method CreateSession(wid: Id, title: string, id: Id, created: int, updated: int) returns (r: Option<Session>)
      modifies this
      ensures View() == T.Next(old(View()), T.CreateSession(wid, title, id, created, updated))
      ensures r == if T.Creates(old(View()), T.CreateSession(wid, title, id, created, updated))
                   then Some(T.NewSession(old(View()), wid, title, id, created, updated)) else None
    {
      var name := if title == "" then "Terminal" else title;
      var maxOrder := T.MaxOrder(Map(Filter(sessions, T.InWorkspace(wid)), (x: Session) => x.sortOrder));
      var x := Session(id, wid, name, "", "", maxOrder + 1, created, updated);
      if exists i | 0 <= i < |sessions| :: sessions[i].id == id {
        return None;
      }
      if !exists i | 0 <= i < |workspaces| :: workspaces[i].id == wid {
        return None;
      }
      sessions := sessions + [x];
      return Some(x);
    }

    /** The update reports the row it leaves, or none when no row has the id. */
    method UpdateSession(id: Id, title: string, now: int) returns (r: Option<Session>)
      modifies this
      ensures View() == T.Next(old(View()), T.RenameSession(id, title, now))
      ensures r.None? <==> !T.HasSession(old(View()), id)
      ensures r.Some? ==> r.value in sessions && r.value.id == id && r.value.title == title && r.value.updatedAt == now
    {
      sessions := Map(sessions, T.Retitled(id, title, now));
      assert forall i | 0 <= i < |sessions| :: sessions[i].id == old(sessions)[i].id;
      r := GetSession(id);
    }

    method UpdateWorkspace(id: Id, name: string, now: int) returns (r: Option<Workspace>)
      modifies this
      ensures View() == T.Next(old(View()), T.RenameWorkspace(id, name, now))
      ensures r.None? <==> !T.HasWorkspace(old(View()), id)
      ensures r.Some? ==> r.value in workspaces && r.value.id == id && r.value.name == name && r.value.updatedAt == now
    {
      workspaces := Map(workspaces, T.Renamed(id, name, now));
      assert forall i | 0 <= i < |workspaces| :: workspaces[i].id == old(workspaces)[i].id;
      r := GetWorkspace(id);
    }

    method DeleteSession(id: Id)
      modifies this
      ensures View() == T.Next(old(View()), T.RemoveSession(id))
    {
      sessions := Filter(sessions, OtherSessions(id));
    }

    /** `ON DELETE CASCADE` takes the sessions along. */
    method DeleteWorkspace(id: Id)
      modifies this
      ensures View() == T.Next(old(View()), T.RemoveWorkspace(id))
    {
      if exists i | 0 <= i < |workspaces| :: workspaces[i].id == id {
        workspaces := Filter(workspaces, OtherWorkspaces(id));
        sessions := Filter(sessions, T.Outside(id));
      }
    }
  }

  // ---------- deleting a workspace ----------

  /** Both halves of `KillSession`, one after the other. */
  function Kill(s: P.State, id: Id): P.State {
    P.Next(P.Next(s, P.KillLocked(id)), P.KillServer(id))
  }

  function KillEach(s: P.State, ids: seq<Id>): P.State {
    if ids == [] then s else Kill(KillEach(s, Front(ids)), Last(ids))
  }

  /** The loop over the listed sessions. */
  method KillListed(manager: M.Manager, rows: seq<Session>)
    requires manager.Valid()
    modifies manager, manager.created
    ensures manager.Valid() && manager.created == old(manager.created)
    ensures manager.View() == KillEach(old(manager.View()), Map(rows, T.IdOf()))
  {
    ghost var ids := Map(rows, T.IdOf());
    assert ids[..0] == [] && ids[..|rows|] == ids;
    for i := 0 to |rows|
      invariant manager.Valid() && manager.created == old(manager.created)
      invariant manager.View() == KillEach(old(manager.View()), ids[..i])
    {
      manager.KillSession(rows[i].id);
      assert Front(ids[..i + 1]) == ids[..i] && Last(ids[..i + 1]) == rows[i].id;
    }
  }

  /**
  `WorkspaceHandler.Delete`: list, delete with the cascade, then kill what was
  listed. A listing that fails counts as empty; a deletion that fails ends it.
   */
  method DeleteWorkspace(store: SqliteStore, manager: M.Manager, id: Id, listOk: bool, deleteOk: bool) returns (ok: bool)
    requires manager.Valid()
    modifies store, manager, manager.created
    ensures manager.Valid() && ok == deleteOk
    ensures store.View() == if deleteOk then T.DeleteWorkspace(old(store.View()), id) else old(store.View())
    ensures manager.View() ==
            if !deleteOk then old(manager.View())
            else KillEach(old(manager.View()), if listOk then T.Listed(old(store.View()), id) else [])
  {
    var rows: seq<Session> := [];
    if listOk {
      rows := store.ListSessions(id);
    }
    if !deleteOk {
      return false;
    }
    store.DeleteWorkspace(id);
    KillListed(manager, rows);
    return true;
  }

  ghost function AsSet(ids: seq<Id>): set<Id> {
    set id <- ids
  }

  lemma KillRemoves(s: P.State, id: Id)
    requires P.Owned(s) && P.Reaped(s)
    ensures var t := Kill(s, id);
            && P.Owned(t) && P.Reaped(t)
            && t.slots == s.slots - {id} && t.lastSize == s.lastSize - {id} && t.windows == s.windows - {id}
  {
    var middle := P.Next(s, P.KillLocked(id));
    P.OwnedStep(s, P.KillLocked(id));
    P.ReapedStep(s, P.KillLocked(id));
    P.OwnedStep(middle, P.KillServer(id));
    P.ReapedStep(middle, P.KillServer(id));
  }

  lemma MinusTwice<V>(m: map<Id, V>, ids: set<Id>, id: Id)
    ensures m - ids - {id} == m - (ids + {id})
  {
  }

  /** Killing some ids removes their slots, cached sizes and tmux sessions, and nothing of the others. */
  lemma {:induction false} KillEachRemoves(s: P.State, ids: seq<Id>)
    requires P.Owned(s) && P.Reaped(s)
    ensures var t, gone := KillEach(s, ids), AsSet(ids);
            && P.Owned(t) && P.Reaped(t)
            && t.slots == s.slots - gone && t.lastSize == s.lastSize - gone && t.windows == s.windows - gone
  {
    if ids != [] {
      var front, id := Front(ids), Last(ids);
      KillEachRemoves(s, front);
      KillRemoves(KillEach(s, front), id);
      assert ids == front + [id];
      assert AsSet(ids) == AsSet(front) + {id};
      MinusTwice(s.slots, AsSet(front), id);
      MinusTwice(s.lastSize, AsSet(front), id);
      MinusTwice(s.windows, AsSet(front), id);
    }
  }

  /** The manager or the tmux server has something of the id. */
  predicate Known(s: P.State, id: Id) {
    id in s.slots || id in s.lastSize || id in s.windows
  }

  predicate SameOf(s: P.State, t: P.State, id: Id) {
    && (id in t.slots <==> id in s.slots) && (id in s.slots ==> t.slots[id] == s.slots[id])
    && (id in t.lastSize <==> id in s.lastSize) && (id in s.lastSize ==> t.lastSize[id] == s.lastSize[id])
    && (id in t.windows <==> id in s.windows) && (id in s.windows ==> t.windows[id] == s.windows[id])
  }

  /** What the cascade removed has no slot, cached size or tmux session left; every other id keeps its own. */
  ghost predicate KillsExactly(db: T.Db, wid: Id, s: P.State, t: P.State) {
    forall id :: if T.HasSession(db, id) && !T.HasSession(T.DeleteWorkspace(db, wid), id) then !Known(t, id) else SameOf(s, t, id)
  }

  lemma KillsOf(s: P.State, ids: seq<Id>, id: Id)
    requires P.Owned(s) && P.Reaped(s)
    ensures var t := KillEach(s, ids);
            (Known(t, id) <==> Known(s, id) && id !in ids) && (SameOf(s, t, id) <==> !Known(s, id) || id !in ids)
  {
    KillEachRemoves(s, ids);
  }

  /**
  Deleting a workspace kills exactly the sessions that the cascade removes if and
  only if the listing that came before it has the same sessions as the cascade,
  as far as the manager or the tmux server knows them.
   */
  lemma WorkspaceDeletionIsExact(db: T.Db, s: P.State, wid: Id, ids: seq<Id>)
    requires T.DbOk(db) && P.Owned(s) && P.Reaped(s)
    ensures KillsExactly(db, wid, s, KillEach(s, ids))
            <==> forall id :: Known(s, id) ==> (id in ids <==> id in T.Listed(db, wid))
  {
    forall id
      ensures (if T.HasSession(db, id) && !T.HasSession(T.DeleteWorkspace(db, wid), id)
               then !Known(KillEach(s, ids), id) else SameOf(s, KillEach(s, ids), id))
              <==> (Known(s, id) ==> (id in ids <==> id in T.Listed(db, wid)))
    {
      T.CascadeRemovesListed(db, wid, id);
      KillsOf(s, ids, id);
    }
  }

  /** So it is when nothing comes between the two statements. */
  lemma UndisturbedDeletionIsExact(db: T.Db, s: P.State, wid: Id)
    requires T.DbOk(db) && P.Owned(s) && P.Reaped(s)
    ensures KillsExactly(db, wid, s, KillEach(s, T.Listed(db, wid)))
  {
    WorkspaceDeletionIsExact(db, s, wid, T.Listed(db, wid));
  }

  /** A session created between the listing and the cascade keeps its tmux session, once it has one. */
  lemma CreatedBetweenSurvives(db: T.Db, s: P.State, step: T.Step)
    requires T.DbOk(db) && P.Owned(s) && P.Reaped(s) && T.Creates(db, step) && step.id in s.windows
    ensures var later, t := T.Next(db, step), KillEach(s, T.Listed(db, step.wid));
            && step.id in t.windows && T.HasSession(later, step.id)
            && !T.HasSession(T.DeleteWorkspace(later, step.wid), step.id)
  {
    var later := T.Next(db, step);
    T.DbOkStep(db, step);
    assert later.sessions[|db.sessions|].id == step.id && later.sessions[|db.sessions|].workspaceId == step.wid;
    T.ListedMeans(later, step.wid, step.id);
    T.CascadeRemovesListed(later, step.wid, step.id);
    T.ListedMeans(db, step.wid, step.id);
    KillEachRemoves(s, T.Listed(db, step.wid));
  }

  /** After a listing that failed, every session of the workspace keeps its tmux session. */
  lemma FailedListingKillsNothing(db: T.Db, s: P.State, wid: Id)
    requires T.DbOk(db) && P.Owned(s) && P.Reaped(s)
    ensures KillEach(s, []) == s
    ensures KillsExactly(db, wid, s, s) <==> forall id :: id in T.Listed(db, wid) ==> !Known(s, id)
  {
    WorkspaceDeletionIsExact(db, s, wid, []);
  }
}
