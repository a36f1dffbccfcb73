/**
The SQL store as two tables, each a sequence of rows in the order of insertion,
and the statements that the server runs on them.
 */
module Tables {
  import opened Prelude
  import opened Model

  datatype Db = Db(workspaces: seq<Workspace>, sessions: seq<Session>)

  // ---------- ORDER BY sort_order, created_at ----------

  predicate KeyLess(a: (int, int), b: (int, int)) {
    a.0 < b.0 || (a.0 == b.0 && a.1 < b.1)
  }

  function Insert<T>(x: T, rows: seq<T>, key: T -> (int, int)): seq<T> {
    if rows == [] || !KeyLess(key(rows[0]), key(x)) then [x] + rows
    else [rows[0]] + Insert(x, rows[1..], key)
  }

  function OrderBy<T>(rows: seq<T>, key: T -> (int, int)): seq<T> {
    if rows == [] then [] else Insert(rows[0], OrderBy(rows[1..], key), key)
  }

  ghost predicate Sorted<T>(rows: seq<T>, key: T -> (int, int)) {
    forall i, j | 0 <= i < j < |rows| :: !KeyLess(key(rows[j]), key(rows[i]))
  }

  lemma {:induction false} InsertRows<T>(x: T, rows: seq<T>, key: T -> (int, int))
    ensures multiset(Insert(x, rows, key)) == multiset(rows) + multiset{x}
  {
    if rows != [] && KeyLess(key(rows[0]), key(x)) {
      InsertRows(x, rows[1..], key);
      assert rows == [rows[0]] + rows[1..];
    }
  }

  lemma {:induction false} InsertSorted<T>(x: T, rows: seq<T>, key: T -> (int, int))
    requires Sorted(rows, key)
    ensures Sorted(Insert(x, rows, key), key)
  {
    if rows != [] && KeyLess(key(rows[0]), key(x)) {
      var rest := Insert(x, rows[1..], key);
      InsertSorted(x, rows[1..], key);
      InsertRows(x, rows[1..], key);
      forall j | 0 <= j < |rest|
        ensures !KeyLess(key(rest[j]), key(rows[0]))
      {
        assert rest[j] in multiset(rest);
        assert rest[j] == x || rest[j] in rows[1..];
      }
    }
  }

  /** The result of `ORDER BY` is the same rows, in an order that never descends. */
  lemma {:induction false} OrderBySorts<T>(rows: seq<T>, key: T -> (int, int))
    ensures Sorted(OrderBy(rows, key), key)
    ensures multiset(OrderBy(rows, key)) == multiset(rows)
  {
    if rows != [] {
      OrderBySorts(rows[1..], key);
      InsertSorted(rows[0], OrderBy(rows[1..], key), key);
      InsertRows(rows[0], OrderBy(rows[1..], key), key);
      assert rows == [rows[0]] + rows[1..];
    }
  }

  lemma {:induction false} OrderByKeeps<T>(rows: seq<T>, key: T -> (int, int))
    requires Pairwise(rows, (a, b) => KeyLess(key(a), key(b)))
    ensures OrderBy(rows, key) == rows
  {
    if rows != [] {
      forall i, j | 0 <= i < j < |rows[1..]|
        ensures KeyLess(key(rows[1..][i]), key(rows[1..][j]))
      {
        assert rows[1..][i] == rows[i + 1] && rows[1..][j] == rows[j + 1];
      }
      OrderByKeeps(rows[1..], key);
      assert rows == [rows[0]] + rows[1..];
    }
  }

  // ---------- the statements ----------

  function InWorkspace(wid: Id): Session -> bool {
    (x: Session) => x.workspaceId == wid
  }

  function WorkspaceKey(): Workspace -> (int, int) {
    (w: Workspace) => (w.sortOrder, w.createdAt)
  }

  function SessionKey(): Session -> (int, int) {
    (x: Session) => (x.sortOrder, x.createdAt)
  }

  function ListWorkspaces(db: Db): seq<Workspace> {
    OrderBy(db.workspaces, WorkspaceKey())
  }

  function ListSessions(db: Db, wid: Id): seq<Session> {
    OrderBy(Filter(db.sessions, InWorkspace(wid)), SessionKey())
  }

  /** `COALESCE(MAX(sort_order), -1)`. */
  function MaxOrder(orders: seq<int>): int {
    if orders == [] then -1
    else if |orders| == 1 then orders[0]
    else
      var rest := MaxOrder(orders[1..]);
      if orders[0] > rest then orders[0] else rest
  }

  function WorkspaceOrders(db: Db): seq<int> {
    Map(db.workspaces, (w: Workspace) => w.sortOrder)
  }

  function SessionOrders(db: Db, wid: Id): seq<int> {
    Map(Filter(db.sessions, InWorkspace(wid)), (x: Session) => x.sortOrder)
  }

  predicate HasWorkspace(db: Db, id: Id) {
    exists i | 0 <= i < |db.workspaces| :: db.workspaces[i].id == id
  }

  predicate HasSession(db: Db, id: Id) {
    exists i | 0 <= i < |db.sessions| :: db.sessions[i].id == id
  }

  function NewWorkspace(db: Db, id: Id, name: string, created: int, updated: int): Workspace {
    Workspace(id, name, MaxOrder(WorkspaceOrders(db)) + 1, created, updated)
  }

  function NewSession(db: Db, wid: Id, title: string, id: Id, created: int, updated: int): Session {
    Session(id, wid, if title == "" then "Terminal" else title, "", "",
            MaxOrder(SessionOrders(db, wid)) + 1, created, updated)
  }

  /** The insert fails on a repeated primary key. */
  function InsertWorkspace(db: Db, w: Workspace): Db {
    if HasWorkspace(db, w.id) then db else db.(workspaces := db.workspaces + [w])
  }

  /** The insert fails on a repeated primary key and on a workspace that does not exist. */
  function InsertSession(db: Db, x: Session): Db {
    if HasSession(db, x.id) || !HasWorkspace(db, x.workspaceId) then db
    else db.(sessions := db.sessions + [x])
  }

  function Renamed(id: Id, name: string, now: int): Workspace -> Workspace {
    (w: Workspace) => if w.id == id then w.(name := name, updatedAt := now) else w
  }

  function Retitled(id: Id, title: string, now: int): Session -> Session {
    (x: Session) => if x.id == id then x.(title := title, updatedAt := now) else x
  }

  function Outside(wid: Id): Session -> bool {
    (x: Session) => x.workspaceId != wid
  }

  function UpdateWorkspace(db: Db, id: Id, name: string, now: int): Db {
    db.(workspaces := Map(db.workspaces, Renamed(id, name, now)))
  }

  function UpdateSession(db: Db, id: Id, title: string, now: int): Db {
    db.(sessions := Map(db.sessions, Retitled(id, title, now)))
  }

  /** Deleting a workspace cascades to its sessions, unless there is no such row. */
  function DeleteWorkspace(db: Db, id: Id): Db {
    if HasWorkspace(db, id)
    then Db(Filter(db.workspaces, OtherWorkspaces(id)), Filter(db.sessions, Outside(id)))
    else db
  }

  function DeleteSession(db: Db, id: Id): Db {
    db.(sessions := Filter(db.sessions, OtherSessions(id)))
  }

  datatype Step =
    | CreateWorkspace(id: Id, name: string, created: int, updated: int)
    | CreateSession(wid: Id, title: string, id: Id, created: int, updated: int)
    | RenameWorkspace(id: Id, name: string, now: int)
    | RenameSession(id: Id, title: string, now: int)
    | RemoveWorkspace(id: Id)
    | RemoveSession(id: Id)

  function Next(db: Db, step: Step): Db {
    match step
    case CreateWorkspace(id, name, created, updated) =>
      InsertWorkspace(db, NewWorkspace(db, id, name, created, updated))
    case CreateSession(wid, title, id, created, updated) =>
      InsertSession(db, NewSession(db, wid, title, id, created, updated))
    case RenameWorkspace(id, name, now) => UpdateWorkspace(db, id, name, now)
    case RenameSession(id, title, now) => UpdateSession(db, id, title, now)
    case RemoveWorkspace(id) => DeleteWorkspace(db, id)
    case RemoveSession(id) => DeleteSession(db, id)
  }

  // ---------- what the statements write ----------

  /** The maximum is one of the numbers, and -1 only stands in for none. */
  lemma {:induction false} MaxOrderIsThere(orders: seq<int>)
    ensures orders == [] ==> MaxOrder(orders) == -1
    ensures orders != [] ==> MaxOrder(orders) in orders
  {
    if |orders| > 1 {
      MaxOrderIsThere(orders[1..]);
      assert orders == [orders[0]] + orders[1..];
    }
  }

  lemma SameRows<T>(a: seq<T>, b: seq<T>, x: T)
    requires multiset(a) == multiset(b)
    ensures x in a <==> x in b
  {
    assert x in a <==> x in multiset(a);
    assert x in b <==> x in multiset(b);
  }

  lemma FilterKeepsExactly<T>(xs: seq<T>, keep: T -> bool, x: T)
    ensures x in Filter(xs, keep) <==> x in xs && keep(x)
  {
    FilterMembers(xs, keep);
    if x in Filter(xs, keep) {
      var k :| 0 <= k < |Filter(xs, keep)| && Filter(xs, keep)[k] == x;
    }
    if x in xs && keep(x) {
      var k :| 0 <= k < |xs| && xs[k] == x;
    }
  }

  /** A listing has the sessions of the workspace and no others, by `sort_order` and, where that is equal, by age. */
  lemma ListingOrder(db: Db, wid: Id)
    ensures var rows := ListSessions(db, wid);
            && (forall x :: x in rows <==> x in db.sessions && x.workspaceId == wid)
            && (forall i, j | 0 <= i < j < |rows| ::
                  rows[i].sortOrder < rows[j].sortOrder
                  || (rows[i].sortOrder == rows[j].sortOrder && rows[i].createdAt <= rows[j].createdAt))
  {
    var mine, rows := Filter(db.sessions, InWorkspace(wid)), ListSessions(db, wid);
    OrderBySorts(mine, SessionKey());
    forall x
      ensures x in rows <==> x in db.sessions && x.workspaceId == wid
    {
      SameRows(rows, mine, x);
      FilterKeepsExactly(db.sessions, InWorkspace(wid), x);
    }
    forall i, j | 0 <= i < j < |rows|
      ensures rows[i].sortOrder < rows[j].sortOrder
              || (rows[i].sortOrder == rows[j].sortOrder && rows[i].createdAt <= rows[j].createdAt)
    {
      assert !KeyLess(SessionKey()(rows[j]), SessionKey()(rows[i]));
    }
  }

  lemma WorkspaceListingOrder(db: Db)
    ensures var rows := ListWorkspaces(db);
            && (forall w :: w in rows <==> w in db.workspaces)
            && (forall i, j | 0 <= i < j < |rows| ::
                  rows[i].sortOrder < rows[j].sortOrder
                  || (rows[i].sortOrder == rows[j].sortOrder && rows[i].createdAt <= rows[j].createdAt))
  {
    var rows := ListWorkspaces(db);
    OrderBySorts(db.workspaces, WorkspaceKey());
    forall w
      ensures w in rows <==> w in db.workspaces
    {
      SameRows(rows, db.workspaces, w);
    }
    forall i, j | 0 <= i < j < |rows|
      ensures rows[i].sortOrder < rows[j].sortOrder
              || (rows[i].sortOrder == rows[j].sortOrder && rows[i].createdAt <= rows[j].createdAt)
    {
      assert !KeyLess(WorkspaceKey()(rows[j]), WorkspaceKey()(rows[i]));
    }
  }

  /** The numbers that a new session of the workspace goes after. */
  ghost predicate IsNextOrder(db: Db, wid: Id, order: int) {
    && (forall i | 0 <= i < |db.sessions| && db.sessions[i].workspaceId == wid :: db.sessions[i].sortOrder < order)
    && (order == 0 || exists i | 0 <= i < |db.sessions| :: db.sessions[i].workspaceId == wid && db.sessions[i].sortOrder + 1 == order)
  }

  lemma NextOrderIs(db: Db, wid: Id)
    ensures IsNextOrder(db, wid, MaxOrder(SessionOrders(db, wid)) + 1)
  {
    var mine, orders := Filter(db.sessions, InWorkspace(wid)), SessionOrders(db, wid);
    SessionOrdersBound(db, wid);
    MaxOrderIsThere(orders);
    if orders != [] {
      var k :| 0 <= k < |orders| && orders[k] == MaxOrder(orders);
      FilterMembers(db.sessions, InWorkspace(wid));
      assert mine[k] in db.sessions && mine[k].workspaceId == wid && mine[k].sortOrder == MaxOrder(orders);
    }
  }

  /**
  Creating a session appends one row, in no case where the id is taken or the
  workspace is missing, with the title asked for, or "Terminal", the times given,
  no shell, and the number after the highest of its workspace, or 0.
   */
  lemma CreatedRow(db: Db, step: Step)
    requires step.CreateSession?
    ensures var d := Next(db, step);
            && d.workspaces == db.workspaces
            && (HasSession(db, step.id) || !HasWorkspace(db, step.wid) ==> d == db)
            && (!HasSession(db, step.id) && HasWorkspace(db, step.wid) ==>
                  |d.sessions| == |db.sessions| + 1 && Front(d.sessions) == db.sessions
                  && var x := Last(d.sessions);
                     && x.id == step.id && x.workspaceId == step.wid
                     && x.title == (if step.title == "" then "Terminal" else step.title)
                     && x.createdAt == step.created && x.updatedAt == step.updated && x.shell == ""
                     && IsNextOrder(db, step.wid, x.sortOrder))
  {
    NextOrderIs(db, step.wid);
  }

  lemma CreatedWorkspaceRow(db: Db, step: Step)
    requires step.CreateWorkspace?
    ensures var d := Next(db, step);
            && d.sessions == db.sessions
            && (HasWorkspace(db, step.id) ==> d == db)
            && (!HasWorkspace(db, step.id) ==>
                  |d.workspaces| == |db.workspaces| + 1 && Front(d.workspaces) == db.workspaces
                  && var w := Last(d.workspaces);
                     && w.id == step.id && w.name == step.name && w.createdAt == step.created && w.updatedAt == step.updated
                     && (forall i | 0 <= i < |db.workspaces| :: db.workspaces[i].sortOrder < w.sortOrder)
                     && (w.sortOrder == 0 || exists i | 0 <= i < |db.workspaces| :: db.workspaces[i].sortOrder + 1 == w.sortOrder))
  {
    var orders := WorkspaceOrders(db);
    MaxOrderBounds(orders);
    MaxOrderIsThere(orders);
    forall i | 0 <= i < |db.workspaces|
      ensures db.workspaces[i].sortOrder < MaxOrder(orders) + 1
    {
      assert orders[i] <= MaxOrder(orders);
    }
    if orders != [] {
      var k :| 0 <= k < |orders| && orders[k] == MaxOrder(orders);
      assert db.workspaces[k].sortOrder + 1 == MaxOrder(orders) + 1;
    }
  }

  /** A rename changes title and `updated_at` of the rows with the id, and nothing else. */
  lemma RenamedRows(db: Db, step: Step, i: nat)
    requires step.RenameSession? && i < |db.sessions|
    ensures var d := Next(db, step); var x := db.sessions[i];
            && d.workspaces == db.workspaces && |d.sessions| == |db.sessions|
            && d.sessions[i] ==
               if x.id != step.id then x
               else Session(x.id, x.workspaceId, step.title, x.shell, x.cwd, x.sortOrder, x.createdAt, step.now)
  {
  }

  lemma RenamedWorkspaceRows(db: Db, step: Step, i: nat)
    requires step.RenameWorkspace? && i < |db.workspaces|
    ensures var d := Next(db, step); var w := db.workspaces[i];
            && d.sessions == db.sessions && |d.workspaces| == |db.workspaces|
            && d.workspaces[i] ==
               if w.id != step.id then w else Workspace(w.id, step.name, w.sortOrder, w.createdAt, step.now)
  {
  }

  // ---------- the invariant ----------

  predicate WorkspaceBefore(a: Workspace, b: Workspace) {
    a.id != b.id && a.sortOrder < b.sortOrder
  }

  predicate SessionBefore(a: Session, b: Session) {
    a.id != b.id && (a.workspaceId == b.workspaceId ==> a.sortOrder < b.sortOrder)
  }

  /** Later rows have other ids and, within a workspace, larger `sort_order`; no session lacks its workspace. */
  ghost predicate DbOk(db: Db) {
    && Pairwise(db.workspaces, WorkspaceBefore)
    && Pairwise(db.sessions, SessionBefore)
    && (forall i | 0 <= i < |db.sessions| :: HasWorkspace(db, db.sessions[i].workspaceId))
    && (forall i | 0 <= i < |db.sessions| :: db.sessions[i].cwd == "")
  }

  lemma {:induction false} MaxOrderBounds(orders: seq<int>)
    ensures forall i | 0 <= i < |orders| :: orders[i] <= MaxOrder(orders)
  {
    if |orders| > 1 {
      MaxOrderBounds(orders[1..]);
      forall i | 0 <= i < |orders|
        ensures orders[i] <= MaxOrder(orders)
      {
        assert i > 0 ==> orders[i] == orders[1..][i - 1];
      }
    }
  }

  lemma CreateWorkspaceOk(db: Db, step: Step)
    requires DbOk(db) && step.CreateWorkspace?
    ensures DbOk(Next(db, step))
  {
    MaxOrderBounds(WorkspaceOrders(db));
    var w := NewWorkspace(db, step.id, step.name, step.created, step.updated);
    forall i | 0 <= i < |db.workspaces|
      ensures db.workspaces[i].sortOrder < w.sortOrder
    {
      assert WorkspaceOrders(db)[i] <= MaxOrder(WorkspaceOrders(db));
    }
    var d := Next(db, step);
    forall i | 0 <= i < |d.sessions|
      ensures HasWorkspace(d, d.sessions[i].workspaceId)
    {
      assert HasWorkspace(db, db.sessions[i].workspaceId);
      var j :| 0 <= j < |db.workspaces| && db.workspaces[j].id == db.sessions[i].workspaceId;
      assert d.workspaces[j] == db.workspaces[j];
    }
  }

  lemma SessionOrdersBound(db: Db, wid: Id)
    ensures forall i | 0 <= i < |db.sessions| && db.sessions[i].workspaceId == wid ::
              db.sessions[i].sortOrder <= MaxOrder(SessionOrders(db, wid))
  {
    var mine := Filter(db.sessions, InWorkspace(wid));
    MaxOrderBounds(SessionOrders(db, wid));
    FilterMembers(db.sessions, InWorkspace(wid));
    forall i | 0 <= i < |db.sessions| && db.sessions[i].workspaceId == wid
      ensures db.sessions[i].sortOrder <= MaxOrder(SessionOrders(db, wid))
    {
      var k :| 0 <= k < |mine| && mine[k] == db.sessions[i];
      assert SessionOrders(db, wid)[k] == mine[k].sortOrder;
    }
  }

  lemma InsertSessionOk(db: Db, x: Session)
    requires DbOk(db) && x.cwd == ""
    requires forall i | 0 <= i < |db.sessions| && db.sessions[i].workspaceId == x.workspaceId ::
               db.sessions[i].sortOrder < x.sortOrder
    ensures DbOk(InsertSession(db, x))
  {
    var d := InsertSession(db, x);
    forall i | 0 <= i < |d.sessions|
      ensures HasWorkspace(d, d.sessions[i].workspaceId)
    {
      assert HasWorkspace(db, d.sessions[i].workspaceId);
    }
  }

  lemma CreateSessionOk(db: Db, step: Step)
    requires DbOk(db) && step.CreateSession?
    ensures DbOk(Next(db, step))
  {
    SessionOrdersBound(db, step.wid);
    InsertSessionOk(db, NewSession(db, step.wid, step.title, step.id, step.created, step.updated));
  }

  /**
  The maximum is read by a statement of its own, so another create may come
  between: the insert keeps the tables right if and only if no session of the
  workspace has gone past what was read.
   */
  lemma StaleOrder(read: Db, db: Db, step: Step)
    requires DbOk(db) && step.CreateSession? && !HasSession(db, step.id) && HasWorkspace(db, step.wid)
    ensures var x := NewSession(read, step.wid, step.title, step.id, step.created, step.updated);
            DbOk(InsertSession(db, x))
            <==> forall i | 0 <= i < |db.sessions| && db.sessions[i].workspaceId == step.wid ::
                   db.sessions[i].sortOrder <= MaxOrder(SessionOrders(read, step.wid))
  {
    var x := NewSession(read, step.wid, step.title, step.id, step.created, step.updated);
    var d := InsertSession(db, x);
    if DbOk(d) {
      forall i | 0 <= i < |db.sessions| && db.sessions[i].workspaceId == step.wid
        ensures db.sessions[i].sortOrder <= MaxOrder(SessionOrders(read, step.wid))
      {
        assert SessionBefore(d.sessions[i], d.sessions[|db.sessions|]);
      }
    } else if forall i | 0 <= i < |db.sessions| && db.sessions[i].workspaceId == step.wid ::
                db.sessions[i].sortOrder <= MaxOrder(SessionOrders(read, step.wid)) {
      InsertSessionOk(db, x);
    }
  }

  ghost predicate DistinctOrders(db: Db) {
    forall i, j | 0 <= i < j < |db.sessions| ::
      db.sessions[i].workspaceId == db.sessions[j].workspaceId ==> db.sessions[i].sortOrder != db.sessions[j].sortOrder
  }

  ghost predicate DistinctWorkspaceOrders(db: Db) {
    forall i, j | 0 <= i < j < |db.workspaces| :: db.workspaces[i].sortOrder != db.workspaces[j].sortOrder
  }

  /**
  It keeps `sort_order` distinct within a workspace if and only if none of its
  sessions has the number after the maximum that was read.
   */
  lemma StaleOrderDistinct(read: Db, db: Db, step: Step)
    requires DistinctOrders(db) && step.CreateSession? && !HasSession(db, step.id) && HasWorkspace(db, step.wid)
    ensures var x := NewSession(read, step.wid, step.title, step.id, step.created, step.updated);
            DistinctOrders(InsertSession(db, x))
            <==> forall i | 0 <= i < |db.sessions| && db.sessions[i].workspaceId == step.wid ::
                   db.sessions[i].sortOrder != MaxOrder(SessionOrders(read, step.wid)) + 1
  {
    var x := NewSession(read, step.wid, step.title, step.id, step.created, step.updated);
    var d := InsertSession(db, x);
    if DistinctOrders(d) {
      forall i | 0 <= i < |db.sessions| && db.sessions[i].workspaceId == step.wid
        ensures db.sessions[i].sortOrder != x.sortOrder
      {
        assert d.sessions[i].sortOrder != d.sessions[|db.sessions|].sortOrder;
      }
    }
  }

  /** The same for workspaces, which are numbered together. */
  lemma StaleWorkspaceOrderDistinct(read: Db, db: Db, step: Step)
    requires DistinctWorkspaceOrders(db) && step.CreateWorkspace? && !HasWorkspace(db, step.id)
    ensures var w := NewWorkspace(read, step.id, step.name, step.created, step.updated);
            DistinctWorkspaceOrders(InsertWorkspace(db, w))
            <==> forall i | 0 <= i < |db.workspaces| ::
                   db.workspaces[i].sortOrder != MaxOrder(WorkspaceOrders(read)) + 1
  {
    var w := NewWorkspace(read, step.id, step.name, step.created, step.updated);
    var d := InsertWorkspace(db, w);
    if DistinctWorkspaceOrders(d) {
      forall i | 0 <= i < |db.workspaces|
        ensures db.workspaces[i].sortOrder != w.sortOrder
      {
        assert d.workspaces[i].sortOrder != d.workspaces[|db.workspaces|].sortOrder;
      }
    }
  }

  /** Two workspace creates that both read before either inserts draw one `sort_order` twice. */
  lemma RacedWorkspaceCreates(db: Db, first: Step, second: Step)
    requires DbOk(db) && first.CreateWorkspace? && second.CreateWorkspace? && first.id != second.id
    requires !HasWorkspace(db, first.id) && !HasWorkspace(db, second.id)
    ensures var d := Next(db, first);
            var w := NewWorkspace(db, second.id, second.name, second.created, second.updated);
            DbOk(d) && !HasWorkspace(d, second.id) && !DistinctWorkspaceOrders(InsertWorkspace(d, w))
  {
    var d := Next(db, first);
    CreateWorkspaceOk(db, first);
    assert d.workspaces[|db.workspaces|].sortOrder == MaxOrder(WorkspaceOrders(db)) + 1;
    assert forall i, j | 0 <= i < j < |d.workspaces| :: WorkspaceBefore(d.workspaces[i], d.workspaces[j]);
    StaleWorkspaceOrderDistinct(db, d, second);
  }

  /** Two creates in one workspace that both read before either inserts draw one `sort_order` twice. */
  lemma RacedCreates(db: Db, first: Step, second: Step)
    requires DbOk(db) && first.CreateSession? && second.CreateSession? && first.wid == second.wid
    requires HasWorkspace(db, first.wid) && first.id != second.id
    requires !HasSession(db, first.id) && !HasSession(db, second.id)
    ensures var d := Next(db, first);
            var y := NewSession(db, second.wid, second.title, second.id, second.created, second.updated);
            DbOk(d) && !HasSession(d, second.id) && HasWorkspace(d, second.wid)
            && !DbOk(InsertSession(d, y)) && !DistinctOrders(InsertSession(d, y))
  {
    var d := Next(db, first);
    CreateSessionOk(db, first);
    assert Last(d.sessions).sortOrder == MaxOrder(SessionOrders(db, first.wid)) + 1;
    assert d.sessions[|db.sessions|] == Last(d.sessions);
    StaleOrder(db, d, second);
    assert forall i, j | 0 <= i < j < |d.sessions| :: SessionBefore(d.sessions[i], d.sessions[j]);
    StaleOrderDistinct(db, d, second);
  }

  lemma RemoveOk(db: Db, step: Step)
    requires DbOk(db) && (step.RemoveWorkspace? || step.RemoveSession?)
    ensures DbOk(Next(db, step))
  {
    var d := Next(db, step);
    match step
    case RemoveSession(id) =>
      FilterPairwise(db.sessions, OtherSessions(id), SessionBefore);
      FilterMembers(db.sessions, OtherSessions(id));
    case RemoveWorkspace(id) =>
      FilterPairwise(db.workspaces, OtherWorkspaces(id), WorkspaceBefore);
      FilterMembers(db.workspaces, OtherWorkspaces(id));
      FilterPairwise(db.sessions, Outside(id), SessionBefore);
      FilterMembers(db.sessions, Outside(id));
      if HasWorkspace(db, id) {
        forall i | 0 <= i < |d.sessions|
          ensures HasWorkspace(d, d.sessions[i].workspaceId)
        {
          var x := d.sessions[i];
          assert x in db.sessions && x.workspaceId != id;
          assert HasWorkspace(db, x.workspaceId);
          var j :| 0 <= j < |db.workspaces| && db.workspaces[j].id == x.workspaceId;
          assert db.workspaces[j] in d.workspaces;
        }
      }
  }

  lemma RenameOk(db: Db, step: Step)
    requires DbOk(db) && (step.RenameWorkspace? || step.RenameSession?)
    ensures DbOk(Next(db, step))
  {
    var d := Next(db, step);
    forall i | 0 <= i < |d.sessions|
      ensures HasWorkspace(d, d.sessions[i].workspaceId)
    {
      assert HasWorkspace(db, db.sessions[i].workspaceId);
      var j :| 0 <= j < |db.workspaces| && db.workspaces[j].id == db.sessions[i].workspaceId;
      assert d.workspaces[j].id == db.workspaces[j].id;
    }
  }

  lemma DbOkStep(db: Db, step: Step)
    requires DbOk(db)
    ensures DbOk(Next(db, step))
  {
    match step
    case CreateWorkspace(_, _, _, _) => CreateWorkspaceOk(db, step);
    case CreateSession(_, _, _, _, _) => CreateSessionOk(db, step);
    case RenameWorkspace(_, _, _) => RenameOk(db, step);
    case RenameSession(_, _, _) => RenameOk(db, step);
    case RemoveWorkspace(_) => RemoveOk(db, step);
    case RemoveSession(_) => RemoveOk(db, step);
  }

  /** The order of the listings is the order of the rows. */
  lemma ListingsAreRows(db: Db, wid: Id)
    requires DbOk(db)
    ensures ListWorkspaces(db) == db.workspaces
    ensures ListSessions(db, wid) == Filter(db.sessions, InWorkspace(wid))
  {
    OrderByKeeps(db.workspaces, WorkspaceKey());
    var mine := Filter(db.sessions, InWorkspace(wid));
    FilterPairwise(db.sessions, InWorkspace(wid), SessionBefore);
    FilterMembers(db.sessions, InWorkspace(wid));
    forall i, j | 0 <= i < j < |mine|
      ensures KeyLess(SessionKey()(mine[i]), SessionKey()(mine[j]))
    {
      assert SessionBefore(mine[i], mine[j]);
    }
    OrderByKeeps(mine, SessionKey());
  }

  // ---------- listing order is creation order ----------

  function IdOf(): Session -> Id {
    (x: Session) => x.id
  }

  /** The ids in the order in which `ListSessions` returns them. */
  function Listed(db: Db, wid: Id): seq<Id> {
    Map(ListSessions(db, wid), IdOf())
  }

  function Alive(db: Db): Id -> bool {
    (id: Id) => HasSession(db, id)
  }

  predicate Creates(db: Db, step: Step) {
    step.CreateSession? && !HasSession(db, step.id) && HasWorkspace(db, step.wid)
  }

  function CreatedNow(db: Db, step: Step, wid: Id): seq<Id> {
    if Creates(db, step) && step.wid == wid then [step.id] else []
  }

  lemma {:induction false} MapFilter<T, U>(xs: seq<T>, f: T -> U, p: T -> bool, q: U -> bool)
    requires forall i | 0 <= i < |xs| :: p(xs[i]) == q(f(xs[i]))
    ensures Map(Filter(xs, p), f) == Filter(Map(xs, f), q)
  {
    if xs != [] {
      MapFilter(xs[1..], f, p, q);
      assert Map(xs, f)[1..] == Map(xs[1..], f);
      var first := if p(xs[0]) then [xs[0]] else [];
      assert Map(first + Filter(xs[1..], p), f) == Map(first, f) + Map(Filter(xs[1..], p), f);
    }
  }

  lemma FilterSwap<T>(xs: seq<T>, p: T -> bool, q: T -> bool)
    ensures Filter(Filter(xs, p), q) == Filter(Filter(xs, q), p)
  {
    FilterFilter(xs, p, q);
    FilterFilter(xs, q, p);
    FilterSame(xs, Both(p, q), Both(q, p));
  }

  lemma SameRow(rows: seq<Session>, i: nat, k: nat)
    requires Pairwise(rows, SessionBefore)
    requires i < |rows| && k < |rows|
    ensures rows[i].id == rows[k].id ==> i == k
  {
  }

  /** Ids are unique, so an id survives exactly when its row does. */
  lemma SurvivorsAreKept(db: Db, d: Db, keep: Session -> bool)
    requires Pairwise(db.sessions, SessionBefore) && d.sessions == Filter(db.sessions, keep)
    ensures forall i | 0 <= i < |db.sessions| :: HasSession(d, db.sessions[i].id) == keep(db.sessions[i])
  {
    FilterMembers(db.sessions, keep);
    forall i | 0 <= i < |db.sessions|
      ensures HasSession(d, db.sessions[i].id) == keep(db.sessions[i])
    {
      if HasSession(d, db.sessions[i].id) {
        var j :| 0 <= j < |d.sessions| && d.sessions[j].id == db.sessions[i].id;
        assert d.sessions[j] in db.sessions;
        var k :| 0 <= k < |db.sessions| && db.sessions[k] == d.sessions[j];
        SameRow(db.sessions, i, k);
      }
    }
  }

  lemma RemovalKeepsOrder(db: Db, d: Db, wid: Id, keep: Session -> bool)
    requires DbOk(db) && DbOk(d) && d.sessions == Filter(db.sessions, keep)
    ensures Listed(d, wid) == Filter(Listed(db, wid), Alive(d))
  {
    var mine := Filter(db.sessions, InWorkspace(wid));
    ListingsAreRows(db, wid);
    ListingsAreRows(d, wid);
    FilterSwap(db.sessions, keep, InWorkspace(wid));
    SurvivorsAreKept(db, d, keep);
    FilterMembers(db.sessions, InWorkspace(wid));
    forall i | 0 <= i < |mine|
      ensures keep(mine[i]) == Alive(d)(IdOf()(mine[i]))
    {
      assert mine[i] in db.sessions;
    }
    MapFilter(mine, IdOf(), keep, Alive(d));
  }

  lemma AllAlive(db: Db, d: Db, wid: Id)
    requires forall i | 0 <= i < |db.sessions| :: HasSession(d, db.sessions[i].id)
    requires DbOk(db)
    ensures Filter(Listed(db, wid), Alive(d)) == Listed(db, wid)
  {
    ListingsAreRows(db, wid);
    FilterMembers(db.sessions, InWorkspace(wid));
    FilterAll(Listed(db, wid), Alive(d));
  }

  lemma ListedInsert(db: Db, x: Session, wid: Id)
    requires DbOk(db) && DbOk(db.(sessions := db.sessions + [x]))
    ensures Listed(db.(sessions := db.sessions + [x]), wid)
            == Listed(db, wid) + (if x.workspaceId == wid then [x.id] else [])
  {
    ListingsAreRows(db, wid);
    ListingsAreRows(db.(sessions := db.sessions + [x]), wid);
    FilterAppend(db.sessions, [x], InWorkspace(wid));
    var one := [x];
    assert one[1..] == [];
  }

  lemma ListedCreateSession(db: Db, step: Step, wid: Id)
    requires DbOk(db) && step.CreateSession?
    ensures var d := Next(db, step);
            Listed(d, wid) == Filter(Listed(db, wid), Alive(d)) + CreatedNow(db, step, wid)
  {
    var d := Next(db, step);
    DbOkStep(db, step);
    forall i | 0 <= i < |db.sessions|
      ensures HasSession(d, db.sessions[i].id)
    {
      assert d.sessions[i] == db.sessions[i];
    }
    AllAlive(db, d, wid);
    if Creates(db, step) {
      ListedInsert(db, NewSession(db, step.wid, step.title, step.id, step.created, step.updated), wid);
    }
  }

  lemma RetitleKeepsIds(rows: seq<Session>, id: Id, title: string, now: int)
    ensures Map(Map(rows, Retitled(id, title, now)), IdOf()) == Map(rows, IdOf())
  {
  }

  lemma ListedRename(db: Db, id: Id, title: string, now: int, wid: Id)
    requires DbOk(db)
    ensures Listed(UpdateSession(db, id, title, now), wid) == Listed(db, wid)
  {
    DbOkStep(db, RenameSession(id, title, now));
    ListingsAreRows(db, wid);
    ListingsAreRows(UpdateSession(db, id, title, now), wid);
    FilterMap(db.sessions, Retitled(id, title, now), InWorkspace(wid));
    RetitleKeepsIds(Filter(db.sessions, InWorkspace(wid)), id, title, now);
  }

  lemma ListedRenameStep(db: Db, step: Step, wid: Id)
    requires DbOk(db) && step.RenameSession?
    ensures var d := Next(db, step); Listed(d, wid) == Filter(Listed(db, wid), Alive(d))
  {
    var d := Next(db, step);
    ListedRename(db, step.id, step.title, step.now, wid);
    forall i | 0 <= i < |db.sessions|
      ensures HasSession(d, db.sessions[i].id)
    {
      assert d.sessions[i].id == db.sessions[i].id;
    }
    AllAlive(db, d, wid);
  }

  /** A statement drops the ids that die and appends the id it creates: the listing never reorders. */
  lemma ListedStep(db: Db, step: Step, wid: Id)
    requires DbOk(db)
    ensures var d := Next(db, step);
            Listed(d, wid) == Filter(Listed(db, wid), Alive(d)) + CreatedNow(db, step, wid)
  {
    var d := Next(db, step);
    DbOkStep(db, step);
    match step
    case CreateSession(_, _, _, _, _) => ListedCreateSession(db, step, wid);
    case RenameSession(_, _, _) => ListedRenameStep(db, step, wid);
    case RemoveSession(id) => RemovalKeepsOrder(db, d, wid, OtherSessions(id));
    case RemoveWorkspace(id) =>
      if HasWorkspace(db, id) {
        RemovalKeepsOrder(db, d, wid, Outside(id));
      } else {
        AllAlive(db, d, wid);
      }
    case CreateWorkspace(_, _, _, _) => AllAlive(db, d, wid);
    case RenameWorkspace(_, _, _) => AllAlive(db, d, wid);
  }

  datatype Run = Run(states: seq<Db>, steps: seq<Step>) {
    ghost predicate Valid() {
      && |states| == |steps| + 1
      && forall k | 0 <= k < |steps| :: states[k + 1] == Next(states[k], steps[k])
    }
  }

  /** The sessions created in a workspace by the first `n` statements, in order. */
  function Created(r: Run, n: nat, wid: Id): seq<Id>
    requires n <= |r.steps| && n <= |r.states|
  {
    if n == 0 then [] else Created(r, n - 1, wid) + CreatedNow(r.states[n - 1], r.steps[n - 1], wid)
  }

  /** No id is used twice, as with random UUIDs. */
  ghost predicate FreshIds(r: Run)
    requires r.Valid()
  {
    forall k, wid | 0 <= k < |r.steps| && r.steps[k].CreateSession? :: r.steps[k].id !in Created(r, k, wid)
  }

  lemma LogStep(db: Db, step: Step, wid: Id, log: seq<Id>)
    requires DbOk(db) && (step.CreateSession? ==> step.id !in log)
    requires Listed(db, wid) == Filter(log, Alive(db))
    ensures Listed(Next(db, step), wid) == Filter(log + CreatedNow(db, step, wid), Alive(Next(db, step)))
  {
    var d, now := Next(db, step), CreatedNow(db, step, wid);
    ListedStep(db, step, wid);
    FilterFilter(log, Alive(db), Alive(d));
    forall i | 0 <= i < |log| && HasSession(d, log[i])
      ensures HasSession(db, log[i])
    {
      StaysDead(db, step, log[i]);
    }
    FilterSame(log, Both(Alive(db), Alive(d)), Alive(d));
    FilterAppend(log, now, Alive(d));
    if Creates(db, step) {
      assert d.sessions[|db.sessions|].id == step.id;
    }
    FilterAll(now, Alive(d));
  }

  /** The listing is what was created in the workspace, in that order, without what has died. */
  lemma {:induction false} ListingOrderIsCreationOrder(r: Run, n: nat, wid: Id)
    requires r.Valid() && r.states[0] == Db([], []) && FreshIds(r) && n <= |r.steps|
    ensures DbOk(r.states[n])
    ensures Listed(r.states[n], wid) == Filter(Created(r, n, wid), Alive(r.states[n]))
  {
    if n > 0 {
      ListingOrderIsCreationOrder(r, n - 1, wid);
      DbOkStep(r.states[n - 1], r.steps[n - 1]);
      LogStep(r.states[n - 1], r.steps[n - 1], wid, Created(r, n - 1, wid));
    }
  }

  lemma StaysDead(db: Db, step: Step, id: Id)
    requires HasSession(Next(db, step), id) && (step.CreateSession? ==> step.id != id)
    ensures HasSession(db, id)
  {
    var d := Next(db, step);
    var i :| 0 <= i < |d.sessions| && d.sessions[i].id == id;
    match step
    case RemoveSession(gone) => FilterMembers(db.sessions, OtherSessions(gone)); assert d.sessions[i] in db.sessions;
    case RemoveWorkspace(gone) => FilterMembers(db.sessions, Outside(gone)); assert d.sessions[i] in db.sessions;
    case _ => assert db.sessions[i].id == id;
  }

  lemma ListedMeans(db: Db, wid: Id, id: Id)
    requires DbOk(db)
    ensures id in Listed(db, wid)
            <==> exists i | 0 <= i < |db.sessions| :: db.sessions[i].id == id && db.sessions[i].workspaceId == wid
  {
    var mine := Filter(db.sessions, InWorkspace(wid));
    ListingsAreRows(db, wid);
    FilterMembers(db.sessions, InWorkspace(wid));
    if i :| 0 <= i < |db.sessions| && db.sessions[i].id == id && db.sessions[i].workspaceId == wid {
      assert db.sessions[i] in mine;
      var k :| 0 <= k < |mine| && mine[k] == db.sessions[i];
      assert Listed(db, wid)[k] == id;
    }
    if id in Listed(db, wid) {
      var k :| 0 <= k < |mine| && mine[k].id == id;
      assert mine[k] in db.sessions;
    }
  }

  /** The cascade removes exactly the sessions that a listing just before it returns. */
  lemma CascadeRemovesListed(db: Db, wid: Id, id: Id)
    requires DbOk(db)
    ensures HasSession(db, id) && !HasSession(DeleteWorkspace(db, wid), id) <==> id in Listed(db, wid)
  {
    ListedMeans(db, wid, id);
    if HasWorkspace(db, wid) {
      DbOkStep(db, RemoveWorkspace(wid));
      SurvivorsAreKept(db, DeleteWorkspace(db, wid), Outside(wid));
    }
  }
}
