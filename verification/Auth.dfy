/**
Login sessions and single-use WebSocket tickets.

A token is an id; the clock is monotone; `CreateSession` and `CreateTicket` draw
a token that was never issued before. `validateSession` looks an entry up under
one lock and deletes an expired one under another, so its deletion is a step of
its own.
 */
module Auth {
  import opened Prelude

  type Token = string

  const SESSION_MS := 7 * 24 * 60 * 60 * 1000
  const TICKET_MS := 30 * 1000

  datatype State = State(sessions: map<Token, int>, tickets: map<Token, int>, clock: int)

  /** What a request shows: the cookie, whether it asks for a WebSocket upgrade, and the ticket parameter. */
  datatype Request = Request(cookie: Token, upgrade: bool, ticket: Token)

  datatype Step =
    | CreateSession(token: Token, now: int)
    | DeleteSession(token: Token)
    | DropExpired(token: Token)
    | CreateTicket(token: Token, now: int)
    | Serve(hasPassword: bool, req: Request, now: int)

  datatype Verdict = Open | ByCookie | ByTicket | Rejected

  predicate ValidSession(s: State, token: Token, now: int) {
    token in s.sessions && now <= s.sessions[token]
  }

  predicate ValidTicket(s: State, token: Token, now: int) {
    token != "" && token in s.tickets && now < s.tickets[token]
  }

  /** `requireAuth`: without a password anyone; then the cookie; then, for an upgrade, the ticket. */
  function Judge(s: State, hasPassword: bool, req: Request, now: int): Verdict {
    if !hasPassword then Open
    else if req.cookie != "" && ValidSession(s, req.cookie, now) then ByCookie
    else if req.upgrade && ValidTicket(s, req.ticket, now) then ByTicket
    else Rejected
  }

  /** The request got as far as looking its ticket up, which removes it whether or not it is still good. */
  predicate UsesTicket(s: State, hasPassword: bool, req: Request, now: int) {
    hasPassword && !(req.cookie != "" && ValidSession(s, req.cookie, now)) && req.upgrade && req.ticket != ""
  }

  predicate Enabled(s: State, step: Step) {
    match step
    case CreateSession(_, now) => s.clock <= now
    case CreateTicket(_, now) => s.clock <= now
    case Serve(_, _, now) => s.clock <= now
    case DropExpired(token) => token in s.sessions ==> s.sessions[token] < s.clock
    case DeleteSession(_) => true
  }

  function Next(s: State, step: Step): State {
    match step
    case CreateSession(token, now) => s.(sessions := s.sessions[token := now + SESSION_MS], clock := now)
    case DeleteSession(token) => s.(sessions := s.sessions - {token})
    case DropExpired(token) => s.(sessions := s.sessions - {token})
    case CreateTicket(token, now) => s.(tickets := s.tickets[token := now + TICKET_MS], clock := now)
    case Serve(hasPassword, req, now) =>
      s.(tickets := if UsesTicket(s, hasPassword, req, now) then s.tickets - {req.ticket} else s.tickets, clock := now)
  }

  datatype Run = Run(states: seq<State>, steps: seq<Step>) {
    /** From an empty manager, with tokens that are never drawn twice. */
    ghost predicate Valid() {
      && |states| == |steps| + 1
      && states[0].sessions == map[] && states[0].tickets == map[]
      && (forall k | 0 <= k < |steps| :: Enabled(states[k], steps[k]) && states[k + 1] == Next(states[k], steps[k]))
      && (forall j, k | 0 <= j < k < |steps| :: Draws(steps[j]) && Draws(steps[k]) ==> steps[j].token != steps[k].token)
    }
  }

  predicate Draws(step: Step) {
    step.CreateSession? || step.CreateTicket?
  }

  /** Step `k` is a request that its ticket lets in. */
  ghost predicate AdmittedBy(r: Run, k: nat, token: Token)
    requires r.Valid() && k < |r.steps|
  {
    var step := r.steps[k];
    step.Serve? && step.req.ticket == token && Judge(r.states[k], step.hasPassword, step.req, step.now) == ByTicket
  }

  lemma {:induction false} ClockIsMonotone(r: Run, a: nat, b: nat)
    requires r.Valid() && a <= b <= |r.steps|
    ensures r.states[a].clock <= r.states[b].clock
    decreases b
  {
    if a < b {
      ClockIsMonotone(r, a, b - 1);
      assert Enabled(r.states[b - 1], r.steps[b - 1]);
    }
  }

  /** A ticket in the map was created by one earlier step, and carries that step's expiry. */
  lemma {:induction false} TicketOrigin(r: Run, n: nat, token: Token) returns (k: nat)
    requires r.Valid() && n <= |r.steps| && token in r.states[n].tickets
    ensures k < n && r.steps[k] == CreateTicket(token, r.states[k + 1].clock)
    ensures r.states[n].tickets[token] == r.states[k + 1].clock + TICKET_MS
  {
    var step, before := r.steps[n - 1], r.states[n - 1];
    assert r.states[n] == Next(before, step);
    if step.CreateTicket? && step.token == token {
      k := n - 1;
    } else {
      k := TicketOrigin(r, n - 1, token);
    }
  }

  /** Once gone, a ticket stays gone: no later step draws its token. */
  lemma {:induction false} TicketStaysGone(r: Run, k: nat, a: nat, b: nat, token: Token)
    requires r.Valid() && k < a <= b <= |r.steps|
    requires Draws(r.steps[k]) && r.steps[k].token == token && token !in r.states[a].tickets
    ensures token !in r.states[b].tickets
    decreases b
  {
    if a < b {
      TicketStaysGone(r, k, a, b - 1, token);
      assert r.states[b] == Next(r.states[b - 1], r.steps[b - 1]);
    }
  }

  /** A ticket lets in at most one request, and only one that comes less than 30 s after it was made. */
  lemma TicketIsSingleUse(r: Run, i: nat, token: Token)
    requires r.Valid() && i < |r.steps| && AdmittedBy(r, i, token)
    ensures exists k :: 0 <= k < i && r.steps[k].CreateTicket? && r.steps[k].token == token
                        && r.steps[i].now < r.steps[k].now + TICKET_MS
    ensures forall j | i < j < |r.steps| :: !AdmittedBy(r, j, token)
  {
    var k := TicketOrigin(r, i, token);
    assert r.steps[k].token == token && r.steps[i].now < r.steps[k].now + TICKET_MS;
    assert r.states[i + 1] == Next(r.states[i], r.steps[i]);
    forall j | i < j < |r.steps|
      ensures !AdmittedBy(r, j, token)
    {
      TicketStaysGone(r, k, i + 1, j, token);
    }
  }

  /** A request with a valid cookie leaves every ticket for later. */
  lemma CookieSparesTickets(s: State, hasPassword: bool, req: Request, now: int)
    ensures Judge(s, hasPassword, req, now) in {Open, ByCookie} ==> Next(s, Serve(hasPassword, req, now)).tickets == s.tickets
    ensures Judge(s, hasPassword, req, now) == ByTicket ==> req.ticket !in Next(s, Serve(hasPassword, req, now)).tickets
  {
  }

  /** A session token was drawn before state `a`, and is not valid at some time at or after that state. */
  ghost predicate Dead(r: Run, a: nat, token: Token, now: int)
    requires r.Valid() && a <= |r.steps|
  {
    && r.states[a].clock <= now && !ValidSession(r.states[a], token, now)
    && exists k :: 0 <= k < a && r.steps[k].CreateSession? && r.steps[k].token == token
  }

  lemma {:induction false} DeadAt(r: Run, a: nat, b: nat, token: Token, now: int)
    requires r.Valid() && a <= b <= |r.steps| && Dead(r, a, token, now)
    ensures token in r.states[b].sessions ==> token in r.states[a].sessions && r.states[b].sessions[token] < now
    decreases b
  {
    if a < b {
      DeadAt(r, a, b - 1, token, now);
      var k :| 0 <= k < a && r.steps[k].CreateSession? && r.steps[k].token == token;
      assert r.states[b] == Next(r.states[b - 1], r.steps[b - 1]);
    }
  }

  /** Once a session token that had been issued is rejected, it is rejected at every later time. */
  lemma RejectedForever(r: Run, a: nat, b: nat, token: Token, now: int, later: int)
    requires r.Valid() && a <= b <= |r.steps| && Dead(r, a, token, now) && now <= later
    ensures !ValidSession(r.states[b], token, later)
  {
    DeadAt(r, a, b, token, now);
  }

  // ---------- who is let in ----------

  /** The cookie is the token of an earlier login, at most seven days old, and nobody has logged out with it since. */
  ghost predicate LoggedIn(r: Run, n: nat, token: Token, now: int)
    requires n <= |r.steps|
  {
    token != "" && exists k: nat :: LoginAt(r, n, k, token) && now <= r.steps[k].now + 7 * 24 * 60 * 60 * 1000
  }

  ghost predicate LoginAt(r: Run, n: nat, k: nat, token: Token)
    requires n <= |r.steps|
  {
    && k < n && r.steps[k].CreateSession? && r.steps[k].token == token
    && forall j | k < j < n :: r.steps[j] != DeleteSession(token)
  }

  /** Request `j` came with this ticket for an upgrade, and nothing else let it in. */
  ghost predicate LooksUp(r: Run, j: nat, ticket: Token)
    requires j < |r.steps|
  {
    && r.steps[j].Serve? && r.steps[j].hasPassword && r.steps[j].req.upgrade && r.steps[j].req.ticket == ticket
    && !LoggedIn(r, j, r.steps[j].req.cookie, r.steps[j].now)
  }

  /** The ticket was made less than thirty seconds ago, and no request has looked it up since. */
  ghost predicate FreshTicket(r: Run, n: nat, ticket: Token, now: int)
    requires n <= |r.steps|
  {
    ticket != "" && exists k: nat :: TicketAt(r, n, k, ticket) && now < r.steps[k].now + 30 * 1000
  }

  ghost predicate TicketAt(r: Run, n: nat, k: nat, ticket: Token)
    requires n <= |r.steps|
  {
    && k < n && r.steps[k].CreateTicket? && r.steps[k].token == ticket
    && forall j | k < j < n :: !LooksUp(r, j, ticket)
  }

  /** The entry of a token: its expiry, unless it was deleted or has expired and was dropped. */
  lemma {:induction false} SessionEntry(r: Run, n: nat, token: Token) returns (k: nat)
    requires r.Valid() && n <= |r.steps| && token in r.states[n].sessions
    ensures LoginAt(r, n, k, token) && r.states[n].sessions[token] == r.steps[k].now + SESSION_MS
  {
    var step, before := r.steps[n - 1], r.states[n - 1];
    assert r.states[n] == Next(before, step);
    if step.CreateSession? && step.token == token {
      k := n - 1;
    } else {
      k := SessionEntry(r, n - 1, token);
    }
  }

  lemma {:induction false} SessionStays(r: Run, n: nat, k: nat, token: Token)
    requires r.Valid() && n <= |r.steps| && LoginAt(r, n, k, token)
    ensures if token in r.states[n].sessions then r.states[n].sessions[token] == r.steps[k].now + SESSION_MS
            else r.steps[k].now + SESSION_MS < r.states[n].clock
    decreases n
  {
    var step, before := r.steps[n - 1], r.states[n - 1];
    assert r.states[n] == Next(before, step) && Enabled(before, step);
    if k < n - 1 {
      assert r.steps[n - 1] != DeleteSession(token);
      assert LoginAt(r, n - 1, k, token);
      SessionStays(r, n - 1, k, token);
    }
  }

  /** What the map says of a cookie is what the run says. */
  lemma SessionIsLogin(r: Run, n: nat, token: Token, now: int)
    requires r.Valid() && n <= |r.steps| && r.states[n].clock <= now
    ensures token != "" && ValidSession(r.states[n], token, now) <==> LoggedIn(r, n, token, now)
  {
    if token in r.states[n].sessions {
      var k := SessionEntry(r, n, token);
    }
    if k: nat :| LoginAt(r, n, k, token) && now <= r.steps[k].now + 7 * 24 * 60 * 60 * 1000 {
      SessionStays(r, n, k, token);
    }
  }

  lemma UseIsLookUp(r: Run, j: nat, ticket: Token)
    requires r.Valid() && j < |r.steps| && ticket != ""
    ensures var step := r.steps[j];
            step.Serve? && UsesTicket(r.states[j], step.hasPassword, step.req, step.now) && step.req.ticket == ticket
            <==> LooksUp(r, j, ticket)
  {
    if r.steps[j].Serve? {
      assert Enabled(r.states[j], r.steps[j]);
      SessionIsLogin(r, j, r.steps[j].req.cookie, r.steps[j].now);
    }
  }

  lemma {:induction false} TicketEntry(r: Run, n: nat, ticket: Token) returns (k: nat)
    requires r.Valid() && n <= |r.steps| && ticket in r.states[n].tickets && ticket != ""
    ensures TicketAt(r, n, k, ticket) && r.states[n].tickets[ticket] == r.steps[k].now + TICKET_MS
  {
    var step, before := r.steps[n - 1], r.states[n - 1];
    assert r.states[n] == Next(before, step);
    if step.CreateTicket? && step.token == ticket {
      k := n - 1;
    } else {
      UseIsLookUp(r, n - 1, ticket);
      k := TicketEntry(r, n - 1, ticket);
    }
  }

  lemma {:induction false} TicketStays(r: Run, n: nat, k: nat, ticket: Token)
    requires r.Valid() && n <= |r.steps| && TicketAt(r, n, k, ticket) && ticket != ""
    ensures ticket in r.states[n].tickets && r.states[n].tickets[ticket] == r.steps[k].now + TICKET_MS
    decreases n
  {
    var step, before := r.steps[n - 1], r.states[n - 1];
    assert r.states[n] == Next(before, step);
    if k < n - 1 {
      assert !LooksUp(r, n - 1, ticket);
      UseIsLookUp(r, n - 1, ticket);
      assert TicketAt(r, n - 1, k, ticket);
      TicketStays(r, n - 1, k, ticket);
    }
  }

  lemma TicketIsFresh(r: Run, n: nat, ticket: Token, now: int)
    requires r.Valid() && n <= |r.steps|
    ensures ValidTicket(r.states[n], ticket, now) <==> FreshTicket(r, n, ticket, now)
  {
    if ticket != "" {
      if ticket in r.states[n].tickets {
        var k := TicketEntry(r, n, ticket);
      }
      if k: nat :| TicketAt(r, n, k, ticket) && now < r.steps[k].now + 30 * 1000 {
        TicketStays(r, n, k, ticket);
      }
    }
  }

  predicate Admits(s: State, hasPassword: bool, req: Request, now: int) {
    Judge(s, hasPassword, req, now) != Rejected
  }

  /** A run goes on with any enabled step that draws no token a second time. */
  lemma Extend(r: Run, step: Step) returns (s: Run)
    requires r.Valid() && Enabled(Last(r.states), step)
    requires Draws(step) ==> forall j | 0 <= j < |r.steps| && Draws(r.steps[j]) :: r.steps[j].token != step.token
    ensures s.Valid() && s.steps == r.steps + [step] && s.states == r.states + [Next(Last(r.states), step)]
  {
    s := Run(r.states + [Next(Last(r.states), step)], r.steps + [step]);
  }

  lemma LoginAndTicket() returns (r: Run)
    ensures r.Valid() && |r.steps| == 2 && Last(r.states) == State(map["s" := 604_800_000], map["t" := 30_000], 0)
  {
    r := Run([State(map[], map[], 0)], []);
    r := Extend(r, CreateSession("s", 0));
    r := Extend(r, CreateTicket("t", 0));
  }

  lemma TicketTwice() returns (r: Run)
    ensures r.Valid() && |r.steps| == 4 && Last(r.states) == State(map["s" := 604_800_000], map[], 29_999)
    ensures r.steps[2] == r.steps[3] == Serve(true, Request("", true, "t"), 29_999)
    ensures r.states[2] == State(map["s" := 604_800_000], map["t" := 30_000], 0)
    ensures r.states[3] == State(map["s" := 604_800_000], map[], 29_999)
  {
    r := LoginAndTicket();
    r := Extend(r, Serve(true, Request("", true, "t"), 29_999));
    assert Last(r.states) == State(map["s" := 604_800_000], map[], 29_999);
    r := Extend(r, Serve(true, Request("", true, "t"), 29_999));
  }

  /**
  A login and a ticket at time 0: each is good up to its last millisecond, the
  ticket once, the login until the logout.
   */
  lemma LastMilliseconds() returns (r: Run)
    ensures r.Valid() && |r.steps| == 6 && Last(r.steps) == DeleteSession("s")
    ensures r.steps[2] == r.steps[3] == Serve(true, Request("", true, "t"), 29_999)
    ensures r.steps[4] == Serve(true, Request("s", false, ""), 604_800_000)
    ensures Admits(r.states[2], true, Request("", true, "t"), 29_999)
    ensures !Admits(r.states[2], true, Request("", true, "t"), 30_000)
    ensures !Admits(r.states[3], true, Request("", true, "t"), 29_999)
    ensures Admits(r.states[4], true, Request("s", false, ""), 604_800_000)
    ensures !Admits(r.states[4], true, Request("s", false, ""), 604_800_001)
    ensures !Admits(r.states[6], true, Request("s", false, ""), 604_800_000)
  {
    r := TicketTwice();
    r := Extend(r, Serve(true, Request("s", false, ""), 604_800_000));
    r := Extend(r, DeleteSession("s"));
  }

  /**
  In every run a request is let in if and only if no password is set, or its
  cookie is of a login of the last seven days that has not been ended, or it asks
  for an upgrade with a ticket of the last thirty seconds that no request has
  looked up before.
   */
  lemma AdmittedExactly(r: Run, n: nat, hasPassword: bool, req: Request, now: int)
    requires r.Valid() && n <= |r.steps| && r.states[n].clock <= now
    ensures Admits(r.states[n], hasPassword, req, now)
            <==> !hasPassword || LoggedIn(r, n, req.cookie, now) || (req.upgrade && FreshTicket(r, n, req.ticket, now))
  {
    SessionIsLogin(r, n, req.cookie, now);
    TicketIsFresh(r, n, req.ticket, now);
  }

  /** With a password set, a request is rejected whose cookie is of no login and whose ticket was never made. */
  lemma StrangersAreRejected(r: Run, n: nat, req: Request, now: int)
    requires r.Valid() && n <= |r.steps| && r.states[n].clock <= now
    requires forall k | 0 <= k < n && r.steps[k].CreateSession? :: r.steps[k].token != req.cookie
    requires forall k | 0 <= k < n && r.steps[k].CreateTicket? :: r.steps[k].token != req.ticket
    ensures !Admits(r.states[n], true, req, now)
  {
    AdmittedExactly(r, n, true, req, now);
  }

  // ---------- the manager as an object ----------

  class AuthManager {
    var sessions: map<Token, int>
    var wsTickets: map<Token, int>

    constructor ()
      ensures View(0) == State(map[], map[], 0)
    {
      sessions, wsTickets := map[], map[];
    }

    ghost function View(clock: int): State
      reads this
    {
      State(sessions, wsTickets, clock)
    }

    method NewSession(token: Token, now: int)
      modifies this`sessions
      ensures View(now) == Next(old(View(now)), CreateSession(token, now))
    {
      sessions := sessions[token := now + SESSION_MS];
    }

    /** Also forgets an entry that has expired. */
    method ValidateSession(token: Token, now: int) returns (ok: bool)
      modifies this`sessions
      ensures ok <==> ValidSession(old(View(now)), token, now)
      ensures View(now) == if !ok && token in old(sessions) then Next(old(View(now)), DropExpired(token)) else old(View(now))
    {
      if token !in sessions {
        return false;
      }
      if sessions[token] < now {
        sessions := sessions - {token};
        return false;
      }
      return true;
    }

    method Logout(token: Token)
      modifies this`sessions
      ensures forall now :: View(now) == Next(old(View(now)), DeleteSession(token))
    {
      sessions := sessions - {token};
    }

    method NewTicket(token: Token, now: int)
      modifies this`wsTickets
      ensures View(now) == Next(old(View(now)), CreateTicket(token, now))
    {
      wsTickets := wsTickets[token := now + TICKET_MS];
    }

    method ConsumeTicket(token: Token, now: int) returns (ok: bool)
      modifies this`wsTickets
      ensures ok <==> ValidTicket(old(View(now)), token, now)
      ensures wsTickets == if token == "" then old(wsTickets) else old(wsTickets) - {token}
    {
      if token == "" || token !in wsTickets {
        return false;
      }
      var expiry := wsTickets[token];
      wsTickets := wsTickets - {token};
      return now < expiry;
    }

    /** `requireAuth`, where nothing runs between its checks. */
    method RequireAuth(hasPassword: bool, req: Request, now: int) returns (admitted: bool)
      modifies this
      ensures admitted <==> Admits(old(View(now)), hasPassword, req, now)
      ensures wsTickets == Next(old(View(now)), Serve(hasPassword, req, now)).tickets
      ensures var expired := hasPassword && req.cookie in old(sessions) && req.cookie != "" && old(sessions)[req.cookie] < now;
              sessions == if expired then old(sessions) - {req.cookie} else old(sessions)
    {
      if !hasPassword {
        return true;
      }
      if req.cookie != "" {
        var ok := ValidateSession(req.cookie, now);
        if ok {
          return true;
        }
      }
      if req.upgrade {
        admitted := ConsumeTicket(req.ticket, now);
        return;
      }
      return false;
    }
  }
}
