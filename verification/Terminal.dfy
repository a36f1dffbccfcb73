/**
The instance that `useTerminal` updates in place, each handler proved to take the
step of `Reconnect` named after it.
 */
module Terminal {
  import opened Prelude
  import opened Reconnect

  class TerminalInstance {
    var connecting: bool
    var ws: Option<nat>
    var sockets: seq<ReadyState>
    var requests: nat
    var pending: set<nat>
    var reconnectTimer: Option<nat>
    var nextTimer: nat
    var attempts: nat
    var present: bool
    var disposed: bool

    constructor ()
      ensures View() == START
    {
      connecting, ws, sockets, requests := false, None, [], 0;
      pending, reconnectTimer, nextTimer, attempts, present, disposed := {}, None, 0, 0, false, false;
    }

    ghost function View(): Inst
      reads this
    {
      Inst(connecting, ws, sockets, requests, pending, reconnectTimer, nextTimer, attempts, present, disposed)
    }

    /** Replaces the pending timeout by a new one and returns its delay. */
    method ScheduleReconnect(draw: real) returns (delay: int)
      requires IsJitter(draw)
      modifies this
      ensures View() == Schedule(old(View()))
      ensures delay == Delay(old(attempts), draw) && 400 <= delay < 12000
    {
      if reconnectTimer.Some? {
        pending := pending - {reconnectTimer.value};
      }
      DelayBounds(attempts, draw);
      delay := Delay(attempts, draw);
      attempts := attempts + 1;
      pending := pending + {nextTimer};
      reconnectTimer := Some(nextTimer);
      nextTimer := nextTimer + 1;
    }

    /** `connectWebSocket` up to its first wait. */
    method ConnectWebSocket()
      modifies this`connecting, this`requests
      ensures View() == Connect(old(View()))
    {
      var state: Option<ReadyState> := None;
      if ws.Some? && ws.value < |sockets| {
        state := Some(sockets[ws.value]);
      }
      if connecting || state == Some(Connecting) || state == Some(Open) {
        return;
      }
      connecting := true;
      requests := requests + 1;
    }

    /** `connectWebSocket` when the ticket has arrived. */
    method OnTicket()
      requires requests > 0
      modifies this
      ensures View() == Next(old(View()), TicketOk)
    {
      requests := requests - 1;
      if !present {
        connecting := false;
        return;
      }
      sockets := sockets + [Connecting];
      ws := Some(|sockets| - 1);
    }

    /** `connectWebSocket` when the request for the ticket has failed. */
    method OnTicketFailed(draw: real) returns (delay: int)
      requires requests > 0 && IsJitter(draw)
      modifies this
      ensures View() == Next(old(View()), TicketFails(draw))
      ensures delay == Delay(old(attempts), draw) && 400 <= delay < 12000
    {
      requests := requests - 1;
      connecting := false;
      delay := ScheduleReconnect(draw);
    }

    method OnOpen(j: nat)
      requires j < |sockets| && sockets[j] == Connecting
      modifies this
      ensures View() == Next(old(View()), Opens(j))
    {
      sockets := sockets[j := Open];
      connecting := false;
      attempts := 0;
    }

    method OnClose(j: nat, draw: real) returns (delay: int)
      requires j < |sockets| && sockets[j] != Closed && IsJitter(draw)
      modifies this
      ensures View() == Next(old(View()), Closes(j, draw))
      ensures delay == Delay(old(attempts), draw) && 400 <= delay < 12000
    {
      sockets := sockets[j := Closed];
      connecting := false;
      delay := ScheduleReconnect(draw);
    }

    method OnTimer(k: nat)
      requires k in pending
      modifies this
      ensures View() == Next(old(View()), TimerFires(k))
    {
      pending := pending - {k};
      if present {
        ConnectWebSocket();
      }
    }

    /** The effect that shows the terminal: the instance is new, or the one in the map. */
    method OnMount()
      requires !disposed
      modifies this
      ensures View() == Next(old(View()), Mount)
    {
      present := true;
      if ws.None? || (ws.value < |sockets| && sockets[ws.value] == Closed) {
        ConnectWebSocket();
      }
    }

    method OnDispose()
      requires present && !disposed
      modifies this
      ensures View() == Next(old(View()), Dispose)
    {
      if reconnectTimer.Some? {
        pending := pending - {reconnectTimer.value};
      }
      if ws.Some? && ws.value < |sockets| && (sockets[ws.value] == Connecting || sockets[ws.value] == Open) {
        sockets := sockets[ws.value := Closing];
      }
      present, disposed := false, true;
    }
  }
}
