/** The realtime channel service: a registry of listeners per event
    type, exact-type dispatch of incoming messages, the connection's
    ready state with its reconnect back-off, and the send guard. Sockets
    and timers are not objects here: the socket is its URL and ready
    state, and a scheduled reconnect is returned as its delay. */
module Realtime {
  import opened Options
  import opened Seqs
  import opened Numbers

  /** The event names the application subscribes to. */
  const EventNotification := "notification"
  const EventProofUpdate := "proof_update"
  const EventQuizUpdate := "quiz_update"

  // ----- listener registry -----

  /** A callback, known only by its identity. */
  type Listener = nat

  /** Event type to its listener set, a set kept in insertion order as a
      JavaScript `Set` iterates it. */
  type Registry = map<string, seq<Listener>>

  /** Every key present has at least one listener, none twice. */
  predicate ValidRegistry(reg: Registry) {
    forall e | e in reg :: |reg[e]| > 0 && NoDup(reg[e])
  }

  /** `subscribe`: adds the callback to the event's set, creating the set
      on first use; adding a callback already present changes nothing. */
  function Subscribe(reg: Registry, e: string, cb: Listener): (r: Registry)
    ensures e in r && cb in r[e]
    ensures forall k | k in reg :: k in r
    ensures forall k | k in r && k != e :: k in reg && r[k] == reg[k]
    ensures e in reg ==> forall x :: x in r[e] <==> x in reg[e] || x == cb
    ensures e !in reg ==> r[e] == [cb]
    ensures e in reg && cb !in reg[e] ==> r[e] == reg[e] + [cb]
    ensures e in reg && cb in reg[e] ==> r == reg
  {
    if e !in reg then reg[e := [cb]]
    else if cb in reg[e] then reg
    else reg[e := reg[e] + [cb]]
  }

  /** `unsubscribe`, and the function `subscribe` returns: removes the
      callback, and drops the event key once its set is empty. */
  function Unsubscribe(reg: Registry, e: string, cb: Listener): (r: Registry)
    ensures e !in reg ==> r == reg
    ensures e in r ==> cb !in r[e] && |r[e]| > 0
    ensures forall k | k in r :: k in reg
    ensures forall k | k in reg && k != e :: k in r && r[k] == reg[k]
    ensures e in reg ==> (e in r <==> exists x | x in reg[e] :: x != cb)
    ensures e in r ==> forall x :: x in r[e] <==> x in reg[e] && x != cb
  {
    if e !in reg then reg
    else
      var rest := RemoveAll(reg[e], cb);
      if |rest| == 0 then
        assert forall x | x in reg[e] :: x == cb;
        reg - {e}
      else
        assert rest[0] in reg[e] && rest[0] != cb;
        reg[e := rest]
  }

  /** Both operations keep the registry valid. */
  lemma RegistryOpsPreserveValid(reg: Registry, e: string, cb: Listener)
    requires ValidRegistry(reg)
    ensures ValidRegistry(Subscribe(reg, e, cb))
    ensures ValidRegistry(Unsubscribe(reg, e, cb))
  {
    if e in reg {
      if cb !in reg[e] {
        var s := reg[e] + [cb];
        assert forall i | 0 <= i < |reg[e]| :: s[i] == reg[e][i];
      }
      NoDupReject(reg[e], EqualTo(cb));
    }
  }

  /** Subscribing a new callback and then unsubscribing it gives back
      the registry as it was. */
  lemma SubscribeThenUnsubscribe(reg: Registry, e: string, cb: Listener)
    requires ValidRegistry(reg)
    requires e !in reg || cb !in reg[e]
    ensures Unsubscribe(Subscribe(reg, e, cb), e, cb) == reg
  {
    var s := Subscribe(reg, e, cb);
    if e in reg {
      assert s == reg[e := reg[e] + [cb]];
      RemoveAppended(reg[e], cb);
      assert RemoveAll(s[e], cb) == reg[e];
      assert Unsubscribe(s, e, cb) == s[e := reg[e]];
    } else {
      assert RemoveAll([cb], cb) == [];
      assert s - {e} == reg;
    }
  }

  lemma RemoveAppended(s: seq<Listener>, cb: Listener)
    requires cb !in s
    ensures RemoveAll(s + [cb], cb) == s
  {
    RejectConcat(s, [cb], EqualTo(cb));
    RejectNone(s, EqualTo(cb));
    assert Reject([cb], EqualTo(cb)) == [];
  }

  /** A message as it arrives on the socket, after JSON decoding. */
  datatype Message = Message(kind: string, payload: string, timestamp: string)

  /** The outcome of dispatching one message: who was called with the
      payload, and how many of those calls threw and were logged. */
  datatype Dispatch = Dispatch(called: seq<Listener>, logged: nat)

  /** `handleMessage`: every listener registered for exactly the
      message's type is called, in order; a listener that throws is
      logged and the rest are still called; other types reach nobody. */
  function HandleMessage(reg: Registry, m: Message, throwing: set<Listener>): (d: Dispatch)
    ensures m.kind !in reg ==> d.called == []
    ensures m.kind in reg ==> d.called == reg[m.kind]
    ensures d.logged == Count(d.called, (cb: Listener) => cb in throwing)
  {
    var called := if m.kind in reg then reg[m.kind] else [];
    Dispatch(called, Count(called, (cb: Listener) => cb in throwing))
  }

  /** A new subscriber to one event type receives that type's messages
      and changes nothing for any other type. */
  lemma DispatchAfterSubscribe(reg: Registry, e: string, cb: Listener, m: Message, throwing: set<Listener>)
    ensures m.kind == e ==> cb in HandleMessage(Subscribe(reg, e, cb), m, throwing).called
    ensures m.kind != e ==>
      HandleMessage(Subscribe(reg, e, cb), m, throwing).called == HandleMessage(reg, m, throwing).called
  {
  }

  // ----- connection -----

  datatype ReadyState = Connecting | Open | Closing | Closed

  /** The status reported to listeners and from `getConnectionState`. */
  datatype Status = StatusConnecting | StatusConnected | StatusDisconnected | StatusError

  datatype Socket = Socket(url: string, ready: ReadyState)

  /** The service's connection state: the current socket, if any, and
      the number of reconnects scheduled since the last open. */
  datatype Conn = Conn(socket: Option<Socket>, attempts: nat)

  const BaseUrl := "ws://localhost:5000/ws"
  const MaxReconnectAttempts: nat := 5
  const ReconnectInterval: nat := 1000

  /** The socket URL: the token is appended as a query parameter when
      one is given (an empty token counts as none). */
  function SocketUrl(token: Option<string>): (u: string)
    ensures token.Some? && token.value != "" ==> u == BaseUrl + "?token=" + token.value
    ensures !(token.Some? && token.value != "") ==> u == BaseUrl
  {
    if token.Some? && token.value != "" then BaseUrl + "?token=" + token.value else BaseUrl
  }

  /** `connect`: nothing happens when the socket is open; otherwise,
      even while a socket is still connecting, a new socket replaces it
      and 'connecting' is reported. */
  function Connect(c: Conn, token: Option<string>): (r: (Conn, seq<Status>))
    ensures r.0.attempts == c.attempts
    ensures c.socket.Some? && c.socket.value.ready == Open ==> r == (c, [])
    ensures !(c.socket.Some? && c.socket.value.ready == Open) ==>
      && r.0.socket.Some? && r.0.socket.value.ready == Connecting
      && r.0.socket.value.url == SocketUrl(token)
      && r.1 == [StatusConnecting]
  {
    if c.socket.Some? && c.socket.value.ready == Open then (c, [])
    else (c.(socket := Some(Socket(SocketUrl(token), Connecting))), [StatusConnecting])
  }

  function WithReady(c: Conn, rs: ReadyState): Conn {
    if c.socket.Some? then c.(socket := Some(c.socket.value.(ready := rs))) else c
  }

  /** The socket's open event: the attempt counter starts over.
      `current` says whether the event comes from the socket the service
      holds now; a socket that a later `connect` replaced, or that
      `disconnect` dropped, keeps its handlers and still reports, but
      leaves the held socket as it is. */
  function OnOpen(c: Conn, current: bool): (r: (Conn, seq<Status>))
    ensures r.0.attempts == 0 && r.1 == [StatusConnected]
    ensures r.0.socket.Some? <==> c.socket.Some?
    ensures current && c.socket.Some? ==> r.0.socket == Some(c.socket.value.(ready := Open))
    ensures !current ==> r.0.socket == c.socket
  {
    ((if current then WithReady(c, Open) else c).(attempts := 0), [StatusConnected])
  }

  /** `attemptReconnect`: while fewer than five reconnects have been
      scheduled, counts one more and schedules it after
      1000 * 2^(k-1) ms for the k-th; after that, schedules nothing. */
  function AttemptReconnect(c: Conn): (r: (Conn, Option<nat>))
    ensures c.attempts < MaxReconnectAttempts ==>
      r.0 == c.(attempts := c.attempts + 1) && r.1 == Some(ReconnectInterval * Pow2(c.attempts))
    ensures c.attempts >= MaxReconnectAttempts ==> r == (c, None)
  {
    if c.attempts < MaxReconnectAttempts then
      (c.(attempts := c.attempts + 1), Some(ReconnectInterval * Pow2(c.attempts)))
    else (c, None)
  }

  /** The socket's close event: 'disconnected' is reported and a
      reconnect attempted. The scheduled reconnect calls `connect`
      without a token. `current` is as for `OnOpen`: the close of a
      replaced or dropped socket reports and reconnects all the same,
      but the held socket stays as it was. */
  function OnClose(c: Conn, current: bool): (r: (Conn, seq<Status>, Option<nat>))
    ensures r.1 == [StatusDisconnected]
    ensures r.2.Some? <==> c.attempts < MaxReconnectAttempts
    ensures r.0.attempts == if c.attempts < MaxReconnectAttempts then c.attempts + 1 else c.attempts
    ensures current && c.socket.Some? ==> r.0.socket == Some(c.socket.value.(ready := Closed))
    ensures !current || c.socket.None? ==> r.0.socket == c.socket
  {
    var (c', delay) := AttemptReconnect(if current then WithReady(c, Closed) else c);
    (c', [StatusDisconnected], delay)
  }

  /** The socket's error event only reports the error. */
  function OnError(c: Conn): (r: (Conn, seq<Status>))
    ensures r == (c, [StatusError])
  {
    (c, [StatusError])
  }

  /** `disconnect`: the socket is closed and forgotten. */
  function Disconnect(c: Conn): (r: Conn)
    ensures r.socket.None? && r.attempts == c.attempts
  {
    c.(socket := None)
  }

  /** The delays scheduled by `k` close events in a row, with no open
      in between, starting from `attempts` scheduled reconnects. */
  function CloseDelays(c: Conn, k: nat): seq<nat>
    decreases k
  {
    if k == 0 then []
    else
      var step := OnClose(c, true);
      (if step.2.Some? then [step.2.value] else []) + CloseDelays(step.0, k - 1)
  }

  /** From a fresh counter, a run of failures schedules at most five
      reconnects, the j-th (from 0) after 1000 * 2^j ms: 1000, 2000,
      4000, 8000 and 16000 ms. */
  lemma {:induction false} ReconnectSchedule(c: Conn, k: nat)
    requires c.attempts <= MaxReconnectAttempts
    ensures |CloseDelays(c, k)| == if k < MaxReconnectAttempts - c.attempts then k else MaxReconnectAttempts - c.attempts
    ensures forall j | 0 <= j < |CloseDelays(c, k)| :: CloseDelays(c, k)[j] == 1000 * Pow2(c.attempts + j)
    decreases k
  {
    if k > 0 {
      var step := OnClose(c, true);
      var c', d := step.0, step.2;
      ReconnectSchedule(c', k - 1);
      var rest := CloseDelays(c', k - 1);
      var all := CloseDelays(c, k);
      if d.Some? {
        assert c.attempts < MaxReconnectAttempts && c'.attempts == c.attempts + 1;
        assert d.value == 1000 * Pow2(c.attempts);
        assert all == [d.value] + rest;
        forall j | 1 <= j < |all| ensures all[j] == 1000 * Pow2(c.attempts + j) {
          assert all[j] == rest[j - 1] == 1000 * Pow2(c'.attempts + (j - 1));
          assert c'.attempts + (j - 1) == c.attempts + j;
        }
      } else {
        assert c.attempts == MaxReconnectAttempts && c'.attempts == c.attempts;
        assert all == rest;
      }
    }
  }

  /** The largest delay the back-off ever uses is 16 seconds. */
  lemma LastDelay()
    ensures ReconnectInterval * Pow2(MaxReconnectAttempts - 1) == 16000
  {
    assert Pow2(1) == 2;
    assert Pow2(2) == 4;
    assert Pow2(3) == 8;
  }

  /** `send`: the message goes out only on an open socket; otherwise it
      is dropped, and nothing is queued. */
  function Send(c: Conn, kind: string, payload: string, now: string): (out: Option<Message>)
    ensures out.Some? <==> c.socket.Some? && c.socket.value.ready == Open
    ensures out.Some? ==> out.value == Message(kind, payload, now)
  {
    if c.socket.Some? && c.socket.value.ready == Open then Some(Message(kind, payload, now)) else None
  }

  /** `getConnectionState`. */
  function ConnectionState(c: Conn): (st: Status)
    ensures st == StatusConnected <==> c.socket.Some? && c.socket.value.ready == Open
    ensures st == StatusConnecting <==> c.socket.Some? && c.socket.value.ready == Connecting
    ensures st == StatusDisconnected <==> c.socket.None? || c.socket.value.ready in {Closing, Closed}
    ensures st != StatusError
  {
    match c.socket
    case None => StatusDisconnected
    case Some(s) =>
      match s.ready
      case Connecting => StatusConnecting
      case Open => StatusConnected
      case Closing => StatusDisconnected
      case Closed => StatusDisconnected
  }

  /** A connect while the socket is still connecting replaces it, and
      the replaced socket's close then reports 'disconnected' and
      schedules a reconnect while the new socket is still connecting;
      likewise the close that follows `disconnect` schedules a
      reconnect, though no socket is held. */
  lemma StaleCloseStillReconnects(c: Conn, token: Option<string>)
    requires c.socket.Some? && c.socket.value.ready == Connecting && c.attempts < MaxReconnectAttempts
    ensures
      var replaced := Connect(c, token).0;
      var step := OnClose(replaced, false);
      && ConnectionState(step.0) == StatusConnecting
      && step.1 == [StatusDisconnected] && step.2.Some?
    ensures
      var step := OnClose(Disconnect(c), false);
      && ConnectionState(step.0) == StatusDisconnected
      && step.1 == [StatusDisconnected] && step.2 == Some(ReconnectInterval * Pow2(c.attempts))
  {
  }

  /** A connect followed by its open leaves the socket open and the
      channel reported as connected; a second connect is then a no-op. */
  lemma ConnectOpenConnect(c: Conn, token: Option<string>)
    ensures
      var live := OnOpen(Connect(c, token).0, true).0;
      ConnectionState(live) == StatusConnected && Connect(live, token) == (live, [])
  {
  }
}
