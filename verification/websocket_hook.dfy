/** The realtime hook: the status it mirrors from the service, the
    in-flight flag that guards `connect`, the reference to its own
    reconnect timer, and the two newest-first buffers of at most 100
    incoming notifications and proof updates. Calls into the service and
    timer operations are returned as effects.

    The callbacks are closures over the render that created them. The
    auto-connect effect and `connect` called directly see the current
    token and status. The reconnect timer instead keeps the `connect` and
    the token that the status listener held when it scheduled the timer:
    the token of that moment, and the status from before the report that
    scheduled it. The model assumes every status report is rendered
    before the next one arrives. */
module RealtimeHook {
  import opened Options
  import opened Seqs
  import N = Notifications
  import R = Realtime

  datatype ProofStatus = Pending | Generating | Verified | Failed

  datatype NotificationPayload = NotificationPayload(
    id: string, kind: N.Kind, title: string, message: string, userId: Option<string>)

  datatype ProofUpdatePayload = ProofUpdatePayload(
    proofId: string, status: ProofStatus, progress: Option<int>, message: Option<string>)

  datatype LastMessage =
    | LastNotification(n: NotificationPayload)
    | LastProofUpdate(u: ProofUpdatePayload)
    | LastQuizUpdate(payload: string)

  /** The timer held in the reference: its id, whether it has been
      cancelled while the reference still points at it, and what its
      callback captured when it was scheduled: the status the captured
      `connect` compares against and the token it checks and passes. */
  datatype Timer = Timer(id: nat, cancelled: bool, seenStatus: R.Status, seenToken: Option<string>)

  datatype Hook = Hook(
    status: R.Status,
    connecting: bool,
    timer: Option<Timer>,
    nextTimerId: nat,
    notifications: seq<NotificationPayload>,
    proofUpdates: seq<ProofUpdatePayload>,
    lastMessage: Option<LastMessage>)

  datatype Effect =
    | CallConnect(token: Option<string>)
    | CallDisconnect
    | ScheduleTimer(id: nat, delay: nat)
    | CancelTimer(id: nat)

  const Start := Hook(R.StatusDisconnected, false, None, 0, [], [], None)

  /** Fixed delay of the hook's own reconnect. */
  const HookReconnectDelay: nat := 3000

  const BufferSize: nat := 100

  /** A token that is present and non-empty. */
  predicate HasToken(token: Option<string>) {
    token.Some? && token.value != ""
  }

  function IsScheduling(e: Effect): bool {
    e.ScheduleTimer?
  }

  // ----- connection -----

  /** A `connect` created in a render that saw status `seen` and token
      `token`: nothing while a connect is in flight (the flag is a
      reference, so always current) or when `seen` is connected;
      otherwise marks one in flight and asks the service to connect,
      passing the token only when there is one. */
  function ConnectWith(h: Hook, seen: R.Status, token: Option<string>): (r: (Hook, seq<Effect>))
    ensures h.connecting || seen == R.StatusConnected ==> r == (h, [])
    ensures !(h.connecting || seen == R.StatusConnected) ==>
      && r.0 == h.(connecting := true)
      && r.1 == [CallConnect(if HasToken(token) then token else None)]
  {
    if h.connecting || seen == R.StatusConnected then (h, [])
    else (h.(connecting := true), [CallConnect(if HasToken(token) then token else None)])
  }

  /** `connect` from the current render: the guard reads the current status. */
  function Connect(h: Hook, token: Option<string>): (r: (Hook, seq<Effect>))
    ensures h.connecting || h.status == R.StatusConnected ==> r == (h, [])
    ensures !(h.connecting || h.status == R.StatusConnected) ==>
      && r.0 == h.(connecting := true)
      && r.1 == [CallConnect(if HasToken(token) then token else None)]
  {
    ConnectWith(h, h.status, token)
  }

  /** A second `connect` right after a first one that went through does
      nothing: the in-flight flag holds it back. */
  lemma ConnectTwiceCallsOnce(h: Hook, token: Option<string>)
    ensures |Connect(h, token).1| <= 1
    ensures Connect(Connect(h, token).0, token).1 == []
  {
  }

  /** The auto-connect effect: with a token and a disconnected status,
      `connect` is called. */
  function AutoConnect(h: Hook, token: Option<string>): (r: (Hook, seq<Effect>))
    ensures !(HasToken(token) && h.status == R.StatusDisconnected) ==> r == (h, [])
    ensures HasToken(token) && h.status == R.StatusDisconnected ==> r == Connect(h, token)
  {
    if HasToken(token) && h.status == R.StatusDisconnected then Connect(h, token) else (h, [])
  }

  /** The status listener, holding `token`. The status is mirrored and
      the in-flight flag becomes "status is connecting". On
      'disconnected', with a token and no timer referenced, one reconnect
      timer is scheduled; its callback keeps the token and the status
      from before this report. On 'connected', a referenced timer is
      cancelled and the reference cleared. */
  function StatusChanged(h: Hook, st: R.Status, token: Option<string>): (r: (Hook, seq<Effect>))
    ensures r.0.status == st
    ensures r.0.connecting <==> st == R.StatusConnecting
    ensures r.0.notifications == h.notifications && r.0.proofUpdates == h.proofUpdates
    ensures r.0.lastMessage == h.lastMessage
    ensures Count(r.1, IsScheduling) <= 1
    ensures Count(r.1, IsScheduling) == 1 <==>
      st == R.StatusDisconnected && HasToken(token) && h.timer.None?
    ensures Count(r.1, IsScheduling) == 1 ==>
      r.0.timer == Some(Timer(h.nextTimerId, false, h.status, token))
    ensures st == R.StatusConnected ==> r.0.timer.None?
    ensures st != R.StatusConnected && h.timer.Some? ==> r.0.timer == h.timer
  {
    var h1 := h.(status := st, connecting := st == R.StatusConnecting);
    if st == R.StatusDisconnected && HasToken(token) && h.timer.None? then
      var id := h.nextTimerId;
      (h1.(timer := Some(Timer(id, false, h.status, token)), nextTimerId := id + 1),
       [ScheduleTimer(id, HookReconnectDelay)])
    else if st == R.StatusConnected && h.timer.Some? then
      (h1.(timer := None), [CancelTimer(h.timer.value.id)])
    else
      (h1, [])
  }

  /** However many 'disconnected' reports arrive in a row, at most one
      reconnect timer is scheduled. */
  lemma {:induction false} RepeatedDisconnectsScheduleOnce(h: Hook, k: nat, token: Option<string>)
    ensures Count(DisconnectEffects(h, k, token), IsScheduling) <= 1
    ensures h.timer.Some? ==> Count(DisconnectEffects(h, k, token), IsScheduling) == 0
    decreases k
  {
    if k > 0 {
      var step := StatusChanged(h, R.StatusDisconnected, token);
      RepeatedDisconnectsScheduleOnce(step.0, k - 1, token);
      CountConcat(step.1, DisconnectEffects(step.0, k - 1, token), IsScheduling);
    }
  }

  /** The effects of `k` 'disconnected' reports in a row. */
  function DisconnectEffects(h: Hook, k: nat, token: Option<string>): seq<Effect>
    decreases k
  {
    if k == 0 then []
    else
      var step := StatusChanged(h, R.StatusDisconnected, token);
      step.1 + DisconnectEffects(step.0, k - 1, token)
  }

  /** The reconnect timer fires: the reference is cleared and, when the
      captured token is present, the captured `connect` is called. It
      asks the service to connect only if no connect is in flight now
      and the status it saw was not 'connected'. A cancelled timer never
      fires. */
  function TimerFires(h: Hook): (r: (Hook, seq<Effect>))
    ensures !(h.timer.Some? && !h.timer.value.cancelled) ==> r == (h, [])
    ensures h.timer.Some? && !h.timer.value.cancelled ==>
      var t := h.timer.value;
      && r.0.timer.None?
      && (r.1 != [] <==> HasToken(t.seenToken) && !h.connecting && t.seenStatus != R.StatusConnected)
      && (r.1 != [] ==> r == (h.(timer := None, connecting := true), [CallConnect(t.seenToken)]))
      && (r.1 == [] ==> r.0 == h.(timer := None))
  {
    if h.timer.Some? && !h.timer.value.cancelled then
      var t := h.timer.value;
      var h1 := h.(timer := None);
      if HasToken(t.seenToken) then ConnectWith(h1, t.seenStatus, t.seenToken) else (h1, [])
    else (h, [])
  }

  /** A connection that drops after being up schedules a timer, but the
      timer's `connect` still sees 'connected' and does nothing; the
      reconnect comes from the auto-connect effect of the next render,
      which sees 'disconnected'. */
  lemma DroppedConnectionReconnectsThroughAutoConnect(h: Hook, token: Option<string>)
    requires h.status == R.StatusConnected && h.timer.None? && HasToken(token)
    ensures
      var s := StatusChanged(h, R.StatusDisconnected, token);
      && Count(s.1, IsScheduling) == 1
      && TimerFires(s.0).1 == []
      && AutoConnect(s.0, token).1 == [CallConnect(token)]
  {
    var s := StatusChanged(h, R.StatusDisconnected, token);
    assert s.1 == [ScheduleTimer(h.nextTimerId, HookReconnectDelay)];
  }

  /** A timer scheduled while the hook was already disconnected (a
      repeated 'disconnected' report) does call the service, with the
      token it captured, unless a connect is in flight by then. */
  lemma RepeatedDisconnectTimerConnects(h: Hook, token: Option<string>)
    requires h.status == R.StatusDisconnected && h.timer.None? && HasToken(token)
    ensures
      var s := StatusChanged(h, R.StatusDisconnected, token);
      TimerFires(s.0).1 == [CallConnect(token)]
  {
  }

  /** `disconnect`: clears the in-flight flag, cancels a referenced
      timer and closes the service connection. The reference itself is
      left pointing at the cancelled timer. */
  function Disconnect(h: Hook): (r: (Hook, seq<Effect>))
    ensures !r.0.connecting && r.0.status == h.status
    ensures h.timer.None? ==> r.0.timer.None? && r.1 == [CallDisconnect]
    ensures h.timer.Some? ==>
      && r.0.timer == Some(h.timer.value.(cancelled := true))
      && r.1 == [CancelTimer(h.timer.value.id), CallDisconnect]
  {
    if h.timer.Some? then
      (h.(connecting := false, timer := Some(h.timer.value.(cancelled := true))),
       [CancelTimer(h.timer.value.id), CallDisconnect])
    else (h.(connecting := false), [CallDisconnect])
  }

  /** Because the reference is not cleared, a 'disconnected' report after
      `disconnect` with a timer referenced schedules no new timer, and
      the cancelled one never fires. */
  lemma DisconnectSuppressesReconnect(h: Hook, token: Option<string>)
    requires h.timer.Some?
    ensures
      var d := Disconnect(h).0;
      var s := StatusChanged(d, R.StatusDisconnected, token);
      Count(s.1, IsScheduling) == 0 && TimerFires(s.0) == (s.0, [])
  {
  }

  // ----- buffers -----

  /** A notification arrives: it goes in front of at most 99 earlier
      ones and becomes the last message. */
  function OnNotification(h: Hook, n: NotificationPayload): (r: Hook)
    ensures |r.notifications| <= BufferSize
    ensures |r.notifications| == if |h.notifications| < BufferSize then |h.notifications| + 1 else BufferSize
    ensures r.notifications[0] == n
    ensures forall i | 1 <= i < |r.notifications| :: r.notifications[i] == h.notifications[i - 1]
    ensures r == h.(notifications := r.notifications, lastMessage := Some(LastNotification(n)))
  {
    h.(notifications := [n] + Take(h.notifications, BufferSize - 1), lastMessage := Some(LastNotification(n)))
  }

  /** A proof update arrives: same policy, its own buffer. */
  function OnProofUpdate(h: Hook, u: ProofUpdatePayload): (r: Hook)
    ensures |r.proofUpdates| <= BufferSize
    ensures |r.proofUpdates| == if |h.proofUpdates| < BufferSize then |h.proofUpdates| + 1 else BufferSize
    ensures r.proofUpdates[0] == u
    ensures forall i | 1 <= i < |r.proofUpdates| :: r.proofUpdates[i] == h.proofUpdates[i - 1]
    ensures r == h.(proofUpdates := r.proofUpdates, lastMessage := Some(LastProofUpdate(u)))
  {
    h.(proofUpdates := [u] + Take(h.proofUpdates, BufferSize - 1), lastMessage := Some(LastProofUpdate(u)))
  }

  /** A quiz update only becomes the last message. */
  function OnQuizUpdate(h: Hook, payload: string): (r: Hook)
    ensures r == h.(lastMessage := Some(LastQuizUpdate(payload)))
  {
    h.(lastMessage := Some(LastQuizUpdate(payload)))
  }

  /** The buffer policy agrees with the store's: the newest notification
      buffer after a run of arrivals holds the latest 100, newest first. */
  lemma {:induction false} NotificationsKeepNewest(h: Hook, ns: seq<NotificationPayload>)
    requires ns != []
    ensures ReceiveAll(h, ns).notifications == Take(Reverse(ns) + h.notifications, BufferSize)
    decreases |ns|
  {
    var h1 := OnNotification(h, ns[0]);
    assert h1.notifications == Take([ns[0]] + h.notifications, BufferSize);
    if |ns| == 1 {
      assert Reverse(ns) == [ns[0]];
    } else {
      NotificationsKeepNewest(h1, ns[1..]);
      TakeAppendTake(Reverse(ns[1..]), [ns[0]] + h.notifications, BufferSize);
      assert Reverse(ns) == Reverse(ns[1..]) + [ns[0]];
      SeqAssoc(Reverse(ns[1..]), [ns[0]], h.notifications);
    }
  }

  function ReceiveAll(h: Hook, ns: seq<NotificationPayload>): Hook
    decreases |ns|
  {
    if ns == [] then h else ReceiveAll(OnNotification(h, ns[0]), ns[1..])
  }

  /** `clearNotifications`: only the notification buffer is emptied. */
  function ClearNotifications(h: Hook): (r: Hook)
    ensures r.notifications == [] && r == h.(notifications := [])
  {
    h.(notifications := [])
  }

  /** `clearProofUpdates`: only the proof-update buffer is emptied. */
  function ClearProofUpdates(h: Hook): (r: Hook)
    ensures r.proofUpdates == [] && r == h.(proofUpdates := [])
  {
    h.(proofUpdates := [])
  }

  /** Clearing one buffer leaves the other alone, in either order. */
  lemma ClearsAreIndependent(h: Hook)
    ensures ClearNotifications(h).proofUpdates == h.proofUpdates
    ensures ClearProofUpdates(h).notifications == h.notifications
    ensures ClearNotifications(ClearProofUpdates(h)) == ClearProofUpdates(ClearNotifications(h))
  {
  }

  // ----- connection info -----

  datatype ConnectionInfo = ConnectionInfo(
    status: R.Status, isConnected: bool, isConnecting: bool, isDisconnected: bool, hasError: bool)

  /** `getConnectionInfo`: exactly one flag is set, the one naming the status. */
  function GetConnectionInfo(h: Hook): (info: ConnectionInfo)
    ensures info.status == h.status
    ensures info.isConnected <==> h.status == R.StatusConnected
    ensures info.isConnecting <==> h.status == R.StatusConnecting
    ensures info.isDisconnected <==> h.status == R.StatusDisconnected
    ensures info.hasError <==> h.status == R.StatusError
  {
    ConnectionInfo(h.status,
      h.status == R.StatusConnected, h.status == R.StatusConnecting,
      h.status == R.StatusDisconnected, h.status == R.StatusError)
  }

  function Ones(info: ConnectionInfo): nat {
    (if info.isConnected then 1 else 0) + (if info.isConnecting then 1 else 0)
    + (if info.isDisconnected then 1 else 0) + (if info.hasError then 1 else 0)
  }

  /** Exactly one of the four flags is true. */
  lemma ExactlyOneFlag(h: Hook)
    ensures Ones(GetConnectionInfo(h)) == 1
  {
  }
}
