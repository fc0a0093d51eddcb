/** The in-app notification store: a newest-first log of at most 100
    records with read flags, the user's notification preferences, and the
    choice of toast variant and duration. Storage writes and listener
    fan-out are effects outside this model; each operation is a pure
    function from the old log to the new one. */
module Notifications {
  import opened Options
  import opened Seqs

  datatype Kind = Info | Success | Warning | Error

  datatype Notification = Notification(
    id: string,
    kind: Kind,
    title: string,
    message: string,
    userId: Option<string>,
    read: bool,
    createdAt: string,
    expiresAt: Option<string>,
    actionUrl: Option<string>,
    actionText: Option<string>)

  /** How many records the store keeps. */
  const MaxStored: nat := 100

  // ----- the log -----

  /** `addNotification`: the new record goes in front; when the log
      then holds more than 100 records, the oldest ones are cut off. */
  function Add(log: seq<Notification>, n: Notification): (r: seq<Notification>)
    ensures |r| == if |log| < MaxStored then |log| + 1 else MaxStored
    ensures r[0] == n
    ensures forall i | 1 <= i < |r| :: r[i] == log[i - 1]
  {
    Take([n] + log, MaxStored)
  }

  /** A run of `addNotification` calls, first element first. */
  function AddAll(log: seq<Notification>, ns: seq<Notification>): seq<Notification>
    decreases |ns|
  {
    if ns == [] then log else AddAll(Add(log, ns[0]), ns[1..])
  }

  /** However many records are added, the store holds the 100 most
      recent ones, newest first: the added ones in reverse order of
      arrival, then what was there before. */
  lemma {:induction false} AddAllKeepsNewest(log: seq<Notification>, ns: seq<Notification>)
    requires ns != []
    ensures AddAll(log, ns) == Take(Reverse(ns) + log, MaxStored)
    decreases |ns|
  {
    if |ns| == 1 {
      assert Reverse(ns) == [ns[0]];
    } else {
      AddAllKeepsNewest(Add(log, ns[0]), ns[1..]);
      TakeAppendTake(Reverse(ns[1..]), [ns[0]] + log, MaxStored);
      assert Reverse(ns[1..]) + ([ns[0]] + log) == Reverse(ns) + log;
    }
  }

  /** Index of the first record with `id`, or |log| when there is none
      (what `find` locates). */
  function FirstWithId(log: seq<Notification>, id: string): (i: nat)
    ensures i <= |log|
    ensures i < |log| ==> log[i].id == id
    ensures forall j | 0 <= j < i :: log[j].id != id
  {
    if log == [] then 0
    else if log[0].id == id then 0
    else 1 + FirstWithId(log[1..], id)
  }

  /** `markAsRead`: sets the read flag of the first record with `id`. */
  function MarkAsRead(log: seq<Notification>, id: string): (r: seq<Notification>)
    ensures |r| == |log|
    ensures (forall j | 0 <= j < |log| :: log[j].id != id) ==> r == log
    ensures forall i | 0 <= i < |log| && log[i].id == id
              && (forall j | 0 <= j < i :: log[j].id != id) ::
              r == log[i := log[i].(read := true)]
  {
    if log == [] then []
    else if log[0].id == id then [log[0].(read := true)] + log[1..]
    else [log[0]] + MarkAsRead(log[1..], id)
  }

  /** `markAllAsRead`: every record is read, and nothing else about any
      record, nor their order, changes. */
  function MarkAllAsRead(log: seq<Notification>): (r: seq<Notification>)
    ensures |r| == |log|
    ensures forall i | 0 <= i < |r| :: r[i].read && r[i].(read := log[i].read) == log[i]
  {
    seq(|log|, i requires 0 <= i < |log| => log[i].(read := true))
  }

  /** Marking all as read a second time has no effect. */
  lemma MarkAllAsReadIdempotent(log: seq<Notification>)
    ensures MarkAllAsRead(MarkAllAsRead(log)) == MarkAllAsRead(log)
  {
  }

  /** `deleteNotification`: drops every record with `id`. */
  function Delete(log: seq<Notification>, id: string): (r: seq<Notification>)
    ensures forall n :: n in r <==> n in log && n.id != id
    ensures |r| == |log| - Count(log, (n: Notification) => n.id == id)
  {
    Reject(log, (n: Notification) => n.id == id)
  }

  /** Deleting keeps the survivors in their original relative order:
      deleting from a concatenation deletes from each part. */
  lemma DeletePreservesOrder(a: seq<Notification>, b: seq<Notification>, id: string)
    ensures Delete(a + b, id) == Delete(a, id) + Delete(b, id)
  {
    RejectConcat(a, b, (n: Notification) => n.id == id);
  }

  /** `clearAllNotifications`. */
  function Clear(): (r: seq<Notification>)
    ensures |r| == 0
  {
    []
  }

  predicate Unread(n: Notification) {
    !n.read
  }

  /** `getUnreadCount`. */
  function UnreadCount(log: seq<Notification>): (k: nat)
    ensures k == |Filter(log, Unread)|
    ensures k <= |log|
    ensures k == 0 <==> forall i | 0 <= i < |log| :: log[i].read
  {
    CountZero(log, Unread);
    Count(log, Unread)
  }

  /** After `markAllAsRead` and after `clearAllNotifications` nothing is unread. */
  lemma NothingUnreadAfterMarkAllOrClear(log: seq<Notification>)
    ensures UnreadCount(MarkAllAsRead(log)) == 0
    ensures UnreadCount(Clear()) == 0
  {
  }

  /** `markAsRead` lowers the unread count by one exactly when the first
      record with that id was unread. */
  lemma {:induction false} MarkAsReadUnreadCount(log: seq<Notification>, id: string)
    ensures UnreadCount(MarkAsRead(log, id)) ==
      UnreadCount(log) - (if FirstWithId(log, id) < |log| && !log[FirstWithId(log, id)].read then 1 else 0)
  {
    if log != [] {
      var r := MarkAsRead(log, id);
      if log[0].id != id {
        MarkAsReadUnreadCount(log[1..], id);
        assert r == [log[0]] + MarkAsRead(log[1..], id);
        assert r[1..] == MarkAsRead(log[1..], id);
        assert FirstWithId(log, id) == 1 + FirstWithId(log[1..], id);
      } else {
        assert r[1..] == log[1..];
      }
    }
  }

  // ----- preferences -----

  datatype TypePrefs = TypePrefs(quiz: bool, proof: bool, achievement: bool, system: bool, marketing: bool)

  datatype Prefs = Prefs(email: bool, push: bool, browser: bool, types: TypePrefs)

  /** A `Partial<NotificationPreferences>`: each top-level field either
      supplied or absent. */
  datatype PrefsPatch = PrefsPatch(
    email: Option<bool>, push: Option<bool>, browser: Option<bool>, types: Option<TypePrefs>)

  /** `getDefaultPreferences`: every channel and category on except marketing. */
  function DefaultPrefs(): (p: Prefs)
    ensures p.email && p.push && p.browser
    ensures p.types.quiz && p.types.proof && p.types.achievement && p.types.system
    ensures !p.types.marketing
  {
    Prefs(true, true, true, TypePrefs(true, true, true, true, false))
  }

  /** `{ ...preferences, ...patch }`: a shallow merge; a supplied `types`
      replaces the whole nested object. */
  function UpdatePrefs(p: Prefs, patch: PrefsPatch): (r: Prefs)
    ensures patch.email.Some? ==> r.email == patch.email.value
    ensures patch.email.None? ==> r.email == p.email
    ensures patch.push.Some? ==> r.push == patch.push.value
    ensures patch.push.None? ==> r.push == p.push
    ensures patch.browser.Some? ==> r.browser == patch.browser.value
    ensures patch.browser.None? ==> r.browser == p.browser
    ensures patch.types.Some? ==> r.types == patch.types.value
    ensures patch.types.None? ==> r.types == p.types
  {
    Prefs(
      patch.email.GetOr(p.email),
      patch.push.GetOr(p.push),
      patch.browser.GetOr(p.browser),
      patch.types.GetOr(p.types))
  }

  /** The merge of two patches, the later one winning field by field. */
  function ThenPatch(a: PrefsPatch, b: PrefsPatch): PrefsPatch {
    PrefsPatch(
      if b.email.Some? then b.email else a.email,
      if b.push.Some? then b.push else a.push,
      if b.browser.Some? then b.browser else a.browser,
      if b.types.Some? then b.types else a.types)
  }

  /** A shallow override: a supplied field wins, an absent field keeps its
      old value, an empty patch is the identity, applying a patch twice is
      applying it once, and two updates are one update with the merged
      patch. */
  lemma UpdatePrefsIsShallowOverride(p: Prefs, a: PrefsPatch, b: PrefsPatch)
    ensures a.email.Some? ==> UpdatePrefs(p, a).email == a.email.value
    ensures a.email.None? ==> UpdatePrefs(p, a).email == p.email
    ensures a.types.Some? ==> UpdatePrefs(p, a).types == a.types.value
    ensures a.types.None? ==> UpdatePrefs(p, a).types == p.types
    ensures UpdatePrefs(p, PrefsPatch(None, None, None, None)) == p
    ensures UpdatePrefs(UpdatePrefs(p, a), a) == UpdatePrefs(p, a)
    ensures UpdatePrefs(UpdatePrefs(p, a), b) == UpdatePrefs(p, ThenPatch(a, b))
  {
  }

  /** Preferences at start-up: stored fields merged over the defaults;
      nothing stored or unreadable storage gives the defaults. */
  function LoadPrefs(stored: Stored<PrefsPatch>): (p: Prefs)
    ensures !stored.Parsed? ==> p == DefaultPrefs()
    ensures stored.Parsed? ==> p.email == stored.value.email.GetOr(true)
    ensures stored.Parsed? ==> p.push == stored.value.push.GetOr(true)
    ensures stored.Parsed? ==> p.browser == stored.value.browser.GetOr(true)
    ensures stored.Parsed? && stored.value.types.Some? ==> p.types == stored.value.types.value
    ensures stored.Parsed? && stored.value.types.None? ==> p.types == DefaultPrefs().types
  {
    match stored
    case Parsed(patch) => UpdatePrefs(DefaultPrefs(), patch)
    case _ => DefaultPrefs()
  }

  /** The log at start-up: whatever list was stored, else empty. */
  function LoadLog(stored: Stored<seq<Notification>>): (log: seq<Notification>)
    ensures !stored.Parsed? ==> log == []
  {
    match stored
    case Parsed(l) => l
    case _ => []
  }

  // ----- toasts -----

  datatype Variant = Default | Destructive

  datatype Toast = Toast(variant: Variant, title: string, description: Option<string>, duration: nat)

  /** `showToast`: destructive styling only for errors; an absent or zero
      duration falls back to 5000 ms for errors and 3000 ms otherwise. */
  function ShowToast(kind: Kind, title: string, description: Option<string>, duration: Option<nat>): (t: Toast)
    ensures t.variant == Destructive <==> kind == Error
    ensures t.title == title && t.description == description
    ensures duration.Some? && duration.value != 0 ==> t.duration == duration.value
    ensures (duration.None? || duration.value == 0) && kind == Error ==> t.duration == 5000
    ensures (duration.None? || duration.value == 0) && kind != Error ==> t.duration == 3000
  {
    var fallback := if kind == Error then 5000 else 3000;
    Toast(
      if kind == Error then Destructive else Default,
      title,
      description,
      if duration.Some? && duration.value != 0 then duration.value else fallback)
  }
}
