/**
 * The in-page notification surface (js/notifications.js): an ordered container of
 * alerts, the timers that remove them, the confirm/prompt/progress variants, and the
 * pure helpers for icons, default titles and the host notification permission.
 *
 * Real time is replaced by an explicit clock `now` and a multiset of pending timer
 * callbacks that `FireNext` runs in due order.
 */
module Notifications {
  import opened Wrappers
  import opened Text
  import JsLookup

  // ================================================================ pure helpers

  const IconTable: map<string, string> := map[
    "success" := "fas fa-check-circle",
    "error" := "fas fa-exclamation-circle",
    "warning" := "fas fa-exclamation-triangle",
    "info" := "fas fa-info-circle"
  ]
  const FallbackIcon: string := "fas fa-bell"
  const ProgressIcon: string := "fas fa-spinner fa-spin"

  /** `getIcon` exactly as written: `icons[type] || 'fas fa-bell'` on an object literal. */
  function GetIconAsWritten(kind: string): (v: JsLookup.JsValue)
    ensures v.InheritedMember? <==> kind in JsLookup.ObjectPrototypeKeys
  {
    JsLookup.PropertyOr(IconTable, kind, FallbackIcon)
  }

  /** For the type name "constructor" the lookup as written yields an inherited function, not an icon class. */
  lemma GetIconAsWrittenOnInheritedName()
    ensures GetIconAsWritten("constructor") == JsLookup.InheritedMember("constructor")
    ensures GetIconAsWritten("constructor") != JsLookup.Str(GetIcon("constructor"))
  {
  }

  /** `getIcon` as evidently intended: the severity's icon class, the bell for any other type. */
  function GetIcon(kind: string): (icon: string)
    ensures icon == FallbackIcon <==> kind !in IconTable
    ensures kind in IconTable ==> icon == IconTable[kind]
  {
    JsLookup.LookupOr(IconTable, kind, FallbackIcon)
  }

  /** The four severities get four different icons; every other type gets the bell. */
  lemma GetIconCases(kind: string)
    ensures GetIcon("success") == "fas fa-check-circle"
    ensures GetIcon("error") == "fas fa-exclamation-circle"
    ensures GetIcon("warning") == "fas fa-exclamation-triangle"
    ensures GetIcon("info") == "fas fa-info-circle"
    ensures kind !in {"success", "error", "warning", "info"} ==> GetIcon(kind) == "fas fa-bell"
  {
  }

  /** The title `showNotification` picks for a type when the caller gives none. */
  function DefaultTitle(kind: string): (title: string)
    ensures title == "إشعار" <==> kind !in {"success", "error", "warning", "info"}
  {
    if kind == "success" then "نجاح"
    else if kind == "error" then "خطأ"
    else if kind == "warning" then "تحذير"
    else if kind == "info" then "معلومة"
    else "إشعار"
  }

  /** `showNotification`'s title: a truthy explicit title is kept; `null`, `undefined` and "" take the default. */
  function NotificationTitle(kind: string, title: Option<string>): (t: string)
    ensures title.Some? && title.value != "" ==> t == title.value
    ensures title.None? || title.value == "" ==> t == DefaultTitle(kind)
  {
    if title.Some? && title.value != "" then title.value else DefaultTitle(kind)
  }

  /** The per-type defaults of `showNotification`; the result is never empty. */
  lemma NotificationTitleCases(kind: string, title: Option<string>)
    ensures NotificationTitle("success", None) == "نجاح"
    ensures NotificationTitle("error", None) == "خطأ"
    ensures NotificationTitle("warning", None) == "تحذير"
    ensures NotificationTitle("info", None) == "معلومة"
    ensures kind !in {"success", "error", "warning", "info"} ==> NotificationTitle(kind, Some("")) == "إشعار"
    ensures NotificationTitle(kind, title) != ""
  {
  }

  datatype Severity = Success | Error | Warning | Info {
    /** The type string the convenience method passes to `show`. */
    function Name(): string {
      match this
      case Success => "success"
      case Error => "error"
      case Warning => "warning"
      case Info => "info"
    }
  }

  // ---------------------------------------------------------------- host permission

  datatype Permission = Granted | Denied | Default

  /** What the host offers: no `Notification` API at all, or one with a current permission. */
  datatype Host = NoNotificationApi | NotificationApi(permission: Permission)

  datatype PermissionAnswer = Unsupported | Answered(permission: Permission)

  /** The answer, and whether the host's `requestPermission` was called to get it. */
  datatype PermissionRequest = PermissionRequest(answer: PermissionAnswer, askedHost: bool)

  /**
   * `requestNotificationPermission`: `userChoice` is what the host's own request would
   * resolve to; it is only consulted when the permission is still undecided.
   */
  function RequestNotificationPermission(host: Host, userChoice: Permission): (r: PermissionRequest)
    ensures r.askedHost <==> host == NotificationApi(Default)
    ensures r.answer == Unsupported <==> host == NoNotificationApi
    ensures !r.askedHost ==> r.answer == (if host.NotificationApi? then Answered(host.permission) else Unsupported)
    ensures r.askedHost ==> r.answer == Answered(userChoice)
  {
    match host
    case NoNotificationApi => PermissionRequest(Unsupported, false)
    case NotificationApi(Granted) => PermissionRequest(Answered(Granted), false)
    case NotificationApi(Denied) => PermissionRequest(Answered(Denied), false)
    case NotificationApi(Default) => PermissionRequest(Answered(userChoice), true)
  }

  /** Once the user has decided, asking again never prompts and returns the same decision. */
  lemma PermissionNeverAskedTwice(first: Permission, later: Permission)
    requires first != Default
    ensures var r := RequestNotificationPermission(NotificationApi(Default), first);
            RequestNotificationPermission(NotificationApi(first), later) == PermissionRequest(r.answer, false)
  {
  }

  /** `showSystemNotification` raises a host notification only when the API exists and permission is granted. */
  function RaisesHostNotification(host: Host): (raised: bool)
    ensures raised <==> RequestNotificationPermission(host, Denied).answer == Answered(Granted)
  {
    host == NotificationApi(Granted)
  }

  // ---------------------------------------------------------------- confirm and prompt

  datatype PromptAction = Submit | Cancel

  /** The prompt's keypress handler: Enter submits, Escape cancels, other keys do nothing. */
  function KeyAction(key: string): (a: Option<PromptAction>)
    ensures a == Some(Submit) <==> key == "Enter"
    ensures a == Some(Cancel) <==> key == "Escape"
  {
    if key == "Enter" then Some(Submit)
    else if key == "Escape" then Some(Cancel)
    else None
  }

  /**
   * Whether the host fires the legacy `keypress` event for a key: keys that produce a
   * character (a one-character key value) and Enter do; Escape and the other
   * non-printing keys fire only `keydown` and `keyup` (UI Events, the `keypress` event).
   */
  predicate DispatchesKeypress(key: string) {
    key == "Enter" || |key| == 1
  }

  /**
   * As written, the prompt listens for `keypress`, which Escape never fires: no key that
   * reaches the handler cancels, so the Escape branch is dead. `KeyAction` is the handler
   * as intended, seeing every key as a `keydown` listener would.
   */
  lemma EscapeNeverReachesKeypress(key: string)
    requires DispatchesKeypress(key)
    ensures !DispatchesKeypress("Escape")
    ensures KeyAction(key) != Some(Cancel)
    ensures KeyAction("Escape") == Some(Cancel)
  {
  }

  /** The value a prompt's promise resolves to: the trimmed input on submit, `null` on cancel. */
  function PromptResolution(action: PromptAction, input: string): (r: Option<string>)
    ensures r.Some? <==> action == Submit
    ensures r.Some? ==> |r.value| <= |input|
  {
    match action
    case Submit => Some(Trim(input))
    case Cancel => None
  }

  /**
   * A submitted value has no white space left at either end, is the middle of the input
   * with only white space cut around it, and submitting it again would not change it.
   */
  lemma SubmittedValueIsTrimmed(input: string)
    ensures var v := PromptResolution(Submit, input).value;
            && (v == [] || (!IsWhitespace(v[0]) && !IsWhitespace(v[|v| - 1])))
            && PromptResolution(Submit, v) == Some(v)
            && exists i | 0 <= i <= |input| - |v| :: input[i..i + |v|] == v && AllWhitespace(input[..i]) && AllWhitespace(input[i + |v|..])
  {
    TrimIdempotent(input);
    TrimSplit(input);
    var i := LeadingWhitespace(input);
    var v := Trim(input);
    assert input[i..i + |v|] == v;
  }

  /** What a confirm or prompt promise settled with. */
  datatype Answer = Confirmed(yes: bool) | Entered(text: Option<string>)

  /** A promise settles once: a later `resolve` is ignored. */
  function Settle(answers: map<AlertId, Answer>, id: AlertId, v: Answer): (r: map<AlertId, Answer>)
    ensures id in r && r[id] == (if id in answers then answers[id] else v)
    ensures forall other | other != id :: (other in r <==> other in answers) && (other in r ==> r[other] == answers[other])
  {
    if id in answers then answers else answers[id := v]
  }

  /** Settling a second time changes nothing. */
  lemma SettleOnce(answers: map<AlertId, Answer>, id: AlertId, v: Answer, w: Answer)
    ensures Settle(Settle(answers, id, v), id, w) == Settle(answers, id, v)
  {
  }

  // ================================================================ alerts and timers

  type AlertId = nat

  const CeilingMs: int := 5000
  const FadeMs: int := 300
  const DefaultDurationMs: int := 5000

  /**
   * The delay `setTimeout` actually waits for a requested timeout of `ms`: the value is
   * converted to a signed 32-bit `long` (wrapping modulo 2^32), and a negative result is
   * taken as 0 (the timer initialization steps of the HTML Living Standard, section 8.6).
   */
  function TimerDelay(ms: int): (delay: int)
    ensures 0 <= delay < 0x8000_0000
    ensures 0 <= ms < 0x8000_0000 ==> delay == ms
    ensures 0x8000_0000 <= ms % 0x1_0000_0000 ==> delay == 0
  {
    var wrapped := ms % 0x1_0000_0000;
    if wrapped < 0x8000_0000 then wrapped else 0
  }

  /** A duration of 2^31 ms or more wraps around: 2^31 fires at once, 2^32 + 1000 after one second. */
  lemma TimerDelayWrapsAround()
    ensures TimerDelay(0x8000_0000) == 0
    ensures TimerDelay(0x1_0000_0000 + 1000) == 1000
    ensures TimerDelay(CeilingMs) == CeilingMs && TimerDelay(FadeMs) == FadeMs
  {
  }

  /** What an alert holds besides title and message. */
  datatype Controls =
    | CloseButton                          // a plain alert from `show`
    | ConfirmButtons                       // `confirm`: yes and no
    | PromptField(input: string)           // `prompt`: the text field's current value
    | ProgressBar(width: Option<int>)      // `showProgress`: the fill's width in percent, once set

  /**
   * One alert element. `message` is None when the alert has no message element (a progress
   * alert created with an empty message). `shownAt` and `duration` are the clock and the
   * requested display time when it was created.
   */
  datatype Alert = Alert(
    id: AlertId, kind: string, icon: string, title: string, message: Option<string>,
    controls: Controls, fading: bool, shownAt: int, duration: int)

  /** Alerts created through `show` get removal timers; progress alerts do not. */
  predicate AutoRemoved(a: Alert) {
    !a.controls.ProgressBar?
  }

  datatype TimerKind = DurationElapsed | CeilingReached | FadeFinished

  /** A scheduled callback: what it does, for which alert, and when it is due. */
  datatype Timer = Timer(kind: TimerKind, target: AlertId, due: int)

  predicate Attached(s: seq<Alert>, id: AlertId) {
    exists k | 0 <= k < |s| :: s[k].id == id
  }

  predicate DistinctIds(s: seq<Alert>) {
    forall i, j | 0 <= i < j < |s| :: s[i].id != s[j].id
  }

  /** Where the alert with this id sits in the container, if it is attached. */
  function Find(s: seq<Alert>, id: AlertId): (r: Option<nat>)
    ensures r.Some? ==> r.value < |s| && s[r.value].id == id
    ensures r.None? <==> !Attached(s, id)
  {
    if s == [] then None
    else if s[0].id == id then Some(0)
    else match Find(s[1..], id)
      case None => (assert forall k | 1 <= k < |s| :: s[k] == s[1..][k - 1]; None)
      case Some(k) => Some(k + 1)
  }

  /** Applies `f` to the alert with this id and leaves every other alert where and as it was. */
  function Replace(s: seq<Alert>, id: AlertId, f: Alert -> Alert): (r: seq<Alert>)
    ensures |r| == |s|
    ensures forall k | 0 <= k < |s| :: r[k] == if s[k].id == id then f(s[k]) else s[k]
  {
    seq(|s|, k requires 0 <= k < |s| => if s[k].id == id then f(s[k]) else s[k])
  }

  /** `remove`'s second step: the detach callback, due 300 ms after `at`, joins the pending timers. */
  function WithFade(pending: multiset<Timer>, id: AlertId, at: int): (q: multiset<Timer>)
    ensures Timer(FadeFinished, id, at + FadeMs) in q
    ensures q - multiset{Timer(FadeFinished, id, at + FadeMs)} == pending
  {
    pending + multiset{Timer(FadeFinished, id, at + FadeMs)}
  }

  /** `remove`'s first step: the fade-out animation starts. */
  function Faded(a: Alert): Alert {
    a.(fading := true)
  }

  /** `removeChild`: the container without the alert with this id. */
  function WithoutAlert(s: seq<Alert>, id: AlertId): (r: seq<Alert>)
    ensures |r| <= |s|
    ensures !Attached(r, id)
    ensures forall a :: a in r <==> a in s && a.id != id
  {
    if s == [] then []
    else (if s[0].id == id then [] else [s[0]]) + WithoutAlert(s[1..], id)
  }

  /** Detaching an alert that is attached once removes exactly that one and keeps the rest in order. */
  lemma {:induction false} WithoutAttachedAlert(s: seq<Alert>, k: nat)
    requires DistinctIds(s) && k < |s|
    ensures WithoutAlert(s, s[k].id) == s[..k] + s[k + 1..]
  {
    var id := s[k].id;
    RestAfterFirst(s);
    if k == 0 {
      WithoutAbsentAlert(s[1..], id);
      assert WithoutAlert(s, id) == WithoutAlert(s[1..], id);
    } else {
      assert s[1..][k - 1] == s[k];
      WithoutAttachedAlert(s[1..], k - 1);
      assert WithoutAlert(s, id) == [s[0]] + WithoutAlert(s[1..], id);
      GlueAroundFirst(s, k);
    }
  }

  /** The alerts after the first keep distinct ids, and none of them shares the first one's id. */
  lemma RestAfterFirst(s: seq<Alert>)
    requires DistinctIds(s) && s != []
    ensures DistinctIds(s[1..]) && !Attached(s[1..], s[0].id)
  {
    forall i, j | 0 <= i < j < |s| - 1 ensures s[1..][i].id != s[1..][j].id {
      assert s[1..][i] == s[i + 1] && s[1..][j] == s[j + 1];
    }
    forall j | 0 <= j < |s| - 1 ensures s[1..][j].id != s[0].id {
      assert s[1..][j] == s[j + 1];
    }
  }

  lemma GlueAroundFirst<T>(s: seq<T>, k: nat)
    requires 0 < k < |s|
    ensures [s[0]] + (s[1..][..k - 1] + s[1..][k..]) == s[..k] + s[k + 1..]
  {
    assert s[1..][..k - 1] == s[1..k];
    assert s[1..][k..] == s[k + 1..];
    assert s[..k] == [s[0]] + s[1..k];
  }

  /** Detaching an alert that is not attached changes nothing: a second removal is a no-op. */
  lemma {:induction false} WithoutAbsentAlert(s: seq<Alert>, id: AlertId)
    requires !Attached(s, id)
    ensures WithoutAlert(s, id) == s
  {
    if s != [] {
      assert s[0].id != id;
      assert !Attached(s[1..], id) by {
        forall j | 0 <= j < |s| - 1 ensures s[1..][j].id != id { assert s[1..][j] == s[j + 1]; }
      }
      WithoutAbsentAlert(s[1..], id);
    }
  }

  /** Detaching twice is the same as detaching once. */
  lemma WithoutAlertIdempotent(s: seq<Alert>, id: AlertId)
    ensures WithoutAlert(WithoutAlert(s, id), id) == WithoutAlert(s, id)
  {
    WithoutAbsentAlert(WithoutAlert(s, id), id);
  }

  lemma DistinctAfterRemoval(s: seq<Alert>, k: nat)
    requires DistinctIds(s) && k < |s|
    ensures DistinctIds(s[..k] + s[k + 1..])
  {
    var r := s[..k] + s[k + 1..];
    forall i, j | 0 <= i < j < |r| ensures r[i].id != r[j].id {
      var i' := if i < k then i else i + 1;
      var j' := if j < k then j else j + 1;
      assert r[i] == s[i'] && r[j] == s[j'];
    }
  }

  // ---------------------------------------------------------------- the surface invariant

  /** Some fade-out of this alert finishes no later than `deadline`. */
  ghost predicate FadeBy(pending: multiset<Timer>, id: AlertId, deadline: int) {
    exists t | t in pending :: t.kind == FadeFinished && t.target == id && t.due <= deadline
  }

  /** The removal timer `kind` at time `at` is still pending, or has already started a fade. */
  ghost predicate RemovalPending(pending: multiset<Timer>, id: AlertId, kind: TimerKind, at: int) {
    Timer(kind, id, at) in pending || FadeBy(pending, id, at + FadeMs)
  }

  /** The removals `show` scheduled for this alert are still on their way. */
  ghost predicate Scheduled(a: Alert, pending: multiset<Timer>) {
    AutoRemoved(a) ==>
      && RemovalPending(pending, a.id, CeilingReached, a.shownAt + CeilingMs)
      && (a.duration > 0 ==> RemovalPending(pending, a.id, DurationElapsed, a.shownAt + TimerDelay(a.duration)))
  }

  /**
   * The invariant of the surface: ids are unique and already handed out, no timer is
   * overdue, and every attached alert from `show` still has its removals coming.
   */
  ghost predicate SurfaceInvariant(alerts: seq<Alert>, pending: multiset<Timer>, now: int, nextId: AlertId) {
    && DistinctIds(alerts)
    && (forall k | 0 <= k < |alerts| :: alerts[k].id < nextId)
    && (forall t | t in pending :: t.target < nextId && now <= t.due)
    && (forall k | 0 <= k < |alerts| :: Scheduled(alerts[k], pending))
  }

  /** The latest time an alert from `show` can still be attached: the earlier timer plus the fade. */
  function RemovalDeadline(a: Alert): (d: int)
    ensures d <= a.shownAt + CeilingMs + FadeMs
    ensures 0 < a.duration < 0x8000_0000 ==> d <= a.shownAt + a.duration + FadeMs
    ensures 0 < a.duration && 0x8000_0000 <= a.duration % 0x1_0000_0000 ==> d == a.shownAt + FadeMs
  {
    var delay := TimerDelay(a.duration);
    (if 0 < a.duration && delay < CeilingMs then a.shownAt + delay else a.shownAt + CeilingMs) + FadeMs
  }

  /**
   * No alert from `show` outlives its deadline: one shown with 0 < duration < 5000 is gone
   * 300 ms after `duration`, and every one (confirm and prompt included) 300 ms after 5000;
   * a duration that wraps to a negative delay removes the alert after 300 ms.
   */
  lemma NoAlertOutlivesDeadline(alerts: seq<Alert>, pending: multiset<Timer>, now: int, nextId: AlertId, k: nat)
    requires SurfaceInvariant(alerts, pending, now, nextId)
    requires k < |alerts| && AutoRemoved(alerts[k])
    ensures now <= RemovalDeadline(alerts[k])
  {
    var a := alerts[k];
    assert Scheduled(a, pending);
    var delay := TimerDelay(a.duration);
    if 0 < a.duration && delay < CeilingMs {
      assert RemovalPending(pending, a.id, DurationElapsed, a.shownAt + delay);
      if Timer(DurationElapsed, a.id, a.shownAt + delay) !in pending {
        var t :| t in pending && t.kind == FadeFinished && t.target == a.id && t.due <= a.shownAt + delay + FadeMs;
      }
    } else {
      if Timer(CeilingReached, a.id, a.shownAt + CeilingMs) !in pending {
        var t :| t in pending && t.kind == FadeFinished && t.target == a.id && t.due <= a.shownAt + CeilingMs + FadeMs;
      }
    }
  }

  lemma ScheduledGrows(a: Alert, p: multiset<Timer>, q: multiset<Timer>)
    requires Scheduled(a, p) && p <= q
    ensures Scheduled(a, q)
  {
    if AutoRemoved(a) {
      if !(Timer(CeilingReached, a.id, a.shownAt + CeilingMs) in p) {
        var t :| t in p && t.kind == FadeFinished && t.target == a.id && t.due <= a.shownAt + CeilingMs + FadeMs;
        assert t in q;
      }
      if a.duration > 0 && !(Timer(DurationElapsed, a.id, a.shownAt + TimerDelay(a.duration)) in p) {
        var t :| t in p && t.kind == FadeFinished && t.target == a.id && t.due <= a.shownAt + TimerDelay(a.duration) + FadeMs;
        assert t in q;
      }
    }
  }

  lemma InvariantGrows(alerts: seq<Alert>, p: multiset<Timer>, q: multiset<Timer>, now: int, nextId: AlertId)
    requires SurfaceInvariant(alerts, p, now, nextId) && p <= q
    requires forall t | t in q - p :: t.target < nextId && now <= t.due
    ensures SurfaceInvariant(alerts, q, now, nextId)
  {
    forall k | 0 <= k < |alerts| ensures Scheduled(alerts[k], q) {
      ScheduledGrows(alerts[k], p, q);
    }
    forall t | t in q ensures t.target < nextId && now <= t.due {
      if t !in p { assert t in q - p; }
    }
  }

  /**
   * The timers `show` schedules: the duration timer when `duration > 0`, due after the
   * delay `setTimeout` makes of it, and the 5000 ms ceiling always.
   */
  function ShowTimers(id: AlertId, now: int, duration: int): (m: multiset<Timer>)
    ensures Timer(CeilingReached, id, now + CeilingMs) in m
    ensures Timer(DurationElapsed, id, now + TimerDelay(duration)) in m <==> duration > 0
    ensures 0 < duration < 0x8000_0000 ==> Timer(DurationElapsed, id, now + duration) in m
    ensures forall t | t in m :: t.target == id && now <= t.due && t.kind != FadeFinished
  {
    (if duration > 0 then multiset{Timer(DurationElapsed, id, now + TimerDelay(duration))} else multiset{})
      + multiset{Timer(CeilingReached, id, now + CeilingMs)}
  }

  /** Appending a fresh alert together with its `show` timers keeps the invariant. */
  lemma AppendKeepsInvariant(alerts: seq<Alert>, pending: multiset<Timer>, now: int, nextId: AlertId, a: Alert, timers: multiset<Timer>)
    requires SurfaceInvariant(alerts, pending, now, nextId)
    requires a.id == nextId && a.shownAt == now
    requires AutoRemoved(a) ==> timers == ShowTimers(a.id, now, a.duration)
    requires !AutoRemoved(a) ==> timers == multiset{}
    ensures SurfaceInvariant(alerts + [a], pending + timers, now, nextId + 1)
  {
    var s := alerts + [a];
    var q := pending + timers;
    forall k | 0 <= k < |s| ensures Scheduled(s[k], q) {
      if k < |alerts| {
        assert s[k] == alerts[k];
        ScheduledGrows(alerts[k], pending, q);
      }
    }
  }

  /** The timer that fires next is an earliest one. */
  lemma {:induction false} EarliestExists(m: multiset<Timer>)
    requires m != multiset{}
    ensures exists t :: t in m && forall u | u in m :: t.due <= u.due
    decreases |m|
  {
    var x :| x in m;
    var rest := m - multiset{x};
    assert forall u | u in m :: u == x || u in rest;
    if rest != multiset{} {
      EarliestExists(rest);
      var y :| y in rest && forall u | u in rest :: y.due <= u.due;
      if x.due <= y.due {
        assert forall u | u in m :: x.due <= u.due;
      } else {
        assert y in m && forall u | u in m :: y.due <= u.due;
      }
    }
  }

  /**
   * The container after timer `t` has run: the duration timer calls `remove` (the alert
   * fades), the ceiling timer calls `remove` only if the alert is still attached, and a
   * finished fade detaches the alert only if it is still attached.
   */
  function AlertsAfter(t: Timer, s: seq<Alert>): (r: seq<Alert>)
    ensures t.kind != FadeFinished ==>
      && |r| == |s|
      && forall k | 0 <= k < |s| :: r[k].id == s[k].id && (r[k] == s[k] || (s[k].id == t.target && r[k] == Faded(s[k])))
    ensures t.kind == FadeFinished && Attached(s, t.target) ==> r == WithoutAlert(s, t.target)
    ensures t.kind == FadeFinished && !Attached(s, t.target) ==> r == s
  {
    match t.kind
    case DurationElapsed => Replace(s, t.target, Faded)
    case CeilingReached => if Attached(s, t.target) then Replace(s, t.target, Faded) else s
    case FadeFinished => if Attached(s, t.target) then WithoutAlert(s, t.target) else s
  }

  /** The timers that running `t` schedules: a fade-out whenever it calls `remove`. */
  function FollowUp(t: Timer, s: seq<Alert>): (m: multiset<Timer>)
    ensures forall u | u in m :: u == Timer(FadeFinished, t.target, t.due + FadeMs)
  {
    match t.kind
    case DurationElapsed => multiset{Timer(FadeFinished, t.target, t.due + FadeMs)}
    case CeilingReached =>
      if Attached(s, t.target) then multiset{Timer(FadeFinished, t.target, t.due + FadeMs)} else multiset{}
    case FadeFinished => multiset{}
  }

  /** A removal still on its way stays on its way when some timer other than its own fade fires. */
  lemma RemovalSurvivesFiring(alerts: seq<Alert>, pending: multiset<Timer>, t: Timer, id: AlertId, kind: TimerKind, at: int)
    requires kind != FadeFinished && t in pending
    requires RemovalPending(pending, id, kind, at)
    requires Attached(alerts, id)
    requires t.kind == FadeFinished ==> t.target != id
    ensures RemovalPending(pending - multiset{t} + FollowUp(t, alerts), id, kind, at)
  {
    var q := pending - multiset{t} + FollowUp(t, alerts);
    if Timer(kind, id, at) in pending {
      if Timer(kind, id, at) == t {
        var f := Timer(FadeFinished, id, at + FadeMs);
        assert f in FollowUp(t, alerts);
        assert f in q;
      } else {
        assert Timer(kind, id, at) in q;
      }
    } else {
      var w :| w in pending && w.kind == FadeFinished && w.target == id && w.due <= at + FadeMs;
      assert w != t;
      assert w in q;
    }
  }

  lemma ScheduledSurvivesFiring(alerts: seq<Alert>, pending: multiset<Timer>, t: Timer, a: Alert)
    requires t in pending && Scheduled(a, pending) && Attached(alerts, a.id)
    requires t.kind == FadeFinished ==> t.target != a.id
    ensures Scheduled(a, pending - multiset{t} + FollowUp(t, alerts))
  {
    if AutoRemoved(a) {
      RemovalSurvivesFiring(alerts, pending, t, a.id, CeilingReached, a.shownAt + CeilingMs);
      if a.duration > 0 {
        RemovalSurvivesFiring(alerts, pending, t, a.id, DurationElapsed, a.shownAt + TimerDelay(a.duration));
      }
    }
  }

  /** Running an earliest pending timer keeps the invariant, with the clock moved to its due time. */
  lemma FiringKeepsInvariant(alerts: seq<Alert>, pending: multiset<Timer>, now: int, nextId: AlertId, t: Timer)
    requires SurfaceInvariant(alerts, pending, now, nextId)
    requires t in pending && forall u | u in pending :: t.due <= u.due
    ensures SurfaceInvariant(AlertsAfter(t, alerts), pending - multiset{t} + FollowUp(t, alerts), t.due, nextId)
  {
    var q := pending - multiset{t} + FollowUp(t, alerts);
    forall u | u in q ensures u.target < nextId && t.due <= u.due {
      if u !in FollowUp(t, alerts) { assert u in pending; }
    }
    if t.kind == FadeFinished && Attached(alerts, t.target) {
      DetachKeepsSchedule(alerts, pending, now, nextId, t);
    } else {
      FadeKeepsSchedule(alerts, pending, now, nextId, t);
    }
  }

  /** A finished fade detaches its alert; every other alert keeps its removals. */
  lemma DetachKeepsSchedule(alerts: seq<Alert>, pending: multiset<Timer>, now: int, nextId: AlertId, t: Timer)
    requires SurfaceInvariant(alerts, pending, now, nextId)
    requires t in pending && t.kind == FadeFinished && Attached(alerts, t.target)
    ensures var s := AlertsAfter(t, alerts);
            var q := pending - multiset{t} + FollowUp(t, alerts);
            && DistinctIds(s)
            && (forall j | 0 <= j < |s| :: s[j].id < nextId && Scheduled(s[j], q))
  {
    var k :| 0 <= k < |alerts| && alerts[k].id == t.target;
    WithoutAttachedAlert(alerts, k);
    DistinctAfterRemoval(alerts, k);
    RemainingKeepSchedule(alerts, pending, now, nextId, t, k);
  }

  /** Every alert left after the detach of position `k` keeps its removals. */
  lemma RemainingKeepSchedule(alerts: seq<Alert>, pending: multiset<Timer>, now: int, nextId: AlertId, t: Timer, k: nat)
    requires SurfaceInvariant(alerts, pending, now, nextId)
    requires t in pending && t.kind == FadeFinished && k < |alerts| && alerts[k].id == t.target
    ensures var s := alerts[..k] + alerts[k + 1..];
            forall j | 0 <= j < |s| :: s[j].id < nextId && Scheduled(s[j], pending - multiset{t} + FollowUp(t, alerts))
  {
    var s := alerts[..k] + alerts[k + 1..];
    forall j | 0 <= j < |s| ensures s[j].id < nextId && Scheduled(s[j], pending - multiset{t} + FollowUp(t, alerts)) {
      var i := if j < k then j else j + 1;
      OtherAlertKeepsSchedule(alerts, pending, now, nextId, t, i);
      assert s[j] == alerts[i];
    }
  }

  /** An alert other than the one a finished fade detaches keeps its removals. */
  lemma OtherAlertKeepsSchedule(alerts: seq<Alert>, pending: multiset<Timer>, now: int, nextId: AlertId, t: Timer, i: nat)
    requires SurfaceInvariant(alerts, pending, now, nextId)
    requires t in pending && t.kind == FadeFinished && i < |alerts| && alerts[i].id != t.target
    ensures alerts[i].id < nextId && Scheduled(alerts[i], pending - multiset{t} + FollowUp(t, alerts))
  {
    assert Scheduled(alerts[i], pending);
    ScheduledSurvivesFiring(alerts, pending, t, alerts[i]);
  }

  /** `remove` on an issued id keeps the invariant: the alert fades and its detach is scheduled. */
  lemma FadeKeepsInvariant(alerts: seq<Alert>, pending: multiset<Timer>, now: int, nextId: AlertId, id: AlertId)
    requires SurfaceInvariant(alerts, pending, now, nextId) && id < nextId
    ensures SurfaceInvariant(Replace(alerts, id, Faded), WithFade(pending, id, now), now, nextId)
  {
    var q := WithFade(pending, id, now);
    InvariantGrows(alerts, pending, q, now, nextId);
    FadingKeepsSchedule(alerts, Replace(alerts, id, Faded), q, nextId);
  }

  /** An alert in the container carries an id that was already handed out. */
  lemma AttachedIsIssued(alerts: seq<Alert>, pending: multiset<Timer>, now: int, nextId: AlertId, id: AlertId)
    requires SurfaceInvariant(alerts, pending, now, nextId) && Attached(alerts, id)
    ensures id < nextId
  {
    var k :| 0 <= k < |alerts| && alerts[k].id == id;
  }

  /** A timer that only starts a fade (or finds nothing to do) keeps every alert's removals. */
  lemma FadeKeepsSchedule(alerts: seq<Alert>, pending: multiset<Timer>, now: int, nextId: AlertId, t: Timer)
    requires SurfaceInvariant(alerts, pending, now, nextId)
    requires t in pending && !(t.kind == FadeFinished && Attached(alerts, t.target))
    ensures var s := AlertsAfter(t, alerts);
            var q := pending - multiset{t} + FollowUp(t, alerts);
            && DistinctIds(s)
            && (forall j | 0 <= j < |s| :: s[j].id < nextId && Scheduled(s[j], q))
  {
    var q := pending - multiset{t} + FollowUp(t, alerts);
    forall j | 0 <= j < |alerts| ensures Scheduled(alerts[j], q) {
      ScheduledSurvivesFiring(alerts, pending, t, alerts[j]);
    }
    FadingKeepsSchedule(alerts, AlertsAfter(t, alerts), q, nextId);
  }

  /** Starting fades changes no id, time, duration or controls, so the schedule carries over. */
  lemma FadingKeepsSchedule(alerts: seq<Alert>, s: seq<Alert>, q: multiset<Timer>, nextId: AlertId)
    requires |s| == |alerts| && forall j | 0 <= j < |s| :: s[j] == alerts[j] || s[j] == Faded(alerts[j])
    requires DistinctIds(alerts)
    requires forall j | 0 <= j < |alerts| :: alerts[j].id < nextId && Scheduled(alerts[j], q)
    ensures DistinctIds(s)
    ensures forall j | 0 <= j < |s| :: s[j].id < nextId && Scheduled(s[j], q)
  {
    forall j | 0 <= j < |s| ensures s[j].id < nextId && Scheduled(s[j], q) {
      assert Scheduled(alerts[j], q);
    }
    forall i, j | 0 <= i < j < |s| ensures s[i].id != s[j].id {
      assert s[i].id == alerts[i].id && s[j].id == alerts[j].id;
    }
  }

  // ---------------------------------------------------------------- progress updates

  /**
   * The progress handle's `update`: the fill width becomes `progress`%; the message is
   * replaced only by a truthy new message, and only when a message element exists.
   */
  function ApplyProgress(a: Alert, progress: int, newMessage: Option<string>): (b: Alert)
    requires a.controls.ProgressBar?
    ensures b.controls == ProgressBar(Some(progress))
    ensures b.message.Some? <==> a.message.Some?
    ensures b.message != a.message ==> newMessage.Some? && newMessage.value != "" && b.message == newMessage
    ensures newMessage.Some? && newMessage.value != "" && a.message.Some? ==> b.message == newMessage
    ensures b == a.(controls := b.controls, message := b.message)
  {
    var message := if newMessage.Some? && newMessage.value != "" && a.message.Some? then newMessage else a.message;
    a.(controls := ProgressBar(Some(progress)), message := message)
  }

  /** What `update` does to whichever alert its handle refers to: only a progress alert has a fill. */
  function ProgressUpdate(progress: int, newMessage: Option<string>): Alert -> Alert {
    (a: Alert) => if a.controls.ProgressBar? then ApplyProgress(a, progress, newMessage) else a
  }

  /** A run of `update(progress, newMessage)` calls on one progress alert. */
  function ApplyProgressRun(a: Alert, updates: seq<(int, Option<string>)>): (b: Alert)
    requires a.controls.ProgressBar?
    ensures b.controls.ProgressBar?
    decreases |updates|
  {
    if updates == [] then a
    else ApplyProgressRun(ApplyProgress(a, updates[0].0, updates[0].1), updates[1..])
  }

  /**
   * After any run of updates the fill shows the last progress given, and a progress alert
   * created without a message element never gains one, whatever messages are passed.
   */
  lemma {:induction false} ProgressRunEffect(a: Alert, updates: seq<(int, Option<string>)>)
    requires a.controls.ProgressBar?
    ensures updates != [] ==> ApplyProgressRun(a, updates).controls.width == Some(updates[|updates| - 1].0)
    ensures a.message == None ==> ApplyProgressRun(a, updates).message == None
    ensures ApplyProgressRun(a, updates).id == a.id && ApplyProgressRun(a, updates).title == a.title
    decreases |updates|
  {
    if updates != [] {
      var b := ApplyProgress(a, updates[0].0, updates[0].1);
      ProgressRunEffect(b, updates[1..]);
      if |updates| > 1 { assert updates[1..][|updates| - 2] == updates[|updates| - 1]; }
    }
  }

  /** The prompt's input field, after the user has typed `text` into it. */
  function InputSetTo(text: string): Alert -> Alert {
    (a: Alert) => if a.controls.PromptField? then a.(controls := PromptField(text)) else a
  }

  predicate OffersConfirm(s: seq<Alert>, id: AlertId) {
    exists k | 0 <= k < |s| :: s[k].id == id && s[k].controls.ConfirmButtons?
  }

  predicate OffersPrompt(s: seq<Alert>, id: AlertId) {
    exists k | 0 <= k < |s| :: s[k].id == id && s[k].controls.PromptField?
  }

  /** The current text of the prompt field of the alert with this id. */
  function PromptInput(s: seq<Alert>, id: AlertId): (input: string)
    requires DistinctIds(s) && OffersPrompt(s, id)
    ensures exists k | 0 <= k < |s| :: s[k].id == id && s[k].controls == PromptField(input)
  {
    var k := Find(s, id).value;
    assert s[k].controls.PromptField? by {
      var j :| 0 <= j < |s| && s[j].id == id && s[j].controls.PromptField?;
      assert j == k;
    }
    s[k].controls.input
  }

  // ================================================================ the surface

  class NotificationSystem {
    /** The container's children, in order. */
    var alerts: seq<Alert>
    /** Timer callbacks scheduled and not yet run. */
    var pending: multiset<Timer>
    /** The clock, in milliseconds. */
    var now: int
    /** The id the next created alert receives. */
    var nextId: AlertId
    /** What each confirm or prompt promise has settled with. */
    var answers: map<AlertId, Answer>

    ghost predicate Valid()
      reads this`alerts, this`pending, this`now, this`nextId
    {
      SurfaceInvariant(alerts, pending, now, nextId)
    }

    /** A surface with an empty container, at clock `start`. */
    constructor (start: int)
      ensures Valid()
      ensures alerts == [] && pending == multiset{} && now == start && nextId == 0 && answers == map[]
    {
      alerts, pending, now, nextId, answers := [], multiset{}, start, 0, map[];
    }

    /**
     * `show`: appends one alert at the end and schedules its removals — after `duration`
     * (as `setTimeout` converts it) when `duration > 0`, and after the 5000 ms ceiling in
     * every case.
     */
    method Show(title: string, message: string, kind: string, duration: int) returns (id: AlertId)
      requires Valid()
      modifies this
      ensures Valid()
      ensures id == old(nextId) && nextId == id + 1 && now == old(now) && answers == old(answers)
      ensures alerts == old(alerts) + [Alert(id, kind, GetIcon(kind), title, Some(message), CloseButton, false, now, duration)]
      ensures pending == old(pending) + ShowTimers(id, now, duration)
    {
      id := nextId;
      var alert := Alert(id, kind, GetIcon(kind), title, Some(message), CloseButton, false, now, duration);
      AppendKeepsInvariant(alerts, pending, now, nextId, alert, ShowTimers(id, now, duration));
      alerts := alerts + [alert];
      pending := pending + ShowTimers(id, now, duration);
      nextId := nextId + 1;
    }

    /** `remove`: the alert starts fading and is detached 300 ms later if still attached. */
    method Remove(id: AlertId)
      requires Valid() && id < nextId
      modifies this
      ensures Valid()
      ensures alerts == Replace(old(alerts), id, Faded)
      ensures pending == WithFade(old(pending), id, now)
      ensures now == old(now) && nextId == old(nextId) && answers == old(answers)
    {
      var s, q := Replace(alerts, id, Faded), WithFade(pending, id, now);
      FadeKeepsInvariant(alerts, pending, now, nextId, id);
      assert SurfaceInvariant(s, q, now, nextId);
      alerts, pending := s, q;
    }

    /** The user lets time pass; the event loop runs every timer that falls due, so no due time is skipped. */
    method Elapse(until: int)
      requires Valid()
      requires now <= until && forall t | t in pending :: until <= t.due
      modifies this
      ensures Valid()
      ensures now == until
      ensures alerts == old(alerts) && pending == old(pending) && nextId == old(nextId) && answers == old(answers)
    {
      now := until;
    }

    /** An earliest pending timer: the one the event loop runs next (any of them on a tie). */
    method EarliestPending() returns (t: Timer)
      requires pending != multiset{}
      ensures t in pending && forall u | u in pending :: t.due <= u.due
    {
      EarliestExists(pending);
      t :| t in pending && forall u | u in pending :: t.due <= u.due;
    }

    /**
     * Runs the callback of timer `t`, an earliest pending one, and moves the clock to its
     * due time; `AlertsAfter` and `FollowUp` say what each kind of callback does.
     */
    method Fire(t: Timer)
      requires Valid()
      requires t in pending && forall u | u in pending :: t.due <= u.due
      modifies this
      ensures Valid()
      ensures nextId == old(nextId) && answers == old(answers) && now == t.due
      ensures alerts == AlertsAfter(t, old(alerts))
      ensures pending == old(pending) - multiset{t} + FollowUp(t, old(alerts))
    {
      FiringKeepsInvariant(alerts, pending, now, nextId, t);
      alerts, pending, now := AlertsAfter(t, alerts), pending - multiset{t} + FollowUp(t, alerts), t.due;
    }

    /** One turn of the event loop: runs an earliest pending timer, if there is one. */
    method FireNext() returns (fired: Option<Timer>)
      requires Valid()
      modifies this
      ensures Valid()
      ensures nextId == old(nextId) && answers == old(answers)
      ensures fired.None? <==> old(pending) == multiset{}
      ensures fired.None? ==> alerts == old(alerts) && pending == old(pending) && now == old(now)
      ensures fired.Some? ==>
        && fired.value in old(pending)
        && (forall u | u in old(pending) :: fired.value.due <= u.due)
        && now == fired.value.due
        && alerts == AlertsAfter(fired.value, old(alerts))
        && pending == old(pending) - multiset{fired.value} + FollowUp(fired.value, old(alerts))
    {
      if pending == multiset{} {
        return None;
      }
      var t := EarliestPending();
      Fire(t);
      fired := Some(t);
    }

    /** `clearAll`: the container is emptied at once; scheduled timers still run, as no-ops. */
    method ClearAll()
      requires Valid()
      modifies this
      ensures Valid()
      ensures alerts == []
      ensures pending == old(pending) && now == old(now) && nextId == old(nextId) && answers == old(answers)
    {
      alerts := [];
    }

    /** `success`, `error`, `warning`, `info`: `show` with the severity's type, its default title unless one is passed, and 5000 ms. */
    method ShowSeverity(severity: Severity, message: string, title: Option<string>) returns (id: AlertId)
      requires Valid()
      modifies this
      ensures Valid()
      ensures id == old(nextId) && nextId == id + 1 && now == old(now) && answers == old(answers)
      ensures alerts == old(alerts) + [Alert(id, severity.Name(), GetIcon(severity.Name()),
                                             title.GetOr(DefaultTitle(severity.Name())), Some(message),
                                             CloseButton, false, now, DefaultDurationMs)]
      ensures pending == old(pending) + ShowTimers(id, now, DefaultDurationMs)
    {
      id := Show(title.GetOr(DefaultTitle(severity.Name())), message, severity.Name(), DefaultDurationMs);
    }

    /** The page-wide `showNotification(message, type, title)`; an omitted type is "info". */
    method ShowNotification(message: string, kind: Option<string>, title: Option<string>) returns (id: AlertId)
      requires Valid()
      modifies this
      ensures Valid()
      ensures id == old(nextId) && nextId == id + 1 && now == old(now) && answers == old(answers)
      ensures alerts == old(alerts) + [Alert(id, kind.GetOr("info"), GetIcon(kind.GetOr("info")),
                                             NotificationTitle(kind.GetOr("info"), title), Some(message),
                                             CloseButton, false, now, DefaultDurationMs)]
      ensures pending == old(pending) + ShowTimers(id, now, DefaultDurationMs)
    {
      var k := kind.GetOr("info");
      id := Show(NotificationTitle(k, title), message, k, DefaultDurationMs);
    }

    /** `showSystemNotification`: the in-page alert always; a host notification only with permission granted. */
    method ShowSystemNotification(title: string, message: string, host: Host) returns (id: AlertId, raisedOnHost: bool)
      requires Valid()
      modifies this
      ensures Valid()
      ensures raisedOnHost == RaisesHostNotification(host)
      ensures id == old(nextId) && nextId == id + 1 && now == old(now) && answers == old(answers)
      ensures alerts == old(alerts) + [Alert(id, "info", GetIcon("info"), title, Some(message), CloseButton, false, now, DefaultDurationMs)]
      ensures pending == old(pending) + ShowTimers(id, now, DefaultDurationMs)
    {
      raisedOnHost := RaisesHostNotification(host);
      id := Show(title, message, "info", DefaultDurationMs);
    }

    /**
     * `confirm`: an info alert shown with duration 0 plus yes/no buttons. The 5000 ms
     * ceiling is still scheduled, so an unanswered confirmation is removed after 5 s.
     */
    method Confirm(message: string, title: Option<string>) returns (id: AlertId)
      requires Valid()
      modifies this
      ensures Valid()
      ensures id == old(nextId) && nextId == id + 1 && now == old(now) && answers == old(answers)
      ensures alerts == old(alerts) + [Alert(id, "info", GetIcon("info"), title.GetOr("تأكيد"), Some(message), ConfirmButtons, false, now, 0)]
      ensures pending == old(pending) + multiset{Timer(CeilingReached, id, now + CeilingMs)}
    {
      id := Show(title.GetOr("تأكيد"), message, "info", 0);
      alerts := alerts[..|alerts| - 1] + [alerts[|alerts| - 1].(controls := ConfirmButtons)];
      assert forall k | 0 <= k < |alerts| - 1 :: alerts[k] == old(alerts)[k];
      assert Scheduled(alerts[|alerts| - 1], pending);
    }

    /** A click on "yes" (`yes`) or "no": removes the alert and resolves the promise, if it has not resolved yet. */
    method AnswerConfirm(id: AlertId, yes: bool)
      requires Valid()
      modifies this
      ensures Valid()
      ensures now == old(now) && nextId == old(nextId)
      ensures OffersConfirm(old(alerts), id) ==>
        && alerts == Replace(old(alerts), id, Faded)
        && pending == WithFade(old(pending), id, now)
        && answers == Settle(old(answers), id, Confirmed(yes))
      ensures !OffersConfirm(old(alerts), id) ==>
        alerts == old(alerts) && pending == old(pending) && answers == old(answers)
    {
      if OffersConfirm(alerts, id) {
        AttachedIsIssued(alerts, pending, now, nextId, id);
        answers := Settle(answers, id, Confirmed(yes));
        Remove(id);
      }
    }

    /** `prompt`: an info alert shown with duration 0 plus a text field pre-filled with `defaultValue`. */
    method Prompt(message: string, title: Option<string>, defaultValue: string) returns (id: AlertId)
      requires Valid()
      modifies this
      ensures Valid()
      ensures id == old(nextId) && nextId == id + 1 && now == old(now) && answers == old(answers)
      ensures alerts == old(alerts) + [Alert(id, "info", GetIcon("info"), title.GetOr("إدخال"), Some(message), PromptField(defaultValue), false, now, 0)]
      ensures pending == old(pending) + multiset{Timer(CeilingReached, id, now + CeilingMs)}
    {
      id := Show(title.GetOr("إدخال"), message, "info", 0);
      alerts := alerts[..|alerts| - 1] + [alerts[|alerts| - 1].(controls := PromptField(defaultValue))];
      assert forall k | 0 <= k < |alerts| - 1 :: alerts[k] == old(alerts)[k];
      assert Scheduled(alerts[|alerts| - 1], pending);
    }

    /** The user types into a prompt's field. */
    method EditPromptInput(id: AlertId, text: string)
      requires Valid()
      modifies this
      ensures Valid()
      ensures alerts == Replace(old(alerts), id, InputSetTo(text))
      ensures pending == old(pending) && now == old(now) && nextId == old(nextId) && answers == old(answers)
    {
      var s := Replace(alerts, id, InputSetTo(text));
      forall k | 0 <= k < |s| ensures s[k].id < nextId && Scheduled(s[k], pending) {
        assert Scheduled(alerts[k], pending);
      }
      forall i, j | 0 <= i < j < |s| ensures s[i].id != s[j].id {
        assert s[i].id == alerts[i].id && s[j].id == alerts[j].id;
      }
      alerts := s;
    }

    /** Submit or cancel on a prompt: removes the alert and resolves with the trimmed text or `null`. */
    method AnswerPrompt(id: AlertId, action: PromptAction)
      requires Valid()
      modifies this
      ensures Valid()
      ensures now == old(now) && nextId == old(nextId)
      ensures OffersPrompt(old(alerts), id) ==>
        && alerts == Replace(old(alerts), id, Faded)
        && pending == WithFade(old(pending), id, now)
        && answers == Settle(old(answers), id, Entered(PromptResolution(action, PromptInput(old(alerts), id))))
      ensures !OffersPrompt(old(alerts), id) ==>
        alerts == old(alerts) && pending == old(pending) && answers == old(answers)
    {
      if OffersPrompt(alerts, id) {
        var input := PromptInput(alerts, id);
        AttachedIsIssued(alerts, pending, now, nextId, id);
        answers := Settle(answers, id, Entered(PromptResolution(action, input)));
        Remove(id);
      }
    }

    /**
     * A key pressed in a prompt's field: Enter submits, Escape cancels, anything else is
     * ignored. Every key reaches the handler here, as intended; with the `keypress` listener
     * as written Escape never arrives (`EscapeNeverReachesKeypress`).
     */
    method PromptKeyPress(id: AlertId, key: string)
      requires Valid()
      modifies this
      ensures Valid()
      ensures now == old(now) && nextId == old(nextId)
      ensures KeyAction(key).None? || !OffersPrompt(old(alerts), id) ==>
        alerts == old(alerts) && pending == old(pending) && answers == old(answers)
      ensures KeyAction(key).Some? && OffersPrompt(old(alerts), id) ==>
        && alerts == Replace(old(alerts), id, Faded)
        && pending == WithFade(old(pending), id, now)
        && answers == Settle(old(answers), id, Entered(PromptResolution(KeyAction(key).value, PromptInput(old(alerts), id))))
    {
      var action := KeyAction(key);
      if action.Some? {
        AnswerPrompt(id, action.value);
      }
    }

    /** `showProgress`: appends an info alert with a progress bar and no removal timers. */
    method ShowProgress(title: string, message: string) returns (id: AlertId)
      requires Valid()
      modifies this
      ensures Valid()
      ensures id == old(nextId) && nextId == id + 1 && now == old(now) && answers == old(answers)
      ensures alerts == old(alerts) + [Alert(id, "info", ProgressIcon, title, if message != "" then Some(message) else None,
                                             ProgressBar(None), false, now, 0)]
      ensures pending == old(pending)
    {
      id := nextId;
      var alert := Alert(id, "info", ProgressIcon, title, if message != "" then Some(message) else None, ProgressBar(None), false, now, 0);
      AppendKeepsInvariant(alerts, pending, now, nextId, alert, multiset{});
      assert pending + multiset{} == pending;
      alerts := alerts + [alert];
      nextId := nextId + 1;
    }

    /** The progress handle's `update(progress, newMessage)`. */
    method UpdateProgress(id: AlertId, progress: int, newMessage: Option<string>)
      requires Valid()
      modifies this
      ensures Valid()
      ensures alerts == Replace(old(alerts), id, ProgressUpdate(progress, newMessage))
      ensures pending == old(pending) && now == old(now) && nextId == old(nextId) && answers == old(answers)
    {
      var s := Replace(alerts, id, ProgressUpdate(progress, newMessage));
      forall k | 0 <= k < |s| ensures s[k].id < nextId && Scheduled(s[k], pending) {
        assert Scheduled(alerts[k], pending);
      }
      forall i, j | 0 <= i < j < |s| ensures s[i].id != s[j].id {
        assert s[i].id == alerts[i].id && s[j].id == alerts[j].id;
      }
      alerts := s;
    }
  }
}
