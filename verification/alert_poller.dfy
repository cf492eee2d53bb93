/** The background alert poller, `AlertWorker.doWork`, as a transition per
    cycle.

    The worker reads the stored fingerprint `alertsId` once (0 when nothing is
    stored), then repeats: fetch and decode the alerts, fingerprint the list
    with `hashCode()`, and when the fingerprint differs from the one held,
    post one notification per alert, in list order, and only then remember and
    store the new fingerprint. Effects are returned as a log, in the order the
    worker performs them. */
module AlertPoller {
  import opened Results
  import opened Text
  import opened Records
  import opened XmlPull
  import opened Storage
  import opened AlertFeed

  const AlertsIdKey := "alertsId"

  datatype Notification = Notification(title: string, body: string)

  /** What a cycle does to the outside world: post a notification, or write
      the fingerprint to the preferences. */
  datatype Effect = Notify(notification: Notification) | Persist(id: Int32)

  /** The worker's memory: the fingerprint it holds and the preferences. */
  datatype PollerState = PollerState(alertsId: Int32, prefs: Prefs)

  /** Why a cycle aborts: the HTTP call failed, or the feed did not decode. */
  datatype CycleError = NetworkError | FeedError(error: DecodeError)

  /** The collaborators a cycle needs: the feed's date parser, the list
      fingerprint (`List.hashCode`) and the notification date format. */
  datatype Env = Env(parse: DateParser, fingerprint: seq<Alert> -> Int32, format: DateFormatter)

  /** The held fingerprint is the stored one. */
  predicate Synced(st: PollerState) {
    st.alertsId == GetInt(st.prefs, AlertsIdKey, 0)
  }

  /** The state a worker starts in: `getInt("alertsId", 0)`. */
  function Start(prefs: Prefs): (st: PollerState)
    ensures Synced(st) && st.prefs == prefs
    ensures AlertsIdKey !in prefs.ints ==> st.alertsId == 0
  {
    PollerState(GetInt(prefs, AlertsIdKey, 0), prefs)
  }

  // ------------------------------------------------------------ notifications

  /** Title `【description・issue time】`, body `content(~ end time)`. */
  function NotificationFor(a: Alert, fmt: DateFormatter): Notification {
    Notification(
      "【" + a.description + "・" + fmt(a.issueTime) + "】",
      a.content + "(~ " + fmt(a.endTime) + ")")
  }

  /** The position of the last `c` in `s`. */
  function LastIndex(s: string, c: char): (r: Option<nat>)
    ensures r.Some? ==> r.value < |s| && s[r.value] == c
    ensures r.Some? ==> forall m :: r.value < m < |s| ==> s[m] != c
    ensures r.None? ==> c !in s
  {
    if |s| == 0 then None
    else if s[|s| - 1] == c then Some(|s| - 1)
    else
      var r := LastIndex(s[..|s| - 1], c);
      assert r.None? ==> forall m :: 0 <= m < |s| - 1 ==> s[m] == s[..|s| - 1][m];
      r
  }

  /** Cuts `s` at its last `c`. */
  function SplitAtLast(s: string, c: char): Option<(string, string)> {
    match LastIndex(s, c)
    case None => None
    case Some(k) => Some((s[..k], s[k + 1..]))
  }

  lemma SplitAtLastJoined(x: string, c: char, y: string)
    requires c !in y
    ensures SplitAtLast(x + [c] + y, c) == Some((x, y))
  {
    var s := x + [c] + y;
    assert s[|x|] == c;
    assert forall m :: |x| < m < |s| ==> s[m] == y[m - |x| - 1];
    var k := LastIndex(s, c).value;
    assert k == |x|;
    assert s[..k] == x;
    assert s[k + 1..] == y;
  }

  /** Reads a title back into description and formatted issue time. */
  function ReadTitle(title: string): Option<(string, string)> {
    if |title| >= 2 && title[0] == '【' && title[|title| - 1] == '】' then
      SplitAtLast(title[1..|title| - 1], '・')
    else None
  }

  /** Reads a body back into content and formatted end time. */
  function ReadBody(body: string): Option<(string, string)> {
    match SplitAtLast(body, '(')
    case None => None
    case Some((content, rest)) =>
      if |rest| >= 3 && rest[..2] == "~ " && rest[|rest| - 1] == ')' then
        Some((content, rest[2..|rest| - 1]))
      else None
  }

  /** Round trip: a notification's title gives back the alert's description
      and formatted issue time, provided the date format does not produce
      the separator `・`. */
  lemma ReadTitleBack(a: Alert, fmt: DateFormatter)
    requires '・' !in fmt(a.issueTime)
    ensures ReadTitle(NotificationFor(a, fmt).title) == Some((a.description, fmt(a.issueTime)))
  {
    var t := NotificationFor(a, fmt).title;
    var inner := a.description + ['・'] + fmt(a.issueTime);
    assert t == ['【'] + inner + ['】'];
    assert t[1..|t| - 1] == inner;
    SplitAtLastJoined(a.description, '・', fmt(a.issueTime));
  }

  /** Round trip: a notification's body gives back the alert's content and
      formatted end time, provided the date format does not produce `(`. */
  lemma ReadBodyBack(a: Alert, fmt: DateFormatter)
    requires '(' !in fmt(a.endTime)
    ensures ReadBody(NotificationFor(a, fmt).body) == Some((a.content, fmt(a.endTime)))
  {
    var b := NotificationFor(a, fmt).body;
    var rest := "~ " + fmt(a.endTime) + ")";
    assert b == a.content + ['('] + rest;
    assert forall i :: 0 <= i < |rest| ==> rest[i] == '~' || rest[i] == ' ' || rest[i] == ')' || rest[i] in fmt(a.endTime);
    assert '(' !in rest;
    SplitAtLastJoined(a.content, '(', rest);
    assert rest[..2] == "~ ";
    assert rest[2..|rest| - 1] == fmt(a.endTime);
  }

  /** `alerts.forEach { manager.notify(...) }`: one notification per alert,
      in list order. */
  function NotifyAll(alerts: seq<Alert>, fmt: DateFormatter): (r: seq<Effect>)
    ensures |r| == |alerts|
    ensures forall i :: 0 <= i < |alerts| ==> r[i] == Notify(NotificationFor(alerts[i], fmt))
  {
    if |alerts| == 0 then []
    else [Notify(NotificationFor(alerts[0], fmt))] + NotifyAll(alerts[1..], fmt)
  }

  // ------------------------------------------------------------------ cycle

  /** `get()`: the download (absent when the HTTP call failed), decoded. */
  function Fetch(download: Option<seq<Event>>, parse: DateParser, now: Date): (r: Result<seq<Alert>, CycleError>)
    ensures download.None? ==> r == Failure(NetworkError)
    ensures download.Some? ==> (r.Success? <==> DecodeAlerts(download.value, parse, now).Success?)
    ensures r.Success? ==> r.value == DecodeAlerts(download.value, parse, now).value
  {
    match download
    case None => Failure(NetworkError)
    case Some(ev) =>
      match DecodeAlerts(ev, parse, now)
      case Success(alerts) => Success(alerts)
      case Failure(e) => Failure(FeedError(e))
  }

  /** The decision of one cycle on a decoded list. An unchanged fingerprint
      does nothing. A changed one notifies every alert of the list, not only
      the new ones, in order, and only after the last notification remembers
      and stores the new fingerprint. */
  function Decide(st: PollerState, alerts: seq<Alert>, env: Env): (r: (PollerState, seq<Effect>))
    ensures env.fingerprint(alerts) == st.alertsId ==> r == (st, [])
    ensures env.fingerprint(alerts) != st.alertsId ==>
      && |r.1| == |alerts| + 1
      && (forall i :: 0 <= i < |alerts| ==> r.1[i] == Notify(NotificationFor(alerts[i], env.format)))
      && r.1[|alerts|] == Persist(env.fingerprint(alerts))
      && r.0.alertsId == env.fingerprint(alerts)
      && GetInt(r.0.prefs, AlertsIdKey, 0) == env.fingerprint(alerts)
  {
    var id := env.fingerprint(alerts);
    if id == st.alertsId then (st, [])
    else (PollerState(id, PutInt(st.prefs, AlertsIdKey, id)), NotifyAll(alerts, env.format) + [Persist(id)])
  }

  /** One cycle: fetch, decode, decide. A failed cycle changes nothing and
      emits nothing. */
  function Cycle(st: PollerState, download: Option<seq<Event>>, now: Date, env: Env)
    : Result<(PollerState, seq<Effect>), CycleError>
  {
    var alerts :- Fetch(download, env.parse, now);
    Success(Decide(st, alerts, env))
  }

  /** A cycle keeps the held and the stored fingerprint equal. */
  lemma DecideKeepsSynced(st: PollerState, alerts: seq<Alert>, env: Env)
    requires Synced(st)
    ensures Synced(Decide(st, alerts, env).0)
  {
  }

  /** Two consecutive cycles over the same decoded list: the second one
      emits nothing and changes nothing. */
  lemma SecondCycleQuiet(st: PollerState, alerts: seq<Alert>, env: Env)
    ensures var st' := Decide(st, alerts, env).0;
      Decide(st', alerts, env) == (st', [])
  {
  }

  /** The stored fingerprint is written once per changed cycle, as its last
      effect: every notification of the cycle precedes it. */
  lemma PersistIsLast(st: PollerState, alerts: seq<Alert>, env: Env, i: nat)
    requires i < |Decide(st, alerts, env).1|
    requires Decide(st, alerts, env).1[i].Persist?
    ensures i == |Decide(st, alerts, env).1| - 1
    ensures forall k :: 0 <= k < i ==> Decide(st, alerts, env).1[k].Notify?
  {
  }

  // ----------------------------------------------------------------- worker

  /** What a worker run leaves behind: the preferences, the effects in order,
      and whether it stopped on a failed cycle. */
  datatype WorkOutcome = WorkOutcome(prefs: Prefs, effects: seq<Effect>, failed: bool)

  /** Cycles over successive downloads (each with the clock reading of its
      `get()` call) until one fails or the downloads run out. */
  function Loop(st: PollerState, downloads: seq<(Option<seq<Event>>, Date)>, env: Env): WorkOutcome
    decreases |downloads|
  {
    if |downloads| == 0 then WorkOutcome(st.prefs, [], false)
    else
      match Cycle(st, downloads[0].0, downloads[0].1, env)
      case Failure(_) => WorkOutcome(st.prefs, [], true)
      case Success((st', effects)) =>
        var rest := Loop(st', downloads[1..], env);
        WorkOutcome(rest.prefs, effects + rest.effects, rest.failed)
  }

  /** `doWork`: read the stored fingerprint, then cycle. */
  function Work(prefs: Prefs, downloads: seq<(Option<seq<Event>>, Date)>, env: Env): WorkOutcome {
    Loop(Start(prefs), downloads, env)
  }

  /** A failed first cycle stores nothing and notifies nothing. */
  lemma FailedCycleKeepsStore(st: PollerState, downloads: seq<(Option<seq<Event>>, Date)>, env: Env)
    requires |downloads| > 0 && Cycle(st, downloads[0].0, downloads[0].1, env).Failure?
    ensures Loop(st, downloads, env) == WorkOutcome(st.prefs, [], true)
  {
  }

  /** Restarting is seamless: a worker started afresh from the preferences
      that a synced worker would hold behaves exactly as that worker would
      have continued, so aborting after a failure loses nothing. */
  lemma RestartResumes(st: PollerState, downloads: seq<(Option<seq<Event>>, Date)>, env: Env)
    requires Synced(st)
    ensures Work(st.prefs, downloads, env) == Loop(st, downloads, env)
  {
    assert Start(st.prefs) == st;
  }

  /** Across any run, only fingerprint writes touch the preferences, and the
      stored fingerprint at the end is the one the worker holds. */
  lemma {:induction false} LoopStoresHeldId(st: PollerState, downloads: seq<(Option<seq<Event>>, Date)>, env: Env)
    requires Synced(st)
    ensures GetInt(Loop(st, downloads, env).prefs, AlertsIdKey, 0) == LastHeld(st, downloads, env)
    ensures forall k, d :: k != AlertsIdKey ==> GetInt(Loop(st, downloads, env).prefs, k, d) == GetInt(st.prefs, k, d)
    ensures forall k :: GetString(Loop(st, downloads, env).prefs, k) == GetString(st.prefs, k)
    decreases |downloads|
  {
    if |downloads| > 0 {
      match Cycle(st, downloads[0].0, downloads[0].1, env)
      case Failure(_) =>
      case Success((st', effects)) =>
        DecideKeepsSynced(st, Fetch(downloads[0].0, env.parse, downloads[0].1).value, env);
        LoopStoresHeldId(st', downloads[1..], env);
    }
  }

  /** The fingerprint held after the successful prefix of a run. */
  function LastHeld(st: PollerState, downloads: seq<(Option<seq<Event>>, Date)>, env: Env): Int32
    decreases |downloads|
  {
    if |downloads| == 0 then st.alertsId
    else
      match Cycle(st, downloads[0].0, downloads[0].1, env)
      case Failure(_) => st.alertsId
      case Success((st', _)) => LastHeld(st', downloads[1..], env)
  }

  // ------------------------------------------------------ clock dependence

  /** A fingerprint that tells the first alert's issue time `Date(2)` from
      every other. */
  function SeesIssueTime(alerts: seq<Alert>): Int32 {
    if |alerts| > 0 && alerts[0].issueTime == Date(2) then 2 else 1
  }

  /** In the source, an unchanged feed can be notified again. A record that
      closes before its date tags takes the clock reading of its cycle, so
      the same download decodes to a different list a minute later; with a
      fingerprint that sees the issue time, the second cycle posts the alert
      again and stores a new fingerprint. */
  lemma UnchangedFeedNotifiedAgain(st: PollerState, parse: DateParser, format: DateFormatter)
    ensures var env := Env(parse, SeesIssueTime, format);
      var feed := Some([EndTag("record")]);
      && Cycle(st, feed, Date(1), env).Success?
      && Cycle(Cycle(st, feed, Date(1), env).value.0, feed, Date(2), env)
         == Success((PollerState(2, PutInt(Cycle(st, feed, Date(1), env).value.0.prefs, AlertsIdKey, 2)),
                     [Notify(NotificationFor(InitialAlert(Date(2)), format)), Persist(2)]))
  {
    var env := Env(parse, SeesIssueTime, format);
    var feed := Some([EndTag("record")]);
    UndatedRecordTakesClock(parse, Date(1), Date(2));
    UndatedRecordTakesClock(parse, Date(2), Date(1));
    assert Fetch(feed, parse, Date(1)) == Success([InitialAlert(Date(1))]);
    assert Fetch(feed, parse, Date(2)) == Success([InitialAlert(Date(2))]);
    assert SeesIssueTime([InitialAlert(Date(1))]) == 1;
    assert SeesIssueTime([InitialAlert(Date(2))]) == 2;
    assert Cycle(st, feed, Date(1), env) == Success(Decide(st, [InitialAlert(Date(1))], env));
    var st1 := Decide(st, [InitialAlert(Date(1))], env).0;
    assert st1.alertsId == 1;
    assert Cycle(st1, feed, Date(2), env) == Success(Decide(st1, [InitialAlert(Date(2))], env));
    assert NotifyAll([InitialAlert(Date(2))], format) + [Persist(2)]
        == [Notify(NotificationFor(InitialAlert(Date(2)), format)), Persist(2)];
  }

  /** On a feed whose every record carries both dates, a repeated download is
      quiet whatever the clock says: the second cycle emits nothing and
      changes nothing. */
  lemma RepeatedDatedFeedQuiet(st: PollerState, ev: seq<Event>, n1: Date, n2: Date, env: Env)
    requires DatedRecords(ev)
    requires Cycle(st, Some(ev), n1, env).Success?
    ensures var st' := Cycle(st, Some(ev), n1, env).value.0;
      Cycle(st', Some(ev), n2, env) == Success((st', []))
  {
    DecodeClockFree(ev, parse := env.parse, n1 := n1, n2 := n2);
  }

  /** A cycle with the corrected decoder, which does not read the clock. */
  function FixedCycle(st: PollerState, download: Option<seq<Event>>, env: Env)
    : Result<(PollerState, seq<Effect>), CycleError>
  {
    var alerts :- match download
      case None => Failure(NetworkError)
      case Some(ev) =>
        match DecodeAlertsFixed(ev, env.parse)
        case Success(alerts) => Success(alerts)
        case Failure(e) => Failure(FeedError(e));
    Success(Decide(st, alerts, env))
  }

  /** With the corrected decoder a repeated download is always quiet: the
      second cycle over the same feed emits nothing and changes nothing,
      whatever the feed. */
  lemma FixedRepeatQuiet(st: PollerState, download: Option<seq<Event>>, env: Env)
    requires FixedCycle(st, download, env).Success?
    ensures var st' := FixedCycle(st, download, env).value.0;
      FixedCycle(st', download, env) == Success((st', []))
  {
  }
}
