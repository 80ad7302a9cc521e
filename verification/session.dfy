/** The browser store as the login screen and the dashboard use it: the guest flag and
    expiry written at login, the once-a-second countdown that reads them, and the
    clearing done on logout and on expiry. Clock readings are parameters. */
module Session {
  import opened Wrappers
  import opened Numbers

  /** The local key-value store. */
  type Store = map<string, string>

  const GuestKey := "guest"
  const ExpiryKey := "guestExpiry"

  /** A guest session lasts two minutes, in milliseconds. */
  const GuestMillis := 2 * 60 * 1000

  /** "/", "/dashboard". */
  datatype Route = Entry | DashboardPage

  /** The store after a handler ran, and where it navigated. */
  datatype Outcome = Outcome(store: Store, route: Route)

  /** Guest login: flag the session and record when it ends. */
  function GuestLogin(store: Store, now: int): (r: Outcome)
    ensures r.route == DashboardPage
    ensures r.store.Keys == store.Keys + {GuestKey, ExpiryKey}
    ensures r.store[GuestKey] == "true"
    ensures ParseInt(r.store[ExpiryKey]) == Some(now + GuestMillis)
    ensures forall k :: k in store && k != GuestKey && k != ExpiryKey ==> r.store[k] == store[k]
  {
    var expiry := now + GuestMillis;
    ParseIntRoundTrip(expiry);
    Outcome(MarkGuest(store, IntToString(expiry)), DashboardPage)
  }

  /** The two guest entries written over `store`. */
  function MarkGuest(store: Store, expiry: string): (m: Store)
    ensures m.Keys == store.Keys + {GuestKey, ExpiryKey}
    ensures m[GuestKey] == "true" && m[ExpiryKey] == expiry
    ensures forall k :: k in store && k != GuestKey && k != ExpiryKey ==> m[k] == store[k]
  {
    store[GuestKey := "true"][ExpiryKey := expiry]
  }

  /** Login with credentials: drop any guest marker, keep everything else. */
  function CredentialLogin(store: Store): (r: Outcome)
    ensures r.route == DashboardPage
    ensures r.store.Keys == store.Keys - {GuestKey, ExpiryKey}
    ensures forall k :: k in r.store ==> r.store[k] == store[k]
  {
    Outcome(store - {GuestKey, ExpiryKey}, DashboardPage)
  }

  /** Logout, and the end of an expired guest session: empty the store, go to the entry page. */
  function ClearSession(store: Store): (r: Outcome)
    ensures r.route == Entry
    ensures forall k :: k !in r.store
  {
    Outcome(map[], Entry)
  }

  /** The expiry text the dashboard finds on mount, if the store holds a guest session;
      the dashboard starts its countdown only then. */
  function ArmedExpiry(store: Store): (r: Option<string>)
    ensures r.Some? <==>
      GuestKey in store && store[GuestKey] == "true" && ExpiryKey in store && store[ExpiryKey] != ""
    ensures r.Some? ==> r.value == store[ExpiryKey]
  {
    if GuestKey in store && store[GuestKey] == "true" && ExpiryKey in store && store[ExpiryKey] != ""
    then Some(store[ExpiryKey])
    else None
  }

  /** One reading of the countdown. `NotANumber` is what an unparsable expiry yields:
      `NaN <= 0` is false, so such a session never expires. */
  datatype Countdown = Expired | Remaining(seconds: nat) | NotANumber

  function Tick(expiry: string, now: int): (r: Countdown)
    ensures r.NotANumber? <==> ParseInt(expiry).None?
    ensures r.Expired? <==> ParseInt(expiry).Some? && ParseInt(expiry).value <= now
    ensures r.Remaining? ==>
      var left := ParseInt(expiry).value - now;
      1000 * r.seconds <= left < 1000 * (r.seconds + 1)
  {
    match ParseInt(expiry)
    case None => NotANumber
    case Some(end) =>
      var remaining := end - now;
      if remaining <= 0 then Expired else Remaining(remaining / 1000)
  }

  /** The "Xm Ys" rendering of the seconds left. */
  function Clock(seconds: nat): (r: (nat, nat))
    ensures 60 * r.0 + r.1 == seconds && r.1 < 60
  {
    (seconds / 60, seconds % 60)
  }

  /** The banner: nothing yet, a number of seconds, or `NaN`. */
  datatype Display = Hidden | Shows(seconds: nat) | ShowsNaN

  /** The dashboard's guest watch: `expiry` is `Some` while the interval runs. */
  datatype Watch = Watch(expiry: Option<string>, display: Display, alert: bool)

  function Mount(store: Store): (w: Watch)
    ensures w.expiry == ArmedExpiry(store)
    ensures w.display == Hidden && !w.alert
  {
    Watch(ArmedExpiry(store), Hidden, false)
  }

  /** One interval callback at time `now`. On expiry the interval stops and the alert
      shows; three seconds later the dashboard runs `ClearSession`. */
  function Step(w: Watch, now: int): (r: Watch)
    ensures w.expiry.None? ==> r == w
    ensures w.expiry.Some? && Tick(w.expiry.value, now).Expired? ==>
      r.expiry.None? && r.alert && r.display == w.display
    ensures w.expiry.Some? && !Tick(w.expiry.value, now).Expired? ==>
      r.expiry == w.expiry && r.alert == w.alert && r.display != Hidden
  {
    match w.expiry
    case None => w
    case Some(e) =>
      match Tick(e, now)
      case Expired => w.(expiry := None, alert := true)
      case Remaining(s) => w.(display := Shows(s))
      case NotANumber => w.(display := ShowsNaN)
  }

  /** Once expiry has fired, later callbacks change nothing: it fires at most once. */
  lemma ExpiryFiresOnce(w: Watch, now: int, later: int)
    requires !w.alert && Step(w, now).alert
    ensures Step(Step(w, now), later) == Step(w, now)
  {
  }

  /** A fresh guest session shows the time left before two minutes have passed and
      expires from then on. */
  lemma GuestSessionTimeline(store: Store, now: int, later: int)
    ensures var w := Mount(GuestLogin(store, now).store);
      && w.expiry.Some?
      && (later < now + GuestMillis ==>
            Step(w, later) == w.(display := Shows((now + GuestMillis - later) / 1000)))
      && (later >= now + GuestMillis ==> Step(w, later) == w.(expiry := None, alert := true))
  {
  }

  /** After a credentialed login or a clear, the dashboard runs no countdown. */
  lemma NoCountdownWithoutGuest(store: Store)
    ensures Mount(CredentialLogin(store).store).expiry.None?
    ensures Mount(ClearSession(store).store).expiry.None?
  {
  }
}
