/** The two login handlers: the login form, shown in place of a page the
    visitor may not see, and the login action the form posts to. Both refuse
    a banned client IP before doing anything else. The action looks the user
    up in the user table and compares the stored digest with the digest of
    the submitted password; a match stores the user name in the session, a
    mismatch records a failed login for the client IP. Either way the answer
    is a countdown page that redirects to the submitted URL. */
module Login {
  import opened Wrappers
  import opened Text
  import opened Utils
  import opened Sessions
  import opened BruteForce
  import opened Admin

  /** The message a banned IP gets instead of a page. */
  const ErrBannedIP: string := "too many failed logins; try again later"

  /** How the form names the visitor who is not logged in. */
  const AnonymousLabel: string := "<i>anonymous</i>"

  /** Length of the cache-busting id appended to links. */
  const NoCacheIdLength: nat := 10

  /** Length of the random key a failed login is recorded under. */
  const RandomKeyLength: nat := 10

  /** What the login form handler writes: the ban message, or the form with
      the current user's name and the URL the form sends the visitor back
      to, followed by "?nonache=" and a random id. */
  datatype FormPage =
    | Refused(message: string)
    | LoginForm(currentUser: string, target: string, nonce: string)

  /** What the login action writes: the ban message, or the countdown page
      that redirects to `url`. */
  datatype ActionPage =
    | ActionRefused(message: string)
    | Countdown(url: string)

  /** The runes RandomId produces from `draws`. */
  predicate DrawnFrom(id: string, draws: seq<int>)
  {
    && |id| == |draws|
    && forall i :: 0 <= i < |draws| ==> 0 <= draws[i] < |IdAlphabet| && id[i] == IdAlphabet[draws[i]]
  }

  /** Where the form sends the visitor after logging in: the request path
      without its trailing slashes, or "/" when nothing else is left. */
  function RedirectTarget(path: string): (r: string)
    ensures r != ""
    ensures r == "/" <==> forall i :: 0 <= i < |path| ==> path[i] == '/'
    ensures r != "/" ==> TrimmedOf(r, path, {'/'}) && r[|r| - 1] != '/'
  {
    var t := TrimRight(path, {'/'});
    if t == "" then "/" else t
  }

  /** The redirect loop of the form handler and its "" -> "/" fallback. */
  method RedirectUrl(path: string) returns (url: string)
    ensures url == RedirectTarget(path)
  {
    url := TrimTrailing(path, {'/'});
    if url == "" {
      url := "/";
    }
  }

  /** The name the form shows for the logged user. */
  function DisplayName(username: string): (r: string)
    ensures r != ""
    ensures r == AnonymousLabel <==> username == "" || username == AnonymousLabel
    ensures r != AnonymousLabel ==> r == username
  {
    if username == "" then AnonymousLabel else username
  }

  /** webloginform: a client whose IP is banned gets the ban message (the
      ban check also sweeps the failure log); an empty IP skips the check.
      Otherwise the form is shown for `username`, posting back to the
      request path. */
  method ShowLoginForm(guard: Guard, ip: string, now: int, path: string, username: string,
                       nonceDraws: seq<int>)
    returns (page: FormPage)
    requires |nonceDraws| == NoCacheIdLength
    requires forall i :: 0 <= i < NoCacheIdLength ==> 0 <= nonceDraws[i] < |IdAlphabet|
    modifies guard
    ensures ip == "" ==> guard.accessLog == old(guard.accessLog)
    ensures ip != "" ==> guard.accessLog == Cleaned(old(guard.accessLog), now)
    ensures ip != "" && IsBanned(old(guard.accessLog), ip, now) ==> page == Refused(ErrBannedIP)
    ensures !(ip != "" && IsBanned(old(guard.accessLog), ip, now)) ==>
      && page.LoginForm?
      && page.currentUser == DisplayName(username)
      && page.target == RedirectTarget(path)
      && DrawnFrom(page.nonce, nonceDraws)
  {
    if ip != "" {
      var banned := guard.Banned(ip, now);
      if banned {
        return Refused(ErrBannedIP);
      }
    }
    var target := RedirectUrl(path);
    var currentUsername := username;
    if currentUsername == "" {
      currentUsername := AnonymousLabel;
    }
    var nonce := RandomId(NoCacheIdLength, nonceDraws);
    page := LoginForm(currentUsername, target, nonce);
  }

  /** The form loop of the login action: the first values of "username",
      "password" and "redirect_url", each "" when not submitted. */
  method LoginFields(form: Form) returns (user: string, pass: string, url: string)
    ensures user == FormValue(form, "username")
    ensures pass == FormValue(form, "password")
    ensures url == FormValue(form, "redirect_url")
  {
    user, pass, url := "", "", "";
    var todo := form.Keys;
    while todo != {}
      invariant todo <= form.Keys
      invariant user == if "username" in form && "username" !in todo then form["username"].first else ""
      invariant pass == if "password" in form && "password" !in todo then form["password"].first else ""
      invariant url == if "redirect_url" in form && "redirect_url" !in todo then form["redirect_url"].first else ""
      decreases |todo|
    {
      var k :| k in todo;
      if k == "username" {
        user := form[k].first;
      } else if k == "password" {
        pass := form[k].first;
      } else if k == "redirect_url" {
        url := form[k].first;
      }
      todo := todo - {k};
    }
  }

  /** The credential test: the digest stored for the user (a missing user
      reads as "") equals the digest of the submitted password. */
  predicate Authenticates(users: map<string, string>, hash: HashFn, user: string, pass: string)
  {
    Lookup(users, user) == hash(pass)
  }

  /** The ban test both handlers start with. */
  predicate Refuses(log: AccessLog, ip: string, now: int)
  {
    ip != "" && IsBanned(log, ip, now)
  }

  /** webloginaction. A refused IP changes nothing but the sweep of the
      failure log. Otherwise the submitted credentials are checked: on a
      match the session (loaded from the cookie or new) gets the user name
      and is saved; on a mismatch a failure is recorded for a non-empty IP
      under a key drawn by RandomId, and the log is swept once more by the
      ban check of the log line. The countdown page leads to the submitted
      redirect URL. */
  method LoginAction(app: AppState, guard: Guard, store: SessionStore, ip: string, form: Form,
                     hash: HashFn, cookie: Option<string>, now: int, draws: seq<int>, keyDraws: seq<int>)
    returns (page: ActionPage, loggedIn: bool, sent: Option<Cookie>, failKey: string)
    requires store.Valid()
    requires |draws| == 32 && forall i :: 0 <= i < 32 ==> 0 <= draws[i] < 256
    requires |keyDraws| == RandomKeyLength
    requires forall i :: 0 <= i < RandomKeyLength ==> 0 <= keyDraws[i] < |IdAlphabet|
    modifies guard, store, store.ItemObjects()
    ensures store.Valid()
    ensures Refuses(old(guard.accessLog), ip, now) ==>
      && page == ActionRefused(ErrBannedIP) && !loggedIn && sent == None && failKey == ""
      && guard.accessLog == Cleaned(old(guard.accessLog), now)
      && store.sessions == old(store.sessions)
    ensures !Refuses(old(guard.accessLog), ip, now) ==>
      && page == Countdown(FormValue(form, "redirect_url"))
      && (loggedIn <==> Authenticates(app.users, hash, FormValue(form, "username"), FormValue(form, "password")))
    ensures loggedIn ==>
      && failKey == ""
      && guard.accessLog == (if ip != "" then Cleaned(old(guard.accessLog), now) else old(guard.accessLog))
      && sent.Some? && sent.value.name == SessionCookieName
      && sent.value.value in store.sessions
      && store.sessions[sent.value.value].expiry == now + SessionLifetime
      && Lookup(store.sessions[sent.value.value].items.entries, "username") == FormValue(form, "username")
      && store.sessions == Swept(old(store.sessions), now)[sent.value.value := store.sessions[sent.value.value]]
      && (cookie.Some? && cookie.value in Swept(old(store.sessions), now) ==>
            && sent.value.value == cookie.value
            && store.sessions[cookie.value].items.entries ==
               old(store.sessions[cookie.value].items.entries)["username" := FormValue(form, "username")])
      && (!(cookie.Some? && cookie.value in Swept(old(store.sessions), now)) ==>
            store.sessions[sent.value.value].items.entries == map["username" := FormValue(form, "username")])
    ensures !loggedIn && page.Countdown? ==>
      && sent == None && store.sessions == old(store.sessions)
      && (ip != "" ==>
            && DrawnFrom(failKey, keyDraws)
            && guard.accessLog == Cleaned(Cleaned(old(guard.accessLog), now)[failKey := FailedAccess(ip, now)], now))
      && (ip == "" ==> failKey == "" && guard.accessLog == Cleaned(old(guard.accessLog), now))
  {
    sent, failKey, loggedIn := None, "", false;
    if ip != "" {
      var banned := guard.Banned(ip, now);
      if banned {
        return ActionRefused(ErrBannedIP), false, None, "";
      }
    }
    var user, pass, url := LoginFields(form);
    var hashedpass := hash(pass);
    if Lookup(app.users, user) == hashedpass {
      sent := StoreItem(store, cookie, "username", user, now, draws);
      loggedIn := true;
    } else {
      if ip != "" {
        failKey := RandomId(RandomKeyLength, keyDraws);
        guard.RecordFailedLogin(ip, now, failKey);
      }
      var _ := guard.Banned(ip, now);
    }
    page := Countdown(url);
  }

  // ---------------------------------------------------------------------------
  // Properties of the login action
  // ---------------------------------------------------------------------------

  /** A user name missing from the user table never authenticates, whatever
      the password: the missing entry reads as "" and no digest is empty. */
  lemma UnknownUserNeverAuthenticates(users: map<string, string>, hash: HashFn, user: string, pass: string)
    requires user !in users
    ensures !Authenticates(users, hash, user, pass)
  {
    DigestNeverEmpty(hash, pass);
  }

  /** A failed login from an IP, recorded under a key not in the swept log,
      raises the IP's in-window failure count by exactly one. */
  lemma FailedLoginCountsOnce(log: AccessLog, key: string, ip: string, now: int)
    requires key !in Cleaned(log, now)
    ensures FailCount(Cleaned(Cleaned(log, now)[key := FailedAccess(ip, now)], now), ip) ==
            FailCount(Cleaned(log, now), ip) + 1
  {
    CleanedIdempotent(log, now);
    RecordNowIsCounted(Cleaned(log, now), key, ip, now);
  }

  /** A failed login never lifts a ban, even when the drawn key collides with
      a stored record. */
  lemma FailedLoginKeepsBan(log: AccessLog, key: string, ip: string, now: int)
    requires IsBanned(log, ip, now)
    ensures IsBanned(Cleaned(log, now)[key := FailedAccess(ip, now)], ip, now)
  {
    CleanedIdempotent(log, now);
    RecordNeverUnbans(Cleaned(log, now), key, ip, now);
  }

  /** A successful login is seen by every later request within the session
      lifetime that presents the cookie the login sent: the logged user read
      from the session is the user who logged in. */
  method LoginThenVerify(app: AppState, guard: Guard, store: SessionStore, ip: string, form: Form,
                         hash: HashFn, cookie: Option<string>, now: int, later: int,
                         draws: seq<int>, keyDraws: seq<int>, laterDraws: seq<int>)
    returns (username: string)
    requires store.Valid()
    requires |draws| == 32 && forall i :: 0 <= i < 32 ==> 0 <= draws[i] < 256
    requires |laterDraws| == 32 && forall i :: 0 <= i < 32 ==> 0 <= laterDraws[i] < 256
    requires |keyDraws| == RandomKeyLength
    requires forall i :: 0 <= i < RandomKeyLength ==> 0 <= keyDraws[i] < |IdAlphabet|
    requires !Refuses(guard.accessLog, ip, now)
    requires Authenticates(app.users, hash, FormValue(form, "username"), FormValue(form, "password"))
    requires now <= later <= now + SessionLifetime
    modifies guard, store, store.ItemObjects()
    ensures username == FormValue(form, "username")
  {
    var page, loggedIn, sent, failKey := LoginAction(app, guard, store, ip, form, hash, cookie, now, draws, keyDraws);
    SavedSurvivesLifetime(store.sessions, sent.value.value, now, later);
    var isAdmin, sent';
    username, isAdmin, sent' := VerifyLoggedUser(app, store, Some(sent.value.value), later, laterDraws);
  }
}
