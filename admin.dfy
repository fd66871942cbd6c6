/** The server's global state and the administration actions on it. The
    three tables (general configuration, users with their password digests,
    and private directories with their comma-separated user lists) and the
    restart flag live in one AppState object. Every action first reads the
    logged user from the session and checks the user against the
    comma-separated "admin_users" entry; a caller who is not an
    administrator changes nothing. */
module Admin {
  import opened Wrappers
  import opened Text
  import opened Utils
  import opened Sessions

  /** The values submitted for one form key. Parsing never yields a key
      without a value, so there is always a first one, the one the actions
      use. */
  datatype Values = Values(first: string, more: seq<string>)

  /** A parsed request form: every submitted key with its values. */
  type Form = map<string, Values>

  /** The value the action loops pick up for `key`: its first value, or ""
      when the key was not submitted. */
  function FormValue(form: Form, key: string): string
  {
    if key in form then form[key].first else ""
  }

  /** The loop "for k, v := range form { if k == key { u = v[0] } }". */
  method FormField(form: Form, key: string) returns (u: string)
    ensures u == FormValue(form, key)
  {
    u := "";
    var todo := form.Keys;
    while todo != {}
      invariant todo <= form.Keys
      invariant u == if key in form && key !in todo then form[key].first else ""
      decreases |todo|
    {
      var k :| k in todo;
      if k == key {
        u := form[k].first;
      }
      todo := todo - {k};
    }
  }

  /** The loop that picks two fields at once ("if k == a { u = v[0] } else
      if k == b { p = v[0] }"), for two different field names. */
  method FormFields(form: Form, a: string, b: string) returns (u: string, p: string)
    requires a != b
    ensures u == FormValue(form, a)
    ensures p == FormValue(form, b)
  {
    u, p := "", "";
    var todo := form.Keys;
    while todo != {}
      invariant todo <= form.Keys
      invariant u == if a in form && a !in todo then form[a].first else ""
      invariant p == if b in form && b !in todo then form[b].first else ""
      decreases |todo|
    {
      var k :| k in todo;
      if k == a {
        u := form[k].first;
      } else if k == b {
        p := form[k].first;
      }
      todo := todo - {k};
    }
  }

  /** The administrator test: the user is one of the comma-separated names
      of the "admin_users" entry (a missing entry reads as ""). */
  predicate IsAdmin(configuration: map<string, string>, username: string)
    ensures IsAdmin(configuration, username) ==> ',' !in username
  {
    username in Split(Lookup(configuration, "admin_users"), ',')
  }

  /** The first value of every submitted key. */
  function FirstValues(form: Form): (r: map<string, string>)
    ensures r.Keys == form.Keys
    ensures forall k :: k in form ==> r[k] == form[k].first
  {
    map k | k in form :: form[k].first
  }

  /** The configuration after the save action: every submitted key takes its
      first submitted value; every other key is kept. */
  function ApplyForm(configuration: map<string, string>, form: Form): map<string, string> {
    configuration + FirstValues(form)
  }

  /** The first values of the keys the save loop has already visited. */
  function Written(form: Form, todo: set<string>): (r: map<string, string>)
    ensures r.Keys == form.Keys - todo
  {
    map k | k in form && k !in todo :: form[k].first
  }

  /** Visiting one more key writes its first value. */
  lemma WrittenStep(configuration: map<string, string>, form: Form, todo: set<string>, k: string)
    requires k in todo && todo <= form.Keys
    ensures (configuration + Written(form, todo))[k := form[k].first] == configuration + Written(form, todo - {k})
  {
  }

  /** The loop of the save action, "for k, v := range form {
      configuration[k] = v[0] }", on the configuration it updates. */
  method WriteForm(configuration: map<string, string>, form: Form) returns (updated: map<string, string>)
    ensures updated == configuration + FirstValues(form)
  {
    updated := configuration;
    var todo := form.Keys;
    assert Written(form, todo) == map[];
    while todo != {}
      invariant todo <= form.Keys
      invariant updated == configuration + Written(form, todo)
      decreases |todo|
    {
      var k :| k in todo;
      WrittenStep(configuration, form, todo, k);
      updated := updated[k := form[k].first];
      todo := todo - {k};
    }
    assert Written(form, {}) == FirstValues(form);
  }

  /** The save action writes exactly the submitted keys, with their first
      values, and keeps every other key. */
  lemma ApplyFormWritesSubmitted(configuration: map<string, string>, form: Form)
    ensures ApplyForm(configuration, form).Keys == configuration.Keys + form.Keys
    ensures forall k :: k in form ==> ApplyForm(configuration, form)[k] == form[k].first
    ensures forall k :: k in configuration && k !in form ==> ApplyForm(configuration, form)[k] == configuration[k]
  {
  }

  /** The global tables of the server and the restart flag. */
  class AppState {
    var configuration: map<string, string>
    var users: map<string, string>
    var permissions: map<string, string>
    var restartNeeded: bool

    /** The state right after the tables are loaded at start-up. */
    constructor (configuration: map<string, string>, users: map<string, string>, permissions: map<string, string>)
      ensures this.configuration == configuration && this.users == users && this.permissions == permissions
      ensures !restartNeeded
    {
      this.configuration := configuration;
      this.users := users;
      this.permissions := permissions;
      restartNeeded := false;
    }

    /** The administrator loop of verifyLoggedUser. */
    method AdminFlag(username: string) returns (accessGranted: bool)
      ensures accessGranted <==> IsAdmin(configuration, username)
    {
      accessGranted := InCommaList(username, Lookup(configuration, "admin_users"));
    }

    /** websaveconfigurationaction */
    method SaveConfiguration(username: string, form: Form) returns (isAdmin: bool)
      modifies this
      ensures isAdmin <==> IsAdmin(old(configuration), username)
      ensures users == old(users) && permissions == old(permissions)
      ensures !isAdmin ==> configuration == old(configuration) && restartNeeded == old(restartNeeded)
      ensures isAdmin ==> configuration == ApplyForm(old(configuration), form) && restartNeeded
    {
      isAdmin := AdminFlag(username);
      if isAdmin {
        configuration := WriteForm(configuration, form);
        restartNeeded := true;
      }
    }

    /** The update shared by the new-user and change-password actions: a
        user with a non-empty name and password gets the password's digest,
        whether or not the user exists. */
    method PutUser(u: string, p: string, hash: HashFn)
      modifies this
      ensures configuration == old(configuration) && permissions == old(permissions)
      ensures restartNeeded == old(restartNeeded)
      ensures u != "" && p != "" ==> users == old(users)[u := hash(p)]
      ensures !(u != "" && p != "") ==> users == old(users)
    {
      if u != "" && p != "" {
        users := users[u := hash(p)];
      }
    }

    /** webchangepasswordaction */
    method ChangePassword(username: string, form: Form, hash: HashFn) returns (isAdmin: bool)
      modifies this
      ensures isAdmin <==> IsAdmin(old(configuration), username)
      ensures configuration == old(configuration) && permissions == old(permissions)
      ensures restartNeeded == old(restartNeeded)
      ensures
        var u, p := FormValue(form, "change_password_usr"), FormValue(form, "change_password_pwd");
        users == if isAdmin && u != "" && p != "" then old(users)[u := hash(p)] else old(users)
    {
      isAdmin := AdminFlag(username);
      if isAdmin {
        var u, p := FormFields(form, "change_password_usr", "change_password_pwd");
        PutUser(u, p, hash);
      }
    }

    /** webnewuseraction: an existing user is overwritten. */
    method NewUser(username: string, form: Form, hash: HashFn) returns (isAdmin: bool)
      modifies this
      ensures isAdmin <==> IsAdmin(old(configuration), username)
      ensures configuration == old(configuration) && permissions == old(permissions)
      ensures restartNeeded == old(restartNeeded)
      ensures
        var u, p := FormValue(form, "new_user_usr"), FormValue(form, "new_user_pwd");
        users == if isAdmin && u != "" && p != "" then old(users)[u := hash(p)] else old(users)
    {
      isAdmin := AdminFlag(username);
      if isAdmin {
        var u, p := FormFields(form, "new_user_usr", "new_user_pwd");
        PutUser(u, p, hash);
      }
    }

    /** webdeleteuseraction: deleting a missing user changes nothing. */
    method DeleteUser(username: string, form: Form) returns (isAdmin: bool)
      modifies this
      ensures isAdmin <==> IsAdmin(old(configuration), username)
      ensures configuration == old(configuration) && permissions == old(permissions)
      ensures restartNeeded == old(restartNeeded)
      ensures
        var u := FormValue(form, "delete_user_usr");
        users == if isAdmin && u != "" then old(users) - {u} else old(users)
    {
      isAdmin := AdminFlag(username);
      if isAdmin {
        var u := FormField(form, "delete_user_usr");
        if u != "" {
          users := users - {u};
        }
      }
    }

    /** The update shared by the new-permission and change-permission
        actions: a non-empty path gets a non-empty user list, replacing any
        list it had. */
    method PutPermission(path: string, ulist: string)
      modifies this
      ensures configuration == old(configuration) && users == old(users)
      ensures restartNeeded == old(restartNeeded)
      ensures path != "" && ulist != "" ==> permissions == old(permissions)[path := ulist]
      ensures !(path != "" && ulist != "") ==> permissions == old(permissions)
    {
      if path != "" && ulist != "" {
        permissions := permissions[path := ulist];
      }
    }

    /** webnewpermaction */
    method NewPermission(username: string, form: Form) returns (isAdmin: bool)
      modifies this
      ensures isAdmin <==> IsAdmin(old(configuration), username)
      ensures configuration == old(configuration) && users == old(users)
      ensures restartNeeded == old(restartNeeded)
      ensures
        var path, ulist := FormValue(form, "new_perm_path"), FormValue(form, "new_perm_userlist");
        permissions == if isAdmin && path != "" && ulist != "" then old(permissions)[path := ulist] else old(permissions)
    {
      isAdmin := AdminFlag(username);
      if isAdmin {
        var path, ulist := FormFields(form, "new_perm_path", "new_perm_userlist");
        PutPermission(path, ulist);
      }
    }

    /** webchangepermaction */
    method ChangePermission(username: string, form: Form) returns (isAdmin: bool)
      modifies this
      ensures isAdmin <==> IsAdmin(old(configuration), username)
      ensures configuration == old(configuration) && users == old(users)
      ensures restartNeeded == old(restartNeeded)
      ensures
        var path, ulist := FormValue(form, "change_perm_path"), FormValue(form, "change_perm_userlist");
        permissions == if isAdmin && path != "" && ulist != "" then old(permissions)[path := ulist] else old(permissions)
    {
      isAdmin := AdminFlag(username);
      if isAdmin {
        var path, ulist := FormFields(form, "change_perm_path", "change_perm_userlist");
        PutPermission(path, ulist);
      }
    }

    /** webdeleteperm */
    method DeletePermission(username: string, form: Form) returns (isAdmin: bool)
      modifies this
      ensures isAdmin <==> IsAdmin(old(configuration), username)
      ensures configuration == old(configuration) && users == old(users)
      ensures restartNeeded == old(restartNeeded)
      ensures
        var path := FormValue(form, "delete_perm_path");
        permissions == if isAdmin && path != "" then old(permissions) - {path} else old(permissions)
    {
      isAdmin := AdminFlag(username);
      if isAdmin {
        var path := FormField(form, "delete_perm_path");
        if path != "" {
          permissions := permissions - {path};
        }
      }
    }
  }

  /** verifyLoggedUser: the user name stored in the session the cookie
      names ("" when there is none, or for a new session), with the session
      renewed and saved, and the administrator flag. */
  method VerifyLoggedUser(app: AppState, store: SessionStore, cookie: Option<string>, now: int, draws: seq<int>)
    returns (username: string, isAdmin: bool, sent: Option<Cookie>)
    requires store.Valid()
    requires |draws| == 32 && forall i :: 0 <= i < 32 ==> 0 <= draws[i] < 256
    modifies store
    ensures store.Valid()
    ensures isAdmin <==> IsAdmin(app.configuration, username)
    ensures sent.Some? && sent.value.name == SessionCookieName && sent.value.expires == now + SessionLifetime
    ensures sent.value.value in store.sessions && store.sessions[sent.value.value].expiry == now + SessionLifetime
    ensures cookie.Some? && cookie.value in Swept(old(store.sessions), now) ==>
      && sent.value.value == cookie.value
      && username == Lookup(old(store.sessions)[cookie.value].items.entries, "username")
    ensures !(cookie.Some? && cookie.value in Swept(old(store.sessions), now)) ==> username == ""
  {
    var session := store.GetSession(cookie, now, draws);
    username := session.Get("username", now);
    sent := session.Save(store);
    isAdmin := app.AdminFlag(username);
  }

  // ---------------------------------------------------------------------------
  // Properties of the administrator test
  // ---------------------------------------------------------------------------

  /** With a list of comma-free names, exactly the listed names are
      administrators. */
  lemma AdminsAreTheListed(configuration: map<string, string>, admins: seq<string>, username: string)
    requires |admins| >= 1 && forall i :: 0 <= i < |admins| ==> ',' !in admins[i]
    requires "admin_users" in configuration && configuration["admin_users"] == Join(admins, ',')
    ensures IsAdmin(configuration, username) <==> username in admins
  {
    SplitJoin(admins, ',');
  }

  /** An empty or missing administrator list makes the anonymous user, and
      only the anonymous user, an administrator. */
  lemma EmptyAdminListAdmitsAnonymous(configuration: map<string, string>, username: string)
    requires Lookup(configuration, "admin_users") == ""
    ensures IsAdmin(configuration, username) <==> username == ""
  {
    assert Split("", ',') == [""];
  }

  /** Saving a configuration that submits "admin_users" decides who the
      administrators are from then on. */
  lemma SavedAdminList(configuration: map<string, string>, form: Form, username: string)
    requires "admin_users" in form
    ensures IsAdmin(ApplyForm(configuration, form), username) <==> username in Split(form["admin_users"].first, ',')
  {
  }
}
