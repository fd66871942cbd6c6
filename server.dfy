/** The server's entry points: the request router, which sends every
    request path to one handler, and the choice of the configuration
    directory at start-up. The router compares the whole path with a fixed
    list of paths, most of them under the configurable administration path,
    in order; the first equal one wins and anything else is file browsing. */
module Server {
  import opened Text
  import opened Utils

  /** The handler a request goes to. */
  datatype Route =
    | AdminConsole
    | SaveConfiguration
    | ChangePassword
    | NewUser
    | DeleteUser
    | NewPermission
    | NewPermissionForm
    | ChangePermission
    | DeletePermission
    | LoginAction
    | Favicon(fileName: string)
    | GenericBrowsing

  /** The administration actions, by what follows the administration path,
      in the order the router tries them. */
  const AdminActions: seq<(string, Route)> := [
    ("/save_config", SaveConfiguration),
    ("/change_password", ChangePassword),
    ("/new_user", NewUser),
    ("/delete_user", DeleteUser),
    ("/new_perm", NewPermission),
    ("/new_perm_form", NewPermissionForm),
    ("/change_perm", ChangePermission),
    ("/delete_perm", DeletePermission)
  ]

  /** The icon files served from memory under "/" + their name, in the
      order the router tries them. */
  const FaviconFiles: seq<string> :=
    ["favicon.ico", "favicon-32.png", "favicon-128.png", "favicon-180.png", "favicon-192.png"]

  /** The route table as a list of (path, route) cases. */
  function RouteTable(adminPath: string): (table: seq<(string, Route)>)
    ensures |table| == 1 + |AdminActions| + 1 + |FaviconFiles|
    ensures forall i :: 0 <= i < |table| ==> table[i].1 != GenericBrowsing
  {
    [("/" + adminPath, AdminConsole)]
    + seq(|AdminActions|, i requires 0 <= i < |AdminActions| =>
        ("/" + adminPath + AdminActions[i].0, AdminActions[i].1))
    + [("/login_action", LoginAction)]
    + seq(|FaviconFiles|, i requires 0 <= i < |FaviconFiles| =>
        ("/" + FaviconFiles[i], Favicon(FaviconFiles[i])))
  }

  /** The cases in the order of the switch: the console, the eight
      actions, the login action, the five icons. */
  lemma RouteTableCases(adminPath: string)
    ensures var table := RouteTable(adminPath);
      && table[0] == ("/" + adminPath, AdminConsole)
      && (forall i :: 0 <= i < |AdminActions| ==>
            table[1 + i] == ("/" + adminPath + AdminActions[i].0, AdminActions[i].1))
      && table[1 + |AdminActions|] == ("/login_action", LoginAction)
      && (forall i :: 0 <= i < |FaviconFiles| ==>
            table[2 + |AdminActions| + i] == ("/" + FaviconFiles[i], Favicon(FaviconFiles[i])))
  {
  }

  /** The route of the first case whose path equals `path`; browsing when
      none does. */
  function FirstMatch(table: seq<(string, Route)>, path: string): (r: Route)
    ensures r == GenericBrowsing || exists i :: 0 <= i < |table| && table[i].0 == path && table[i].1 == r
    ensures (forall i :: 0 <= i < |table| ==> table[i].0 != path) ==> r == GenericBrowsing
  {
    if table == [] then GenericBrowsing
    else if table[0].0 == path then table[0].1
    else FirstMatch(table[1..], path)
  }

  /** The first case whose path is equal decides. */
  lemma {:induction false} FirstMatchAt(table: seq<(string, Route)>, path: string, i: nat)
    requires i < |table| && table[i].0 == path
    requires forall j :: 0 <= j < i ==> table[j].0 != path
    ensures FirstMatch(table, path) == table[i].1
  {
    if i > 0 {
      FirstMatchAt(table[1..], path, i - 1);
    }
  }

  /** httpGenaralHandler: the switch on the request path, whose cases are
      tried in the order of the route table. */
  function Dispatch(path: string, adminPath: string): (r: Route)
    ensures r != GenericBrowsing ==>
      exists i :: 0 <= i < |RouteTable(adminPath)| && RouteTable(adminPath)[i] == (path, r)
    ensures (forall i :: 0 <= i < |RouteTable(adminPath)| ==> RouteTable(adminPath)[i].0 != path) ==>
      r == GenericBrowsing
  {
    FirstMatch(RouteTable(adminPath), path)
  }

  /** A path made of a single segment: one leading '/' and no other. */
  predicate SingleSegment(p: string)
  {
    |p| >= 1 && p[0] == '/' && '/' !in p[1..]
  }

  /** Every administration action path has two segments. */
  lemma AdminActionPathsHaveTwoSegments(adminPath: string, action: string)
    requires |action| >= 1 && action[0] == '/'
    ensures !SingleSegment("/" + adminPath + action)
  {
    var p := "/" + adminPath + action;
    assert p[1..][|adminPath|] == '/';
  }

  /** No single-segment path is an administration action path. */
  lemma SingleSegmentIsNoAction(adminPath: string, p: string)
    requires SingleSegment(p)
    ensures forall j :: 1 <= j <= |AdminActions| ==> RouteTable(adminPath)[j].0 != p
  {
    forall j | 1 <= j <= |AdminActions|
      ensures RouteTable(adminPath)[j].0 != p
    {
      AdminActionPathsHaveTwoSegments(adminPath, AdminActions[j - 1].0);
    }
  }

  /** Two different action names give two different paths. */
  lemma ActionPathsDiffer(adminPath: string, a: string, b: string)
    requires a != b
    ensures "/" + adminPath + a != "/" + adminPath + b
  {
    var prefix := "/" + adminPath;
    assert (prefix + a)[|prefix|..] == a;
    assert (prefix + b)[|prefix|..] == b;
  }

  /** The administration path reaches the console, and each action name
      under it reaches its own action, whatever the administration path. */
  lemma AdminRoutes(adminPath: string, i: nat)
    requires i < |AdminActions|
    ensures Dispatch("/" + adminPath, adminPath) == AdminConsole
    ensures Dispatch("/" + adminPath + AdminActions[i].0, adminPath) == AdminActions[i].1
  {
    var t := RouteTable(adminPath);
    var p := "/" + adminPath + AdminActions[i].0;
    assert t[i + 1] == (p, AdminActions[i].1);
    forall j | 0 <= j < i + 1
      ensures t[j].0 != p
    {
      if j == 0 {
        assert |t[j].0| < |p|;
      } else {
        assert t[j].0 == "/" + adminPath + AdminActions[j - 1].0;
        ActionPathsDiffer(adminPath, AdminActions[j - 1].0, AdminActions[i].0);
      }
    }
    FirstMatchAt(t, p, i + 1);
  }

  /** "/login_action" reaches the login action unless the administration
      path is "login_action" itself, in which case the console shadows it. */
  lemma LoginRoute(adminPath: string)
    ensures Dispatch("/login_action", adminPath) == LoginAction <==> adminPath != "login_action"
  {
    var t := RouteTable(adminPath);
    var p := "/login_action";
    assert SingleSegment(p);
    if adminPath == "login_action" {
      FirstMatchAt(t, p, 0);
    } else {
      assert t[0].0 != p by {
        assert t[0].0[1..] == adminPath;
        assert p[1..] == "login_action";
      }
      SingleSegmentIsNoAction(adminPath, p);
      FirstMatchAt(t, p, 9);
    }
  }

  /** Each icon path serves its icon unless the administration path is the
      icon's file name, in which case the console shadows it. */
  lemma FaviconRoute(adminPath: string, i: nat)
    requires i < |FaviconFiles|
    ensures Dispatch("/" + FaviconFiles[i], adminPath) == Favicon(FaviconFiles[i]) <==>
      adminPath != FaviconFiles[i]
  {
    var t := RouteTable(adminPath);
    var f := FaviconFiles[i];
    var p := "/" + f;
    if adminPath == f {
      FirstMatchAt(t, p, 0);
    } else {
      assert t[0].0 != p by {
        assert t[0].0[1..] == adminPath;
        assert p[1..] == f;
      }
      assert SingleSegment(p) by {
        assert p[1..] == f;
        assert '/' !in f;
      }
      SingleSegmentIsNoAction(adminPath, p);
      assert t[10 + i] == (p, Favicon(f));
      forall j | 10 <= j < 10 + i
        ensures t[j].0 != p
      {
        var g := FaviconFiles[j - 10];
        assert t[j].0 == "/" + g;
        assert g != f;
        assert ("/" + g)[1..] == g;
        assert p[1..] == f;
      }
      FirstMatchAt(t, p, 10 + i);
    }
  }

  /** A path goes to file browsing exactly when it equals none of the paths
      of the route table. */
  lemma BrowsingRoute(path: string, adminPath: string)
    ensures Dispatch(path, adminPath) == GenericBrowsing <==>
      forall i :: 0 <= i < |RouteTable(adminPath)| ==> RouteTable(adminPath)[i].0 != path
  {
    var t := RouteTable(adminPath);
    if exists i :: 0 <= i < |t| && t[i].0 == path {
      var i := FirstIndex(t, path);
      FirstMatchAt(t, path, i);
      assert t[i].1 != GenericBrowsing;
    }
  }

  /** The index of the first case whose path equals `path`. */
  lemma FirstIndex(table: seq<(string, Route)>, path: string) returns (i: nat)
    requires exists i :: 0 <= i < |table| && table[i].0 == path
    ensures i < |table| && table[i].0 == path
    ensures forall j :: 0 <= j < i ==> table[j].0 != path
  {
    i := 0;
    while table[i].0 != path
      invariant i < |table|
      invariant forall j :: 0 <= j < i ==> table[j].0 != path
      invariant exists k :: i <= k < |table| && table[k].0 == path
      decreases |table| - i
    {
      i := i + 1;
    }
  }

  // ---------------------------------------------------------------------------
  // The configuration directory
  // ---------------------------------------------------------------------------

  /** A directory path with backslashes turned into '/' and all trailing
      '/' removed. */
  function NormalizeDir(s: string): (r: string)
    ensures |r| <= |s|
    ensures '\\' !in r
    ensures r == [] || r[|r| - 1] != '/'
    ensures forall i :: 0 <= i < |r| ==> r[i] == (if s[i] == '\\' then '/' else s[i])
    ensures forall i :: |r| <= i < |s| ==> s[i] == '/' || s[i] == '\\'
  {
    TrimRight(BackToForwardSlashes(s), {'/'})
  }

  /** Normalising a normalised directory changes nothing. */
  lemma NormalizeDirIdempotent(s: string)
    ensures NormalizeDir(NormalizeDir(s)) == NormalizeDir(s)
  {
    var r := NormalizeDir(s);
    assert BackToForwardSlashes(r) == r;
    TrimmedIdempotent(r, BackToForwardSlashes(s), {'/'});
    TrimmedUnique(TrimRight(r, {'/'}), r, r, {'/'});
  }

  /** The conversion and the trimming loop of the start-up code. */
  method TrimDirectory(s: string) returns (r: string)
    ensures r == NormalizeDir(s)
  {
    r := BackToForwardSlashes(s);
    r := TrimTrailing(r, {'/'});
  }

  /** main: without -c the configuration lives in "settings" beside the
      executable (its directory with '/' separators); a directory given with
      -c is normalised. */
  method ConfigDirectory(flagValue: string, executableDir: string) returns (configpath: string, userDefined: bool)
    ensures userDefined <==> flagValue != ""
    ensures !userDefined ==> configpath == BackToForwardSlashes(executableDir) + "/settings"
    ensures userDefined ==> configpath == NormalizeDir(flagValue)
  {
    if flagValue == "" {
      userDefined := false;
      configpath := BackToForwardSlashes(executableDir) + "/settings";
    } else {
      userDefined := true;
      configpath := TrimDirectory(flagValue);
    }
  }
}
