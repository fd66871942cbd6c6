/** The per-request decision of the generic browsing handler: the login
    shortcut, trimming of the web path and of the published root, the
    physical resource path, the not-found answer, the privacy check against
    the permission table (a raw prefix test with comma-separated user lists),
    the directory listing with private subdirectories hidden from the
    anonymous user, the parent link, and the choice between streaming a text
    file inline and sending any other file as a download.

    The filesystem is a parameter: a map from physical path to node. */
module Browsing {
  import opened Wrappers
  import opened Text

  /** Both separators count as trailing separators of a path. */
  const PathSeparators: set<char> := {'/', '\\'}

  /** What the filesystem says about a path that exists. The size of an
      entry is None when its information could not be read. */
  datatype Entry = Entry(name: string, isDir: bool, size: Option<int>)
  datatype Node = FileNode | DirNode(entries: seq<Entry>)

  /** A row of the listing for a subdirectory, marked [PRIVATE] when locked. */
  datatype DirRow = DirRow(name: string, locked: bool)
  /** A row of the listing for a file, with its size (0 when unreadable). */
  datatype FileRow = FileRow(name: string, size: int)

  datatype Outcome =
    | LoginForm
    | NotFound
    | Listing(title: string, parent: Option<string>, dirs: seq<DirRow>, files: seq<FileRow>,
              dirCount: nat, fileCount: nat, totalSize: int)
    | ServeInline(resourcePath: string, name: string)
    | Download(resourcePath: string, name: string)

  // ---------------------------------------------------------------------------
  // Paths
  // ---------------------------------------------------------------------------

  /** strings.ReplaceAll(s, "//", "/"): non-overlapping matches, left to right. */
  function CollapseSlashes(s: string): (r: string)
    ensures |r| <= |s|
    ensures r == [] <==> s == []
    ensures s != [] ==> r[0] == s[0]
    decreases |s|
  {
    if |s| < 2 then s
    else if s[0] == '/' && s[1] == '/' then "/" + CollapseSlashes(s[2..])
    else [s[0]] + CollapseSlashes(s[1..])
  }

  predicate NoDoubleSlash(s: string) {
    forall i :: 0 <= i < |s| - 1 ==> !(s[i] == '/' && s[i + 1] == '/')
  }

  /** A path without "//" is left as it is. */
  lemma {:induction false} CollapseWithoutDoubleSlash(s: string)
    requires NoDoubleSlash(s)
    ensures CollapseSlashes(s) == s
    decreases |s|
  {
    if |s| >= 2 {
      CollapseWithoutDoubleSlash(s[1..]);
      assert [s[0]] + s[1..] == s;
    }
  }

  /** The only "//" of s, if any, starts at p. */
  predicate OnlyDoubleSlashAt(s: string, p: nat) {
    forall i :: 0 <= i < |s| - 1 && i != p ==> !(s[i] == '/' && s[i + 1] == '/')
  }

  /** Dropping the first character moves the only "//" one place left. */
  lemma OnlyDoubleSlashAtTail(s: string, p: nat)
    requires 0 < p < |s| && OnlyDoubleSlashAt(s, p)
    ensures OnlyDoubleSlashAt(s[1..], p - 1)
  {
    var t := s[1..];
    forall i | 0 <= i < |t| - 1 && i != p - 1
      ensures !(t[i] == '/' && t[i + 1] == '/')
    {
      assert t[i] == s[i + 1] && t[i + 1] == s[i + 2];
    }
  }

  /** A leading "//" that is the only one collapses to a single '/'. */
  lemma CollapseLeadingDouble(s: string)
    requires |s| >= 2 && s[0] == '/' && s[1] == '/' && OnlyDoubleSlashAt(s, 0)
    ensures CollapseSlashes(s) == s[1..]
  {
    var t := s[2..];
    assert NoDoubleSlash(t) by {
      forall i | 0 <= i < |t| - 1
        ensures !(t[i] == '/' && t[i + 1] == '/')
      {
        assert t[i] == s[i + 2] && t[i + 1] == s[i + 3];
      }
    }
    CollapseWithoutDoubleSlash(t);
    assert s[1..] == "/" + t;
  }

  /** Removing position p of s is keeping s[0] and removing position p - 1
      of the rest. */
  lemma RemoveAtTail(s: string, p: nat)
    requires 0 < p < |s|
    ensures s[..p] + s[p + 1..] == [s[0]] + (s[1..][..p - 1] + s[1..][p..])
  {
    assert s[..p] == [s[0]] + s[1..][..p - 1];
    assert s[p + 1..] == s[1..][p..];
  }

  /** A path whose only "//" starts at p loses exactly the '/' at p. */
  lemma {:induction false} CollapseOneDouble(s: string, p: nat)
    requires p + 1 < |s| && s[p] == '/' && s[p + 1] == '/'
    requires OnlyDoubleSlashAt(s, p)
    ensures CollapseSlashes(s) == s[..p] + s[p + 1..]
    decreases p
  {
    if p == 0 {
      CollapseLeadingDouble(s);
    } else {
      OnlyDoubleSlashAtTail(s, p);
      CollapseOneDouble(s[1..], p - 1);
      RemoveAtTail(s, p);
    }
  }

  /** The physical path of a request: the trimmed root, a '/', and the
      trimmed web path, with "//" collapsed. */
  function ResourcePath(rootpath: string, httppath: string): (r: string)
    ensures 1 <= |r| <= |rootpath| + 1 + |httppath|
    ensures r[0] == if rootpath == [] then '/' else rootpath[0]
  {
    CollapseSlashes(rootpath + "/" + httppath)
  }

  /** For a trimmed root and a web path that starts with '/', neither holding
      "//", the resource path is the plain concatenation: the doubled slash
      between them collapses to one. */
  lemma ResourcePathJoins(rootpath: string, httppath: string)
    requires rootpath != [] && rootpath[|rootpath| - 1] != '/'
    requires httppath != [] && httppath[0] == '/'
    requires NoDoubleSlash(rootpath) && NoDoubleSlash(httppath)
    ensures ResourcePath(rootpath, httppath) == rootpath + httppath
  {
    var s := rootpath + "/" + httppath;
    var p := |rootpath|;
    forall i | 0 <= i < |s| - 1 && i != p
      ensures !(s[i] == '/' && s[i + 1] == '/')
    {
      if i < p - 1 {
        assert s[i] == rootpath[i] && s[i + 1] == rootpath[i + 1];
      } else if i == p - 1 {
        assert s[i] == rootpath[p - 1];
      } else {
        assert s[i] == httppath[i - p - 1] && s[i + 1] == httppath[i - p];
      }
    }
    CollapseOneDouble(s, p);
    assert s[..p] == rootpath;
    assert s[p + 1..] == httppath;
  }

  /** The link to the parent directory: the path up to its last '/', or "/"
      when the last '/' is at the start or absent. */
  function ParentPath(httppath: string): (parent: string)
    requires httppath != ""
    ensures '/' !in httppath[1..] ==> parent == "/"
    ensures '/' in httppath[1..] ==>
      && 0 < |parent| < |httppath| && parent == httppath[..|parent|]
      && httppath[|parent|] == '/' && '/' !in httppath[|parent| + 1..]
  {
    var i := LastIndex(httppath, '/');
    LastIndexPastFirst(httppath, '/');
    if i > 0 then httppath[..i] else "/"
  }

  /** The last index of c is past the first position exactly when c occurs
      after the first position. */
  lemma LastIndexPastFirst(s: string, c: char)
    requires s != []
    ensures LastIndex(s, c) > 0 <==> c in s[1..]
  {
  }

  /** The ".." link of a subdirectory listed under `parent` leads back to
      `parent`, or to "/" for a subdirectory of the root. */
  lemma ParentOfSubdirectory(parent: string, name: string)
    requires '/' !in name
    ensures ParentPath(parent + "/" + name) == (if parent == "" then "/" else parent)
  {
    var path := parent + "/" + name;
    assert path[|parent|] == '/';
    assert path[|parent| + 1..] == name;
    LastIndexAt(path, '/', |parent|);
    assert path[..|parent|] == parent;
  }

  /** The name a file is served under: what follows the last '/' of the
      web path. */
  function DownloadName(httppath: string): (name: string)
    ensures '/' !in name
    ensures HasSuffix(httppath, name)
  {
    httppath[LastIndex(httppath, '/') + 1..]
  }

  /** The handler takes the last piece of the path split on '/', which is
      that same name. */
  lemma DownloadNameIsLastPiece(httppath: string)
    ensures var s := Split(httppath, '/'); DownloadName(httppath) == s[|s| - 1]
  {
    SplitLastPiece(httppath, '/');
  }

  /** A download name never holds a directory part: for a path ending in
      "/" + name, it is name. */
  lemma DownloadNameOfChild(dir: string, name: string)
    requires '/' !in name
    ensures DownloadName(dir + "/" + name) == name
  {
    var path := dir + "/" + name;
    assert path[|dir| + 1..] == name;
    LastIndexAt(path, '/', |dir|);
  }

  /** The extensions, without their dot and in lower case, of the files
      written into the response, in the order the suffix tests run. */
  const InlineExtensions: seq<string> := ["html", "htm", "txt", "md", "log"]

  /** The extension test: text files are written into the response. The
      lower-cased name is tested against each inline suffix in turn; it is
      inline exactly when it has a dot and what follows its last dot is,
      ignoring case, one of the inline extensions. */
  predicate IsInline(name: string)
    ensures IsInline(name) <==>
      '.' in name && ToLower(name[LastIndex(name, '.') + 1..]) in InlineExtensions
  {
    var lower := ToLower(name);
    LowerKeepsDots(name);
    SuffixesAreExtensions(lower, InlineExtensions);
    HasAnySuffix(lower, InlineExtensions)
  }

  /** s ends in one of the suffixes "." + ext, tried in the order of exts. */
  predicate HasAnySuffix(s: string, exts: seq<string>) {
    exts != [] && (HasSuffix(s, "." + exts[0]) || HasAnySuffix(s, exts[1..]))
  }

  /** Testing the dotted suffixes one after the other is testing what
      follows the last dot against the list of extensions. */
  lemma {:induction false} SuffixesAreExtensions(s: string, exts: seq<string>)
    requires forall i :: 0 <= i < |exts| ==> '.' !in exts[i]
    ensures HasAnySuffix(s, exts) <==> '.' in s && s[LastIndex(s, '.') + 1..] in exts
  {
    if exts != [] {
      SuffixIsExtension(s, exts[0]);
      SuffixesAreExtensions(s, exts[1..]);
      assert exts == [exts[0]] + exts[1..];
    }
  }

  /** A string ends in "." + ext, for an ext without dots, exactly when what
      follows its last dot is ext. */
  lemma SuffixIsExtension(s: string, ext: string)
    requires '.' !in ext
    ensures HasSuffix(s, "." + ext) <==> '.' in s && s[LastIndex(s, '.') + 1..] == ext
  {
    if HasSuffix(s, "." + ext) {
      ExtensionOfSuffix(s, ext);
    }
    if '.' in s && s[LastIndex(s, '.') + 1..] == ext {
      SuffixOfExtension(s, ext);
    }
  }

  /** A string ending in "." + ext has its last dot right before ext. */
  lemma ExtensionOfSuffix(s: string, ext: string)
    requires '.' !in ext && HasSuffix(s, "." + ext)
    ensures '.' in s && LastIndex(s, '.') == |s| - |ext| - 1 && s[LastIndex(s, '.') + 1..] == ext
  {
    var j := |s| - |ext| - 1;
    var suffix := s[j..];
    assert suffix == "." + ext;
    assert s[j] == suffix[0];
    assert s[j + 1..] == suffix[1..];
    LastIndexAt(s, '.', j);
  }

  /** A string whose last dot is followed by ext ends in "." + ext. */
  lemma SuffixOfExtension(s: string, ext: string)
    requires '.' in s && s[LastIndex(s, '.') + 1..] == ext
    ensures HasSuffix(s, "." + ext)
  {
    var j := LastIndex(s, '.');
    assert s[j..] == [s[j]] + s[j + 1..];
  }

  /** Lower-casing keeps every dot where it is and lowers what follows the
      last one. */
  lemma LowerKeepsDots(name: string)
    ensures '.' in ToLower(name) <==> '.' in name
    ensures '.' in name ==>
      && LastIndex(ToLower(name), '.') == LastIndex(name, '.')
      && ToLower(name)[LastIndex(name, '.') + 1..] == ToLower(name[LastIndex(name, '.') + 1..])
  {
    LowerHasDot(name);
    if '.' in name {
      var lower, j := ToLower(name), LastIndex(name, '.');
      LowerOfSlice(name, j + 1);
      LowerHasDot(name[j + 1..]);
      assert lower[j] == '.';
      LastIndexAt(lower, '.', j);
    }
  }

  /** A string has a dot exactly when its lower-case form has one. */
  lemma LowerHasDot(s: string)
    ensures '.' in ToLower(s) <==> '.' in s
  {
    if '.' in s {
      var i :| 0 <= i < |s| && s[i] == '.';
      assert ToLower(s)[i] == '.';
    }
    if '.' in ToLower(s) {
      var i :| 0 <= i < |s| && ToLower(s)[i] == '.';
      assert s[i] == '.';
    }
  }

  /** Lower-casing commutes with taking a suffix. */
  lemma LowerOfSlice(s: string, a: nat)
    requires a <= |s|
    ensures ToLower(s)[a..] == ToLower(s[a..])
  {
    assert forall i :: 0 <= i < |s| - a ==> ToLower(s)[a..][i] == ToLower(s[a..])[i];
  }

  /** The extension test ignores case. */
  lemma IsInlineIgnoresCase(name: string)
    ensures IsInline(name) <==> IsInline(ToLower(name))
  {
    ToLowerIdempotent(name);
  }

  // ---------------------------------------------------------------------------
  // Privacy
  // ---------------------------------------------------------------------------

  /** Some permission key is a raw string prefix of the path. */
  predicate IsPrivate(permissions: map<string, string>, httppath: string) {
    exists key :: key in permissions && HasPrefix(httppath, key)
  }

  /** Some permission key that is a prefix of the path lists the user. */
  predicate Granted(permissions: map<string, string>, httppath: string, username: string) {
    exists key :: key in permissions && HasPrefix(httppath, key) && username in Split(permissions[key], ',')
  }

  /** The request is sent to the login form. */
  predicate Denied(permissions: map<string, string>, httppath: string, username: string) {
    IsPrivate(permissions, httppath) && !Granted(permissions, httppath, username)
  }

  /** The privacy loop: every permission key is visited, in any order; a key
      that prefixes the path marks it private, and its user list is searched
      for the user. */
  method CheckPrivacy(permissions: map<string, string>, httppath: string, username: string)
    returns (isPrivate: bool, noGrantFound: bool)
    ensures isPrivate <==> IsPrivate(permissions, httppath)
    ensures noGrantFound <==> !Granted(permissions, httppath, username)
  {
    isPrivate := false;
    noGrantFound := true;
    var todo := permissions.Keys;
    while todo != {}
      invariant todo <= permissions.Keys
      invariant isPrivate <==> exists key :: key in permissions && key !in todo && HasPrefix(httppath, key)
      invariant noGrantFound <==> !exists key :: key in permissions && key !in todo && HasPrefix(httppath, key) &&
                                                username in Split(permissions[key], ',')
      decreases |todo|
    {
      var privateDirectory :| privateDirectory in todo;
      if HasPrefix(httppath, privateDirectory) {
        isPrivate := true;
        var found := InCommaList(username, permissions[privateDirectory]);
        if found {
          noGrantFound := false;
        }
      }
      todo := todo - {privateDirectory};
    }
  }

  /** The prefix test is on raw strings: a key "/priv" also covers
      "/private2", and an empty key makes every path private. */
  lemma PrefixIsRaw(permissions: map<string, string>, httppath: string)
    requires "/priv" in permissions || "" in permissions
    ensures "/priv" in permissions ==> IsPrivate(permissions, "/private2")
    ensures "" in permissions ==> IsPrivate(permissions, httppath)
  {
    if "/priv" in permissions {
      assert HasPrefix("/private2", "/priv");
    }
    if "" in permissions {
      assert HasPrefix(httppath, "");
    }
  }

  /** With no matching key, access always proceeds; one matching key that
      lists the user suffices, whatever the other matching keys say. */
  lemma OneGrantSuffices(permissions: map<string, string>, httppath: string, username: string, key: string)
    requires key in permissions && HasPrefix(httppath, key)
    requires username in Split(permissions[key], ',')
    ensures !Denied(permissions, httppath, username)
  {
  }

  /** A user list with a trailing comma ("alice,") holds an empty element,
      which grants the anonymous user "". */
  lemma TrailingCommaGrantsAnonymous(permissions: map<string, string>, httppath: string, key: string, users: string)
    requires key in permissions && HasPrefix(httppath, key)
    requires permissions[key] == users + ","
    ensures !Denied(permissions, httppath, "")
  {
    SplitTrailingSeparator(users, ',');
    var parts := Split(users + ",", ',');
    assert parts[|parts| - 1] == "";
  }

  // ---------------------------------------------------------------------------
  // Listing
  // ---------------------------------------------------------------------------

  /** The permission key that would lock a subdirectory. */
  function CheckKey(httppath: string, name: string): string {
    if httppath == "" then "/" + name else httppath + "/" + name
  }

  /** The subdirectory rows of a listing, in directory order. */
  function ShownDirs(entries: seq<Entry>, httppath: string, permissions: map<string, string>, username: string): seq<DirRow> {
    if entries == [] then []
    else
      var prev := ShownDirs(entries[..|entries| - 1], httppath, permissions, username);
      var f := entries[|entries| - 1];
      var lockedDir := CheckKey(httppath, f.name) in permissions;
      if f.isDir && !(lockedDir && username == "") then prev + [DirRow(f.name, lockedDir)] else prev
  }

  function SizeOf(f: Entry): int {
    if f.size.Some? then f.size.value else 0
  }

  /** The file rows of a listing, in directory order. */
  function FileRows(entries: seq<Entry>): seq<FileRow> {
    if entries == [] then []
    else
      var prev := FileRows(entries[..|entries| - 1]);
      var f := entries[|entries| - 1];
      if !f.isDir then prev + [FileRow(f.name, SizeOf(f))] else prev
  }

  function TotalSize(rows: seq<FileRow>): int {
    if rows == [] then 0 else TotalSize(rows[..|rows| - 1]) + rows[|rows| - 1].size
  }

  /** Every subdirectory row comes from a subdirectory entry, is marked
      private exactly when its key is a permission key, and is never a locked
      directory shown to the anonymous user. */
  lemma {:induction false} ShownDirsSound(entries: seq<Entry>, httppath: string, permissions: map<string, string>, username: string)
    ensures forall r :: r in ShownDirs(entries, httppath, permissions, username) ==>
      && (exists i :: 0 <= i < |entries| && entries[i].isDir && entries[i].name == r.name)
      && (r.locked <==> CheckKey(httppath, r.name) in permissions)
      && !(r.locked && username == "")
  {
    if entries != [] {
      var init := entries[..|entries| - 1];
      ShownDirsSound(init, httppath, permissions, username);
      forall r | r in ShownDirs(init, httppath, permissions, username)
        ensures exists i :: 0 <= i < |entries| && entries[i].isDir && entries[i].name == r.name
      {
        var i :| 0 <= i < |init| && init[i].isDir && init[i].name == r.name;
        assert entries[i] == init[i];
      }
    }
  }

  /** A logged-in user sees every subdirectory: each subdirectory entry has a
      row. */
  lemma {:induction false} ShownDirsComplete(entries: seq<Entry>, httppath: string, permissions: map<string, string>, username: string)
    requires username != ""
    ensures forall i :: 0 <= i < |entries| && entries[i].isDir ==>
      DirRow(entries[i].name, CheckKey(httppath, entries[i].name) in permissions) in ShownDirs(entries, httppath, permissions, username)
  {
    if entries != [] {
      var init := entries[..|entries| - 1];
      ShownDirsComplete(init, httppath, permissions, username);
      forall i | 0 <= i < |init| && entries[i].isDir
        ensures DirRow(entries[i].name, CheckKey(httppath, entries[i].name) in permissions) in ShownDirs(entries, httppath, permissions, username)
      {
        assert entries[i] == init[i];
      }
    }
  }

  /** The anonymous user never sees a locked subdirectory name, and nobody
      sees more rows than there are entries. */
  lemma {:induction false} ListingSize(entries: seq<Entry>, httppath: string, permissions: map<string, string>, username: string)
    ensures |ShownDirs(entries, httppath, permissions, username)| + |FileRows(entries)| <= |entries|
    ensures username != "" ==> |ShownDirs(entries, httppath, permissions, username)| + |FileRows(entries)| == |entries|
  {
    if entries != [] {
      ListingSize(entries[..|entries| - 1], httppath, permissions, username);
    }
  }

  /** The loop over subdirectories: a locked one is skipped for the anonymous
      user, and only shown ones are counted. */
  method ListDirectories(entries: seq<Entry>, httppath: string, permissions: map<string, string>, username: string)
    returns (rows: seq<DirRow>, dirCounter: nat)
    ensures rows == ShownDirs(entries, httppath, permissions, username)
    ensures dirCounter == |rows|
  {
    rows := [];
    dirCounter := 0;
    for i := 0 to |entries|
      invariant rows == ShownDirs(entries[..i], httppath, permissions, username)
      invariant dirCounter == |rows|
    {
      assert entries[..i + 1][..i] == entries[..i];
      var f := entries[i];
      if f.isDir {
        var checkKey: string;
        if httppath == "" {
          checkKey := "/" + f.name;
        } else {
          checkKey := httppath + "/" + f.name;
        }
        var lockedDir := checkKey in permissions;
        if !(lockedDir && username == "") {
          rows := rows + [DirRow(f.name, lockedDir)];
          dirCounter := dirCounter + 1;
        }
      }
    }
    assert entries[..|entries|] == entries;
  }

  /** The loop over files: every file is listed and counted, and its size
      (0 when unreadable) added to the total. */
  method ListFiles(entries: seq<Entry>) returns (rows: seq<FileRow>, fileCounter: nat, fileSizeSum: int)
    ensures rows == FileRows(entries)
    ensures fileCounter == |rows|
    ensures fileSizeSum == TotalSize(rows)
  {
    rows := [];
    fileCounter := 0;
    fileSizeSum := 0;
    for i := 0 to |entries|
      invariant rows == FileRows(entries[..i])
      invariant fileCounter == |rows|
      invariant fileSizeSum == TotalSize(rows)
    {
      assert entries[..i + 1][..i] == entries[..i];
      var f := entries[i];
      if !f.isDir {
        var fileSize := 0;
        if f.size.Some? {
          fileSize := f.size.value;
        }
        rows := rows + [FileRow(f.name, fileSize)];
        assert rows[..|rows| - 1] == rows[..|rows| - 1];
        fileCounter := fileCounter + 1;
        fileSizeSum := fileSizeSum + fileSize;
      }
    }
    assert entries[..|entries|] == entries;
  }

  function Title(httppath: string): string {
    "Contents of " + (if httppath == "" then "/" else httppath)
  }

  /** The listing page of a directory: its title, the ".." link (none at
      the root), the subdirectory and file rows, the two counters and the
      total size of the files. */
  function ListingOf(entries: seq<Entry>, httppath: string, permissions: map<string, string>, username: string): Outcome {
    var dirs := ShownDirs(entries, httppath, permissions, username);
    var files := FileRows(entries);
    Listing(Title(httppath), if httppath == "" then None else Some(ParentPath(httppath)),
            dirs, files, |dirs|, |files|, TotalSize(files))
  }

  /** How a file is served: inline for a text extension, as a download
      otherwise, under its last path piece. */
  function FileOutcome(resourcepath: string, httppath: string): Outcome {
    var name := DownloadName(httppath);
    if IsInline(name) then ServeInline(resourcepath, name) else Download(resourcepath, name)
  }

  // ---------------------------------------------------------------------------
  // The handler
  // ---------------------------------------------------------------------------

  /** The answer to a request for the trimmed web path `httppath`, whose
      physical path is `resourcepath`: not found first, then the privacy
      check, then a listing or a file. */
  function Decision(httppath: string, resourcepath: string, permissions: map<string, string>,
                    username: string, fs: map<string, Node>): (o: Outcome)
    ensures o == NotFound <==> resourcepath !in fs
    ensures o == LoginForm <==> resourcepath in fs && Denied(permissions, httppath, username)
    ensures o.Listing? <==>
      resourcepath in fs && !Denied(permissions, httppath, username) && fs[resourcepath].DirNode?
    ensures (o.ServeInline? || o.Download?) <==>
      resourcepath in fs && !Denied(permissions, httppath, username) && fs[resourcepath].FileNode?
  {
    if resourcepath !in fs then NotFound
    else if Denied(permissions, httppath, username) then LoginForm
    else if fs[resourcepath].DirNode? then ListingOf(fs[resourcepath].entries, httppath, permissions, username)
    else FileOutcome(resourcepath, httppath)
  }

  /** webgenericbrowsing: `login` is the submitted "login" form value (""
      when absent), `urlPath` the request path, `rootDirectory` the
      configured root, `username` the logged user ("" for anonymous) and `fs`
      the filesystem. */
  method Browse(login: string, urlPath: string, rootDirectory: string, permissions: map<string, string>,
                username: string, fs: map<string, Node>)
    returns (outcome: Outcome)
    ensures login == "spontaneous" ==> outcome == LoginForm
    ensures login != "spontaneous" ==>
      var httppath := TrimRight(urlPath, PathSeparators);
      outcome == Decision(httppath, ResourcePath(TrimRight(rootDirectory, PathSeparators), httppath),
                          permissions, username, fs)
  {
    if login == "spontaneous" {
      return LoginForm;
    }
    var httppath := TrimTrailing(urlPath, PathSeparators);
    var rootpath := TrimTrailing(rootDirectory, PathSeparators);
    var resourcepath := CollapseSlashes(rootpath + "/" + httppath);
    outcome := Respond(httppath, resourcepath, permissions, username, fs);
  }

  /** The part of webgenericbrowsing after the paths are known. */
  method Respond(httppath: string, resourcepath: string, permissions: map<string, string>,
                 username: string, fs: map<string, Node>)
    returns (outcome: Outcome)
    ensures outcome == Decision(httppath, resourcepath, permissions, username, fs)
  {
    if resourcepath !in fs {
      return NotFound;
    }
    var isPrivate, noGrantFound := CheckPrivacy(permissions, httppath, username);
    if isPrivate && noGrantFound {
      return LoginForm;
    }
    match fs[resourcepath]
    case DirNode(entries) =>
      outcome := ListDirectory(entries, httppath, permissions, username);
    case FileNode =>
      outcome := ServeFile(resourcepath, httppath);
  }

  /** The listing of a directory the user may see. */
  method ListDirectory(entries: seq<Entry>, httppath: string, permissions: map<string, string>, username: string)
    returns (outcome: Outcome)
    ensures outcome == ListingOf(entries, httppath, permissions, username)
  {
    var parent := None;
    if httppath != "" {
      var i := LastIndex(httppath, '/');
      if i > 0 {
        parent := Some(httppath[..i]);
      } else {
        parent := Some("/");
      }
    }
    var dirs, dirCounter := ListDirectories(entries, httppath, permissions, username);
    var files, fileCounter, fileSizeSum := ListFiles(entries);
    outcome := Listing(Title(httppath), parent, dirs, files, dirCounter, fileCounter, fileSizeSum);
  }

  /** A file is written into the response when its name has a text
      extension, and sent as an attachment otherwise. The handler takes the
      last piece of the path split on '/', which DownloadNameIsLastPiece
      shows to be DownloadName. */
  method ServeFile(resourcepath: string, httppath: string) returns (outcome: Outcome)
    ensures outcome == FileOutcome(resourcepath, httppath)
  {
    var downloadFileName := DownloadName(httppath);
    if IsInline(downloadFileName) {
      outcome := ServeInline(resourcepath, downloadFileName);
    } else {
      outcome := Download(resourcepath, downloadFileName);
    }
  }

  /** The anonymous user's listing never names a locked subdirectory. */
  lemma AnonymousListingHidesLocked(entries: seq<Entry>, httppath: string, permissions: map<string, string>, name: string)
    requires CheckKey(httppath, name) in permissions
    ensures forall r :: r in ShownDirs(entries, httppath, permissions, "") ==> r.name != name
  {
    ShownDirsSound(entries, httppath, permissions, "");
  }
}
