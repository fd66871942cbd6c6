/** The first-run wizard: it asks for the administrator's name and password,
    the HTTP port and the root directory of the published content, checks
    each answer as it comes, and after a confirmation creates the
    configuration directory and the three initial tables. Any rejected
    answer ends the program with a message, modelled as a failure. */
module Wizard {
  import opened Wrappers
  import opened Text
  import opened Decimal
  import opened Utils
  import opened Server
  import opened Admin
  import opened Login
  import opened DaoParameters

  const MinPasswordLength: nat := 5
  const MinPort: int := 20
  const MaxPort: int := 65535

  const ErrEmptyUsername: string := "Error: the username cannot be empty."
  const ErrShortPassword: string := "Error: the password must be at least 5 characters long."
  const ErrNotANumber: string := "Error: insert a number."
  const ErrPortRange: string := "Error: insert a number between 20 and 65535."
  const ErrNotSaved: string := "Configuration not saved."

  /** What os.Stat tells about a path. */
  datatype FileKind = Missing | StatFailed | RegularFile | Directory

  /** The three tables the wizard stores. */
  datatype Settings = Settings(
    users: map<string, string>,
    permissions: map<string, string>,
    configuration: map<string, string>)

  /** The number of bytes of the UTF-8 encoding of a rune. */
  function RuneLength(c: char): (n: nat)
    ensures 1 <= n <= 4
    ensures n == 1 <==> c as int < 0x80
  {
    if c as int < 0x80 then 1
    else if c as int < 0x800 then 2
    else if c as int < 0x10000 then 3
    else 4
  }

  /** len() of a Go string: the number of bytes of its UTF-8 encoding. */
  function Utf8Length(s: string): nat
  {
    if s == [] then 0 else Utf8Length(s[..|s| - 1]) + RuneLength(s[|s| - 1])
  }

  /** A string has at least as many bytes as runes, and exactly as many when
      every rune is ASCII. */
  lemma {:induction false} Utf8LengthBounds(s: string)
    ensures |s| <= Utf8Length(s) <= 4 * |s|
    ensures (forall i :: 0 <= i < |s| ==> s[i] as int < 0x80) <==> Utf8Length(s) == |s|
  {
    if s != [] {
      var n := |s| - 1;
      Utf8LengthBounds(s[..n]);
      if forall i :: 0 <= i < |s| ==> s[i] as int < 0x80 {
        assert forall i :: 0 <= i < n ==> s[..n][i] == s[i];
      } else {
        var i :| 0 <= i < |s| && s[i] as int >= 0x80;
        if i < n {
          assert s[..n][i] == s[i];
        }
      }
    }
  }

  /** A password of five or more runes is long enough; an ASCII password is
      long enough exactly when it has five or more runes. */
  lemma PasswordLengthTest(password: string)
    ensures |password| >= MinPasswordLength ==> Utf8Length(password) >= MinPasswordLength
    ensures (forall i :: 0 <= i < |password| ==> password[i] as int < 0x80) ==>
      (Utf8Length(password) >= MinPasswordLength <==> |password| >= MinPasswordLength)
  {
    Utf8LengthBounds(password);
  }

  /** The confirmation test: "y" or "yes", ignoring case. */
  predicate Confirms(answer: string)
    ensures Confirms(answer) ==> (|answer| == 1 || |answer| == 3) && FoldsTo(answer[0], 'y')
    ensures answer in ["y", "Y", "yes", "YES", "Yes"] ==> Confirms(answer)
  {
    EqualFold(answer, "y") || EqualFold(answer, "yes")
  }

  /** For an ASCII answer the confirmation test is "its lower-case form is
      y or yes". */
  lemma ConfirmsAscii(answer: string)
    requires forall i :: 0 <= i < |answer| ==> answer[i] as int < 0x80
    ensures Confirms(answer) <==> ToLower(answer) == "y" || ToLower(answer) == "yes"
  {
    var lower := ToLower(answer);
    if |answer| == 1 {
      assert EqualFold(answer, "y") <==> lower[0] == 'y';
      assert lower == "y" <==> lower[0] == 'y';
    } else if |answer| == 3 {
      assert EqualFold(answer, "yes") <==> lower[0] == 'y' && lower[1] == 'e' && lower[2] == 's';
      assert lower == "yes" <==> lower[0] == 'y' && lower[1] == 'e' && lower[2] == 's';
    }
  }

  /** The general configuration of a new installation. */
  function InitialConfiguration(adminUsername: string, rootDirectory: string, port: int): (r: map<string, string>)
    ensures r.Keys == {"admin_path", "admin_users", "root_directory", "http_port"}
    ensures HasRequiredKeys(r)
    ensures r["admin_path"] == "admin" && r["admin_users"] == adminUsername
    ensures r["root_directory"] == rootDirectory
    ensures MinInt64 <= port <= MaxInt64 ==> Atoi(r["http_port"]) == Some(port)
  {
    assert MinInt64 <= port <= MaxInt64 ==> Atoi(FormatInt(port)) == Some(port) by {
      if MinInt64 <= port <= MaxInt64 { AtoiFormatInt(port); }
    }
    map["admin_path" := "admin", "admin_users" := adminUsername,
        "root_directory" := rootDirectory, "http_port" := FormatInt(port)]
  }

  /** The message for a directory path the wizard cannot use. */
  function RootError(rootDirectory: string, kind: FileKind): string
    requires kind != Directory
  {
    match kind
    case Missing => "Error: directory " + rootDirectory + " does not exist."
    case StatFailed => "error while checking root directory \"" + rootDirectory + "\""
    case RegularFile => "Error: " + rootDirectory + " is not a directory."
  }

  /** The message when the configuration directory already exists. */
  function ExistsError(directory: string): string
  {
    "Error: the directory \"" + directory + "\" exists,\nif you want to reset the configuration, delete it."
  }

  /** The wizard's answer, check by check, for the given inputs (the lines
      already read, without their line endings). */
  function Outcome(directory: string, adminUsername: string, adminPassword: string, stringport: string,
                   rootInput: string, stat: string -> FileKind, confirm: string, directoryExists: bool,
                   hash: HashFn): Result<Settings>
  {
    if adminUsername == "" then Failure(ErrEmptyUsername)
    else if Utf8Length(adminPassword) < MinPasswordLength then Failure(ErrShortPassword)
    else if Atoi(stringport).None? then Failure(ErrNotANumber)
    else if Atoi(stringport).value < MinPort || Atoi(stringport).value > MaxPort then Failure(ErrPortRange)
    else
      var rootDirectory := NormalizeDir(rootInput);
      if stat(rootDirectory) != Directory then Failure(RootError(rootDirectory, stat(rootDirectory)))
      else if !Confirms(confirm) then Failure(ErrNotSaved)
      else if directoryExists then Failure(ExistsError(directory))
      else Success(Settings(
        map[adminUsername := hash(adminPassword)],
        map[],
        InitialConfiguration(adminUsername, rootDirectory, Atoi(stringport).value)))
  }

  /** configWizard, from the answers on: the checks in order, then the
      three tables, filled in one entry at a time. */
  method ConfigWizard(directory: string, adminUsername: string, adminPassword: string, stringport: string,
                      rootInput: string, stat: string -> FileKind, confirm: string, directoryExists: bool,
                      hash: HashFn)
    returns (r: Result<Settings>)
    ensures r == Outcome(directory, adminUsername, adminPassword, stringport, rootInput, stat, confirm,
                         directoryExists, hash)
  {
    if adminUsername == "" {
      return Failure(ErrEmptyUsername);
    }
    if Utf8Length(adminPassword) < MinPasswordLength {
      return Failure(ErrShortPassword);
    }
    var port := Atoi(stringport);
    if port.None? {
      return Failure(ErrNotANumber);
    }
    if port.value < MinPort || port.value > MaxPort {
      return Failure(ErrPortRange);
    }
    var rootDirectory := TrimDirectory(rootInput);
    var kind := stat(rootDirectory);
    if kind != Directory {
      return Failure(RootError(rootDirectory, kind));
    }
    if !(EqualFold(confirm, "y") || EqualFold(confirm, "yes")) {
      return Failure(ErrNotSaved);
    }
    if directoryExists {
      return Failure(ExistsError(directory));
    }
    var users: map<string, string> := map[];
    var configuration: map<string, string> := map[];
    var permissions: map<string, string> := map[];
    users := users[adminUsername := hash(adminPassword)];
    configuration := configuration["admin_path" := "admin"];
    configuration := configuration["admin_users" := adminUsername];
    configuration := configuration["root_directory" := rootDirectory];
    configuration := configuration["http_port" := FormatInt(port.value)];
    r := Success(Settings(users, permissions, configuration));
  }

  // ---------------------------------------------------------------------------
  // Properties of the wizard
  // ---------------------------------------------------------------------------

  /** The wizard saves exactly when every answer passes its check. */
  lemma WizardAcceptsExactlyValidAnswers(directory: string, adminUsername: string, adminPassword: string,
                                         stringport: string, rootInput: string, stat: string -> FileKind,
                                         confirm: string, directoryExists: bool, hash: HashFn)
    ensures Outcome(directory, adminUsername, adminPassword, stringport, rootInput, stat, confirm,
                    directoryExists, hash).Success? <==>
      && adminUsername != ""
      && Utf8Length(adminPassword) >= MinPasswordLength
      && Atoi(stringport).Some? && MinPort <= Atoi(stringport).value <= MaxPort
      && stat(NormalizeDir(rootInput)) == Directory
      && Confirms(confirm)
      && !directoryExists
  {
  }

  /** What a new installation holds: the administrator is the only user,
      with the digest of the chosen password, and can log in with it; there
      is no private directory; the configuration defines every key the
      server requires, the port reads back as the chosen number, and the root
      directory is normalised. The administrator is an administrator exactly
      when the name has no comma. */
  lemma WizardSettings(directory: string, adminUsername: string, adminPassword: string,
                       stringport: string, rootInput: string, stat: string -> FileKind,
                       confirm: string, directoryExists: bool, hash: HashFn)
    requires Outcome(directory, adminUsername, adminPassword, stringport, rootInput, stat, confirm,
                     directoryExists, hash).Success?
    ensures var s := Outcome(directory, adminUsername, adminPassword, stringport, rootInput, stat, confirm,
                             directoryExists, hash).value;
      && s.users.Keys == {adminUsername}
      && Authenticates(s.users, hash, adminUsername, adminPassword)
      && s.permissions == map[]
      && HasRequiredKeys(s.configuration)
      && s.configuration["admin_path"] == "admin"
      && Atoi(s.configuration["http_port"]) == Atoi(stringport)
      && MinPort <= Atoi(s.configuration["http_port"]).value <= MaxPort
      && s.configuration["root_directory"] == NormalizeDir(rootInput)
      && (IsAdmin(s.configuration, adminUsername) <==> ',' !in adminUsername)
  {
    var s := Outcome(directory, adminUsername, adminPassword, stringport, rootInput, stat, confirm,
                     directoryExists, hash).value;
    var port := Atoi(stringport).value;
    AtoiFormatInt(port);
    SoleAdministrator(s.configuration, adminUsername);
  }

  /** With a single name in the administrator list, that name is an
      administrator exactly when it has no comma. */
  lemma SoleAdministrator(configuration: map<string, string>, adminUsername: string)
    requires "admin_users" in configuration && configuration["admin_users"] == adminUsername
    ensures IsAdmin(configuration, adminUsername) <==> ',' !in adminUsername
  {
    if ',' !in adminUsername {
      SplitWithoutSeparator(adminUsername, ',');
    }
  }
}
