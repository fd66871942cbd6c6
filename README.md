# httpiccolo in Dafny

httpiccolo is a small Go file server. It publishes a root directory over
HTTP and can lock sub-trees to lists of users. It keeps users, permissions
and general parameters in three JSON files, and has a web administration
console plus a first-run wizard on the terminal. This project models the
server's decision procedures and in-memory stores, and proves what they
guarantee:

- **BruteForce** (`bruteforce.dfy`): the brute-force guard.
  - It is a log of failed logins keyed by a random key.
  - A sweep deletes records older than 20 minutes; the comparison is strict.
  - A client IP is banned once five records for it remain in the window.
- **Sessions** (`session.dfy`): the cookie-keyed session store.
  - The sweep, session lookup or creation, `Get`, `Set`, `Save` and
    `Expirate`, and the 64-digit upper-case hex session id.
  - A session's item map is a shared object: the handle and the stored
    record see the same map, as in Go.
- **Browsing** (`browsing.dfy`): the generic browsing handler. It covers:
  - trimming the web path and the root;
  - the physical path, and "not found" before the privacy check;
  - the raw-prefix privacy test with comma-separated user lists;
  - the directory listing, which hides locked subdirectories from the
    anonymous user;
  - the parent link, the download name, and the inline-or-download test.
- **Admin** (`admin.dfy`): the administrator test, and the guarded updates
  that the administration actions make to the configuration, user and
  permission tables.
- **Login** (`login.dfy`): the login form and the login action. They combine
  the guard, the session store and the password digest.
- **Server** (`server.dfy`): the request router and the choice of the
  configuration directory at start-up.
- **Wizard** (`wizard.dfy`): the first-run wizard's answer checks and the
  initial tables it builds.
- **RecordLists**, **DaoParameters**, **DaoUsers**, **DaoPermissions**
  (`records.dfy`, `dao_*.dfy`): the persistence layer.
  - A table is converted to a list of records and back; a later record
    for the same key wins.
  - Reading the general parameters checks for the required keys.
- **Supporting modules**:
  - `Text`: the parts of Go's `strings` package the server uses.
  - `Decimal`: `strconv.Itoa` and `strconv.Atoi` on 64-bit integers.
  - `Utils`: `RandomId`, slash conversion, line-ending trimming, the
    integer branch of `FormatFileSize`, and `DirTree`'s directory names.
  - `Wrappers`: `Option` and `Result`.
  - `Sets`: two cardinality lemmas.

Modelling conventions:

- **Parameters instead of sources:**
  - The clock is a parameter `now` in seconds.
  - Randomness is a sequence of draws: indices into the 62-letter alphabet
    for `RandomId`, and bytes for the session id.
  - `HashPassword` (SHA-256 in lower-case hex) is a parameter `hash` whose
    result is a 64-digit lower-case hex string, so it is never empty.
  - The filesystem is a map from physical path to node, or a `stat`
    function.
- **Global state:**
  - The server's global tables are the fields of `Admin.AppState`.
  - The failure log is `BruteForce.Guard`.
  - The session map is `Sessions.SessionStore`.
- **Go map iteration order:** a loop over a Go map takes any remaining key
  at each step (`var k :| k in todo`), so every proof holds for every
  order.
- **Missing keys:** a missing key in a Go map reads as `""`
  (`Text.Lookup`).
- **Fatal exits:** a `log.Fatal` or `FatalMessage` exit is a `Failure`
  with its message.

## Model

| member | source | states |
|---|---|---|
| BruteForce.CountFailures | src/bruteforce/bruteforce.go:71-76 | the counting loop returns the number of log records whose IP is the argument |
| BruteForce.Guard.constructor | src/bruteforce/bruteforce.go:43 | the failure log starts empty |
| BruteForce.Guard.RecordFailedLogin | src/bruteforce/bruteforce.go:47-55 | the record {ip, now} is stored under the drawn key, and every other key keeps its record |
| BruteForce.Guard.CleanOldAccessLogs | src/bruteforce/bruteforce.go:59-65 | the key-by-key deletion loop leaves exactly the records that are not strictly older than now minus 20 minutes |
| BruteForce.Guard.Banned | src/bruteforce/bruteforce.go:69-78 | the log is swept, and the answer is true iff at least 5 records for the IP remain; no record is added |
| BruteForce.CleanedIsSubmap | src/bruteforce/bruteforce.go:59-65 | the sweep only deletes: its result is a sub-map of the log, and every in-window record is kept unchanged |
| BruteForce.CleanedIsFresh | src/bruteforce/bruteforce.go:59-65 | no kept record is older than now minus 20 minutes, and a record stamped exactly now minus 20 minutes survives (the test is a strict "before") |
| BruteForce.CleanedIdempotent | src/bruteforce/bruteforce.go:59-65 | sweeping twice at the same time equals sweeping once |
| BruteForce.RecordAddsOne | src/bruteforce/bruteforce.go:50-54 | with a fresh key the count for the IP rises by exactly one, and the count for every other IP is unchanged |
| BruteForce.RecordInWindowIsCounted | src/bruteforce/bruteforce.go:47-65 | a failure recorded under a fresh key at a time inside the window survives the sweep and adds one to the in-window count |
| BruteForce.RecordNowIsCounted | src/bruteforce/bruteforce.go:47-65 | a failure recorded at `now` under a fresh key survives the sweep at `now` and adds one to the in-window count |
| BruteForce.OtherIpsIrrelevant | src/bruteforce/bruteforce.go:72-77 | two logs with the same records for an IP give the same ban answer for it, whatever they hold for other IPs |
| BruteForce.RecordNeverUnbans | src/bruteforce/bruteforce.go:47-78 | storing a failure for a banned IP at the current time, under any key, leaves it banned |
| BruteForce.FifthFailureBans | src/bruteforce/bruteforce.go:69-78 | with 4 in-window records an IP is not banned, and one more failure at `now` bans it |
| BruteForce.ReplayCount | src/bruteforce/bruteforce.go:47-65 | n failures recorded under distinct keys, all within the window, count n after the sweep |
| BruteForce.ThresholdFromEmptyLog | src/bruteforce/bruteforce.go:34-36 | starting from an empty log, n in-window failures of one IP ban it iff n >= 5 |
| Sessions.HexByteRoundTrip | src/msession/session.go:196-199 | each byte is written as exactly two upper-case hex digits, zero-padded, that read back as the byte |
| Sessions.HexString | src/msession/session.go:196-199 | the hex form of n bytes has 2n characters, all upper-case hex digits |
| Sessions.RandomSessionId | src/msession/session.go:187-203 | the id has 64 characters, all in 0-9A-F, and digits 2i and 2i+1 encode the i-th random byte |
| Sessions.Items.constructor | src/msession/session.go:128 | a new item map is empty |
| Sessions.Session.Zero | src/msession/session.go:59 | the zero Session has an empty id (an invalid handle), no item map and expiry 0 |
| Sessions.Session.Set | src/msession/session.go:85-90 | on an invalid handle nothing changes; on a valid one the expiry becomes now + 360 minutes and only the given key of the shared item map is written |
| Sessions.Session.Get | src/msession/session.go:94-101 | on an invalid handle the result is "" and the expiry is unchanged; on a valid one the expiry is renewed and the result is the stored value, or "" for an absent key |
| Sessions.Session.Save | src/msession/session.go:105-114 | on a valid handle the record is stored under its id (other ids untouched) and the cookie msessionid=id, Expires=expiry, Path=/ is sent; on an invalid one the store is unchanged and no cookie is sent |
| Sessions.Session.Expirate | src/msession/session.go:119-121 | the expiry moves to one hour before now; id and items are kept |
| Sessions.SessionStore.constructor | src/msession/session.go:49 | the store starts empty |
| Sessions.SessionStore.SessionGC | src/msession/session.go:134-153 | the store becomes the swept store: exactly the sessions whose expiry is not before now remain |
| Sessions.SessionStore.BuildNewSession | src/msession/session.go:124-131 | the handle gets a 64-digit hex id, expiry now + 360 minutes and a fresh empty item map, and the record is stored under that id |
| Sessions.SessionStore.GetSession | src/msession/session.go:57-82 | after the sweep, a cookie naming a live session gives that id and its stored items with a renewed expiry; otherwise a new session is stored; every stored session is live |
| Sessions.SweptKeepsExactlyLive | src/msession/session.go:134-153 | the sweep only deletes, keeps every live session unchanged and keeps no expired one |
| Sessions.ExpiratedIsSwept | src/msession/session.go:119-153 | a session saved after Expirate is deleted by any later sweep |
| Sessions.SavedSurvivesLifetime | src/msession/session.go:124-153 | a session saved at time t survives every sweep up to t + 360 minutes |
| Sessions.StoreItem | src/msession/session.go:57-114 | loading or building a session, setting one item and saving it stores a session under the id of the cookie sent, live for the whole lifetime; a cookie naming a live session keeps that id and its other items, otherwise the new session holds only the key; every other live session is unchanged |
| Sessions.SetSaveReload | src/msession/session.go:57-114 | an item set and saved is read back by a later request, within the lifetime, that presents the cookie sent |
| Sessions.ExpirateSaveReload | src/msession/session.go:57-153 | after Expirate and Save the cookie's session is gone: the next request gets a new, empty session |
| Browsing.CollapseWithoutDoubleSlash | src/httpHandlersBrowsing.go:67 | replacing "//" by "/" leaves a path without "//" unchanged |
| Browsing.CollapseOneDouble | src/httpHandlersBrowsing.go:67 | a path whose only "//" starts at position p loses exactly the '/' at p |
| Browsing.CollapseSlashes | src/httpHandlersBrowsing.go:67 | replacing "//" by "/" never lengthens the path, keeps it empty iff it was empty, and keeps its first character |
| Browsing.ResourcePath | src/httpHandlersBrowsing.go:66-67 | the physical path is non-empty, no longer than root, '/' and web path together, and starts with the root's first character ('/' for an empty root) |
| Browsing.ResourcePathJoins | src/httpHandlersBrowsing.go:66-67 | for a trimmed root and a web path starting with '/', neither holding "//", the physical path is the root followed by the web path |
| Browsing.ParentPath | src/httpHandlersBrowsing.go:133-140 | the parent link is the path up to its last '/', or "/" when no '/' follows the first position |
| Browsing.ParentOfSubdirectory | src/httpHandlersBrowsing.go:133-140 | the ".." link of `parent/name` leads back to `parent` ("/" at the root) |
| Browsing.DownloadName | src/httpHandlersBrowsing.go:226-228 | the download name holds no '/' and is a suffix of the path |
| Browsing.DownloadNameIsLastPiece | src/httpHandlersBrowsing.go:226-228 | the download name is the last piece of the path split on '/' |
| Browsing.DownloadNameOfChild | src/httpHandlersBrowsing.go:226-228 | the download name of `dir/name` is `name` |
| Browsing.IsInline | src/httpHandlersBrowsing.go:231 | a name is written inline iff it has a dot and what follows its last dot is, ignoring case, html, htm, txt, md or log |
| Browsing.SuffixesAreExtensions | src/httpHandlersBrowsing.go:231 | testing the dotted suffixes one after the other is testing what follows the last dot against the extension list |
| Browsing.IsInlineIgnoresCase | src/httpHandlersBrowsing.go:231 | the extension test (.html, .htm, .txt, .md, .log) gives the same answer for a name and its lower-case form |
| Browsing.CheckPrivacy | src/httpHandlersBrowsing.go:82-95 | the loop over the permission table sets isPrivate iff some key is a raw prefix of the path, and noGrantFound iff no such key lists the user |
| Browsing.PrefixIsRaw | src/httpHandlersBrowsing.go:84-86 | a key "/priv" also makes "/private2" private, and an empty key makes every path private |
| Browsing.OneGrantSuffices | src/httpHandlersBrowsing.go:84-101 | a user listed under any key that is a prefix of the path is let through, whatever other matching keys say |
| Browsing.TrailingCommaGrantsAnonymous | src/httpHandlersBrowsing.go:87-93 | a user list ending in ',' holds an empty element, so it lets the anonymous user through |
| Browsing.ShownDirsSound | src/httpHandlersBrowsing.go:152-186 | every subdirectory row comes from a subdirectory entry, is marked private iff its key is a permission key, and is never a locked one for the anonymous user |
| Browsing.ShownDirsComplete | src/httpHandlersBrowsing.go:152-186 | a logged-in user gets a row for every subdirectory entry, marked private iff locked |
| Browsing.ListingSize | src/httpHandlersBrowsing.go:149-206 | the listing has at most one row per entry, and exactly one per entry for a logged-in user |
| Browsing.ListDirectories | src/httpHandlersBrowsing.go:149-186 | the subdirectory loop yields the listed rows, and dirCounter counts exactly the rows shown |
| Browsing.ListFiles | src/httpHandlersBrowsing.go:187-206 | the file loop yields one row per file (size 0 when unreadable), fileCounter counts them and fileSizeSum is the total of their sizes |
| Browsing.AnonymousListingHidesLocked | src/httpHandlersBrowsing.go:155-166 | the anonymous user's listing never names a subdirectory whose key is a permission key |
| Browsing.Browse | src/httpHandlersBrowsing.go:40-77 | a "spontaneous" login request gets the login form; otherwise trailing '/' and '\\' are cut from the path and the root, and the answer is decided for the collapsed physical path |
| Browsing.Decision | src/httpHandlersBrowsing.go:71-104 | the answer is "not found" iff the path is not in the filesystem, the login form iff it exists and access is denied, a listing iff it is an accessible directory, and a file iff it is an accessible file |
| Browsing.Respond | src/httpHandlersBrowsing.go:71-104 | a missing resource is "not found" before any privacy check; a denied one gets the login form; else a listing or a file |
| Browsing.ListDirectory | src/httpHandlersBrowsing.go:104-224 | the listing has title "Contents of" plus the path ("/" at the root), no parent link at the root, the shown rows, the two counters and the total size |
| Browsing.ServeFile | src/httpHandlersBrowsing.go:225-231 | the file is streamed inline iff its last path piece has a text extension, and sent as a download under that name otherwise |
| Admin.FormField | src/httpHandlersAdmin.go:118-122 | the form loop yields the first value of the field, or "" when it is absent |
| Admin.FormFields | src/httpHandlersAdmin.go:89-95 | the form loop yields the first values of the two fields, each "" when absent |
| Admin.FirstValues | src/httpHandlersAdmin.go:67-70 | each submitted key maps to its first value, and no other key is present |
| Admin.WriteForm | src/httpHandlersAdmin.go:67-70 | the loop over the form gives the configuration overridden by each submitted key's first value |
| Admin.ApplyFormWritesSubmitted | src/httpHandlersAdmin.go:67-70 | saving writes the first value of every submitted key and keeps every key not submitted |
| Admin.AppState.constructor | src/main.go:214-216 | the three tables are the ones loaded at start-up and no restart is pending |
| Admin.AppState.AdminFlag | src/httpHandlersAdmin.go:48-54 | the user is an administrator iff the name is an element of the comma-split administrator list |
| Admin.IsAdmin | src/httpHandlersAdmin.go:48-54 | an administrator's name never contains ',' (it is one piece of the comma-split list) |
| Admin.AppState.SaveConfiguration | src/httpHandlersAdmin.go:58-76 | a non-administrator changes nothing; an administrator writes the submitted first values into the configuration and sets the restart flag; users and permissions are untouched |
| Admin.AppState.PutUser | src/httpHandlersAdmin.go:96-100 | with a non-empty name and password the user gets the password's digest, replacing or creating the entry; otherwise nothing changes |
| Admin.AppState.ChangePassword | src/httpHandlersAdmin.go:78-105 | only an administrator with both fields non-empty changes the users table, and only at that user (also creating a missing one); permissions and configuration are untouched |
| Admin.AppState.NewUser | src/httpHandlersAdmin.go:134-162 | only an administrator with both fields non-empty changes the users table, overwriting an existing user |
| Admin.AppState.DeleteUser | src/httpHandlersAdmin.go:107-132 | only an administrator with a non-empty name changes the users table, by removing that key (a missing user changes nothing) |
| Admin.AppState.PutPermission | src/httpHandlersAdmin.go:183-187 | a non-empty path with a non-empty user list gets that list, replacing any old one; otherwise nothing changes |
| Admin.AppState.NewPermission | src/httpHandlersAdmin.go:164-192 | only an administrator with both fields non-empty changes the permission table, and only at that path; users are untouched |
| Admin.AppState.ChangePermission | src/httpHandlersAdmin.go:194-221 | same as the new-permission action, with the change-permission fields |
| Admin.AppState.DeletePermission | src/httpHandlersAdmin.go:223-248 | only an administrator with a non-empty path changes the permission table, by removing that key |
| Admin.VerifyLoggedUser | src/httpHandlersAdmin.go:41-56 | the user name is the one stored in the live session the cookie names ("" otherwise), the session is renewed and saved, and the flag is the administrator test |
| Admin.AdminsAreTheListed | src/httpHandlersAdmin.go:48-54 | for a list of comma-free names, the administrators are exactly the listed names |
| Admin.EmptyAdminListAdmitsAnonymous | src/httpHandlersAdmin.go:48-54 | an empty administrator list makes exactly the anonymous user "" an administrator |
| Admin.SavedAdminList | src/httpHandlersAdmin.go:48-71 | after saving a form that submits admin_users, the administrators are exactly the elements of its comma-split first value |
| Login.RedirectTarget | src/httpHandlersLogin.go:51-58 | the target is never empty; it is "/" iff the path is all slashes, and otherwise the path with all trailing '/' removed |
| Login.RedirectUrl | src/httpHandlersLogin.go:51-58 | the trimming loop and the "" to "/" fallback compute the redirect target |
| Login.DisplayName | src/httpHandlersLogin.go:59-62 | the shown name is `<i>anonymous</i>` for "", and the user name otherwise |
| Login.ShowLoginForm | src/httpHandlersLogin.go:38-68 | a banned non-empty IP gets the ban message (the check sweeps the log); otherwise the form shows the display name, the redirect target and a 10-letter random id |
| Login.LoginFields | src/httpHandlersLogin.go:89-99 | the form loop yields the first values of username, password and redirect_url, each "" when absent |
| Login.LoginAction | src/httpHandlersLogin.go:73-119 | a banned IP stops before the credential check; login succeeds iff the stored digest equals the password's digest; success stores the user name in a saved session (the cookie's live session keeps its other items, otherwise a new one holds only the name) and leaves every other live session unchanged; failure adds one record for a non-empty IP; the countdown leads to the submitted URL |
| Login.UnknownUserNeverAuthenticates | src/httpHandlersLogin.go:100-103 | a user missing from the table never logs in: the missing entry reads as "" and no digest is empty |
| Login.FailedLoginCountsOnce | src/httpHandlersLogin.go:107-113 | a failed login under a fresh key raises the IP's in-window count by exactly one |
| Login.FailedLoginKeepsBan | src/httpHandlersLogin.go:107-113 | a failed login never lifts a ban |
| Login.LoginThenVerify | src/httpHandlersLogin.go:104-106 | after a successful login, a request within the session lifetime that presents the cookie reads the user who logged in |
| Utils.DigestNeverEmpty | src/mutils/utils.go:40-47 | the password digest is never empty |
| Utils.RandomId | src/mutils/utils.go:69-80 | the id has exactly the requested length and its i-th letter is the alphabet letter the i-th draw picks |
| Utils.BackToForwardSlashes | src/mutils/utils.go:138-140 | the length is kept, every '\\' becomes '/', no '\\' is left and every other character is kept |
| Utils.BackToForwardSlashesIdempotent | src/mutils/utils.go:138-140 | converting twice equals converting once |
| Utils.TrimLineEnding | src/mutils/utils.go:129-134 | at most one trailing '\n' and then at most one trailing '\r' are removed; the result is a prefix of the line |
| Utils.FormatFileSize | src/mutils/utils.go:54-55 | a size below 10000 is written as its decimal digits followed by " bytes": canonical digits (no leading zero except for 0), a '-' first for a negative size, and the digits read back as the size |
| Utils.DirName | src/mutils/utils.go:106-111 | a path no longer than the root has no name (Go panics); otherwise the name has no '\\', is a suffix of the path with '\\' turned to '/', and is the rest after the root's length less one leading separator exactly when there is one |
| Utils.DirNameOfJoin | src/mutils/utils.go:106-111 | a directory `child` under the root, joined with '/', '\\' or nothing, is named `child` with '\\' turned to '/' |
| Utils.DirNameUncleanRoot | src/mutils/utils.go:100-111 | with root "./pub", whose walked paths arrive cleaned, "pub/a" is too short to name (Go panics) and "pub/ab" is named "b" |
| Decimal.FormatInt | src/configWizard.go:142 | the decimal form is never empty, and is all digits iff the number is not negative |
| Decimal.Atoi | src/configWizard.go:63-66 | a successful parse is of a non-empty string and yields a 64-bit value |
| Decimal.AtoiFormatInt | src/configWizard.go:63-142 | every 64-bit number written in decimal parses back to itself |
| Decimal.AtoiRejectsNonDigits | src/configWizard.go:63-66 | a string with a non-digit after its first character is not a number |
| Text.Split | src/httpHandlersBrowsing.go:87 | the pieces are at least one and none holds the separator |
| Text.JoinSplit | src/httpHandlersBrowsing.go:87 | joining the pieces with the separator gives the string back |
| Text.SplitJoin | src/httpHandlersAdmin.go:48 | splitting a join of separator-free pieces gives the pieces back |
| Text.SplitLastPiece | src/httpHandlersBrowsing.go:226-228 | the last piece of a split is the part after the last separator |
| Text.LastIndex | src/httpHandlersBrowsing.go:135 | the result is -1 iff the character is absent, and otherwise an index of it with none after |
| Text.InCommaList | src/httpHandlersAdmin.go:48-54 | the loop finds the name iff it is an element of the comma-split list |
| Text.ToLower | src/httpHandlersBrowsing.go:231 | the length is kept and each ASCII capital is lowered |
| Text.TrimRight | src/httpHandlersBrowsing.go:56-63 | the result is the longest prefix of the input that does not end in a cut character, and only cut characters were removed |
| Text.TrimTrailing | src/httpHandlersBrowsing.go:56-63 | the trimming loop computes that same prefix |
| Server.FirstMatch | src/main.go:66-110 | the route is that of a case whose path equals the request path, or browsing when no case matches |
| Server.FirstMatchAt | src/main.go:66-110 | the first case whose path is equal decides |
| Server.RouteTable | src/main.go:66-106 | the switch has one case per route (console, actions, login, icons), and none of them is browsing |
| Server.RouteTableCases | src/main.go:66-106 | the cases in order: the console at "/" + admin path, each action under it, "/login_action", then each icon path |
| Server.Dispatch | src/main.go:64-110 | a route other than browsing comes from a case whose path is the request path, and a path matching no case goes to browsing |
| Server.AdminRoutes | src/main.go:66-84 | "/" + admin path reaches the console, and each action name under it reaches its own action, whatever the admin path |
| Server.LoginRoute | src/main.go:85-86 | "/login_action" reaches the login action iff the admin path is not "login_action" |
| Server.FaviconRoute | src/main.go:87-106 | each icon path serves its icon iff the admin path is not the icon's file name |
| Server.BrowsingRoute | src/main.go:107-109 | a path goes to file browsing iff it equals none of the case paths |
| Server.NormalizeDir | src/main.go:188-193 | '\\' becomes '/', all trailing '/' are removed, and no other character changes |
| Server.NormalizeDirIdempotent | src/main.go:188-193 | normalising twice equals normalising once |
| Server.TrimDirectory | src/main.go:189-193 | the conversion and the trimming loop compute the normalised directory |
| Server.ConfigDirectory | src/main.go:176-194 | without -c the directory is the executable's directory with '/' separators plus "/settings"; with -c it is the normalised argument |
| RecordLists.Flatten | src/mdao/daoParameters.go:48-54 | the writing loop lists every entry of the table once, with distinct keys, and nothing else |
| RecordLists.Collect | src/mdao/daoParameters.go:97-100 | the reading loop builds the table of the list, whose keys are the list's keys |
| RecordLists.CollectedKeys | src/mdao/daoParameters.go:97-100 | the table read from a list has exactly the list's keys |
| RecordLists.CollectedLastWins | src/mdao/daoParameters.go:97-100 | each key reads as the value of its last record |
| RecordLists.CollectedEmpty | src/mdao/daoUsers.go:96-99 | a list reads as an empty table iff it is empty |
| RecordLists.RoundTrip | src/mdao/daoParameters.go:48-100 | writing a table and reading the list back gives the table |
| DaoParameters.CheckParameters | src/mdao/daoParameters.go:102-136 | reading succeeds iff root_directory, http_port, admin_path and admin_users are present and the root exists; success returns the table; a missing root_directory gives its message |
| DaoParameters.WriteGeneralParameters | src/mdao/daoParameters.go:45-54 | one {name, value} record per configuration entry |
| DaoParameters.ReadGeneralParameters | src/mdao/daoParameters.go:76-137 | the records are collected (the last one wins) and then checked |
| DaoParameters.WrittenParametersReadBack | src/mdao/daoParameters.go:48-136 | a written valid configuration reads back as itself |
| DaoParameters.EmptyParametersRejected | src/mdao/daoParameters.go:103-106 | an empty record list fails with "root_directory not defined in" and the file name |
| DaoUsers.WriteUsers | src/mdao/daoUsers.go:44-53 | one {username, password} record per user |
| DaoUsers.ReadUsers | src/mdao/daoUsers.go:96-99 | the records are collected; the keys are the listed user names |
| DaoUsers.UsersRoundTrip | src/mdao/daoUsers.go:47-99 | writing and reading back gives the user table |
| DaoUsers.LastUserRecordWins | src/mdao/daoUsers.go:96-99 | a user name reads as the password of its last record |
| DaoPermissions.ReadPermissions | src/mdao/daoPermissions.go:64-67 | the records are collected; the keys are the listed directories |
| DaoPermissions.WritePermissions | src/mdao/daoPermissions.go:71-80 | one {directory, userlist} record per permission |
| DaoPermissions.PermissionsRoundTrip | src/mdao/daoPermissions.go:64-80 | writing and reading back gives the permission table |
| DaoPermissions.LastPermissionRecordWins | src/mdao/daoPermissions.go:64-67 | a directory reads as the user list of its last record |
| DaoPermissions.EmptyPermissionsRead | src/mdao/daoPermissions.go:64-67 | a list reads as an empty table iff it is empty |
| Wizard.Utf8LengthBounds | src/configWizard.go:54-56 | a password has at least as many bytes as runes, at most four times as many, and exactly as many iff it is ASCII |
| Wizard.PasswordLengthTest | src/configWizard.go:56-58 | five runes always pass the 5-byte test, and an ASCII password passes iff it has five characters or more |
| Wizard.ConfirmsAscii | src/configWizard.go:127 | an ASCII answer confirms iff its lower-case form is "y" or "yes" |
| Wizard.Confirms | src/configWizard.go:127 | a confirming answer has one or three characters and starts with a 'y' in some case; "y", "Y", "yes", "Yes" and "YES" confirm |
| Wizard.InitialConfiguration | src/configWizard.go:135-142 | the configuration has exactly the keys admin_path ("admin"), admin_users (the name), root_directory and http_port, which holds every required key, and the port reads back as the chosen 64-bit number |
| Wizard.ConfigWizard | src/configWizard.go:36-150 | the checks run in the order of the program, each with its message, and then the three tables are filled |
| Wizard.WizardAcceptsExactlyValidAnswers | src/configWizard.go:43-134 | the wizard saves iff the name is non-empty, the password has 5 bytes or more, the port parses within 20..65535, the normalised root is a directory, the answer confirms and the directory does not exist yet |
| Wizard.WizardSettings | src/configWizard.go:135-142 | the administrator is the only user, holds the password's digest and can log in; no permission exists; every required key is set; the port reads back; the root is normalised |
| Wizard.SoleAdministrator | src/configWizard.go:140 | with a single name as the administrator list, that name is an administrator iff it has no comma |

## Left out

- HTTP plumbing is not modelled: response writing, headers, form parsing,
  file streaming and `http.ServeFile`.
  - Handlers return their outcome as a value.
  - The HTML templates, the favicon bytes, the admin console page and the
    new-permission form page are not modelled; they are presentation.
- Concurrency is not modelled: the session store's `sync.Map` and the
  unsynchronised failure log are sequential maps, so races between
  requests are out of scope.
- Real clocks and randomness are not modelled.
  - `time.Now` is one `now` per operation; Go reads the clock again inside
    the sweep loops.
  - The random seed and `rand.Intn` become draws passed in.
  - The `time.Sleep` penalties are not modelled.
- SHA-256 is not modelled: `HashPassword` is an uninterpreted function
  whose result is a 64-digit lower-case hex string.
- Filesystem and terminal I/O are not modelled.
  - `os.Stat` becomes a node map or a `stat` function.
  - `os.Mkdir`'s "exists" error becomes a boolean; its other errors are not
    modelled.
  - Wizard answers are the lines already read; `ReadStdinLine`'s trimming
    is `Utils.TrimLineEnding`.
  - The root-directory check of `ReadGeneralParameters` is a boolean
    function, so its two failure kinds are one.
  - `filepath.Walk` is not modelled; only the naming is
    (`Utils.DirName`).
  - JSON encoding and file writes are not modelled, so an empty table is
    written as an empty record list.
  - The version check over HTTP is not modelled.
  - The stat of the configuration directory in `main` is not modelled.
- Utils.DirName: the name is cut from the walked path at the root's length,
  as in Go, but the walk itself is not modelled, so the model cannot see
  that `filepath.Walk` hands over cleaned child paths. With a root that
  `filepath.Clean` changes (such as "./pub" or "pub/") the cut falls in
  the wrong place: `Utils.DirNameUncleanRoot` shows a child that Go would
  panic on (`None`) and one that gets a wrong name.
- Browsing.ListDirectory: a failing `os.ReadDir` is not modelled; the node
  always carries its entries.
- Browsing.ListFiles: the running total is an unbounded integer, so a
  64-bit overflow of the size sum is not modelled.
- Utils.FormatFileSize: only the branch below 10000 bytes is modelled; the
  floating-point branches (KiB to TiB) are left out. The total size of a
  listing goes through those branches too, so it is modelled only as a
  number.
- Text.ToLower: only ASCII letters are lowered.
  - `Text.EqualFold` also knows the two non-ASCII runes that fold onto
    ASCII letters.
  - Other Unicode case mappings are not modelled.
- Wizard.ConfigWizard: the password is a string of runes whose byte length
  is its UTF-8 length; an invalid UTF-8 byte sequence typed at the terminal
  is not modelled.
- Browsing.ServeFile: the name is computed as `DownloadName`, which
  `Browsing.DownloadNameIsLastPiece` proves equal to the last piece of the
  split path; the `len(s) > 0` test on that split always holds, so its
  empty branch has no counterpart.
- The debug dumps `PrintSessions` and `PrintAccessLog` are not modelled;
  they only format text for the log.
- Two routing facts are shown, not changed.
  - An administration path equal to "login_action" or to an icon file name
    hides that route behind the admin console (`Server.LoginRoute`,
    `Server.FaviconRoute`).
  - An administrator name containing ',' is never an administrator
    (`Wizard.SoleAdministrator`).
- One administration fact is shown, not changed: an empty or missing
  "admin_users" entry makes the anonymous user "" an administrator
  (`Admin.EmptyAdminListAdmitsAnonymous`). The wizard never writes an
  empty list, since it rejects an empty name; a hand edit or a console save
  of an empty list does.
