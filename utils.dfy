/** The helpers of the server's utility package: the password digest (kept
    opaque), random identifiers built from supplied random draws, the
    separator conversion, the line-ending trimming of console input, the
    integer branch of the file-size formatter and the naming of directories
    found under the published root. */
module Utils {
  import opened Text
  import opened Decimal
  import opened Wrappers

  /** A SHA-256 digest (FIPS 180-4) written as 64 lower-case hex digits,
      the shape of HashPassword's result. */
  type Digest = s: string | |s| == 64 && forall i :: 0 <= i < |s| ==> s[i] in "0123456789abcdef"
    witness seq(64, _ => '0')

  /** HashPassword, as an opaque function supplied by the caller. */
  type HashFn = string -> Digest

  /** The digest of any password is never the empty string; a user name that
      is not in the user table (which reads as "") can therefore never match. */
  lemma DigestNeverEmpty(hash: HashFn, password: string)
    ensures hash(password) != ""
  {
    assert |hash(password)| == 64;
  }

  /** The 62 runes RandomId draws from. */
  const IdAlphabet: string := "abcdefghijklmnopqrstuvwxyzABCDEFGHIJKLMNOPQRSTUVWXYZ0123456789"

  /** RandomId(length): `draws[i]` is the i-th value of rand.Intn(62). The
      runes are collected in an array of the requested length and then turned
      into a string. */
  method RandomId(length: nat, draws: seq<int>) returns (id: string)
    requires |draws| == length
    requires forall i :: 0 <= i < length ==> 0 <= draws[i] < |IdAlphabet|
    ensures |id| == length
    ensures forall i :: 0 <= i < length ==> id[i] == IdAlphabet[draws[i]]
    ensures forall i :: 0 <= i < length ==> id[i] in IdAlphabet
  {
    var runes := new char[length];
    var i := 0;
    while i < length
      invariant 0 <= i <= length
      invariant forall j :: 0 <= j < i ==> runes[j] == IdAlphabet[draws[j]]
    {
      runes[i] := IdAlphabet[draws[i]];
      i := i + 1;
    }
    id := runes[..];
  }

  /** BackToForwardSlashes: every backslash becomes a slash. */
  function BackToForwardSlashes(s: string): (r: string)
    ensures |r| == |s|
    ensures '\\' !in r
    ensures forall i :: 0 <= i < |s| && s[i] != '\\' ==> r[i] == s[i]
    ensures forall i :: 0 <= i < |s| && s[i] == '\\' ==> r[i] == '/'
  {
    seq(|s|, i requires 0 <= i < |s| => if s[i] == '\\' then '/' else s[i])
  }

  /** Converting twice is converting once. */
  lemma BackToForwardSlashesIdempotent(s: string)
    ensures BackToForwardSlashes(BackToForwardSlashes(s)) == BackToForwardSlashes(s)
  {
  }

  /** The trimming at the end of ReadStdinLine: one trailing '\n' is dropped,
      then one trailing '\r'. */
  method TrimLineEnding(line: string) returns (input: string)
    ensures input <= line
    ensures |line| >= 2 && line[|line| - 2] == '\r' && line[|line| - 1] == '\n' ==> |input| == |line| - 2
    ensures |line| >= 1 && line[|line| - 1] == '\n' && !(|line| >= 2 && line[|line| - 2] == '\r') ==> |input| == |line| - 1
    ensures |line| >= 1 && line[|line| - 1] == '\r' ==> |input| == |line| - 1
    ensures |line| >= 1 && line[|line| - 1] != '\n' && line[|line| - 1] != '\r' ==> input == line
  {
    input := line;
    if |input| > 0 && input[|input| - 1] == '\n' {
      input := input[..|input| - 1];
    }
    if |input| > 0 && input[|input| - 1] == '\r' {
      input := input[..|input| - 1];
    }
  }

  /** The branch of FormatFileSize taken for sizes below 10000: the size in
      decimal followed by " bytes"; the number can be read back. */
  function FormatFileSize(size: int): (r: string)
    requires MinInt64 <= size < 10000
    ensures HasSuffix(r, " bytes")
    ensures Atoi(r[..|r| - 6]) == Some(size)
    ensures size >= 0 ==> AllDigits(r[..|r| - 6]) && (|r| == 7 || r[0] != '0')
    ensures size < 0 ==> r[0] == '-'
  {
    var digits := FormatInt(size);
    var r := digits + " bytes";
    assert r[..|r| - 6] == digits;
    assert r[0] == digits[0];
    AtoiFormatInt(size);
    r
  }

  /** The name DirTree gives a directory found at `path` (a path other than
      the root itself) under `root`: the first |root| characters are cut
      off, then one leading '/' or '\\', and backslashes become slashes. The
      cut and the test of its first character do not look at what is cut:
      None stands for the index panic when nothing is left after the cut. */
  function DirName(root: string, path: string): (name: Option<string>)
    requires path != root
    ensures name.None? <==> |path| <= |root|
    ensures name.Some? ==> '\\' !in name.value && HasSuffix(BackToForwardSlashes(path), name.value)
    ensures name.Some? ==>
      (|name.value| == |path| - |root| - 1 <==> path[|root|] == '/' || path[|root|] == '\\')
    ensures name.Some? ==> |path| - |root| - 1 <= |name.value| <= |path| - |root|
  {
    if |path| <= |root| then None
    else
      var rest := path[|root|..];
      var dirname := if rest[0] == '/' || rest[0] == '\\' then rest[1..] else rest;
      assert BackToForwardSlashes(path)[|path| - |dirname|..] == BackToForwardSlashes(dirname);
      Some(BackToForwardSlashes(dirname))
  }

  /** A directory named `child` under `root` (joined with either separator)
      gets back the name `child`, with slashes. */
  lemma DirNameOfJoin(root: string, sep: char, child: string)
    requires sep == '/' || sep == '\\'
    requires child != [] && child[0] != '/' && child[0] != '\\'
    ensures DirName(root, root + [sep] + child) == Some(BackToForwardSlashes(child))
    ensures DirName(root, root + child) == Some(BackToForwardSlashes(child))
  {
    assert (root + [sep] + child)[|root|..] == [sep] + child;
    assert ([sep] + child)[1..] == child;
    assert (root + child)[|root|..] == child;
  }

  /** filepath.Walk hands over cleaned paths: under the root "./pub" a
      subdirectory "a" arrives as "pub/a", which is no longer than the root,
      so the cut leaves nothing and the first-character test panics; a
      subdirectory "ab" is named "b". */
  lemma DirNameUncleanRoot()
    ensures DirName("./pub", "pub/a") == None
    ensures DirName("./pub", "pub/ab") == Some("b")
  {
    var rest := "pub/ab"[|"./pub"|..];
    assert rest == "b";
    assert DirName("./pub", "pub/ab") == Some(BackToForwardSlashes(rest));
    assert BackToForwardSlashes(rest) == "b";
  }
}
