/** The part of Go's `strings` package that the server relies on, stated on
    strings as sequences of runes: prefix and suffix tests, splitting on a
    one-character separator (and its inverse, joining), the last index of a
    character, lower-casing, case-insensitive comparison against a lower-case
    ASCII word, and the "trim trailing separators" loop that several handlers
    write out by hand. */
module Text {

  /** strings.HasPrefix: a raw prefix test, blind to path segments. */
  predicate HasPrefix(s: string, prefix: string) {
    prefix <= s
  }

  /** strings.HasSuffix */
  predicate HasSuffix(s: string, suffix: string) {
    |suffix| <= |s| && s[|s| - |suffix|..] == suffix
  }

  /** A read of a Go map of strings: a missing key reads as "". */
  function Lookup(m: map<string, string>, key: string): string {
    if key in m then m[key] else ""
  }

  // ---------------------------------------------------------------------------
  // Split and Join
  // ---------------------------------------------------------------------------

  /** strings.Split(s, string(sep)): the pieces between separators, in order.
      Splitting "" gives [""], and every separator produces a boundary, so
      empty pieces appear for leading, trailing or doubled separators. */
  function Split(s: string, sep: char): (parts: seq<string>)
    ensures |parts| >= 1
    ensures forall i :: 0 <= i < |parts| ==> sep !in parts[i]
    decreases |s|
  {
    if s == [] then [""]
    else
      var rest := Split(s[1..], sep);
      if s[0] == sep then [""] + rest
      else [[s[0]] + rest[0]] + rest[1..]
  }

  /** strings.Join(parts, string(sep)) for a non-empty list of pieces. */
  function Join(parts: seq<string>, sep: char): string
    requires |parts| >= 1
  {
    if |parts| == 1 then parts[0] else parts[0] + [sep] + Join(parts[1..], sep)
  }

  /** Joining the pieces of a split gives back the original string. */
  lemma {:induction false} JoinSplit(s: string, sep: char)
    ensures Join(Split(s, sep), sep) == s
    decreases |s|
  {
    if s != [] {
      JoinSplit(s[1..], sep);
      var rest := Split(s[1..], sep);
      if s[0] == sep {
        assert Split(s, sep) == [""] + rest;
        assert ([""] + rest)[1..] == rest;
      } else {
        var parts := Split(s, sep);
        assert parts == [[s[0]] + rest[0]] + rest[1..];
        if |rest| == 1 {
          assert parts == [[s[0]] + rest[0]];
        } else {
          assert parts[1..] == rest[1..];
          assert Join(rest, sep) == rest[0] + [sep] + Join(rest[1..], sep);
        }
      }
    }
  }

  /** Splitting a join of separator-free pieces gives back the pieces. */
  lemma {:induction false} SplitJoin(parts: seq<string>, sep: char)
    requires |parts| >= 1
    requires forall i :: 0 <= i < |parts| ==> sep !in parts[i]
    ensures Split(Join(parts, sep), sep) == parts
    decreases |parts|, |parts[0]|
  {
    var p := parts[0];
    if p == [] {
      if |parts| > 1 {
        SplitJoin(parts[1..], sep);
        var s := Join(parts, sep);
        assert s == [sep] + Join(parts[1..], sep);
        assert s[1..] == Join(parts[1..], sep);
        assert [""] + parts[1..] == parts;
      }
    } else {
      var parts' := [p[1..]] + parts[1..];
      assert parts'[1..] == parts[1..];
      assert forall i :: 0 <= i < |parts'| ==> sep !in parts'[i];
      SplitJoin(parts', sep);
      var s := Join(parts, sep);
      if |parts| == 1 {
        assert s == p;
        assert s[1..] == Join(parts', sep);
      } else {
        assert s == p + [sep] + Join(parts[1..], sep);
        assert s[1..] == p[1..] + [sep] + Join(parts[1..], sep);
        assert s[1..] == Join(parts', sep);
      }
      assert s[0] == p[0];
      var rest := Split(s[1..], sep);
      assert rest == parts';
      assert [p[0]] + p[1..] == p;
      assert [[p[0]] + p[1..]] + parts[1..] == parts;
    }
  }

  /** A string without the separator splits into itself alone. */
  lemma {:induction false} SplitWithoutSeparator(s: string, sep: char)
    requires sep !in s
    ensures Split(s, sep) == [s]
  {
    SplitJoin([s], sep);
  }

  /** A trailing separator adds one empty piece at the end: a comma list
      written "alice," therefore grants the anonymous user name "". */
  lemma {:induction false} SplitTrailingSeparator(s: string, sep: char)
    ensures Split(s + [sep], sep) == Split(s, sep) + [""]
    decreases |s|
  {
    if s == [] {
      assert [sep][1..] == [];
    } else {
      SplitTrailingSeparator(s[1..], sep);
      assert (s + [sep])[1..] == s[1..] + [sep];
      var rest := Split(s[1..], sep);
      if s[0] != sep {
        assert (rest + [""])[1..] == rest[1..] + [""];
      }
    }
  }

  // ---------------------------------------------------------------------------
  // Searching
  // ---------------------------------------------------------------------------

  /** strings.LastIndex(s, string(c)): the last position of c in s, or -1. */
  function LastIndex(s: string, c: char): (i: int)
    ensures -1 <= i < |s|
    ensures i == -1 <==> c !in s
    ensures i >= 0 ==> s[i] == c && c !in s[i + 1..]
  {
    if s == [] then -1
    else if s[|s| - 1] == c then |s| - 1
    else
      var j := LastIndex(s[..|s| - 1], c);
      assert s == s[..|s| - 1] + [s[|s| - 1]];
      j
  }

  /** A position holding c with no c after it is the last index of c. */
  lemma LastIndexAt(s: string, c: char, i: nat)
    requires i < |s| && s[i] == c && c !in s[i + 1..]
    ensures LastIndex(s, c) == i
  {
  }

  /** The last piece of a split is what follows the last separator. */
  lemma {:induction false} SplitLastPiece(s: string, sep: char)
    ensures Split(s, sep)[|Split(s, sep)| - 1] == s[LastIndex(s, sep) + 1..]
    decreases |s|
  {
    if s != [] {
      var j := LastIndex(s[1..], sep);
      SplitLastPiece(s[1..], sep);
      if j >= 0 {
        SplitLastAfterSeparator(s, sep, j);
      } else if s[0] == sep {
        SplitLastLeadingSeparator(s, sep);
      } else {
        SplitLastNoSeparator(s, sep);
      }
    }
  }

  /** The step of SplitLastPiece where s holds no separator. */
  lemma SplitLastNoSeparator(s: string, sep: char)
    requires sep !in s
    ensures Split(s, sep)[|Split(s, sep)| - 1] == s[LastIndex(s, sep) + 1..]
  {
    SplitWithoutSeparator(s, sep);
  }

  /** The step of SplitLastPiece where the only separator leads s. */
  lemma SplitLastLeadingSeparator(s: string, sep: char)
    requires s != [] && s[0] == sep && sep !in s[1..]
    ensures Split(s, sep)[|Split(s, sep)| - 1] == s[LastIndex(s, sep) + 1..]
  {
    LastIndexAt(s, sep, 0);
    SplitWithoutSeparator(s[1..], sep);
  }

  /** A string holding the separator splits into two pieces or more. */
  lemma {:induction false} SplitSeveralPieces(s: string, sep: char)
    requires sep in s
    ensures |Split(s, sep)| >= 2
    decreases |s|
  {
    if s[0] != sep {
      SplitSeveralPieces(s[1..], sep);
    }
  }

  /** When the tail of s holds the separator, the last piece of s is the
      last piece of its tail. */
  lemma SplitLastOfTail(s: string, sep: char)
    requires s != [] && sep in s[1..]
    ensures Split(s, sep)[|Split(s, sep)| - 1] == Split(s[1..], sep)[|Split(s[1..], sep)| - 1]
  {
    var rest := Split(s[1..], sep);
    SplitSeveralPieces(s[1..], sep);
    if s[0] == sep {
      assert Split(s, sep) == [""] + rest;
    } else {
      assert Split(s, sep) == [[s[0]] + rest[0]] + rest[1..];
    }
  }

  /** A separator in the tail of s is found one place further in s. */
  lemma LastIndexInTail(s: string, sep: char)
    requires s != [] && LastIndex(s[1..], sep) >= 0
    ensures LastIndex(s, sep) == LastIndex(s[1..], sep) + 1
  {
    var j := LastIndex(s[1..], sep);
    assert s[1..][j + 1..] == s[j + 2..];
    LastIndexAt(s, sep, j + 1);
  }

  /** The step of SplitLastPiece where the tail of s holds a separator. */
  lemma SplitLastAfterSeparator(s: string, sep: char, j: int)
    requires s != [] && j == LastIndex(s[1..], sep) && j >= 0
    requires Split(s[1..], sep)[|Split(s[1..], sep)| - 1] == s[1..][j + 1..]
    ensures Split(s, sep)[|Split(s, sep)| - 1] == s[LastIndex(s, sep) + 1..]
  {
    LastIndexInTail(s, sep);
    SplitLastOfTail(s, sep);
    assert s[1..][j + 1..] == s[j + 2..];
  }

  /** The loop that looks a name up in a comma-separated list
      ("for _, u := range strings.Split(list, ",") { if name == u { ...; break } }").
      It is the admin test of verifyLoggedUser and the grant test of the
      privacy check alike. */
  method InCommaList(name: string, list: string) returns (found: bool)
    ensures found <==> name in Split(list, ',')
  {
    var pieces := Split(list, ',');
    found := false;
    var i := 0;
    while i < |pieces|
      invariant 0 <= i <= |pieces|
      invariant !found
      invariant name !in pieces[..i]
    {
      if pieces[i] == name {
        found := true;
        break;
      }
      i := i + 1;
    }
    assert !found ==> pieces[..|pieces|] == pieces;
  }

  // ---------------------------------------------------------------------------
  // Case
  // ---------------------------------------------------------------------------

  /** Lower-casing of a single ASCII letter; other runes are left alone. */
  function LowerChar(c: char): (d: char)
    ensures 'A' <= c <= 'Z' ==> d as int == c as int + 32
    ensures !('A' <= c <= 'Z') ==> d == c
  {
    if 'A' <= c <= 'Z' then (c as int + 32) as char else c
  }

  /** strings.ToLower, on ASCII letters. */
  function ToLower(s: string): (r: string)
    ensures |r| == |s|
    ensures forall i :: 0 <= i < |s| ==> r[i] == LowerChar(s[i])
  {
    seq(|s|, i requires 0 <= i < |s| => LowerChar(s[i]))
  }

  /** Lower-casing twice is lower-casing once. */
  lemma ToLowerIdempotent(s: string)
    ensures ToLower(ToLower(s)) == ToLower(s)
  {
  }

  /** The runes that Unicode simple case folding puts in the same orbit as the
      lower-case ASCII letter `lower`: the letter itself, its upper-case form,
      and for 's' and 'k' the long s (U+017F) and the Kelvin sign (U+212A). */
  predicate FoldsTo(c: char, lower: char)
    requires 'a' <= lower <= 'z'
  {
    c == lower || c as int == lower as int - 32 ||
    (lower == 's' && c == '\U{017F}') || (lower == 'k' && c == '\U{212A}')
  }

  /** strings.EqualFold(s, word) for a lower-case ASCII word. */
  predicate EqualFold(s: string, word: string)
    requires forall i :: 0 <= i < |word| ==> 'a' <= word[i] <= 'z'
  {
    |s| == |word| && forall i :: 0 <= i < |s| ==> FoldsTo(s[i], word[i])
  }

  // ---------------------------------------------------------------------------
  // Trimming
  // ---------------------------------------------------------------------------

  /** `r` is `s` with its whole trailing run of runes from `cut` removed. */
  ghost predicate TrimmedOf(r: string, s: string, cut: set<char>) {
    && r <= s
    && (r == [] || r[|r| - 1] !in cut)
    && forall i :: |r| <= i < |s| ==> s[i] in cut
  }

  /** The trimmed form of `s`, as a value. */
  function TrimRight(s: string, cut: set<char>): (r: string)
    ensures TrimmedOf(r, s, cut)
  {
    if s != [] && s[|s| - 1] in cut then TrimRight(s[..|s| - 1], cut) else s
  }

  /** "for strings.HasSuffix(p, "/") { p = p[0:len(p)-1] }", with the set of
      runes that count as a trailing separator as a parameter. */
  method TrimTrailing(s: string, cut: set<char>) returns (r: string)
    ensures TrimmedOf(r, s, cut)
    ensures r == TrimRight(s, cut)
  {
    r := s;
    while |r| > 0 && r[|r| - 1] in cut
      invariant r <= s
      invariant forall i :: |r| <= i < |s| ==> s[i] in cut
    {
      r := r[..|r| - 1];
    }
    TrimmedUnique(r, TrimRight(s, cut), s, cut);
  }

  /** Trimming has exactly one outcome. */
  lemma TrimmedUnique(r1: string, r2: string, s: string, cut: set<char>)
    requires TrimmedOf(r1, s, cut) && TrimmedOf(r2, s, cut)
    ensures r1 == r2
  {
  }

  /** Trimming a trimmed string changes nothing. */
  lemma TrimmedIdempotent(r: string, s: string, cut: set<char>)
    requires TrimmedOf(r, s, cut)
    ensures TrimmedOf(r, r, cut)
  {
  }
}
