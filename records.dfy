/** The conversion the three persistence files share: a string-to-string
    table is written as a list of two-field records, one per entry in the
    table's iteration order, and read back by storing every record in turn
    into an empty table, so that a later record for the same key wins. */
module RecordLists {
  import opened Sets

  /** A record as a (key, value) pair. */
  type Pair = (string, string)

  /** The keys of a record list. */
  function KeySet(list: seq<Pair>): set<string>
  {
    set i | 0 <= i < |list| :: list[i].0
  }

  /** No two records of the list share a key. */
  predicate DistinctKeys(list: seq<Pair>)
  {
    forall i, j :: 0 <= i < j < |list| ==> list[i].0 != list[j].0
  }

  /** `list` holds every entry of `m` once, in some order, and nothing else. */
  predicate Lists(list: seq<Pair>, m: map<string, string>)
  {
    && |list| == |m|
    && DistinctKeys(list)
    && forall i :: 0 <= i < |list| ==> list[i].0 in m && m[list[i].0] == list[i].1
  }

  /** The table a record list reads as. */
  function Collected(list: seq<Pair>): map<string, string>
  {
    if list == [] then map[]
    else Collected(list[..|list| - 1])[list[|list| - 1].0 := list[|list| - 1].1]
  }

  /** The writing loop: one record per entry, in the table's (arbitrary)
      iteration order. */
  method Flatten(m: map<string, string>) returns (list: seq<Pair>)
    ensures Lists(list, m)
  {
    list := [];
    var todo := m.Keys;
    while todo != {}
      invariant todo <= m.Keys
      invariant |list| + |todo| == |m.Keys|
      invariant DistinctKeys(list)
      invariant forall i :: 0 <= i < |list| ==> list[i].0 in m && list[i].0 !in todo && m[list[i].0] == list[i].1
      decreases |todo|
    {
      var k :| k in todo;
      list := list + [(k, m[k])];
      todo := todo - {k};
    }
  }

  /** The reading loop: every record in turn is stored into the table. */
  method Collect(list: seq<Pair>) returns (m: map<string, string>)
    ensures m == Collected(list)
    ensures m.Keys == KeySet(list)
  {
    m := map[];
    var i := 0;
    while i < |list|
      invariant 0 <= i <= |list|
      invariant m == Collected(list[..i])
    {
      assert list[..i + 1][..i] == list[..i];
      m := m[list[i].0 := list[i].1];
      i := i + 1;
    }
    assert list[..|list|] == list;
    CollectedKeys(list);
  }

  // ---------------------------------------------------------------------------
  // Properties of reading
  // ---------------------------------------------------------------------------

  /** The table read from a list has exactly the list's keys. */
  lemma {:induction false} CollectedKeys(list: seq<Pair>)
    ensures Collected(list).Keys == KeySet(list)
  {
    if list != [] {
      var n := |list| - 1;
      CollectedKeys(list[..n]);
      assert KeySet(list) == KeySet(list[..n]) + {list[n].0} by {
        forall k | k in KeySet(list)
          ensures k in KeySet(list[..n]) + {list[n].0}
        {
          var i :| 0 <= i < |list| && list[i].0 == k;
          if i < n {
            assert list[..n][i] == list[i];
          }
        }
      }
    }
  }

  /** Each key reads as the value of its last record. */
  lemma {:induction false} CollectedLastWins(list: seq<Pair>, i: nat)
    requires i < |list|
    requires forall j :: i < j < |list| ==> list[j].0 != list[i].0
    ensures list[i].0 in Collected(list) && Collected(list)[list[i].0] == list[i].1
  {
    var n := |list| - 1;
    if i < n {
      CollectedLastWins(list[..n], i);
    }
  }

  /** An empty list reads as an empty table. */
  lemma CollectedEmpty(list: seq<Pair>)
    ensures Collected(list) == map[] <==> list == []
  {
    CollectedKeys(list);
    if list != [] {
      assert list[0].0 in KeySet(list);
    }
  }

  /** A list without repeated keys has as many keys as records. */
  lemma {:induction false} DistinctKeysCount(list: seq<Pair>)
    requires DistinctKeys(list)
    ensures |KeySet(list)| == |list|
  {
    if list != [] {
      var n := |list| - 1;
      DistinctKeysCount(list[..n]);
      assert KeySet(list) == KeySet(list[..n]) + {list[n].0} by {
        forall k | k in KeySet(list)
          ensures k in KeySet(list[..n]) + {list[n].0}
        {
          var i :| 0 <= i < |list| && list[i].0 == k;
          if i < n {
            assert list[..n][i] == list[i];
          }
        }
      }
      assert list[n].0 !in KeySet(list[..n]);
    }
  }

  /** Writing a table and reading the list back gives the table again. */
  lemma RoundTrip(list: seq<Pair>, m: map<string, string>)
    requires Lists(list, m)
    ensures Collected(list) == m
  {
    CollectedKeys(list);
    DistinctKeysCount(list);
    assert KeySet(list) <= m.Keys;
    SubsetOfEqualSize(KeySet(list), m.Keys);
    forall k | k in m
      ensures Collected(list)[k] == m[k]
    {
      var i :| 0 <= i < |list| && list[i].0 == k;
      CollectedLastWins(list, i);
    }
  }
}
