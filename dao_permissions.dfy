/** Persistence of the private-directory table: every private directory is
    written as a {directory, userlist} record and the records are read back
    into a table, a later record for the same directory winning. */
module DaoPermissions {
  import opened RecordLists

  /** JsonPermission: a private directory and its comma-separated users. */
  datatype JsonPermission = JsonPermission(directory: string, userlist: string)

  /** The records as (key, value) pairs. */
  function PairsOf(list: seq<JsonPermission>): (pairs: seq<Pair>)
    ensures |pairs| == |list|
    ensures forall i :: 0 <= i < |list| ==> pairs[i] == (list[i].directory, list[i].userlist)
  {
    seq(|list|, i requires 0 <= i < |list| => (list[i].directory, list[i].userlist))
  }

  /** ReadPermissions, after the JSON decoding. */
  method ReadPermissions(list: seq<JsonPermission>) returns (permissions: map<string, string>)
    ensures permissions == Collected(PairsOf(list))
    ensures permissions.Keys == set i | 0 <= i < |list| :: list[i].directory
  {
    permissions := Collect(PairsOf(list));
  }

  /** WritePermissionsJson, up to the JSON encoding: one record per private
      directory. */
  method WritePermissions(permissions: map<string, string>) returns (list: seq<JsonPermission>)
    ensures Lists(PairsOf(list), permissions)
  {
    var pairs := Flatten(permissions);
    list := seq(|pairs|, i requires 0 <= i < |pairs| => JsonPermission(pairs[i].0, pairs[i].1));
    assert PairsOf(list) == pairs;
  }

  /** The permission table survives a write and a read. */
  lemma PermissionsRoundTrip(list: seq<JsonPermission>, permissions: map<string, string>)
    requires Lists(PairsOf(list), permissions)
    ensures Collected(PairsOf(list)) == permissions
  {
    RoundTrip(PairsOf(list), permissions);
  }

  /** A directory reads as the user list of its last record. */
  lemma LastPermissionRecordWins(list: seq<JsonPermission>, i: nat)
    requires i < |list|
    requires forall j :: i < j < |list| ==> list[j].directory != list[i].directory
    ensures list[i].directory in Collected(PairsOf(list))
    ensures Collected(PairsOf(list))[list[i].directory] == list[i].userlist
  {
    CollectedLastWins(PairsOf(list), i);
  }

  /** No records read as no private directory at all. */
  lemma EmptyPermissionsRead(list: seq<JsonPermission>)
    ensures Collected(PairsOf(list)) == map[] <==> list == []
  {
    CollectedEmpty(PairsOf(list));
  }
}
