/** Persistence of the user table: every user is written as a
    {username, password digest} record and the records are read back into
    a table, a later record for the same user winning. */
module DaoUsers {
  import opened RecordLists

  /** JsonUser: one user and the digest of the user's password. */
  datatype JsonUser = JsonUser(username: string, password: string)

  /** The records as (key, value) pairs. */
  function PairsOf(list: seq<JsonUser>): (pairs: seq<Pair>)
    ensures |pairs| == |list|
    ensures forall i :: 0 <= i < |list| ==> pairs[i] == (list[i].username, list[i].password)
  {
    seq(|list|, i requires 0 <= i < |list| => (list[i].username, list[i].password))
  }

  /** WriteUsersJson, up to the JSON encoding: one record per user. */
  method WriteUsers(users: map<string, string>) returns (list: seq<JsonUser>)
    ensures Lists(PairsOf(list), users)
  {
    var pairs := Flatten(users);
    list := seq(|pairs|, i requires 0 <= i < |pairs| => JsonUser(pairs[i].0, pairs[i].1));
    assert PairsOf(list) == pairs;
  }

  /** ReadUsers, after the JSON decoding. */
  method ReadUsers(list: seq<JsonUser>) returns (users: map<string, string>)
    ensures users == Collected(PairsOf(list))
    ensures users.Keys == set i | 0 <= i < |list| :: list[i].username
  {
    users := Collect(PairsOf(list));
  }

  /** The user table survives a write and a read. */
  lemma UsersRoundTrip(list: seq<JsonUser>, users: map<string, string>)
    requires Lists(PairsOf(list), users)
    ensures Collected(PairsOf(list)) == users
  {
    RoundTrip(PairsOf(list), users);
  }

  /** A user reads as the digest of the user's last record. */
  lemma LastUserRecordWins(list: seq<JsonUser>, i: nat)
    requires i < |list|
    requires forall j :: i < j < |list| ==> list[j].username != list[i].username
    ensures list[i].username in Collected(PairsOf(list))
    ensures Collected(PairsOf(list))[list[i].username] == list[i].password
  {
    CollectedLastWins(PairsOf(list), i);
  }
}
