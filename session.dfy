/** The cookie-keyed session store. A process-wide map from session id to a
    stored session {id, expiry, items}; a request obtains a handle with
    GetSession (which first sweeps every expired session), reads and writes
    items on the handle, and writes the handle back with Save, which also
    produces the session cookie. The items of a session are one shared map:
    the handle and the stored record refer to the same object, so a Set on
    the handle is visible in the store before Save. Times are integers in
    seconds; `now` and the random bytes of new ids are supplied by the caller. */
module Sessions {
  import opened Wrappers

  /** defaultSessionExpireTime: 360 minutes. */
  const SessionLifetime: int := 360 * 60

  /** Expirate moves the expiry one hour into the past. */
  const ExpirateOffset: int := 60 * 60

  /** sessionCookieName */
  const SessionCookieName: string := "msessionid"

  /** The attributes of the cookie sent by Save (section 4.1 of RFC 6265:
      Set-Cookie with the Expires and Path attributes). */
  datatype Cookie = Cookie(name: string, value: string, expires: int, path: string)

  /** The item map of a session (a Go map, hence a shared reference). */
  class Items {
    var entries: map<string, string>

    constructor ()
      ensures entries == map[]
    {
      entries := map[];
    }
  }

  /** A session as the store keeps it: a copy of the Session struct, whose
      `items` still points at the same map as the handle it came from. */
  datatype Record = Record(id: string, expiry: int, items: Items)

  /** What the sweep of sessionGC leaves: the records whose expiry is not
      before `now`. */
  function Swept(sessions: map<string, Record>, now: int): map<string, Record> {
    map id | id in sessions && !(sessions[id].expiry < now) :: sessions[id]
  }

  // ---------------------------------------------------------------------------
  // randomSessionId
  // ---------------------------------------------------------------------------

  const HexDigits: string := "0123456789ABCDEF"

  /** fmt.Sprintf("%X", n) for a byte, padded with "0" to two digits. */
  function HexByte(n: int): (h: string)
    requires 0 <= n < 256
    ensures |h| == 2
  {
    var digits := if n < 16 then [HexDigits[n]] else [HexDigits[n / 16], HexDigits[n % 16]];
    if |digits| == 1 then "0" + digits else digits
  }

  /** The value of an upper-case hex digit. */
  function HexValue(c: char): (v: nat)
    requires c in HexDigits
    ensures v < 16 && HexDigits[v] == c
  {
    if '0' <= c <= '9' then c as int - '0' as int else c as int - 'A' as int + 10
  }

  /** Every byte is written as exactly two hex digits that read back as it. */
  lemma HexByteRoundTrip(n: int)
    requires 0 <= n < 256
    ensures |HexByte(n)| == 2
    ensures HexByte(n)[0] in HexDigits && HexByte(n)[1] in HexDigits
    ensures HexValue(HexByte(n)[0]) * 16 + HexValue(HexByte(n)[1]) == n
  {
    var h := HexByte(n);
    assert h[0] == HexDigits[n / 16] && h[1] == HexDigits[n % 16];
    assert HexValue(HexDigits[n / 16]) == n / 16 by {
      HexDigitsDistinct(n / 16);
    }
    assert HexValue(HexDigits[n % 16]) == n % 16 by {
      HexDigitsDistinct(n % 16);
    }
  }

  /** Each hex digit occurs once in HexDigits, so its value is its position. */
  lemma HexDigitsDistinct(d: nat)
    requires d < 16
    ensures HexValue(HexDigits[d]) == d
  {
  }

  /** The bytes written one after the other as two-digit hex: two
      upper-case hex digits per byte. */
  function HexString(bytes: seq<int>): (h: string)
    requires forall i :: 0 <= i < |bytes| ==> 0 <= bytes[i] < 256
    ensures |h| == 2 * |bytes|
    ensures forall i :: 0 <= i < |h| ==> h[i] in HexDigits
  {
    if bytes == [] then ""
    else
      var init, last := HexString(bytes[..|bytes| - 1]), HexByte(bytes[|bytes| - 1]);
      HexByteRoundTrip(bytes[|bytes| - 1]);
      assert forall i :: |init| <= i < |init| + 2 ==> (init + last)[i] == last[i - |init|];
      init + last
  }

  /** Digits 2j and 2j+1 of the hex string are the two digits of byte j. */
  lemma {:induction false} HexStringAt(bytes: seq<int>, j: nat)
    requires forall i :: 0 <= i < |bytes| ==> 0 <= bytes[i] < 256
    requires j < |bytes|
    ensures |HexString(bytes)| == 2 * |bytes|
    ensures HexString(bytes)[2 * j] == HexByte(bytes[j])[0]
    ensures HexString(bytes)[2 * j + 1] == HexByte(bytes[j])[1]
  {
    var n := |bytes| - 1;
    var init := bytes[..n];
    var h, h', last := HexString(bytes), HexString(init), HexByte(bytes[n]);
    assert h == h' + last;
    assert |h'| == 2 * n && |last| == 2;
    if j < n {
      HexStringAt(init, j);
      assert 2 * j + 1 < |h'|;
      assert init[j] == bytes[j];
    } else {
      assert 2 * j == |h'|;
    }
  }

  /** randomSessionId: `draws[i]` is the i-th value of rand.Intn(256); each is
      appended as two upper-case hex digits. */
  method RandomSessionId(draws: seq<int>) returns (id: string)
    requires |draws| == 32
    requires forall i :: 0 <= i < 32 ==> 0 <= draws[i] < 256
    ensures |id| == 64
    ensures forall i :: 0 <= i < 64 ==> id[i] in HexDigits
    ensures forall i :: 0 <= i < 32 ==> HexValue(id[2 * i]) * 16 + HexValue(id[2 * i + 1]) == draws[i]
  {
    id := "";
    var i := 0;
    while i < 32
      invariant 0 <= i <= 32
      invariant id == HexString(draws[..i])
    {
      var onebyte := HexByte(draws[i]);
      assert draws[..i + 1][..i] == draws[..i];
      id := id + onebyte;
      i := i + 1;
    }
    assert draws[..32] == draws;
    forall i | 0 <= i < 32
      ensures id[2 * i] in HexDigits && id[2 * i + 1] in HexDigits
      ensures HexValue(id[2 * i]) * 16 + HexValue(id[2 * i + 1]) == draws[i]
    {
      HexStringAt(draws, i);
      HexByteRoundTrip(draws[i]);
    }
  }

  // ---------------------------------------------------------------------------
  // The handle
  // ---------------------------------------------------------------------------

  /** Session: the handle a request works on. An empty id marks the zero
      value, on which Get, Set and Save do nothing. */
  class Session {
    var id: string
    var expiry: int
    var items: Items?

    ghost predicate Valid()
      reads this
    {
      id != "" ==> items != null
    }

    /** The zero value of the struct (`var s Session`). */
    constructor Zero()
      ensures Valid()
      ensures id == "" && expiry == 0 && items == null
    {
      id, expiry, items := "", 0, null;
    }

    /** Set: on a valid handle, renews the expiry and writes the item into
        the shared map; on an invalid one, does nothing. */
    method Set(key: string, value: string, now: int)
      requires Valid()
      modifies this, items
      ensures Valid() && id == old(id) && items == old(items)
      ensures id == "" ==> expiry == old(expiry) && (items != null ==> items.entries == old(items.entries))
      ensures id != "" ==> expiry == now + SessionLifetime
      ensures id != "" ==> items.entries == old(items.entries)[key := value]
    {
      if id != "" {
        expiry := now + SessionLifetime;
        items.entries := items.entries[key := value];
      }
    }

    /** Get: "" on an invalid handle; otherwise renews the expiry and returns
        the item, or "" when the key is absent. */
    method Get(key: string, now: int) returns (value: string)
      requires Valid()
      modifies this
      ensures Valid() && id == old(id) && items == old(items)
      ensures id == "" ==> value == "" && expiry == old(expiry)
      ensures id != "" ==> expiry == now + SessionLifetime
      ensures id != "" && key in items.entries ==> value == items.entries[key]
      ensures id != "" && key !in items.entries ==> value == ""
    {
      if id == "" {
        return "";
      }
      expiry := now + SessionLifetime;
      value := if key in items.entries then items.entries[key] else "";
    }

    /** Save: on a valid handle, stores the whole session under its id and
        returns the cookie to send; on an invalid one, nothing happens. */
    method Save(store: SessionStore) returns (cookie: Option<Cookie>)
      requires Valid() && store.Valid()
      modifies store
      ensures store.Valid()
      ensures id == "" ==> cookie == None && store.sessions == old(store.sessions)
      ensures id != "" ==> store.sessions == old(store.sessions)[id := Record(id, expiry, items)]
      ensures id != "" ==> cookie == Some(Cookie(SessionCookieName, id, expiry, "/"))
    {
      if id != "" {
        store.sessions := store.sessions[id := Record(id, expiry, items)];
        cookie := Some(Cookie(SessionCookieName, id, expiry, "/"));
      } else {
        cookie := None;
      }
    }

    /** Expirate: the expiry moves one hour before `now`. */
    method Expirate(now: int)
      modifies this
      ensures id == old(id) && items == old(items)
      ensures expiry == now - ExpirateOffset
    {
      expiry := now - ExpirateOffset;
    }
  }

  // ---------------------------------------------------------------------------
  // The store
  // ---------------------------------------------------------------------------

  /** The process-wide `sessions` map. */
  class SessionStore {
    var sessions: map<string, Record>

    /** Every record is stored under its own, non-empty id. */
    ghost predicate Valid()
      reads this
    {
      forall id :: id in sessions ==> id != "" && sessions[id].id == id
    }

    constructor ()
      ensures Valid() && sessions == map[]
    {
      sessions := map[];
    }

    /** The item maps the stored sessions refer to. */
    ghost function ItemObjects(): set<Items>
      reads this
    {
      set id | id in sessions :: sessions[id].items
    }

    /** sessionGC: deletes, one id at a time, every expired session. */
    method SessionGC(now: int)
      requires Valid()
      modifies this
      ensures Valid()
      ensures sessions == Swept(old(sessions), now)
    {
      ghost var sessions0 := sessions;
      var todo := sessions.Keys;
      while todo != {}
        invariant todo <= sessions0.Keys
        invariant sessions == map id | id in sessions0 && (id in todo || !(sessions0[id].expiry < now)) :: sessions0[id]
        decreases |todo|
      {
        var id :| id in todo;
        if sessions[id].expiry < now {
          sessions := sessions - {id};
        }
        todo := todo - {id};
      }
    }

    /** buildNewSession: a fresh id, a fresh empty item map, the expiry
        renewed; the new session is stored at once. */
    method BuildNewSession(s: Session, now: int, draws: seq<int>)
      requires Valid()
      requires |draws| == 32 && forall i :: 0 <= i < 32 ==> 0 <= draws[i] < 256
      modifies this, s
      ensures Valid() && s.Valid()
      ensures |s.id| == 64 && forall i :: 0 <= i < 64 ==> s.id[i] in HexDigits
      ensures s.expiry == now + SessionLifetime
      ensures s.items != null && fresh(s.items) && s.items.entries == map[]
      ensures sessions == old(sessions)[s.id := Record(s.id, s.expiry, s.items)]
    {
      s.id := RandomSessionId(draws);
      s.expiry := now + SessionLifetime;
      s.items := new Items();
      sessions := sessions[s.id := Record(s.id, s.expiry, s.items)];
    }

    /** GetSession: sweep, then load the session the cookie names, or build a
        new one when there is no cookie or its id is not (or no longer)
        stored. A loaded session gets a renewed expiry on the handle only. */
    method GetSession(cookie: Option<string>, now: int, draws: seq<int>) returns (s: Session)
      requires Valid()
      requires |draws| == 32 && forall i :: 0 <= i < 32 ==> 0 <= draws[i] < 256
      modifies this
      ensures Valid() && fresh(s) && s.Valid()
      ensures s.id != "" && s.items != null
      ensures s.items in old(ItemObjects()) || fresh(s.items)
      ensures s.expiry == now + SessionLifetime
      ensures forall id :: id in sessions ==> sessions[id].expiry >= now
      ensures cookie.Some? && cookie.value in Swept(old(sessions), now) ==>
        && sessions == Swept(old(sessions), now)
        && s.id == cookie.value
        && s.items == sessions[s.id].items
      ensures !(cookie.Some? && cookie.value in Swept(old(sessions), now)) ==>
        && |s.id| == 64
        && fresh(s.items) && s.items.entries == map[]
        && sessions == Swept(old(sessions), now)[s.id := Record(s.id, now + SessionLifetime, s.items)]
    {
      SessionGC(now);
      s := new Session.Zero();
      if cookie.None? {
        BuildNewSession(s, now, draws);
      } else if cookie.value !in sessions {
        BuildNewSession(s, now, draws);
      } else {
        var stored := sessions[cookie.value];
        s.id, s.expiry, s.items := stored.id, stored.expiry, stored.items;
        s.expiry := now + SessionLifetime;
      }
    }
  }

  // ---------------------------------------------------------------------------
  // Properties of the sweep
  // ---------------------------------------------------------------------------

  /** The sweep only deletes, keeps every live session unchanged, and leaves
      no session that expired before `now`. */
  lemma SweptKeepsExactlyLive(sessions: map<string, Record>, now: int)
    ensures Swept(sessions, now).Keys <= sessions.Keys
    ensures forall id :: id in sessions && sessions[id].expiry >= now ==>
      id in Swept(sessions, now) && Swept(sessions, now)[id] == sessions[id]
    ensures forall id :: id in Swept(sessions, now) ==> Swept(sessions, now)[id].expiry >= now
  {
  }

  /** A session saved after Expirate at time t is swept by any later
      GetSession, so its old cookie leads to a new session. */
  lemma ExpiratedIsSwept(sessions: map<string, Record>, id: string, t: int, now: int)
    requires id in sessions && sessions[id].expiry == t - ExpirateOffset
    requires t <= now
    ensures id !in Swept(sessions, now)
  {
  }

  /** A session saved at time t survives every sweep up to its lifetime. */
  lemma SavedSurvivesLifetime(sessions: map<string, Record>, id: string, t: int, now: int)
    requires id in sessions && sessions[id].expiry == t + SessionLifetime
    requires now <= t + SessionLifetime
    ensures id in Swept(sessions, now) && Swept(sessions, now)[id] == sessions[id]
  {
  }

  // ---------------------------------------------------------------------------
  // Round trips through the store
  // ---------------------------------------------------------------------------

  /** A request that stores one item: load the session the cookie names (or
      build a new one), set the item, save the session and send its cookie. */
  method StoreItem(store: SessionStore, cookie: Option<string>, key: string, value: string,
                   now: int, draws: seq<int>)
    returns (sent: Option<Cookie>)
    requires store.Valid()
    requires |draws| == 32 && forall i :: 0 <= i < 32 ==> 0 <= draws[i] < 256
    modifies store, store.ItemObjects()
    ensures store.Valid()
    ensures sent.Some? && sent.value == Cookie(SessionCookieName, sent.value.value, now + SessionLifetime, "/")
    ensures sent.value.value in store.sessions
    ensures store.sessions[sent.value.value].expiry == now + SessionLifetime
    ensures key in store.sessions[sent.value.value].items.entries
    ensures store.sessions[sent.value.value].items.entries[key] == value
    ensures store.sessions == Swept(old(store.sessions), now)[sent.value.value := store.sessions[sent.value.value]]
    ensures cookie.Some? && cookie.value in Swept(old(store.sessions), now) ==>
      && sent.value.value == cookie.value
      && store.sessions[cookie.value].items.entries == old(store.sessions[cookie.value].items.entries)[key := value]
    ensures !(cookie.Some? && cookie.value in Swept(old(store.sessions), now)) ==>
      store.sessions[sent.value.value].items.entries == map[key := value]
  {
    var s := store.GetSession(cookie, now, draws);
    s.Set(key, value, now);
    sent := s.Save(store);
  }

  /** An item set and saved in one request is read back by a later request
      that presents the cookie, as long as the session has not expired. */
  method SetSaveReload(store: SessionStore, cookie: Option<string>, key: string, value: string,
                       now: int, later: int, draws: seq<int>, laterDraws: seq<int>)
    returns (sent: Option<Cookie>, got: string)
    requires store.Valid()
    requires |draws| == 32 && forall i :: 0 <= i < 32 ==> 0 <= draws[i] < 256
    requires |laterDraws| == 32 && forall i :: 0 <= i < 32 ==> 0 <= laterDraws[i] < 256
    requires now <= later <= now + SessionLifetime
    modifies store, store.ItemObjects()
    ensures store.Valid()
    ensures sent.Some? && sent.value.name == SessionCookieName && sent.value.path == "/"
    ensures got == value
  {
    sent := StoreItem(store, cookie, key, value, now, draws);
    var s2 := store.GetSession(Some(sent.value.value), later, laterDraws);
    got := s2.Get(key, later);
  }

  /** After Expirate and Save, the cookie no longer names a session: the
      next request gets a fresh, empty one. */
  method ExpirateSaveReload(store: SessionStore, cookie: Option<string>, now: int, later: int,
                            draws: seq<int>, laterDraws: seq<int>)
    returns (sent: Option<Cookie>, next: Session)
    requires store.Valid()
    requires |draws| == 32 && forall i :: 0 <= i < 32 ==> 0 <= draws[i] < 256
    requires |laterDraws| == 32 && forall i :: 0 <= i < 32 ==> 0 <= laterDraws[i] < 256
    requires now <= later
    modifies store
    ensures store.Valid()
    ensures sent.Some? && sent.value.expires == now - ExpirateOffset
    ensures next.items != null && fresh(next.items) && next.items.entries == map[]
  {
    var s := store.GetSession(cookie, now, draws);
    s.Expirate(now);
    sent := s.Save(store);
    ExpiratedIsSwept(store.sessions, s.id, now, later);
    next := store.GetSession(Some(sent.value.value), later, laterDraws);
  }
}
