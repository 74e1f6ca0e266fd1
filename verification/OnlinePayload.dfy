/**
The online-user payloads of node/user.go. A report goes through a list of users, a
synchronisation through a map of addresses; both end in a canonical form.
*/
module OnlinePayload {
  import opened Int64
  import opened Text
  import opened Ordering

  // ---------- addresses (common/netutil/ip.go) ----------

  const MAPPED := "::ffff:"

  predicate IsMapped(ip: string) {
    |ip| >= |MAPPED| && ip[..|MAPPED|] == MAPPED
  }

  /** Removes one IPv4-mapped prefix. */
  function NormalizeIP(ip: string): string {
    if IsMapped(ip) then ip[|MAPPED|..] else ip
  }

  /** One mapped prefix goes, and an address without one stays. */
  lemma NormalizeStripsOnePrefix(ip: string)
    ensures NormalizeIP("::ffff:" + ip) == ip
    ensures (|ip| < 7 || ip[..7] != "::ffff:") ==> NormalizeIP(ip) == ip
  {
    assert ("::ffff:" + ip)[..7] == "::ffff:" && ("::ffff:" + ip)[7..] == ip;
  }

  // ---------- what a payload says ----------

  datatype OnlineUser = OnlineUser(uid: int, ip: string)

  type IpMap = map<int, seq<string>>

  function SetOf(users: seq<OnlineUser>): set<OnlineUser> {
    set u | u in users
  }

  function PairsOf(data: IpMap): set<OnlineUser> {
    set uid, ip | uid in data && ip in data[uid] :: OnlineUser(uid, ip)
  }

  function Normal(u: OnlineUser): OnlineUser {
    OnlineUser(u.uid, NormalizeIP(u.ip))
  }

  /** The users online once addresses are normalised and the empty ones dropped. */
  function Normalised(s: set<OnlineUser>): set<OnlineUser> {
    set u | u in s && Normal(u).ip != "" :: Normal(u)
  }

  const PAIR_ORDER: (OnlineUser, OnlineUser) -> bool :=
    (a: OnlineUser, b: OnlineUser) => if a.uid != b.uid then a.uid < b.uid else Before(a.ip, b.ip)

  lemma PairOrderIsStrictTotal()
    ensures StrictTotal(PAIR_ORDER)
  {
    forall x: OnlineUser, y: OnlineUser
      ensures !PAIR_ORDER(x, x) && (x != y ==> PAIR_ORDER(x, y) || PAIR_ORDER(y, x))
    {
      BeforeIsTotal(x.ip, y.ip);
      BeforeIsTotal(x.ip, x.ip);
    }
    forall x: OnlineUser, y: OnlineUser, z: OnlineUser | PAIR_ORDER(x, y) && PAIR_ORDER(y, z)
      ensures PAIR_ORDER(x, z)
    {
      if x.uid == y.uid == z.uid {
        BeforeIsTransitive(x.ip, y.ip, z.ip);
      }
    }
  }

  /** A list in this order goes by id, and within one id by address. */
  lemma ListGoesByIdThenAddress(users: seq<OnlineUser>, i: nat, j: nat)
    requires Increasing(PAIR_ORDER, users) && i < j < |users|
    ensures users[i].uid < users[j].uid || (users[i].uid == users[j].uid && Before(users[i].ip, users[j].ip))
  {
  }

  /** Every user has addresses, each once and in increasing order. */
  ghost predicate Canonical(data: IpMap) {
    forall uid :: uid in data ==> data[uid] != [] && Increasing(STRING_ORDER, data[uid])
  }

  /** In a canonical map every list goes by address. */
  lemma MapGoesByAddress(data: IpMap, uid: int, i: nat, j: nat)
    requires Canonical(data) && uid in data && i < j < |data[uid]|
    ensures Before(data[uid][i], data[uid][j])
  {
  }

  // ---------- canonical forms are unique ----------

  /** A canonical list depends only on the set of its users, not on the order or repetition of the input. */
  lemma CanonicalListIsUnique(a: seq<OnlineUser>, b: seq<OnlineUser>)
    requires Increasing(PAIR_ORDER, a) && Increasing(PAIR_ORDER, b)
    ensures a == b <==> SetOf(a) == SetOf(b)
  {
    if SetOf(a) == SetOf(b) {
      forall u
        ensures u in a <==> u in b
      {
        assert u in SetOf(a) <==> u in SetOf(b);
      }
      PairOrderIsStrictTotal();
      IncreasingIsUnique(PAIR_ORDER, a, b);
    }
  }

  lemma CanonicalMapIsUnique(a: IpMap, b: IpMap)
    requires Canonical(a) && Canonical(b)
    ensures a == b <==> PairsOf(a) == PairsOf(b)
  {
    if PairsOf(a) == PairsOf(b) {
      StringOrderIsStrictTotal();
      forall uid
        ensures uid in a <==> uid in b
        ensures uid in a && uid in b ==> a[uid] == b[uid]
      {
        SameEntry(a, b, uid);
        SameEntry(b, a, uid);
        if uid in a && uid in b {
          IncreasingIsUnique(STRING_ORDER, a[uid], b[uid]);
        }
      }
    }
  }

  lemma SameEntry(a: IpMap, b: IpMap, uid: int)
    requires Canonical(a) && PairsOf(a) == PairsOf(b)
    ensures uid in a ==> uid in b && forall ip :: ip in a[uid] ==> ip in b[uid]
  {
    if uid in a {
      forall ip | ip in a[uid]
        ensures uid in b && ip in b[uid]
      {
        assert OnlineUser(uid, ip) in PairsOf(b);
      }
      assert a[uid][0] in a[uid];
    }
  }

  // ---------- the report path ----------

  method DedupeOnlineUsersByIP(users: seq<OnlineUser>) returns (result: seq<OnlineUser>)
    ensures Increasing(PAIR_ORDER, result)
    ensures SetOf(result) == Normalised(SetOf(users))
  {
    var seen: set<OnlineUser> := {};
    var found := [];
    for i := 0 to |users|
      invariant seen == Normalised(SetOf(users[..i]))
      invariant forall u :: u in found <==> u in seen
      invariant Distinct(found)
    {
      assert SetOf(users[..i + 1]) == SetOf(users[..i]) + {users[i]};
      var key := Normal(users[i]);
      if key.ip != "" && key !in seen {
        seen := seen + {key};
        found := found + [key];
      }
    }
    assert users[..|users|] == users;
    PairOrderIsStrictTotal();
    SortSorts(PAIR_ORDER, found);
    result := Sort(PAIR_ORDER, found);
  }

  // ---------- the map path ----------

  /** The table lists exactly the users seen, each address once, and no user without addresses. */
  ghost predicate Collected(table: IpMap, seen: set<OnlineUser>) {
    PairsOf(table) == seen && forall uid :: uid in table ==> table[uid] != [] && Distinct(table[uid])
  }

  function Listed(table: IpMap, uid: int): seq<string> {
    if uid in table then table[uid] else []
  }

  lemma CollectOne(table: IpMap, seen: set<OnlineUser>, u: OnlineUser)
    requires Collected(table, seen) && u !in seen
    ensures Collected(table[u.uid := Listed(table, u.uid) + [u.ip]], seen + {u})
  {
    var (have, list) := (Listed(table, u.uid), Listed(table, u.uid) + [u.ip]);
    assert u.ip !in have by {
      assert u.uid in table && u.ip in table[u.uid] ==> u in PairsOf(table);
    }
    var table' := table[u.uid := list];
    forall v
      ensures v in PairsOf(table') <==> v in seen + {u}
    {
      assert v in PairsOf(table') <==> v.uid in table' && v.ip in table'[v.uid];
      assert v in PairsOf(table) <==> v.uid in table && v.ip in table[v.uid];
    }
  }

  function Tagged(uid: int, ips: seq<string>): set<OnlineUser> {
    set ip | ip in ips :: OnlineUser(uid, ip)
  }

  method CollectUser(uid: int, ips: seq<string>, seen0: set<OnlineUser>, table0: IpMap)
    returns (seen: set<OnlineUser>, table: IpMap)
    requires Collected(table0, seen0)
    ensures Collected(table, seen) && seen == seen0 + Normalised(Tagged(uid, ips))
  {
    seen, table := seen0, table0;
    for i := 0 to |ips|
      invariant Collected(table, seen) && seen == seen0 + Normalised(Tagged(uid, ips[..i]))
    {
      assert Tagged(uid, ips[..i + 1]) == Tagged(uid, ips[..i]) + {OnlineUser(uid, ips[i])};
      var key := Normal(OnlineUser(uid, ips[i]));
      if key.ip != "" && key !in seen {
        CollectOne(table, seen, key);
        seen := seen + {key};
        table := table[uid := Listed(table, uid) + [key.ip]];
      }
    }
    assert ips[..|ips|] == ips;
  }

  /** The users of a map whose ids are in a list. */
  function PairsAmong(data: IpMap, uids: seq<int>): set<OnlineUser> {
    set u | u in PairsOf(data) && u.uid in uids
  }

  method Any<T(==)>(keys: set<T>) returns (x: T)
    requires keys != {}
    ensures x in keys
  {
    x :| x in keys;
  }

  method KeysOf(data: IpMap) returns (uids: seq<int>)
    ensures Distinct(uids) && forall uid :: uid in uids <==> uid in data
  {
    uids := [];
    var rest := data.Keys;
    while rest != {}
      invariant rest <= data.Keys && Distinct(uids)
      invariant forall uid :: uid in uids <==> uid in data && uid !in rest
      decreases rest
    {
      var uid := Any(rest);
      uids := uids + [uid];
      rest := rest - {uid};
    }
  }

  method DedupeOnlineIPMapByIP(data: IpMap) returns (result: IpMap)
    ensures Canonical(result)
    ensures PairsOf(result) == Normalised(PairsOf(data))
  {
    var uids := KeysOf(data);
    SortSorts(INT_ORDER, uids);
    uids := Sort(INT_ORDER, uids);
    var seen: set<OnlineUser> := {};
    var table: IpMap := map[];
    for i := 0 to |uids|
      invariant Collected(table, seen) && seen == Normalised(PairsAmong(data, uids[..i]))
    {
      assert PairsAmong(data, uids[..i + 1]) == PairsAmong(data, uids[..i]) + Tagged(uids[i], data[uids[i]]);
      seen, table := CollectUser(uids[i], data[uids[i]], seen, table);
    }
    assert PairsAmong(data, uids[..|uids|]) == PairsOf(data);
    result := SortLists(table);
  }

  /** Sorts every list in place, walking the map in any order. */
  method SortLists(table: IpMap) returns (result: IpMap)
    requires forall uid :: uid in table ==> table[uid] != [] && Distinct(table[uid])
    ensures Canonical(result) && PairsOf(result) == PairsOf(table)
  {
    result := table;
    var rest := table.Keys;
    while rest != {}
      invariant rest <= table.Keys == result.Keys
      invariant forall uid :: uid in rest ==> result[uid] == table[uid]
      invariant forall uid :: uid in table && uid !in rest ==> result[uid] == Sort(STRING_ORDER, table[uid])
      decreases rest
    {
      var uid := Any(rest);
      result := result[uid := Sort(STRING_ORDER, result[uid])];
      rest := rest - {uid};
    }
    forall uid | uid in table
      ensures result[uid] != [] && Increasing(STRING_ORDER, result[uid])
      ensures forall ip :: ip in result[uid] <==> ip in table[uid]
    {
      StringOrderIsStrictTotal();
      SortSorts(STRING_ORDER, table[uid]);
      assert table[uid][0] in result[uid];
    }
  }

  datatype MaybeMap = Nil | Given(data: IpMap)

  method BuildOnlineIPMapPayload(data: MaybeMap) returns (payload: IpMap)
    ensures Canonical(payload)
    ensures PairsOf(payload) == if data.Nil? then {} else Normalised(PairsOf(data.data))
  {
    if data.Nil? {
      return map[];
    }
    var deduped := DedupeOnlineIPMapByIP(data.data);
    payload := map[];
    var rest := deduped.Keys;
    while rest != {}
      invariant rest <= deduped.Keys
      invariant payload == map uid | uid in deduped && uid !in rest :: deduped[uid]
      decreases rest
    {
      var uid := Any(rest);
      rest := rest - {uid};
      if |deduped[uid]| != 0 {
        payload := payload[uid := deduped[uid]];
      }
    }
    assert payload == deduped;
  }

  method BuildOnlineIPPayload(users: seq<OnlineUser>) returns (payload: IpMap)
    ensures Canonical(payload)
    ensures PairsOf(payload) == Normalised(SetOf(users))
  {
    var data: IpMap := map[];
    for i := 0 to |users|
      invariant PairsOf(data) == set u | u in users[..i] && u.ip != ""
    {
      assert users[..i + 1] == users[..i] + [users[i]];
      if users[i].ip != "" {
        AppendPair(data, users[i]);
        data := data[users[i].uid := Listed(data, users[i].uid) + [users[i].ip]];
      }
    }
    assert users[..|users|] == users;
    assert Normalised(PairsOf(data)) == Normalised(SetOf(users)) by {
      assert NormalizeIP("") == "";
    }
    payload := BuildOnlineIPMapPayload(Given(data));
  }

  lemma AppendPair(data: IpMap, u: OnlineUser)
    ensures PairsOf(data[u.uid := Listed(data, u.uid) + [u.ip]]) == PairsOf(data) + {u}
  {
    var data' := data[u.uid := Listed(data, u.uid) + [u.ip]];
    forall v
      ensures v in PairsOf(data') <==> v in PairsOf(data) + {u}
    {
      assert v in PairsOf(data') <==> v.uid in data' && v.ip in data'[v.uid];
      assert v in PairsOf(data) <==> v.uid in data && v.ip in data[v.uid];
    }
  }

  // ---------- the two paths ----------

  datatype UserTraffic = UserTraffic(uid: int, upload: int, download: int)

  /** The filter on the traffic of a period; only one kind of panel asks for it. */
  datatype Filter = Filter(ppanel: bool, minTraffic: int) {
    predicate Applies() {
      ppanel && minTraffic > 0
    }

    predicate TooLittle(t: UserTraffic) {
      Wrap64(t.upload + t.download) < Wrap64(minTraffic * 1000)
    }

    /** A user with no traffic at all has no record, and so is not left out. */
    predicate LeavesOut(traffic: seq<UserTraffic>, uid: int) {
      Applies() && exists t :: t in traffic && t.uid == uid && TooLittle(t)
    }
  }

  /** Short of 64-bit overflow, left out are users with a record of fewer than a thousand times the setting's bytes. */
  lemma LeavesOutIff(filter: Filter, traffic: seq<UserTraffic>, uid: int)
    requires 0 <= filter.minTraffic * 1000 < 9_223_372_036_854_775_808
    requires forall t :: t in traffic ==> 0 <= t.upload + t.download < 9_223_372_036_854_775_808
    ensures filter.LeavesOut(traffic, uid) <==>
              filter.ppanel && filter.minTraffic > 0 &&
              exists t :: t in traffic && t.uid == uid && t.upload + t.download < filter.minTraffic * 1000
  {
    assert forall t :: t in traffic ==> (filter.TooLittle(t) <==> t.upload + t.download < filter.minTraffic * 1000);
  }

  method NoCount(traffic: seq<UserTraffic>, filter: Filter) returns (nocountUID: set<int>)
    ensures forall uid :: uid in nocountUID <==> filter.LeavesOut(traffic, uid)
  {
    nocountUID := {};
    if filter.Applies() {
      for i := 0 to |traffic|
        invariant forall uid :: uid in nocountUID <==> filter.LeavesOut(traffic[..i], uid)
      {
        assert traffic[..i + 1] == traffic[..i] + [traffic[i]];
        if filter.TooLittle(traffic[i]) {
          nocountUID := nocountUID + {traffic[i].uid};
        }
      }
      assert traffic[..|traffic|] == traffic;
    }
  }

  /** The payload of the traffic report, without the users that moved too little traffic. */
  method ReportPayload(online: seq<OnlineUser>, traffic: seq<UserTraffic>, filter: Filter) returns (payload: IpMap)
    ensures Canonical(payload)
    ensures PairsOf(payload) == set u | u in Normalised(Normalised(SetOf(online))) && !filter.LeavesOut(traffic, u.uid)
  {
    var deduped := DedupeOnlineUsersByIP(online);
    var nocountUID := NoCount(traffic, filter);
    var result := [];
    for i := 0 to |deduped|
      invariant SetOf(result) == set u | u in deduped[..i] && u.uid !in nocountUID
    {
      assert deduped[..i + 1] == deduped[..i] + [deduped[i]];
      assert SetOf(result + [deduped[i]]) == SetOf(result) + {deduped[i]};
      if deduped[i].uid !in nocountUID {
        result := result + [deduped[i]];
      }
    }
    assert deduped[..|deduped|] == deduped;
    payload := BuildOnlineIPPayload(result);
    assert SetOf(result) == set u | u in Normalised(SetOf(online)) && u.uid !in nocountUID;
  }

  /** The payload of the synchronisation task, which removes duplicates twice before building it. */
  method SyncPayload(online: IpMap) returns (payload: IpMap)
    ensures Canonical(payload)
    ensures PairsOf(payload) == Normalised(Normalised(Normalised(PairsOf(online))))
  {
    var data := DedupeOnlineIPMapByIP(online);
    data := DedupeOnlineIPMapByIP(data);
    payload := BuildOnlineIPMapPayload(Given(data));
  }

  /** Three prefixes in a row: one more than the report path removes. */
  predicate TriplyMapped(ip: string) {
    IsMapped(ip) && IsMapped(NormalizeIP(ip)) && IsMapped(NormalizeIP(NormalizeIP(ip)))
  }

  lemma TwiceNormalisedHas(s: set<OnlineUser>, u: OnlineUser)
    ensures u in Normalised(Normalised(s)) <==> u.ip != "" && exists v :: v in s && Normal(Normal(v)) == u
  {
    if u.ip != "" && exists v :: v in s && Normal(Normal(v)) == u {
      var v :| v in s && Normal(Normal(v)) == u;
      assert Normal(v) in Normalised(s);
    }
  }

  /** A finite set equal to its own normalisation holds no prefixed address: the longest one would be missing. */
  lemma {:induction false} NoMappedLeft(s: set<OnlineUser>, u: OnlineUser, longer: set<OnlineUser>)
    requires Normalised(s) == s && u in s && longer == set v | v in s && |v.ip| > |u.ip|
    ensures !IsMapped(u.ip)
    decreases longer
  {
    if IsMapped(u.ip) {
      var v :| v in s && Normal(v) == u;
      var longer' := set w | w in s && |w.ip| > |v.ip|;
      assert v in longer && v !in longer' && longer' <= longer;
      NoMappedLeft(s, v, longer');
    }
  }

  /**
  With no traffic filter, the report and the synchronisation of the same online users send the
  same payload, if and only if no address carries the prefix three times.
  */
  lemma PathsAgreeIff(s: set<OnlineUser>, report: IpMap, sync: IpMap)
    requires Canonical(report) && PairsOf(report) == Normalised(Normalised(s))
    requires Canonical(sync) && PairsOf(sync) == Normalised(Normalised(Normalised(s)))
    ensures report == sync <==> forall u :: u in s ==> !TriplyMapped(u.ip)
  {
    var a := Normalised(Normalised(s));
    CanonicalMapIsUnique(report, sync);
    if u :| u in s && TriplyMapped(u.ip) {
      var v := Normal(Normal(u));
      assert v in a by {
        TwiceNormalisedHas(s, v);
      }
      if Normalised(a) == a {
        NoMappedLeft(a, v, set w | w in a && |w.ip| > |v.ip|);
      }
    } else {
      forall u | u in a
        ensures Normal(u) == u && u.ip != ""
      {
        TwiceNormalisedHas(s, u);
      }
      assert Normalised(a) == a;
    }
  }
}
