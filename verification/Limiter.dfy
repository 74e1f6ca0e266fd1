/**
The node limiter of limiter/limiter.go and limiter/dynamic.go: connection and address limits,
the device limit, and a cache of speed buckets. Every method is one atomic step, the clock (in
nanoseconds) is a parameter, and a bucket is an identity and a rate.
*/
module Limits {
  import opened ConnLimits
  import opened Int64
  import opened Users
  import opened OnlinePayload
  import opened Ordering

  datatype UserLimit = UserLimit(uid: int, speedLimit: int, deviceLimit: int, dynamicSpeedLimit: int, expireTime: int)

  datatype Bucket = Bucket(id: nat, rate: int)

  datatype SpeedBucket = SpeedBucket(limit: int, bucket: Bucket)

  datatype State = State(
    cfg: Config,
    nodeLimit: int,
    conn: Tables,
    limits: map<string, UserLimit>,
    uidOf: map<string, int>,
    online: map<string, map<string, int>>,
    oldOnline: map<string, int>,
    buckets: map<string, SpeedBucket>,
    alive: map<int, int>,
    nextBucket: nat)

  datatype MaybeBucket = NoBucket | Limited(bucket: Bucket)

  datatype Reply = Refused | Admitted(bucket: MaybeBucket)

  function UserTag(tag: string, uuid: string): string {
    tag + [BAR] + uuid
  }

  function Unix(now: int): int {
    now / 1_000_000_000
  }

  // ---------- the speed limit ----------

  /** The smaller of two limits, where zero means no limit. */
  function DetermineSpeedLimit(limit1: int, limit2: int): int {
    if limit1 == 0 || limit2 == 0 then
      if limit1 > limit2 then limit1
      else if limit1 < limit2 then limit2
      else 0
    else
      if limit1 > limit2 then limit2
      else if limit1 < limit2 then limit1
      else limit1
  }

  /** Bytes a second for a limit in megabits, in 64-bit arithmetic with truncating division. */
  function Rate(limit: int): int {
    var bits := Wrap64(limit * 1_000_000);
    if bits < 0 then -(-bits / 8) else bits / 8
  }

  predicate Expired(u: UserLimit, now: int) {
    u.expireTime < Unix(now) && u.expireTime != 0
  }

  /** The user's own limit at a moment: once the dynamic limit is over only the base limit counts. */
  function OwnLimit(u: UserLimit, now: int): int {
    if Expired(u, now) then u.speedLimit else DetermineSpeedLimit(u.speedLimit, u.dynamicSpeedLimit)
  }

  /** What a check does to the user's entry: an expired one is reset, or dropped when it has no base limit. */
  function Expire(limits: map<string, UserLimit>, key: string, now: int): map<string, UserLimit>
    requires key in limits
  {
    var u := limits[key];
    if !Expired(u, now) then limits
    else if u.speedLimit != 0 then limits[key := u.(dynamicSpeedLimit := 0, expireTime := 0)]
    else limits - {key}
  }

  // ---------- the device limit ----------

  function Alive(s: State, uid: int): int {
    if uid in s.alive then s.alive[uid] else 0
  }

  predicate TooManyDevices(s: State, u: UserLimit) {
    u.deviceLimit > 0 && u.deviceLimit <= Alive(s, u.uid)
  }

  /** A new address is refused when the panel already counts enough devices, unless the last report had it. */
  predicate DeviceRefused(s: State, key: string, ip: string, u: UserLimit) {
    if key in s.online then ip !in s.online[key] && TooManyDevices(s, u)
    else ip !in s.oldOnline && TooManyDevices(s, u)
  }

  function AfterDevice(s: State, key: string, ip: string, u: UserLimit): State {
    if DeviceRefused(s, key, ip, u) then s
    else if key in s.online then
      if ip in s.online[key] then s else s.(online := s.online[key := s.online[key][ip := u.uid]])
    else
      s.(online := s.online[key := map[ip := u.uid]],
         oldOnline := if ip in s.oldOnline && s.oldOnline[ip] == u.uid then s.oldOnline - {ip} else s.oldOnline)
  }

  // ---------- one check ----------

  type Cache = map<string, SpeedBucket>

  /** The bucket of a user at a rate: the cached one when its limit is the same, else a new one. */
  function TakeBucket(cache: Cache, next: nat, key: string, rate: int): (Cache, nat, MaybeBucket) {
    if rate <= 0 then (cache - {key}, next, NoBucket)
    else if key in cache && cache[key].limit == rate then (cache, next, Limited(cache[key].bucket))
    else
      var b := Bucket(next, rate);
      (cache[key := SpeedBucket(rate, b)], next + 1, Limited(b))
  }

  function AfterBucket(s: State, key: string, rate: int): (State, MaybeBucket) {
    var (cache, next, bucket) := TakeBucket(s.buckets, s.nextBucket, key, rate);
    (s.(buckets := cache, nextBucket := next), bucket)
  }

  /** Everything a check does before it takes a bucket, and whether it lets the connection through. */
  function Gate(s: State, key: string, rawIp: string, isTcp: bool, noSSUDP: bool, now: int): (State, bool) {
    var ip := NormalizeIP(rawIp);
    var s1 := s.(conn := Step(s.cfg, s.conn, Add(key, ip, isTcp, now)));
    if Refuses(s.cfg, s.conn, key, ip) || key !in s.limits then (s1, false)
    else
      var u := s.limits[key];
      var s2 := s1.(limits := Expire(s.limits, key, now));
      if !noSSUDP then (s2, true) else (AfterDevice(s2, key, ip, u), !DeviceRefused(s2, key, ip, u))
  }

  /** The rate an admitted check asks for. */
  function AskedRate(s: State, key: string, now: int): int
    requires key in s.limits
  {
    Rate(DetermineSpeedLimit(s.nodeLimit, OwnLimit(s.limits[key], now)))
  }

  function AfterCheck(s: State, key: string, rawIp: string, isTcp: bool, noSSUDP: bool, now: int): (State, Reply) {
    var (s', passed) := Gate(s, key, rawIp, isTcp, noSSUDP, now);
    if !passed then (s', Refused)
    else
      var (s'', bucket) := AfterBucket(s', key, AskedRate(s, key, now));
      (s'', Admitted(bucket))
  }

  // ---------- the other operations ----------

  function FreshLimit(u: UserInfo): UserLimit {
    UserLimit(u.id, u.speedLimit, u.deviceLimit, 0, 0)
  }

  function DropUser(s: State, tag: string, u: UserInfo): State {
    var key := UserTag(tag, u.uuid);
    s.(limits := s.limits - {key}, online := s.online - {key}, buckets := s.buckets - {key},
       uidOf := s.uidOf - {u.uuid}, alive := s.alive - {u.id})
  }

  function PutUser(s: State, tag: string, u: UserInfo): State {
    s.(limits := s.limits[UserTag(tag, u.uuid) := FreshLimit(u)], uidOf := s.uidOf[u.uuid := u.id])
  }

  function DropUsers(s: State, tag: string, users: seq<UserInfo>): State {
    if users == [] then s
    else DropUser(DropUsers(s, tag, users[..|users| - 1]), tag, users[|users| - 1])
  }

  function PutUsers(s: State, tag: string, users: seq<UserInfo>): State {
    if users == [] then s
    else PutUser(PutUsers(s, tag, users[..|users| - 1]), tag, users[|users| - 1])
  }

  function AfterUpdate(s: State, tag: string, added: seq<UserInfo>, deleted: seq<UserInfo>): State {
    PutUsers(DropUsers(s, tag, deleted), tag, added)
  }

  function AfterDynamic(s: State, tag: string, uuid: string, limit: int, expire: int): State {
    var key := UserTag(tag, uuid);
    if key !in s.limits then s
    else
      s.(limits := s.limits[key := s.limits[key].(dynamicSpeedLimit := limit, expireTime := Unix(expire))],
         buckets := s.buckets - {key})
  }

  /** The limiter of a node that has just started with these users. */
  function Started(tag: string, cfg: Config, nodeLimit: int, users: seq<UserInfo>, alive: map<int, int>): State {
    PutUsers(State(cfg, nodeLimit, EMPTY, map[], map[], map[], map[], map[], alive, 0), tag, users)
  }

  /** The users online: those the connection limiter tracks, under their ids and normalised addresses. */
  function OnlineNow(s: State): set<OnlineUser> {
    set key, ip | key in s.conn.ip && ip in s.conn.ip[key] && key in s.limits && s.limits[key].uid != 0
                  && NormalizeIP(ip) != "" :: OnlineUser(s.limits[key].uid, NormalizeIP(ip))
  }

  class Limiter {
    const nodeLimit: int
    const connLimiter: ConnLimiter
    var limits: map<string, UserLimit>
    var uidOf: map<string, int>
    var online: map<string, map<string, int>>
    var oldOnline: map<string, int>
    var buckets: map<string, SpeedBucket>
    var alive: map<int, int>
    var nextBucket: nat

    function Abs(): State
      reads this, connLimiter
    {
      State(connLimiter.cfg, nodeLimit, connLimiter.State(), limits, uidOf, online, oldOnline, buckets, alive, nextBucket)
    }

    ghost predicate Valid()
      reads this, connLimiter
    {
      connLimiter.Valid()
    }

    constructor (tag: string, cfg: Config, nodeLimit: int, users: seq<UserInfo>, aliveList: map<int, int>)
      ensures Valid() && fresh(connLimiter)
      ensures Abs() == Started(tag, cfg, nodeLimit, users, aliveList)
    {
      this.nodeLimit := nodeLimit;
      this.connLimiter := new ConnLimiter(cfg.connLimit, cfg.ipLimit, cfg.realtime);
      limits, uidOf, online, oldOnline, buckets := map[], map[], map[], map[], map[];
      alive, nextBucket := aliveList, 0;
      new;
      AddUsers(tag, users);
    }

    method AddUsers(tag: string, added: seq<UserInfo>)
      requires Valid()
      modifies this`limits, this`uidOf
      ensures Valid() && Abs() == PutUsers(old(Abs()), tag, added)
    {
      for i := 0 to |added|
        invariant Valid() && Abs() == PutUsers(old(Abs()), tag, added[..i])
      {
        assert added[..i + 1][..i] == added[..i];
        limits := limits[UserTag(tag, added[i].uuid) := FreshLimit(added[i])];
        uidOf := uidOf[added[i].uuid := added[i].id];
      }
      assert added[..|added|] == added;
    }

    method UpdateUser(tag: string, added: seq<UserInfo>, deleted: seq<UserInfo>)
      requires Valid()
      modifies this`limits, this`online, this`buckets, this`uidOf, this`alive
      ensures Valid() && Abs() == AfterUpdate(old(Abs()), tag, added, deleted)
    {
      for i := 0 to |deleted|
        invariant Valid() && Abs() == DropUsers(old(Abs()), tag, deleted[..i])
      {
        assert deleted[..i + 1][..i] == deleted[..i];
        var key := UserTag(tag, deleted[i].uuid);
        limits := limits - {key};
        online := online - {key};
        buckets := buckets - {key};
        uidOf := uidOf - {deleted[i].uuid};
        alive := alive - {deleted[i].id};
      }
      assert deleted[..|deleted|] == deleted;
      AddUsers(tag, added);
    }

    method UpdateDynamicSpeedLimit(tag: string, uuid: string, limit: int, expire: int) returns (found: bool)
      requires Valid()
      modifies this`limits, this`buckets
      ensures Valid() && Abs() == AfterDynamic(old(Abs()), tag, uuid, limit, expire)
      ensures found == (UserTag(tag, uuid) in old(limits))
    {
      var key := UserTag(tag, uuid);
      found := key in limits;
      if found {
        limits := limits[key := limits[key].(dynamicSpeedLimit := limit, expireTime := Unix(expire))];
        buckets := buckets - {key};
      }
    }

    method SetAliveList(aliveList: map<int, int>)
      requires Valid()
      modifies this`alive
      ensures Valid() && Abs() == old(Abs()).(alive := aliveList)
    {
      alive := aliveList;
    }

    method CheckLimit(key: string, rawIp: string, isTcp: bool, noSSUDP: bool, now: int) returns (reply: Reply)
      requires Valid()
      modifies this, connLimiter
      ensures Valid()
      ensures (Abs(), reply) == AfterCheck(old(Abs()), key, rawIp, isTcp, noSSUDP, now)
    {
      var ip := NormalizeIP(rawIp);
      var limited := connLimiter.AddConnCount(key, ip, isTcp, now);
      if limited {
        return Refused;
      }
      if key !in limits {
        return Refused;
      }
      var u := limits[key];
      var userLimit := ReadUserLimit(key, now);
      if noSSUDP {
        var refused := CheckDevice(key, ip, u);
        if refused {
          return Refused;
        }
      }
      var bucket := TakeBucket(key, Rate(DetermineSpeedLimit(nodeLimit, userLimit)));
      reply := Admitted(bucket);
    }

    /** Reads the user's own limit, and resets or drops an expired entry. */
    method ReadUserLimit(key: string, now: int) returns (userLimit: int)
      requires Valid() && key in limits
      modifies this`limits
      ensures Valid() && userLimit == OwnLimit(old(limits)[key], now)
      ensures Abs() == old(Abs()).(limits := Expire(old(limits), key, now))
    {
      var u := limits[key];
      if u.expireTime < Unix(now) && u.expireTime != 0 {
        userLimit := 0;
        if u.speedLimit != 0 {
          userLimit := u.speedLimit;
          limits := limits[key := u.(dynamicSpeedLimit := 0, expireTime := 0)];
        } else {
          limits := limits - {key};
        }
      } else {
        userLimit := DetermineSpeedLimit(u.speedLimit, u.dynamicSpeedLimit);
      }
    }

    method TakeBucket(key: string, limit: int) returns (bucket: MaybeBucket)
      requires Valid()
      modifies this`buckets, this`nextBucket
      ensures Valid() && (Abs(), bucket) == AfterBucket(old(Abs()), key, limit)
    {
      if limit > 0 {
        if key in buckets && buckets[key].limit == limit {
          return Limited(buckets[key].bucket);
        }
        var b := Bucket(nextBucket, limit);
        nextBucket := nextBucket + 1;
        buckets := buckets[key := SpeedBucket(limit, b)];
        bucket := Limited(b);
      } else {
        buckets := buckets - {key};
        bucket := NoBucket;
      }
    }

    /** Stores the address first and takes it out again when it is refused. */
    method CheckDevice(key: string, ip: string, u: UserLimit) returns (refused: bool)
      requires Valid()
      modifies this`online, this`oldOnline
      ensures Valid() && refused == DeviceRefused(old(Abs()), key, ip, u)
      ensures Abs() == AfterDevice(old(Abs()), key, ip, u)
    {
      var aliveIp := if u.uid in alive then alive[u.uid] else 0;
      if key in online {
        var ipMap := online[key];
        if ip !in ipMap {
          online := online[key := ipMap[ip := u.uid]];
          if u.deviceLimit > 0 && u.deviceLimit <= aliveIp {
            online := online[key := online[key] - {ip}];
            assert ipMap[ip := u.uid] - {ip} == ipMap && online == old(online);
            return true;
          }
        }
      } else {
        online := online[key := map[ip := u.uid]];
        if ip in oldOnline {
          if oldOnline[ip] == u.uid {
            oldOnline := oldOnline - {ip};
          }
        } else if u.deviceLimit > 0 && u.deviceLimit <= aliveIp {
          online := online - {key};
          assert online == old(online);
          return true;
        }
      }
      refused := false;
    }

    /** Lists the users online, walking both tables in any order. */
    method SnapshotOnlineUsers() returns (users: seq<OnlineUser>)
      requires Valid()
      ensures SetOf(users) == OnlineNow(Abs()) && Distinct(users)
    {
      users := [];
      var seen: set<OnlineUser> := {};
      var pending := connLimiter.ip.Keys;
      ghost var done: set<string> := {};
      while pending != {}
        invariant pending + done == connLimiter.ip.Keys && pending !! done
        invariant seen == SetOf(users) && Distinct(users) && seen == OnlineAmong(Abs(), done)
        decreases pending
      {
        var key :| key in pending;
        assert OnlineAmong(Abs(), done + {key}) == OnlineAmong(Abs(), done) +
          (if key in limits && limits[key].uid != 0 then OfTable(limits[key].uid, connLimiter.ip[key].Keys) else {});
        pending, done := pending - {key}, done + {key};
        if key in limits && limits[key].uid != 0 {
          users, seen := ListTable(limits[key].uid, connLimiter.ip[key].Keys, users, seen);
        }
      }
    }

    /** The users online grouped by id, each address once. */
    method GetOnlineIPMap() returns (data: IpMap)
      requires Valid()
      ensures Collected(data, OnlineNow(Abs()))
    {
      var users := SnapshotOnlineUsers();
      data := map[];
      for i := 0 to |users|
        invariant Collected(data, SetOf(users[..i]))
      {
        assert SetOf(users[..i + 1]) == SetOf(users[..i]) + {users[i]};
        assert users[i] !in users[..i];
        CollectOne(data, SetOf(users[..i]), users[i]);
        data := data[users[i].uid := Listed(data, users[i].uid) + [users[i].ip]];
      }
      assert users[..|users|] == users;
    }

    /** Lists the users online and starts a new device window: what was online becomes the last report. */
    method GetOnlineDevice() returns (users: seq<OnlineUser>)
      requires Valid()
      modifies this`online, this`oldOnline
      ensures Valid() && SetOf(users) == OnlineNow(old(Abs())) && Distinct(users)
      ensures online == map[]
      ensures forall ip :: ip in oldOnline <==> ip in old(oldOnline) || WasOnline(old(online), old(online).Keys, ip)
      ensures forall ip :: ip in oldOnline ==> RememberedRightly(old(oldOnline), old(online), old(online).Keys, ip, oldOnline[ip])
    {
      users := SnapshotOnlineUsers();
      var pending := online.Keys;
      while pending != {}
        invariant pending == online.Keys <= old(online).Keys
        invariant forall key :: key in pending ==> online[key] == old(online)[key]
        invariant forall ip :: ip in oldOnline <==>
                    ip in old(oldOnline) || WasOnline(old(online), old(online).Keys - pending, ip)
        invariant forall ip :: ip in oldOnline ==>
                    RememberedRightly(old(oldOnline), old(online), old(online).Keys - pending, ip, oldOnline[ip])
        decreases pending
      {
        var key :| key in pending;
        ghost var (was, done) := (oldOnline, old(online).Keys - pending);
        oldOnline := Remember(oldOnline, online[key]);
        forall ip | ip in oldOnline
          ensures RememberedRightly(old(oldOnline), old(online), done + {key}, ip, oldOnline[ip])
        {
          RememberOneMore(old(oldOnline), old(online), done, key, was, ip, oldOnline[ip]);
        }
        assert done + {key} == old(online).Keys - (pending - {key});
        assert forall ip :: WasOnline(old(online), old(online).Keys - (pending - {key}), ip) <==>
                 WasOnline(old(online), old(online).Keys - pending, ip) || WasInTable(old(online)[key], ip);
        online := online - {key};
        pending := pending - {key};
      }
    }
  }

  function OfTable(uid: int, ips: set<string>): set<OnlineUser> {
    set ip | ip in ips && NormalizeIP(ip) != "" :: OnlineUser(uid, NormalizeIP(ip))
  }

  function OnlineAmong(s: State, keys: set<string>): set<OnlineUser> {
    set key, ip | key in keys && key in s.conn.ip && ip in s.conn.ip[key] && key in s.limits && s.limits[key].uid != 0
                  && NormalizeIP(ip) != "" :: OnlineUser(s.limits[key].uid, NormalizeIP(ip))
  }

  method ListTable(uid: int, ips: set<string>, users0: seq<OnlineUser>, seen0: set<OnlineUser>)
    returns (users: seq<OnlineUser>, seen: set<OnlineUser>)
    requires seen0 == SetOf(users0) && Distinct(users0)
    ensures seen == SetOf(users) && Distinct(users) && seen == seen0 + OfTable(uid, ips)
  {
    users, seen := users0, seen0;
    var pending := ips;
    while pending != {}
      invariant pending <= ips && seen == SetOf(users) && Distinct(users)
      invariant seen == seen0 + OfTable(uid, ips - pending)
      decreases pending
    {
      var raw :| raw in pending;
      var u := OnlineUser(uid, NormalizeIP(raw));
      assert OfTable(uid, ips - (pending - {raw})) == OfTable(uid, ips - pending) + OfTable(uid, {raw});
      pending := pending - {raw};
      if u.ip != "" && u !in seen {
        assert SetOf(users + [u]) == SetOf(users) + {u};
        seen := seen + {u};
        users := users + [u];
      }
    }
    assert ips - pending == ips;
  }

  ghost predicate WasInTable(table: map<string, int>, ip: string) {
    ip != "" && exists raw :: raw in table && NormalizeIP(raw) == ip
  }

  ghost predicate WasOnline(online: map<string, map<string, int>>, keys: set<string>, ip: string) {
    exists key :: key in keys && key in online && WasInTable(online[key], ip)
  }

  /** The address stands in the table, under this user's id. */
  ghost predicate StoodFor(table: map<string, int>, ip: string, uid: int) {
    exists raw :: raw in table && NormalizeIP(raw) == ip && table[raw] == uid
  }

  /** An address online in the window is remembered for a user it was online for; any other keeps its user. */
  ghost predicate RememberedRightly(before: map<string, int>, online: map<string, map<string, int>>, keys: set<string>,
                                    ip: string, uid: int) {
    if WasOnline(online, keys, ip) then exists key :: key in keys && key in online && StoodFor(online[key], ip, uid)
    else ip in before && uid == before[ip]
  }

  lemma RememberOneMore(before: map<string, int>, online: map<string, map<string, int>>, keys: set<string>, key: string,
                        was: map<string, int>, ip: string, uid: int)
    requires key in online
    requires if WasInTable(online[key], ip) then StoodFor(online[key], ip, uid)
             else ip in was && uid == was[ip] && RememberedRightly(before, online, keys, ip, was[ip])
    ensures RememberedRightly(before, online, keys + {key}, ip, uid)
  {
    assert WasOnline(online, keys + {key}, ip) <==> WasOnline(online, keys, ip) || WasInTable(online[key], ip);
  }

  method Remember(oldOnline: map<string, int>, table: map<string, int>) returns (now: map<string, int>)
    ensures forall ip :: ip in now <==> ip in oldOnline || WasInTable(table, ip)
    ensures forall ip :: ip in now ==>
              if WasInTable(table, ip) then StoodFor(table, ip, now[ip]) else now[ip] == oldOnline[ip]
  {
    now := oldOnline;
    var pending := table.Keys;
    while pending != {}
      invariant pending <= table.Keys
      invariant forall ip :: ip in now <==> ip in oldOnline || WasInTable(table - pending, ip)
      invariant forall ip :: ip in now ==>
                  if WasInTable(table - pending, ip) then StoodFor(table, ip, now[ip]) else now[ip] == oldOnline[ip]
      decreases pending
    {
      var raw :| raw in pending;
      var ip := NormalizeIP(raw);
      assert forall x :: WasInTable(table - (pending - {raw}), x) <==> WasInTable(table - pending, x) || (x == ip && x != "") by {
        assert raw in table - (pending - {raw});
      }
      pending := pending - {raw};
      if ip != "" {
        now := now[ip := table[raw]];
      }
    }
    assert table - pending == table;
  }
}
