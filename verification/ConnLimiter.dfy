/**
The connection limiter of limiter/conn.go: a per-user connection count and a per-user table
of online addresses. In realtime mode an address carries one packed number, two per open TCP
session plus one when packet traffic opened the entry; otherwise it carries the time of the
last admitted connection.

Every method is one atomic step here, and the clock is a parameter.
*/
module ConnLimits {

  // nonRealtimeOnlineTTL, in nanoseconds
  const TTL: int := 300_000_000_000

  /** The value stored for one online address. */
  datatype Mark = Packed(n: int) | Seen(at: int)

  type IpTable = map<string, Mark>

  datatype Config = Config(realtime: bool, ipLimit: int, connLimit: int)

  datatype Tables = Tables(count: map<string, int>, ip: map<string, IpTable>)

  const EMPTY := Tables(map[], map[])

  datatype Event =
    | Add(user: string, ip: string, isTcp: bool, now: int)
    | Del(user: string, ip: string)
    | Clear(now: int)

  // ---------- what one call does ----------

  predicate OverConnLimit(c: Config, t: Tables, user: string) {
    c.connLimit != 0 && user in t.count && t.count[user] >= c.connLimit
  }

  predicate OverIpLimit(c: Config, t: Tables, user: string, ip: string) {
    c.ipLimit > 0 && user in t.ip && ip !in t.ip[user] && |t.ip[user]| >= c.ipLimit
  }

  predicate Refuses(c: Config, t: Tables, user: string, ip: string) {
    OverConnLimit(c, t, user) || OverIpLimit(c, t, user, ip)
  }

  function CountOf(t: Tables, user: string): int {
    if user in t.count then t.count[user] else 0
  }

  function FreshMark(c: Config, isTcp: bool, now: int): Mark {
    if !c.realtime then Seen(now) else if isTcp then Packed(2) else Packed(1)
  }

  function Touched(c: Config, mark: Mark, isTcp: bool, now: int): Mark {
    if !c.realtime then Seen(now)
    else if isTcp && mark.Packed? then Packed(mark.n + 2)
    else mark
  }

  /** The counts once an attempt is within the connection limit. */
  function Counted(c: Config, t: Tables, user: string, isTcp: bool): map<string, int> {
    if c.connLimit != 0 && isTcp then t.count[user := CountOf(t, user) + 1] else t.count
  }

  /** The addresses once an attempt is within the address limit. */
  function Recorded(c: Config, t: Tables, user: string, ip: string, isTcp: bool, now: int): map<string, IpTable> {
    var table := if user in t.ip then t.ip[user] else map[];
    var mark := if ip in table then Touched(c, table[ip], isTcp, now) else FreshMark(c, isTcp, now);
    t.ip[user := table[ip := mark]]
  }

  function AfterAdd(c: Config, t: Tables, user: string, ip: string, isTcp: bool, now: int): Tables {
    if OverConnLimit(c, t, user) then t
    else if OverIpLimit(c, t, user, ip) then Tables(Counted(c, t, user, isTcp), t.ip)
    else Tables(Counted(c, t, user, isTcp), Recorded(c, t, user, ip, isTcp, now))
  }

  function Closed(table: IpTable, ip: string): IpTable {
    if ip !in table || table[ip].Seen? then table
    else if table[ip].n == 2 then table - {ip}
    else table[ip := Packed(table[ip].n - 2)]
  }

  function AfterDel(c: Config, t: Tables, user: string, ip: string): Tables {
    if !c.realtime then t
    else
      var count :=
        if c.connLimit == 0 || user !in t.count then t.count
        else if t.count[user] == 1 then t.count - {user}
        else t.count[user := t.count[user] - 1];
      if c.ipLimit == 0 || user !in t.ip || ip !in t.ip[user] then Tables(count, t.ip)
      else
        var table := Closed(t.ip[user], ip);
        Tables(count, if table == map[] then t.ip - {user} else t.ip[user := table])
  }

  /** Whether the periodic clean-up leaves an address in place. */
  predicate Survives(m: Mark, now: int) {
    match m
    case Packed(n) => n != 1
    case Seen(at) => now - TTL <= at
  }

  function Survivors(table: IpTable, now: int): IpTable {
    map ip | ip in table && Survives(table[ip], now) :: table[ip]
  }

  function AfterClear(t: Tables, now: int): Tables {
    t.(ip := map user | user in t.ip && Survivors(t.ip[user], now) != map[] :: Survivors(t.ip[user], now))
  }

  function Step(c: Config, t: Tables, e: Event): Tables {
    match e
    case Add(user, ip, isTcp, now) => AfterAdd(c, t, user, ip, isTcp, now)
    case Del(user, ip) => AfterDel(c, t, user, ip)
    case Clear(now) => AfterClear(t, now)
  }

  // ---------- the limiter itself ----------

  /** Marks match the mode: realtime tables hold numbers, the others hold times. */
  ghost predicate WellMarked(c: Config, t: Tables) {
    forall user, ip :: user in t.ip && ip in t.ip[user] ==> t.ip[user][ip].Packed? == c.realtime
  }

  class ConnLimiter {
    const cfg: Config
    var count: map<string, int>
    var ip: map<string, IpTable>

    function State(): Tables
      reads this
    {
      Tables(count, ip)
    }

    ghost predicate Valid()
      reads this
    {
      WellMarked(cfg, State())
    }

    constructor (conn: int, ip: int, realtime: bool)
      ensures cfg == Config(realtime, ip, conn) && State() == EMPTY && Valid()
    {
      cfg := Config(realtime, ip, conn);
      this.count := map[];
      this.ip := map[];
    }

    method AddConnCount(user: string, ip: string, isTcp: bool, now: int) returns (limit: bool)
      requires Valid()
      modifies this
      ensures Valid()
      ensures limit == Refuses(cfg, old(State()), user, ip)
      ensures State() == Step(cfg, old(State()), Add(user, ip, isTcp, now))
    {
      limit := RaiseCount(user, isTcp);
      if !limit {
        limit := RecordAddress(user, ip, isTcp, now);
      }
    }

    /** The first half: the connection limit and the connection count. */
    method RaiseCount(user: string, isTcp: bool) returns (over: bool)
      modifies this`count
      ensures over == OverConnLimit(cfg, old(State()), user)
      ensures count == if over then old(count) else Counted(cfg, old(State()), user, isTcp)
    {
      if cfg.connLimit != 0 {
        if user in count {
          if count[user] >= cfg.connLimit {
            return true;
          } else if isTcp {
            count := count[user := count[user] + 1];
          }
        } else if isTcp {
          count := count[user := 1];
        }
      }
      over := false;
    }

    /** The second half: the address limit and the table of addresses. */
    method RecordAddress(user: string, ip: string, isTcp: bool, now: int) returns (limit: bool)
      requires Valid()
      modifies this`ip
      ensures Valid()
      ensures limit == OverIpLimit(cfg, old(State()), user, ip)
      ensures this.ip == if limit then old(this.ip) else Recorded(cfg, old(State()), user, ip, isTcp, now)
    {
      if user !in this.ip {
        this.ip := this.ip[user := map[ip := FreshMark(cfg, isTcp, now)]];
        return false;
      }
      var ips := this.ip[user];
      if ip in ips {
        if !cfg.realtime {
          this.ip := this.ip[user := ips[ip := Seen(now)]];
        } else if isTcp {
          this.ip := this.ip[user := ips[ip := Packed(ips[ip].n + 2)]];
        } else {
          assert ips[ip := ips[ip]] == ips && this.ip[user := ips] == this.ip;
        }
        return false;
      }
      if cfg.ipLimit > 0 {
        limit := ReachesLimit(ips, cfg.ipLimit);
        if limit {
          return true;
        }
      }
      this.ip := this.ip[user := ips[ip := FreshMark(cfg, isTcp, now)]];
      limit := false;
    }

    /** Walks the table in any order and stops as soon as the limit is met. */
    static method ReachesLimit(ips: IpTable, limit: int) returns (full: bool)
      requires limit > 0
      ensures full == (|ips| >= limit)
    {
      var pending, cn := ips.Keys, 0;
      full := false;
      while pending != {}
        invariant pending <= ips.Keys && cn + |pending| == |ips.Keys|
        invariant !full && cn < limit
        decreases pending
      {
        var k :| k in pending;
        pending := pending - {k};
        cn := cn + 1;
        if cn >= limit {
          return true;
        }
      }
    }

    method DelConnCount(user: string, ip: string)
      requires Valid()
      modifies this
      ensures Valid()
      ensures State() == Step(cfg, old(State()), Del(user, ip))
    {
      if !cfg.realtime {
        return;
      }
      if cfg.connLimit != 0 && user in count {
        if count[user] == 1 {
          count := count - {user};
        } else {
          count := count[user := count[user] - 1];
        }
      }
      if cfg.ipLimit == 0 {
        return;
      }
      if user in this.ip {
        var ips := this.ip[user];
        if ip in ips {
          if ips[ip].n == 2 {
            ips := ips - {ip};
          } else {
            ips := ips[ip := Packed(ips[ip].n - 2)];
          }
          this.ip := if ips == map[] then this.ip - {user} else this.ip[user := ips];
        }
      }
    }

    method ClearOnlineIP(now: int)
      requires Valid()
      modifies this
      ensures Valid()
      ensures State() == Step(cfg, old(State()), Clear(now))
    {
      var users := ip.Keys;
      while users != {}
        invariant count == old(count) && users <= ip.Keys <= old(ip).Keys
        invariant forall u :: u in users ==> ip[u] == old(ip)[u]
        invariant forall u :: u in old(ip) && u !in users ==>
                    (u in ip <==> Survivors(old(ip)[u], now) != map[])
        invariant forall u :: u in ip && u !in users ==> ip[u] == Survivors(old(ip)[u], now)
        decreases users
      {
        var u :| u in users;
        users := users - {u};
        var userIp, notDel := Sweep(ip[u], now);
        if !notDel || userIp == map[] {
          ip := ip - {u};
        } else {
          ip := ip[u := userIp];
        }
      }
    }

    /** Deletes from one user's table while ranging over it, in any order. */
    static method Sweep(table: IpTable, now: int) returns (userIp: IpTable, notDel: bool)
      ensures userIp == Survivors(table, now)
      ensures notDel == (userIp != map[])
    {
      userIp := table;
      notDel := false;
      var pending := table.Keys;
      while pending != {}
        invariant pending <= table.Keys
        invariant forall k :: k in userIp <==> k in table && (k in pending || Survives(table[k], now))
        invariant forall k :: k in userIp ==> userIp[k] == table[k]
        invariant notDel <==> exists k :: k in userIp && k !in pending
        decreases pending
      {
        var k :| k in pending;
        pending := pending - {k};
        if table[k].Packed? {
          if table[k].n == 1 {
            userIp := userIp - {k};
          } else {
            notDel := true;
            assert k in userIp;
          }
        } else if table[k].at < now - TTL {
          userIp := userIp - {k};
        } else {
          notDel := true;
          assert k in userIp;
        }
      }
      assert userIp == Survivors(table, now);
      if notDel {
        var k :| k in userIp;
        assert userIp != map[];
      }
    }
  }

  /** Cleaning twice at one moment is cleaning once. */
  lemma ClearTwiceIsClearOnce(t: Tables, now: int)
    ensures AfterClear(AfterClear(t, now), now) == AfterClear(t, now)
  {
    var once := AfterClear(t, now);
    forall user | user in once.ip
      ensures Survivors(once.ip[user], now) == once.ip[user]
    {
    }
    assert AfterClear(once, now).ip == once.ip;
  }
}
