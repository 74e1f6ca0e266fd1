/**
The device limit over whole runs: which addresses are in the window since the last report, and
when exactly a check refuses.
*/
module DeviceHistory {
  import opened ConnHistory
  import opened ConnLimits
  import opened LimiterHistory
  import opened Limits
  import opened OnlinePayload
  import opened Users

  // ---------- the window ----------

  /** A check that goes through the device limit and lets the address in. */
  predicate LetsIn(s: State, op: Op, key: string, ip: string) {
    op.Check? && op.noSSUDP && op.key == key && NormalizeIP(op.ip) == ip && ReplyTo(s, op).Admitted?
  }

  /** Some check let the address in since the last report and the user's last deletion. */
  predicate WasLetIn(s: State, ops: seq<Op>, key: string, ip: string) {
    ops != [] &&
    var (before, op) := (ops[..|ops| - 1], ops[|ops| - 1]);
    !ClosesWindow(op, key) && (WasLetIn(s, before, key, ip) || LetsIn(PerformAll(s, before), op, key, ip))
  }

  lemma {:induction false} DropUsersOnline(s: State, tag: string, users: seq<UserInfo>, key: string)
    ensures var t := DropUsers(s, tag, users);
            && (key in t.online <==> key in s.online && !exists u :: u in users && UserTag(tag, u.uuid) == key)
            && (key in t.online ==> t.online[key] == s.online[key])
            && t.oldOnline == s.oldOnline
  {
    if users != [] {
      var (init, last) := (users[..|users| - 1], users[|users| - 1]);
      assert forall u :: u in users <==> u in init || u == last;
      DropUsersOnline(s, tag, init, key);
    }
  }

  lemma {:induction false} PutUsersOnline(s: State, tag: string, users: seq<UserInfo>)
    ensures PutUsers(s, tag, users).online == s.online && PutUsers(s, tag, users).oldOnline == s.oldOnline
  {
    if users != [] {
      PutUsersOnline(s, tag, users[..|users| - 1]);
    }
  }

  /** What one check does to the window. */
  lemma CheckOnWindow(s: State, op: Op, key: string, ip: string)
    requires op.Check?
    ensures IsOnline(Perform(s, op), key, ip) <==> IsOnline(s, key, ip) || LetsIn(s, op, key, ip)
    ensures key in Perform(s, op).online <==> key in s.online || (op.key == key && LetsIn(s, op, key, NormalizeIP(op.ip)))
  {
    var (s', passed) := Gate(s, op.key, op.ip, op.isTcp, op.noSSUDP, op.now);
    assert Perform(s, op).online == s'.online && (ReplyTo(s, op).Admitted? <==> passed);
    GateOnWindow(s, op, key, ip);
  }

  lemma GateOnWindow(s: State, op: Op, key: string, ip: string)
    requires op.Check?
    ensures var (s', passed) := Gate(s, op.key, op.ip, op.isTcp, op.noSSUDP, op.now);
            var lets := op.noSSUDP && op.key == key && passed;
            && (IsOnline(s', key, ip) <==> IsOnline(s, key, ip) || (lets && NormalizeIP(op.ip) == ip))
            && (key in s'.online <==> key in s.online || lets)
  {
  }

  /** In every run of a fresh limiter an address is online for a user exactly when a check let it in since. */
  lemma {:induction false} OnlineIsLetIn(s: State, ops: seq<Op>, key: string, ip: string)
    requires s.online == map[]
    ensures IsOnline(PerformAll(s, ops), key, ip) <==> WasLetIn(s, ops, key, ip)
    ensures key in PerformAll(s, ops).online ==> exists x :: IsOnline(PerformAll(s, ops), key, x)
  {
    if ops == [] {
    } else {
      var (before, op) := (ops[..|ops| - 1], ops[|ops| - 1]);
      OnlineIsLetIn(s, before, key, ip);
      PerformAllAppend(s, before, op);
      assert before + [op] == ops;
      var (t, t') := (PerformAll(s, before), PerformAll(s, ops));
      match op
      case Update(_, _, _) =>
        DropUsersOnline(t, op.tag, op.deleted, key);
        PutUsersOnline(DropUsers(t, op.tag, op.deleted), op.tag, op.added);
        assert key in t'.online ==> key in t.online && t'.online[key] == t.online[key];
        assert forall x :: IsOnline(t, key, x) && key in t'.online ==> IsOnline(t', key, x);
      case Check(_, _, _, _, _) =>
        CheckOnWindow(t, op, key, ip);
        if key in t'.online {
          if key in t.online {
            var x :| IsOnline(t, key, x);
            CheckOnWindow(t, op, key, x);
          } else {
            CheckOnWindow(t, op, key, NormalizeIP(op.ip));
          }
        }
      case _ =>
        assert t'.online == t.online || t'.online == map[];
        assert forall x :: IsOnline(t, key, x) && key in t'.online ==> IsOnline(t', key, x);
    }
  }

  // ---------- what a report remembers ----------

  /** An address counts as online in a window when some user has it there, once normalised; the empty one never does. */
  lemma WasOnlineIff(online: map<string, map<string, int>>, ip: string)
    ensures WasOnline(online, online.Keys, ip) <==>
              ip != "" && exists key, raw :: key in online && raw in online[key] && NormalizeIP(raw) == ip
  {
    if ip != "" {
      if key, raw :| key in online && raw in online[key] && NormalizeIP(raw) == ip {
        assert WasInTable(online[key], ip);
      }
    }
  }

  /** An address the window has for one user only is remembered for that user. */
  lemma RememberedForItsUser(before: map<string, int>, online: map<string, map<string, int>>, ip: string, uid: int,
                             key: string, raw: string)
    requires RememberedRightly(before, online, online.Keys, ip, uid) && ip != ""
    requires key in online && raw in online[key] && NormalizeIP(raw) == ip
    requires forall k, r :: k in online && r in online[k] && NormalizeIP(r) == ip ==> online[k][r] == online[key][raw]
    ensures uid == online[key][raw]
  {
    WasOnlineIff(online, ip);
  }

  /** An address the window does not have is remembered as before. */
  lemma OthersAreRememberedAsBefore(before: map<string, int>, online: map<string, map<string, int>>, ip: string, uid: int)
    requires RememberedRightly(before, online, online.Keys, ip, uid)
    requires ip == "" || forall k, r :: k in online && r in online[k] ==> NormalizeIP(r) != ip
    ensures ip in before && uid == before[ip]
  {
    WasOnlineIff(online, ip);
  }

  // ---------- when a check refuses ----------

  function AliveCount(s: State, uid: int): int {
    if uid in s.alive then s.alive[uid] else 0
  }

  /**
  A check refuses if and only if the user has reached its connection limit, or the address is new
  and its addresses have, or the user is unknown, or the device limit is reached, counting what the panel
  knows, by an address that is neither in the window nor, as the first one, in the last report.
  */
  lemma CheckRefusesIff(s: State, op: Op)
    requires op.Check?
    ensures var (key, ip, t) := (op.key, NormalizeIP(op.ip), s.conn);
            ReplyTo(s, op).Refused? <==>
              || (s.cfg.connLimit != 0 && key in t.count && t.count[key] >= s.cfg.connLimit)
              || (s.cfg.ipLimit > 0 && key in t.ip && ip !in t.ip[key] && |t.ip[key]| >= s.cfg.ipLimit)
              || key !in s.limits
              || (op.noSSUDP && 0 < s.limits[key].deviceLimit <= AliveCount(s, s.limits[key].uid)
                  && !IsOnline(s, key, ip) && (key in s.online || ip !in s.oldOnline))
  {
    var (s', passed) := Gate(s, op.key, op.ip, op.isTcp, op.noSSUDP, op.now);
    assert ReplyTo(s, op).Refused? <==> !passed;
  }

  /** The same with the window told from the history. */
  lemma DeviceRefusedIff(s: State, ops: seq<Op>, op: Op)
    requires s.online == map[] && op.Check? && op.noSSUDP
    requires var t := PerformAll(s, ops); op.key in t.limits && !Refuses(t.cfg, t.conn, op.key, NormalizeIP(op.ip))
    ensures var t := PerformAll(s, ops);
            ReplyTo(t, op).Refused? <==>
              && 0 < t.limits[op.key].deviceLimit <= AliveCount(t, t.limits[op.key].uid)
              && !WasLetIn(s, ops, op.key, NormalizeIP(op.ip))
              && ((exists ip :: WasLetIn(s, ops, op.key, ip)) || NormalizeIP(op.ip) !in t.oldOnline)
  {
    var t := PerformAll(s, ops);
    OnlineIsLetIn(s, ops, op.key, NormalizeIP(op.ip));
    CheckRefusesIff(t, op);
    if op.key in t.online {
      var x :| IsOnline(t, op.key, x);
      OnlineIsLetIn(s, ops, op.key, x);
    } else if x :| WasLetIn(s, ops, op.key, x) {
      OnlineIsLetIn(s, ops, op.key, x);
    }
  }

  /** The first address of a user's window is taken off the last report when it was there under the same id. */
  lemma RememberedIsUsedUp(s: State, op: Op)
    requires op.Check? && op.noSSUDP && ReplyTo(s, op).Admitted?
    ensures var (ip, was, now) := (NormalizeIP(op.ip), s.oldOnline, Perform(s, op).oldOnline);
            now == if op.key !in s.online && ip in was && was[ip] == s.limits[op.key].uid then was - {ip} else was
  {
    var (s', passed) := Gate(s, op.key, op.ip, op.isTcp, op.noSSUDP, op.now);
    assert Perform(s, op).oldOnline == s'.oldOnline;
  }

  // ---------- the panel's counts ----------

  lemma {:induction false} PutUsersAlive(s: State, tag: string, users: seq<UserInfo>)
    ensures PutUsers(s, tag, users).alive == s.alive
  {
    if users != [] {
      PutUsersAlive(s, tag, users[..|users| - 1]);
    }
  }

  lemma {:induction false} DropUsersAlive(s: State, tag: string, users: seq<UserInfo>, uid: int)
    ensures AliveCount(DropUsers(s, tag, users), uid) == if exists u :: u in users && u.id == uid then 0 else AliveCount(s, uid)
  {
    if users != [] {
      var (init, last) := (users[..|users| - 1], users[|users| - 1]);
      assert forall u :: u in users <==> u in init || u == last;
      DropUsersAlive(s, tag, init, uid);
    }
  }

  /** The panel's device count goes with a deleted user, and only then. */
  lemma DeletionForgetsDevices(s: State, op: Op, uid: int)
    requires op.Update?
    ensures AliveCount(Perform(s, op), uid) == if exists u :: u in op.deleted && u.id == uid then 0 else AliveCount(s, uid)
  {
    DropUsersAlive(s, op.tag, op.deleted, uid);
    PutUsersAlive(DropUsers(s, op.tag, op.deleted), op.tag, op.added);
  }
}
