/**
Whole runs of the connection limiter: what its tables say about the history that led to them.
*/
module ConnHistory {
  import opened ConnLimits

  // ---------- runs ----------

  function Run(c: Config, es: seq<Event>): Tables {
    if es == [] then EMPTY else Step(c, Run(c, es[..|es| - 1]), es[|es| - 1])
  }

  /** One TCP session that the limiter admitted. */
  datatype Session = Session(user: string, ip: string)

  /** Selects the sessions of one user, or of one user at one address. */
  datatype Selector = OfUser(user: string) | At(user: string, ip: string) {
    predicate Picks(x: Session) {
      x.user == user && (At? ==> x.ip == ip)
    }
  }

  function Tally(open: seq<Session>, sel: Selector): nat {
    if open == [] then 0 else (if sel.Picks(open[0]) then 1 else 0) + Tally(open[1..], sel)
  }

  function Without(open: seq<Session>, x: Session): seq<Session> {
    if open == [] then [] else if open[0] == x then open[1..] else [open[0]] + Without(open[1..], x)
  }

  predicate IsAdmission(c: Config, t: Tables, e: Event) {
    e.Add? && !Refuses(c, t, e.user, e.ip)
  }

  /** A TCP attempt that raised the connection count and was then turned away by the address limit. */
  predicate IsLeak(c: Config, t: Tables, e: Event) {
    e.Add? && e.isTcp && !OverConnLimit(c, t, e.user) && OverIpLimit(c, t, e.user, e.ip)
  }

  /** The TCP sessions a run admitted, in order; those closed since are dropped when `forget` holds. */
  function Sessions(c: Config, es: seq<Event>, forget: bool): seq<Session> {
    if es == [] then []
    else
      var (before, e) := (es[..|es| - 1], es[|es| - 1]);
      var open := Sessions(c, before, forget);
      if IsAdmission(c, Run(c, before), e) && e.isTcp then open + [Session(e.user, e.ip)]
      else if e.Del? && forget then Without(open, Session(e.user, e.ip))
      else open
  }

  function Open(c: Config, es: seq<Event>): seq<Session> {
    Sessions(c, es, true)
  }

  /** How many of a user's attempts leaked into the connection count. */
  function Leaked(c: Config, es: seq<Event>, user: string): nat {
    if es == [] then 0
    else
      var (before, e) := (es[..|es| - 1], es[|es| - 1]);
      Leaked(c, before, user) + if IsLeak(c, Run(c, before), e) && e.user == user then 1 else 0
  }

  /** Every close ends a session that is open. */
  predicate Matched(c: Config, es: seq<Event>) {
    es == [] ||
    var (before, e) := (es[..|es| - 1], es[|es| - 1]);
    Matched(c, before) && (e.Del? ==> Session(e.user, e.ip) in Open(c, before))
  }

  // ---------- counting sessions ----------

  lemma {:induction false} TallyAppend(open: seq<Session>, x: Session, sel: Selector)
    ensures Tally(open + [x], sel) == Tally(open, sel) + if sel.Picks(x) then 1 else 0
  {
    if open == [] {
    } else {
      assert (open + [x])[1..] == open[1..] + [x];
      TallyAppend(open[1..], x, sel);
    }
  }

  lemma {:induction false} TallyWithout(open: seq<Session>, x: Session, sel: Selector)
    requires x in open
    ensures Tally(Without(open, x), sel) == Tally(open, sel) - if sel.Picks(x) then 1 else 0
  {
    if open[0] != x {
      TallyWithout(open[1..], x, sel);
      assert ([open[0]] + Without(open[1..], x))[1..] == Without(open[1..], x);
    }
  }

  lemma {:induction false} TallyOfUserCovers(open: seq<Session>, user: string, ip: string)
    ensures Tally(open, At(user, ip)) <= Tally(open, OfUser(user))
    ensures Session(user, ip) in open ==> Tally(open, At(user, ip)) > 0
  {
    if open != [] {
      TallyOfUserCovers(open[1..], user, ip);
    }
  }

  /** How one event changes the tally of the sessions kept so far. */
  lemma TallyStep(c: Config, es: seq<Event>, forget: bool, sel: Selector)
    requires es != [] && Matched(c, es)
    ensures var (before, e) := (es[..|es| - 1], es[|es| - 1]);
            Tally(Sessions(c, es, forget), sel) == Tally(Sessions(c, before, forget), sel) +
              (if IsAdmission(c, Run(c, before), e) && e.isTcp && sel.Picks(Session(e.user, e.ip)) then 1
               else if e.Del? && forget && sel.Picks(Session(e.user, e.ip)) then -1
               else 0)
  {
    var (before, e) := (es[..|es| - 1], es[|es| - 1]);
    if IsAdmission(c, Run(c, before), e) && e.isTcp {
      TallyAppend(Sessions(c, before, forget), Session(e.user, e.ip), sel);
    } else if e.Del? && forget {
      TallyWithout(Sessions(c, before, forget), Session(e.user, e.ip), sel);
    }
  }

  // ---------- the packed number ----------

  /** The number stored for an address: two per session, and one more when packet traffic opened the entry. */
  predicate PackedAgrees(t: Tables, sessions: nat, byPacket: bool, user: string, ip: string) {
    if Tracks(t, user, ip) then
      t.ip[user][ip] == Packed(2 * sessions + if byPacket then 1 else 0) && (sessions > 0 || byPacket)
    else sessions == 0
  }

  /** Whether the entry an address has now was opened by packet traffic. */
  predicate OpenedByPacket(c: Config, es: seq<Event>, user: string, ip: string) {
    es != [] &&
    var (before, e) := (es[..|es| - 1], es[|es| - 1]);
    if Tracks(Run(c, before), user, ip) then OpenedByPacket(c, before, user, ip) else e.Add? && !e.isTcp
  }

  predicate Tracks(t: Tables, user: string, ip: string) {
    user in t.ip && ip in t.ip[user]
  }

  lemma PackedAfterAdd(c: Config, t: Tables, sessions: nat, byPacket: bool, e: Event, user: string, ip: string)
    requires c.realtime && e.Add? && PackedAgrees(t, sessions, byPacket, user, ip)
    ensures PackedAgrees(Step(c, t, e),
                         sessions + if IsAdmission(c, t, e) && e.isTcp && e.user == user && e.ip == ip then 1 else 0,
                         if Tracks(t, user, ip) then byPacket else !e.isTcp,
                         user, ip)
  {
    if e.user != user || e.ip != ip || Refuses(c, t, user, ip) {
      assert Tracks(Step(c, t, e), user, ip) == Tracks(t, user, ip);
    }
  }

  lemma PackedAfterDel(c: Config, t: Tables, sessions: nat, byPacket: bool, e: Event, user: string, ip: string)
    requires c.realtime && e.Del? && PackedAgrees(t, sessions, byPacket, user, ip)
    requires c.ipLimit != 0 && e.user == user && e.ip == ip ==> sessions > 0
    ensures PackedAgrees(Step(c, t, e),
                         if c.ipLimit != 0 && e.user == user && e.ip == ip then sessions - 1 else sessions,
                         byPacket, user, ip)
  {
    if user in t.ip {
      assert ip !in Closed(t.ip[user], e.ip) ==> ip !in t.ip[user] || e.ip == ip;
    }
  }

  lemma PackedAfterClear(t: Tables, now: int, sessions: nat, byPacket: bool, user: string, ip: string)
    requires PackedAgrees(t, sessions, byPacket, user, ip)
    ensures PackedAgrees(AfterClear(t, now), sessions, byPacket, user, ip)
  {
    if Tracks(t, user, ip) {
      assert ip in Survivors(t.ip[user], now) <==> t.ip[user][ip].n != 1;
    }
  }

  lemma PackedAfterStep(c: Config, t: Tables, sessions: nat, byPacket: bool, e: Event, user: string, ip: string)
    requires c.realtime && PackedAgrees(t, sessions, byPacket, user, ip)
    requires e.Del? && c.ipLimit != 0 && e.user == user && e.ip == ip ==> sessions > 0
    ensures PackedAgrees(Step(c, t, e),
                         if IsAdmission(c, t, e) && e.isTcp && e.user == user && e.ip == ip then sessions + 1
                         else if e.Del? && c.ipLimit != 0 && e.user == user && e.ip == ip then sessions - 1
                         else sessions,
                         if Tracks(t, user, ip) then byPacket else e.Add? && !e.isTcp,
                         user, ip)
  {
    match e
    case Add(_, _, _, _) => PackedAfterAdd(c, t, sessions, byPacket, e, user, ip);
    case Del(_, _) => PackedAfterDel(c, t, sessions, byPacket, e, user, ip);
    case Clear(now) => PackedAfterClear(t, now, sessions, byPacket, user, ip);
  }

  /**
  In realtime mode the stored number is twice the open sessions, plus one exactly when packet
  traffic opened the entry, and an absent entry has no open session. With the address limit switched off closes never reach the table,
  so there the number counts every session ever admitted.
  */
  lemma {:induction false} PackedCountIsOpenSessions(c: Config, es: seq<Event>, user: string, ip: string)
    requires c.realtime && Matched(c, es)
    ensures PackedAgrees(Run(c, es), Tally(Sessions(c, es, c.ipLimit != 0), At(user, ip)), OpenedByPacket(c, es, user, ip),
                         user, ip)
  {
    if es == [] {
    } else {
      var (before, e) := (es[..|es| - 1], es[|es| - 1]);
      PackedCountIsOpenSessions(c, before, user, ip);
      TallyStep(c, es, c.ipLimit != 0, At(user, ip));
      if e.Del? {
        TallyOfUserCovers(Open(c, before), user, ip);
      }
      PackedAfterStep(c, Run(c, before), Tally(Sessions(c, before, c.ipLimit != 0), At(user, ip)),
                      OpenedByPacket(c, before, user, ip), e, user, ip);
    }
  }

  /** The clean-up leaves the entry of every address that still has an open session untouched. */
  lemma CleanupKeepsOpenSessions(c: Config, es: seq<Event>, user: string, ip: string, now: int)
    requires c.realtime && c.ipLimit != 0 && Matched(c, es)
    requires Session(user, ip) in Open(c, es)
    ensures Tracks(Run(c, es), user, ip) && Tracks(AfterClear(Run(c, es), now), user, ip)
    ensures AfterClear(Run(c, es), now).ip[user][ip] == Run(c, es).ip[user][ip]
  {
    PackedCountIsOpenSessions(c, es, user, ip);
    TallyOfUserCovers(Open(c, es), user, ip);
    var t := Run(c, es);
    assert ip in Survivors(t.ip[user], now);
  }

  /** Right after a clean-up the tracked addresses are exactly those with a session; packet traffic alone keeps none. */
  lemma CleanupLeavesSessions(c: Config, es: seq<Event>, user: string, ip: string, now: int)
    requires c.realtime && Matched(c, es)
    ensures Tracks(AfterClear(Run(c, es), now), user, ip) <==> Tally(Sessions(c, es, c.ipLimit != 0), At(user, ip)) > 0
  {
    PackedCountIsOpenSessions(c, es, user, ip);
    var t := Run(c, es);
    if Tracks(t, user, ip) {
      assert ip in Survivors(t.ip[user], now) <==> t.ip[user][ip].n != 1;
    }
  }

  // ---------- the connection count ----------

  /** The stored count is the number of sessions and leaks, and is not stored when that is zero. */
  predicate CountAgrees(c: Config, t: Tables, number: int, user: string) {
    && CountOf(t, user) == number
    && (user in t.count <==> number > 0)
    && (c.connLimit > 0 ==> number <= c.connLimit)
  }

  lemma CountAfterAdd(c: Config, t: Tables, number: int, e: Event, user: string)
    requires c.connLimit != 0 && e.Add? && number >= 0 && CountAgrees(c, t, number, user)
    ensures CountAgrees(c, Step(c, t, e),
                        number + if e.isTcp && e.user == user && !OverConnLimit(c, t, user) then 1 else 0, user)
  {
  }

  lemma CountAfterDel(c: Config, t: Tables, number: int, e: Event, user: string)
    requires c.connLimit != 0 && e.Del? && CountAgrees(c, t, number, user)
    requires c.realtime && e.user == user ==> number > 0
    ensures CountAgrees(c, Step(c, t, e), if c.realtime && e.user == user then number - 1 else number, user)
  {
  }

  /**
  The connection count is the open sessions plus the leaked attempts, an entry is stored exactly
  when that sum is positive, and with a positive limit it never exceeds the limit. Outside
  realtime mode closes are ignored, so there the count is of all sessions ever admitted and the
  limit bounds them over the whole run.
  */
  lemma {:induction false} ConnectionsAreConserved(c: Config, es: seq<Event>, user: string)
    requires c.connLimit != 0 && Matched(c, es)
    ensures CountAgrees(c, Run(c, es), Tally(Sessions(c, es, c.realtime), OfUser(user)) + Leaked(c, es, user), user)
  {
    if es == [] {
    } else {
      var (before, e) := (es[..|es| - 1], es[|es| - 1]);
      ConnectionsAreConserved(c, before, user);
      TallyStep(c, es, c.realtime, OfUser(user));
      var (t, number) := (Run(c, before), Tally(Sessions(c, before, c.realtime), OfUser(user)) + Leaked(c, before, user));
      match e
      case Add(_, _, _, _) => CountAfterAdd(c, t, number, e, user);
      case Del(_, _) =>
        TallyOfUserCovers(Open(c, before), e.user, e.ip);
        CountAfterDel(c, t, number, e, user);
      case Clear(_) =>
    }
  }

  /** Over the connection limit is exactly: open sessions and leaked attempts together reach it. */
  lemma OverConnLimitIff(c: Config, es: seq<Event>, user: string)
    requires c.connLimit > 0 && Matched(c, es)
    ensures OverConnLimit(c, Run(c, es), user) <==>
              Tally(Sessions(c, es, c.realtime), OfUser(user)) + Leaked(c, es, user) >= c.connLimit
  {
    ConnectionsAreConserved(c, es, user);
  }

  lemma {:induction false} MatchedPrefix(c: Config, es: seq<Event>, more: seq<Event>, user: string)
    requires Matched(c, es + more)
    ensures Matched(c, es) && Leaked(c, es, user) <= Leaked(c, es + more, user)
    decreases more
  {
    if more == [] {
      assert es + more == es;
    } else {
      var init := more[..|more| - 1];
      assert (es + more)[..|es + more| - 1] == es + init;
      MatchedPrefix(c, es, init, user);
    }
  }

  /**
  In realtime mode a user with no session open is over the connection limit if and only if its
  leaked attempts reach the limit. Leaks are never paid back, so then every attempt at every
  address is refused in every continuation.
  */
  lemma LeaksLockUsersOutIff(c: Config, es: seq<Event>, user: string)
    requires c.realtime && c.connLimit > 0 && Matched(c, es) && Tally(Open(c, es), OfUser(user)) == 0
    ensures OverConnLimit(c, Run(c, es), user) <==> Leaked(c, es, user) >= c.connLimit
    ensures OverConnLimit(c, Run(c, es), user) ==>
              forall more, ip :: Matched(c, es + more) ==> Refuses(c, Run(c, es + more), user, ip)
  {
    OverConnLimitIff(c, es, user);
    if OverConnLimit(c, Run(c, es), user) {
      forall more | Matched(c, es + more)
        ensures OverConnLimit(c, Run(c, es + more), user)
      {
        MatchedPrefix(c, es, more, user);
        OverConnLimitIff(c, es + more, user);
      }
    }
  }

  /** A run that gets there: with both limits at one, packet traffic at one address and then TCP from another. */
  lemma LeaksHappen(user: string, a: string, b: string, now: int) returns (c: Config, es: seq<Event>)
    requires a != b
    ensures c == Config(true, 1, 1) && es == [Add(user, a, false, now), Add(user, b, true, now)]
    ensures Matched(c, es) && Open(c, es) == [] && Leaked(c, es, user) == c.connLimit
    ensures OverConnLimit(c, Run(c, es), user)
  {
    c := Config(true, 1, 1);
    es := [Add(user, a, false, now), Add(user, b, true, now)];
    var first := [Add(user, a, false, now)];
    assert es[..1] == first && first[..0] == [];
    assert Run(c, first) == Tables(map[], map[user := map[a := Packed(1)]]);
    assert |Run(c, first).ip[user]| == 1;
    assert IsLeak(c, Run(c, first), es[1]);
    assert Sessions(c, [], true) == [];
    assert Leaked(c, first, user) == 0 && Sessions(c, first, true) == [] && Matched(c, first);
    OverConnLimitIff(c, es, user);
  }

  // ---------- the address table ----------

  predicate BoundedTable(c: Config, t: Tables, user: string) {
    user in t.ip ==> t.ip[user] != map[] && (c.ipLimit > 0 ==> |t.ip[user]| <= c.ipLimit)
  }

  lemma BoundedAfterAdd(c: Config, t: Tables, e: Event, user: string)
    requires e.Add? && BoundedTable(c, t, user)
    ensures BoundedTable(c, Step(c, t, e), user)
  {
    var t' := Step(c, t, e);
    if e.user != user || Refuses(c, t, user, e.ip) {
      assert user in t'.ip ==> user in t.ip && t'.ip[user] == t.ip[user];
    } else {
      var table := if user in t.ip then t.ip[user] else map[];
      assert t'.ip[user].Keys == table.Keys + {e.ip};
      assert e.ip in table ==> table.Keys + {e.ip} == table.Keys;
    }
  }

  lemma BoundedAfterDel(c: Config, t: Tables, e: Event, user: string)
    requires e.Del? && BoundedTable(c, t, user)
    ensures BoundedTable(c, Step(c, t, e), user)
  {
    if user in t.ip {
      SubsetIsSmaller(Closed(t.ip[user], e.ip).Keys, t.ip[user].Keys);
    }
  }

  /** In every run, matched or not, a user tracks between one address and the address limit. */
  lemma {:induction false} AddressTablesAreBounded(c: Config, es: seq<Event>, user: string)
    ensures BoundedTable(c, Run(c, es), user)
  {
    if es == [] {
    } else {
      var (before, e) := (es[..|es| - 1], es[|es| - 1]);
      AddressTablesAreBounded(c, before, user);
      var t := Run(c, before);
      match e
      case Add(_, _, _, _) => BoundedAfterAdd(c, t, e, user);
      case Del(_, _) => BoundedAfterDel(c, t, e, user);
      case Clear(now) =>
        if user in t.ip {
          SubsetIsSmaller(Survivors(t.ip[user], now).Keys, t.ip[user].Keys);
        }
    }
  }

  /**
  In every run, an attempt is refused if and only if the user has as many connections counted as
  its limit allows, or the address is a new one and the user tracks exactly as many as its limit allows.
  */
  lemma RefusedIff(c: Config, es: seq<Event>, user: string, ip: string)
    ensures var t := Run(c, es);
            Refuses(c, t, user, ip) <==>
              || (c.connLimit != 0 && user in t.count && t.count[user] >= c.connLimit)
              || (c.ipLimit > 0 && user in t.ip && ip !in t.ip[user] && |t.ip[user]| == c.ipLimit)
  {
    AddressTablesAreBounded(c, es, user);
  }

  lemma {:induction false} SubsetIsSmaller<T>(a: set<T>, b: set<T>)
    requires a <= b
    ensures |a| <= |b|
  {
    assert b == a + (b - a);
  }

  // ---------- the time window ----------

  datatype Moment = Never | Last(at: int)

  /** The time of the latest admitted connection of a user at an address. */
  function LastAdmission(c: Config, es: seq<Event>, user: string, ip: string): Moment {
    if es == [] then Never
    else
      var (before, e) := (es[..|es| - 1], es[|es| - 1]);
      if IsAdmission(c, Run(c, before), e) && e.user == user && e.ip == ip then Last(e.now)
      else LastAdmission(c, before, user, ip)
  }

  /** The latest reading of the clock in a run. */
  function LastReading(es: seq<Event>): Moment {
    if es == [] then Never
    else if es[|es| - 1].Del? then LastReading(es[..|es| - 1])
    else Last(es[|es| - 1].now)
  }

  predicate ClockNeverRunsBack(es: seq<Event>) {
    es == [] ||
    var (before, e) := (es[..|es| - 1], es[|es| - 1]);
    ClockNeverRunsBack(before) && (!e.Del? && LastReading(before).Last? ==> LastReading(before).at <= e.now)
  }

  /** What is tracked carries its latest admission; what is not was admitted never, or five minutes ago and more. */
  predicate WindowAgrees(t: Tables, last: Moment, reading: Moment, user: string, ip: string) {
    if Tracks(t, user, ip) then last.Last? && t.ip[user][ip] == Seen(last.at)
    else last.Last? ==> reading.Last? && last.at < reading.at - 300_000_000_000
  }

  lemma {:induction false} WindowHolds(c: Config, es: seq<Event>, user: string, ip: string)
    requires !c.realtime && ClockNeverRunsBack(es)
    ensures WindowAgrees(Run(c, es), LastAdmission(c, es, user, ip), LastReading(es), user, ip)
  {
    if es == [] {
    } else {
      var before := es[..|es| - 1];
      WindowHolds(c, before, user, ip);
    }
  }

  /**
  Outside realtime mode, right after a clean-up the tracked pairs are exactly those admitted
  within the last five minutes, whatever happened before.
  */
  lemma CleanupLeavesTheWindow(c: Config, es: seq<Event>, user: string, ip: string, now: int)
    requires !c.realtime && ClockNeverRunsBack(es + [Clear(now)])
    ensures var last := LastAdmission(c, es, user, ip);
            Tracks(Run(c, es + [Clear(now)]), user, ip) <==> last.Last? && now - 300_000_000_000 <= last.at
  {
    var es' := es + [Clear(now)];
    assert es'[..|es'| - 1] == es;
    WindowHolds(c, es, user, ip);
    var t := Run(c, es);
    if Tracks(t, user, ip) {
      assert ip in Survivors(t.ip[user], now) <==> Survives(t.ip[user][ip], now);
    }
  }
}
