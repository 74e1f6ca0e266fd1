/**
Sessions seen from the whole limiter. A check first counts a TCP attempt in the connection limiter
and may refuse it afterwards, as an unknown user's or for the device limit. The caller closes only
the sessions the check admitted, so such an attempt stays counted for good.
*/
module SessionHistory {
  import opened ConnHistory
  import opened ConnLimits
  import opened LimiterHistory
  import opened Limits
  import opened OnlinePayload
  import opened Users

  /** The step a check or a close is for the connection limiter. */
  function ConnEvent(op: Op): seq<Event> {
    match op
    case Check(key, ip, isTcp, _, now) => [Add(key, NormalizeIP(ip), isTcp, now)]
    case Conn(e) => [e]
    case _ => []
  }

  function ConnEvents(ops: seq<Op>): seq<Event> {
    if ops == [] then [] else ConnEvents(ops[..|ops| - 1]) + ConnEvent(ops[|ops| - 1])
  }

  /** A TCP attempt that the connection limiter lets through. */
  predicate IsCounted(s: State, op: Op) {
    op.Check? && op.isTcp && !Refuses(s.cfg, s.conn, op.key, NormalizeIP(op.ip))
  }

  predicate IsClose(op: Op) {
    op.Conn? && op.e.Del?
  }

  /** The TCP sessions the checks admitted, in order; those closed since are dropped when `forget` holds. */
  function AdmittedSessions(s: State, ops: seq<Op>, forget: bool): seq<Session> {
    if ops == [] then []
    else
      var (before, op) := (ops[..|ops| - 1], ops[|ops| - 1]);
      var open := AdmittedSessions(s, before, forget);
      if op.Check? && op.isTcp && ReplyTo(PerformAll(s, before), op).Admitted? then
        open + [Session(op.key, NormalizeIP(op.ip))]
      else if IsClose(op) && forget then Without(open, Session(op.e.user, op.e.ip))
      else open
  }

  /** The TCP attempts that were counted and then refused all the same. */
  function Stranded(s: State, ops: seq<Op>): seq<Session> {
    if ops == [] then []
    else
      var (before, op) := (ops[..|ops| - 1], ops[|ops| - 1]);
      var t := PerformAll(s, before);
      Stranded(s, before) +
      if IsCounted(t, op) && ReplyTo(t, op).Refused? then [Session(op.key, NormalizeIP(op.ip))] else []
  }

  /** Every close ends an open session that a check admitted; nobody else adds sessions. */
  predicate Paired(s: State, ops: seq<Op>) {
    ops == [] ||
    var (before, op) := (ops[..|ops| - 1], ops[|ops| - 1]);
    Paired(s, before) && (op.Conn? ==> !op.e.Add?) &&
    (IsClose(op) ==> Session(op.e.user, op.e.ip) in AdmittedSessions(s, before, true))
  }

  // ---------- the connection limiter's run ----------

  lemma {:induction false} UpdateKeepsConn(s: State, tag: string, added: seq<UserInfo>, deleted: seq<UserInfo>)
    ensures var t := PutUsers(DropUsers(s, tag, deleted), tag, added); t.conn == s.conn && t.cfg == s.cfg
    decreases |added| + |deleted|
  {
    if added != [] {
      UpdateKeepsConn(s, tag, added[..|added| - 1], deleted);
    } else if deleted != [] {
      UpdateKeepsConn(s, tag, [], deleted[..|deleted| - 1]);
    }
  }

  lemma GateOnConn(s: State, op: Op)
    requires op.Check?
    ensures var s' := Gate(s, op.key, op.ip, op.isTcp, op.noSSUDP, op.now).0;
            s'.cfg == s.cfg && s'.conn == Step(s.cfg, s.conn, Add(op.key, NormalizeIP(op.ip), op.isTcp, op.now))
  {
  }

  lemma StepOnConn(s: State, op: Op)
    ensures Perform(s, op).cfg == s.cfg
    ensures Perform(s, op).conn == if ConnEvent(op) == [] then s.conn else Step(s.cfg, s.conn, ConnEvent(op)[0])
  {
    if op.Update? {
      UpdateKeepsConn(s, op.tag, op.added, op.deleted);
    } else if op.Check? {
      GateOnConn(s, op);
      var (s', passed) := Gate(s, op.key, op.ip, op.isTcp, op.noSSUDP, op.now);
      assert Perform(s, op).conn == s'.conn && Perform(s, op).cfg == s'.cfg;
    }
  }

  lemma {:induction false} ConnFollows(s: State, ops: seq<Op>)
    requires s.conn == EMPTY
    ensures PerformAll(s, ops).cfg == s.cfg && PerformAll(s, ops).conn == Run(s.cfg, ConnEvents(ops))
  {
    if ops == [] {
    } else {
      var (before, op) := (ops[..|ops| - 1], ops[|ops| - 1]);
      assert before + [op] == ops;
      ConnFollows(s, before);
      PerformAllAppend(s, before, op);
      StepOnConn(PerformAll(s, before), op);
      LastEvent(ConnEvents(before), ConnEvent(op));
    }
  }

  lemma LastEvent(es: seq<Event>, e: seq<Event>)
    requires |e| <= 1
    ensures if e == [] then es + e == es else (es + e)[..|es + e| - 1] == es && (es + e)[|es + e| - 1] == e[0]
  {
    assert e == [] ==> es + e == es;
  }

  /** Only an attempt the connection limiter lets through can be admitted. */
  lemma AdmittedIsCounted(s: State, op: Op)
    requires op.Check? && op.isTcp && ReplyTo(s, op).Admitted?
    ensures IsCounted(s, op)
  {
  }

  // ---------- open, or stranded ----------

  /** By how much one step changes the number of sessions the connection limiter takes for open. */
  function Change(t: State, op: Op, forget: bool, sel: Selector): int {
    if IsCounted(t, op) && sel.Picks(Session(op.key, NormalizeIP(op.ip))) then 1
    else if IsClose(op) && forget && sel.Picks(Session(op.e.user, op.e.ip)) then -1
    else 0
  }

  lemma ChangeInConn(s: State, before: seq<Op>, op: Op, forget: bool, sel: Selector)
    requires s.conn == EMPTY && Matched(s.cfg, ConnEvents(before)) && (op.Conn? ==> !op.e.Add?)
    requires IsClose(op) ==> Session(op.e.user, op.e.ip) in Open(s.cfg, ConnEvents(before))
    ensures var es := ConnEvents(before) + ConnEvent(op);
            Matched(s.cfg, es)
            && Tally(Sessions(s.cfg, es, forget), sel) ==
                 Tally(Sessions(s.cfg, ConnEvents(before), forget), sel) + Change(PerformAll(s, before), op, forget, sel)
  {
    ConnFollows(s, before);
    LastEvent(ConnEvents(before), ConnEvent(op));
    if ConnEvent(op) != [] {
      TallyStep(s.cfg, ConnEvents(before) + ConnEvent(op), forget, sel);
    }
  }

  lemma ChangeInChecks(s: State, before: seq<Op>, op: Op, forget: bool, sel: Selector)
    requires Paired(s, before + [op])
    requires IsClose(op) && forget ==> Session(op.e.user, op.e.ip) in AdmittedSessions(s, before, forget)
    ensures var ops := before + [op];
            Tally(AdmittedSessions(s, ops, forget), sel) + Tally(Stranded(s, ops), sel) ==
              Tally(AdmittedSessions(s, before, forget), sel) + Tally(Stranded(s, before), sel)
              + Change(PerformAll(s, before), op, forget, sel)
  {
    var (ops, t) := (before + [op], PerformAll(s, before));
    assert ops[..|ops| - 1] == before;
    var (open, lost) := (AdmittedSessions(s, before, forget), Stranded(s, before));
    assert lost + [] == lost;
    if IsClose(op) && forget {
      TallyWithout(open, Session(op.e.user, op.e.ip), sel);
    } else if op.Check? && op.isTcp {
      var x := Session(op.key, NormalizeIP(op.ip));
      TallyAppend(open, x, sel);
      TallyAppend(lost, x, sel);
      if ReplyTo(t, op).Admitted? {
        AdmittedIsCounted(t, op);
      }
    }
  }

  /** What the connection limiter takes for open sessions are the open and the stranded ones. */
  lemma {:induction false} CountedIsOpenOrStranded(s: State, ops: seq<Op>, forget: bool, sel: Selector)
    requires s.conn == EMPTY && Paired(s, ops)
    ensures Matched(s.cfg, ConnEvents(ops))
    ensures Tally(Sessions(s.cfg, ConnEvents(ops), forget), sel) ==
              Tally(AdmittedSessions(s, ops, forget), sel) + Tally(Stranded(s, ops), sel)
    decreases |ops|, 1
  {
    if ops == [] {
    } else {
      var (before, op) := (ops[..|ops| - 1], ops[|ops| - 1]);
      assert before + [op] == ops;
      CountedIsOpenOrStranded(s, before, forget, sel);
      if IsClose(op) {
        CloseIsMatched(s, before, Session(op.e.user, op.e.ip));
      }
      ChangeInConn(s, before, op, forget, sel);
      ChangeInChecks(s, before, op, forget, sel);
    }
  }

  lemma {:induction false} CloseIsMatched(s: State, ops: seq<Op>, x: Session)
    requires s.conn == EMPTY && Paired(s, ops) && x in AdmittedSessions(s, ops, true)
    ensures x in Open(s.cfg, ConnEvents(ops))
    decreases |ops|, 2
  {
    var sel := At(x.user, x.ip);
    CountedIsOpenOrStranded(s, ops, true, sel);
    TallyOfUserCovers(AdmittedSessions(s, ops, true), x.user, x.ip);
    TallyFinds(Open(s.cfg, ConnEvents(ops)), x);
  }

  lemma {:induction false} TallyFinds(open: seq<Session>, x: Session)
    requires Tally(open, At(x.user, x.ip)) > 0
    ensures x in open
  {
    if open[0] != x {
      TallyFinds(open[1..], x);
    }
  }

  // ---------- conservation ----------

  /** The connection count is the open sessions, the attempts the address limit turned away, and the stranded ones. */
  lemma CountIsOpenLeakedAndStranded(s: State, ops: seq<Op>, user: string)
    requires s.conn == EMPTY && s.cfg.connLimit != 0 && Paired(s, ops)
    ensures CountAgrees(s.cfg, PerformAll(s, ops).conn,
                        Tally(AdmittedSessions(s, ops, s.cfg.realtime), OfUser(user))
                        + Leaked(s.cfg, ConnEvents(ops), user)
                        + Tally(Stranded(s, ops), OfUser(user)),
                        user)
  {
    ConnFollows(s, ops);
    CountedIsOpenOrStranded(s, ops, s.cfg.realtime, OfUser(user));
    ConnectionsAreConserved(s.cfg, ConnEvents(ops), user);
  }

  /** The stored number is twice the open and the stranded sessions at the address, and one more when packet traffic opened it. */
  lemma PackedIsOpenAndStranded(s: State, ops: seq<Op>, user: string, ip: string)
    requires s.conn == EMPTY && s.cfg.realtime && Paired(s, ops)
    ensures PackedAgrees(PerformAll(s, ops).conn,
                         Tally(AdmittedSessions(s, ops, s.cfg.ipLimit != 0), At(user, ip)) + Tally(Stranded(s, ops), At(user, ip)),
                         OpenedByPacket(s.cfg, ConnEvents(ops), user, ip),
                         user, ip)
  {
    ConnFollows(s, ops);
    CountedIsOpenOrStranded(s, ops, s.cfg.ipLimit != 0, At(user, ip));
    PackedCountIsOpenSessions(s.cfg, ConnEvents(ops), user, ip);
  }

  /** A known user with an open session, or any admitted one while the address limit is off, is listed online at its address. */
  lemma OpenSessionIsOnline(s: State, ops: seq<Op>, user: string, ip: string)
    requires s.conn == EMPTY && s.cfg.realtime && Paired(s, ops) && NormalizeIP(ip) != ""
    requires Session(user, ip) in AdmittedSessions(s, ops, s.cfg.ipLimit != 0)
    requires var t := PerformAll(s, ops); user in t.limits && t.limits[user].uid != 0
    ensures OnlineUser(PerformAll(s, ops).limits[user].uid, NormalizeIP(ip)) in OnlineNow(PerformAll(s, ops))
  {
    TallyOfUserCovers(AdmittedSessions(s, ops, s.cfg.ipLimit != 0), user, ip);
    PackedIsOpenAndStranded(s, ops, user, ip);
  }

  /** Whoever is listed online is a known user with an id, at a normalised address that the limiter tracks. */
  lemma OnlineIsTracked(s: State, u: OnlineUser) returns (key: string, raw: string)
    requires u in OnlineNow(s)
    ensures Tracks(s.conn, key, raw) && key in s.limits && s.limits[key].uid == u.uid && NormalizeIP(raw) == u.ip
    ensures u.uid != 0 && u.ip != ""
  {
    key, raw :| Tracks(s.conn, key, raw) && key in s.limits && s.limits[key].uid == u.uid && NormalizeIP(raw) == u.ip;
  }

  // ---------- for good ----------

  lemma StrandedGrows(s: State, before: seq<Op>, op: Op, sel: Selector)
    ensures Tally(Stranded(s, before), sel) <= Tally(Stranded(s, before + [op]), sel)
  {
    var (ops, lost) := (before + [op], Stranded(s, before));
    assert ops[..|ops| - 1] == before;
    assert lost + [] == lost;
    if op.Check? {
      TallyAppend(lost, Session(op.key, NormalizeIP(op.ip)), sel);
    }
  }

  lemma PairedPrefix(s: State, before: seq<Op>, op: Op)
    requires Paired(s, before + [op])
    ensures Paired(s, before)
  {
    assert (before + [op])[..|before|] == before;
  }

  lemma {:induction false} StrandedForGood(s: State, ops: seq<Op>, more: seq<Op>, sel: Selector)
    requires Paired(s, ops + more)
    ensures Paired(s, ops) && Tally(Stranded(s, ops), sel) <= Tally(Stranded(s, ops + more), sel)
    decreases more
  {
    if more == [] {
      assert ops + more == ops;
    } else {
      var (init, op) := (more[..|more| - 1], more[|more| - 1]);
      assert ops + more == ops + init + [op];
      PairedPrefix(s, ops + init, op);
      StrandedForGood(s, ops, init, sel);
      StrandedGrows(s, ops + init, op, sel);
    }
  }

  /** In realtime mode an address with a stranded attempt stays in its user's table through every clean-up and close. */
  lemma StrandedAddressStays(s: State, ops: seq<Op>, more: seq<Op>, user: string, ip: string)
    requires s.conn == EMPTY && s.cfg.realtime && Paired(s, ops + more)
    requires Session(user, ip) in Stranded(s, ops)
    ensures Tracks(PerformAll(s, ops + more).conn, user, ip)
  {
    TallyOfUserCovers(Stranded(s, ops), user, ip);
    StrandedForGood(s, ops, more, At(user, ip));
    PackedIsOpenAndStranded(s, ops + more, user, ip);
  }

  /**
  A realtime user without open sessions is over the connection limit if and only if its leaked and
  stranded attempts reach it.
  */
  lemma LockedOutIff(s: State, ops: seq<Op>, user: string)
    requires s.conn == EMPTY && s.cfg.realtime && s.cfg.connLimit > 0 && Paired(s, ops)
    requires Tally(AdmittedSessions(s, ops, true), OfUser(user)) == 0
    ensures OverConnLimit(s.cfg, PerformAll(s, ops).conn, user) <==>
              Leaked(s.cfg, ConnEvents(ops), user) + Tally(Stranded(s, ops), OfUser(user)) >= s.cfg.connLimit
  {
    CountIsOpenLeakedAndStranded(s, ops, user);
  }

  /** A user who tries once before the panel adds it can be locked out by that: a connection limit of one is enough. */
  lemma EarlyAttemptLocksOut(tag: string, u: UserInfo, ip: string, now: int, op: Op) returns (s: State, ops: seq<Op>)
    requires op.Check? && op.key == UserTag(tag, u.uuid)
    ensures s == Started(tag, Config(true, 0, 1), 0, [], map[])
    ensures ops == [Check(UserTag(tag, u.uuid), ip, true, true, now), Update(tag, [u], [])]
    ensures Paired(s, ops) && AdmittedSessions(s, ops, true) == [] && UserTag(tag, u.uuid) in PerformAll(s, ops).limits
    ensures ReplyTo(PerformAll(s, ops), op) == Refused
  {
    s := Started(tag, Config(true, 0, 1), 0, [], map[]);
    var early := Check(UserTag(tag, u.uuid), ip, true, true, now);
    ops := [early, Update(tag, [u], [])];
    assert ops[..1] == [early] && [early][..0] == [];
    assert ReplyTo(s, early).Refused?;
    assert AdmittedSessions(s, [], true) == [] && AdmittedSessions(s, [early], true) == [];
    var t := Perform(s, early);
    PerformAllAppend(s, [], early);
    PerformAllAppend(s, [early], ops[1]);
    assert [] + [early] == [early] && [early] + [ops[1]] == ops;
    assert [u][..0] == [] && DropUsers(t, tag, []) == t && PutUsers(t, tag, []) == t;
    assert PerformAll(s, ops) == PutUser(t, tag, u);
  }
}
