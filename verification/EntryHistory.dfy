/**
What a user's limiter entry says, told from the history alone: the latest record the panel sent,
the latest dynamic limit given since, and the checks that came after that limit was over. Times
are nanoseconds, and only whole seconds count.
*/
module EntryHistory {
  import opened ConnHistory
  import opened ConnLimits
  import opened Int64
  import opened LimiterHistory
  import opened Limits
  import opened OnlinePayload
  import opened UserSync
  import opened Users

  // ---------- histories ----------

  datatype DynamicLimit = NoDynamic | Until(limit: int, end: int)

  datatype Record = NoRecord | Listed(u: UserInfo, dyn: DynamicLimit)

  /** The last of the users that has this key. */
  function LastOf(tag: string, users: seq<UserInfo>, key: string): Record {
    if users == [] then NoRecord
    else
      var last := users[|users| - 1];
      if UserTag(tag, last.uuid) == key then Listed(last, NoDynamic) else LastOf(tag, users[..|users| - 1], key)
  }

  /** What an Update makes of a record. */
  function Updated(was: Record, op: Op, key: string): Record
    requires op.Update?
  {
    var put := LastOf(op.tag, op.added, key);
    if put.Listed? then put else if HasTag(op.tag, op.deleted, key) then NoRecord else was
  }

  /** The record of a user, and the dynamic limit given since; checks change neither. */
  function RecordOf(was: Record, ops: seq<Op>, key: string): Record {
    if ops == [] then was
    else
      var (before, op) := (RecordOf(was, ops[..|ops| - 1], key), ops[|ops| - 1]);
      match op
      case Update(_, _, _) => Updated(before, op, key)
      case Dynamic(tag, uuid, limit, end) =>
        if before.Listed? && UserTag(tag, uuid) == key then before.(dyn := Until(limit, end)) else before
      case _ => before
  }

  /** A dynamic limit whose end lies in an earlier second; an end in second zero never comes. */
  predicate IsOver(dyn: DynamicLimit, now: int) {
    dyn.Until? && dyn.end / 1_000_000_000 != 0 && dyn.end / 1_000_000_000 < now / 1_000_000_000
  }

  /** A check of this user that the connection limiter lets through, with the dynamic limit over. */
  predicate FindsItOver(s: State, r: Record, op: Op, key: string) {
    && op.Check? && op.key == key && r.Listed? && IsOver(r.dyn, op.now)
    && !Refuses(s.cfg, s.conn, key, NormalizeIP(op.ip))
  }

  predicate PutsOrDeletes(op: Op, key: string) {
    op.Update? && (LastOf(op.tag, op.added, key).Listed? || HasTag(op.tag, op.deleted, key))
  }

  /** Since the record was put, some check found the dynamic limit over, and the user has no limit of its own. */
  predicate Lapsed(s: State, was: Record, ops: seq<Op>, key: string) {
    ops != [] &&
    var (before, op) := (ops[..|ops| - 1], ops[|ops| - 1]);
    var r := RecordOf(was, before, key);
    if PutsOrDeletes(op, key) then false
    else Lapsed(s, was, before, key) || (FindsItOver(PerformAll(s, before), r, op, key) && r.u.speedLimit == 0)
  }

  /** Since the dynamic limit was given, some check found it over. */
  predicate WasFoundOver(s: State, was: Record, ops: seq<Op>, key: string) {
    ops != [] &&
    var (before, op) := (ops[..|ops| - 1], ops[|ops| - 1]);
    if PutsOrDeletes(op, key) then false
    else if op.Dynamic? && UserTag(op.tag, op.uuid) == key then false
    else WasFoundOver(s, was, before, key) || FindsItOver(PerformAll(s, before), RecordOf(was, before, key), op, key)
  }

  // ---------- one entry ----------

  /** The entry says what the record says; the dynamic limit is gone once it was found over. */
  predicate EntryAgrees(l: UserLimit, r: Record, foundOver: bool) {
    && r.Listed? && l.uid == r.u.id && l.speedLimit == r.u.speedLimit && l.deviceLimit == r.u.deviceLimit
    && (if r.dyn.NoDynamic? || foundOver then l.dynamicSpeedLimit == 0 && l.expireTime == 0
        else l.dynamicSpeedLimit == r.dyn.limit && l.expireTime == r.dyn.end / 1_000_000_000)
  }

  predicate Agrees(s: State, key: string, r: Record, lapsed: bool, foundOver: bool) {
    && (key in s.limits <==> r.Listed? && !lapsed)
    && (key in s.limits ==> EntryAgrees(s.limits[key], r, foundOver))
    && (r.Listed? && foundOver ==> lapsed || r.u.speedLimit != 0)
  }

  lemma {:induction false} PutUsersHave(s: State, tag: string, users: seq<UserInfo>, key: string)
    ensures var (t, r) := (PutUsers(s, tag, users), LastOf(tag, users, key));
            if r.Listed? then key in t.limits && EntryAgrees(t.limits[key], r, false)
            else (key in t.limits <==> key in s.limits) && (key in s.limits ==> t.limits[key] == s.limits[key])
    ensures LastOf(tag, users, key).Listed? ==> LastOf(tag, users, key).dyn.NoDynamic?
  {
    if users != [] {
      PutUsersHave(s, tag, users[..|users| - 1], key);
    }
  }

  lemma UpdateAgrees(s: State, op: Op, key: string, r: Record, lapsed: bool, foundOver: bool)
    requires op.Update? && Agrees(s, key, r, lapsed, foundOver)
    ensures var touched := PutsOrDeletes(op, key);
            Agrees(Perform(s, op), key, Updated(r, op, key), !touched && lapsed, !touched && foundOver)
  {
    DropUsersHas(s, op.tag, op.deleted, key);
    PutUsersHave(DropUsers(s, op.tag, op.deleted), op.tag, op.added, key);
  }

  lemma CheckAgrees(s: State, op: Op, key: string, r: Record, lapsed: bool, foundOver: bool)
    requires op.Check? && Agrees(s, key, r, lapsed, foundOver)
    ensures var over := FindsItOver(s, r, op, key);
            Agrees(Perform(s, op), key, r, lapsed || (over && r.u.speedLimit == 0), foundOver || over)
  {
    CheckOnLimits(s, op);
  }

  lemma DynamicAgrees(s: State, op: Op, key: string, r: Record, lapsed: bool, foundOver: bool)
    requires op.Dynamic? && Agrees(s, key, r, lapsed, foundOver)
    ensures var named := UserTag(op.tag, op.uuid) == key;
            Agrees(Perform(s, op), key, if named && r.Listed? then r.(dyn := Until(op.limit, op.expire)) else r,
                   lapsed, !named && foundOver)
  {
  }

  // ---------- whole runs ----------

  /**
  Over every run, a user has an entry exactly when the panel lists it and no check has dropped it
  since, and the entry says what its history says.
  */
  lemma {:induction false} EntryTellsItsHistory(tag: string, cfg: Config, nodeLimit: int, users: seq<UserInfo>,
                                                alive: map<int, int>, ops: seq<Op>, key: string)
    ensures var (s, was) := (Started(tag, cfg, nodeLimit, users, alive), LastOf(tag, users, key));
            Agrees(PerformAll(s, ops), key, RecordOf(was, ops, key), Lapsed(s, was, ops, key), WasFoundOver(s, was, ops, key))
  {
    var (s, was) := (Started(tag, cfg, nodeLimit, users, alive), LastOf(tag, users, key));
    if ops == [] {
      PutUsersHave(State(cfg, nodeLimit, EMPTY, map[], map[], map[], map[], map[], alive, 0), tag, users, key);
    } else {
      var (before, op) := (ops[..|ops| - 1], ops[|ops| - 1]);
      EntryTellsItsHistory(tag, cfg, nodeLimit, users, alive, before, key);
      PerformAllAppend(s, before, op);
      assert before + [op] == ops;
      var (t, r) := (PerformAll(s, before), RecordOf(was, before, key));
      var (lapsed, foundOver) := (Lapsed(s, was, before, key), WasFoundOver(s, was, before, key));
      match op
      case Update(_, _, _) => UpdateAgrees(t, op, key, r, lapsed, foundOver);
      case Check(_, _, _, _, _) => CheckAgrees(t, op, key, r, lapsed, foundOver);
      case Dynamic(_, _, _, _) => DynamicAgrees(t, op, key, r, lapsed, foundOver);
      case _ =>
    }
  }

  /** Nobody is dropped without having been given a dynamic limit since the panel put it, with an end before the check. */
  lemma {:induction false} LapseNeedsADynamicLimit(s: State, was: Record, ops: seq<Op>, key: string)
    requires was.Listed? ==> was.dyn.NoDynamic?
    requires Lapsed(s, was, ops, key)
    ensures exists i, j :: 0 <= i < j < |ops| && EndsBefore(ops, key, i, j)
  {
    var (before, n) := (ops[..|ops| - 1], |ops| - 1);
    if Lapsed(s, was, before, key) {
      LapseNeedsADynamicLimit(s, was, before, key);
      var i, j :| 0 <= i < j < |before| && EndsBefore(before, key, i, j);
      assert forall m :: i < m < n ==> !PutsOrDeletes(before[m], key) && before[m] == ops[m];
      assert EndsBefore(ops, key, i, j);
    } else {
      var i := GivenSomewhere(was, before, key);
      assert forall m :: i < m < n ==> !PutsOrDeletes(before[m], key) && before[m] == ops[m];
      assert EndsBefore(ops, key, i, n);
    }
  }

  /** Step i gives the user a dynamic limit, its end lies before check j, and the panel does not touch the user after i. */
  predicate EndsBefore(ops: seq<Op>, key: string, i: nat, j: nat)
    requires i < j < |ops|
  {
    && GivesTo(ops[i], key) && ChecksAfter(ops[j], key, ops[i])
    && forall m :: i < m < |ops| ==> !PutsOrDeletes(ops[m], key)
  }

  predicate GivesTo(op: Op, key: string) {
    op.Dynamic? && UserTag(op.tag, op.uuid) == key
  }

  /** A check of the user in a later second than the one the dynamic limit ends in. */
  predicate ChecksAfter(op: Op, key: string, given: Op) {
    op.Check? && op.key == key && given.Dynamic? && given.expire / 1_000_000_000 < op.now / 1_000_000_000
  }

  lemma {:induction false} GivenSomewhere(was: Record, ops: seq<Op>, key: string) returns (i: nat)
    requires was.Listed? ==> was.dyn.NoDynamic?
    requires RecordOf(was, ops, key).Listed? && RecordOf(was, ops, key).dyn.Until?
    ensures i < |ops| && GivesTo(ops[i], key)
    ensures RecordOf(was, ops, key).dyn == Until(ops[i].limit, ops[i].expire)
    ensures forall m :: i < m < |ops| ==> !PutsOrDeletes(ops[m], key)
  {
    var (before, op) := (ops[..|ops| - 1], ops[|ops| - 1]);
    if GivesTo(op, key) && RecordOf(was, before, key).Listed? {
      i := |ops| - 1;
    } else {
      if op.Update? {
        LastIsFresh(op.tag, op.added, key);
      }
      i := GivenSomewhere(was, before, key);
      assert forall m :: i < m < |before| ==> !PutsOrDeletes(before[m], key) && before[m] == ops[m];
    }
  }

  lemma {:induction false} LastIsFresh(tag: string, users: seq<UserInfo>, key: string)
    ensures LastOf(tag, users, key).Listed? ==> LastOf(tag, users, key).dyn.NoDynamic?
  {
    if users != [] {
      LastIsFresh(tag, users[..|users| - 1], key);
    }
  }

  // ---------- what an admitted check is entitled to ----------

  /** Checks come in the order of the clock. */
  predicate ChecksInOrder(ops: seq<Op>) {
    forall i, j :: 0 <= i < j < |ops| && ops[i].Check? && ops[j].Check? ==> ops[i].now <= ops[j].now
  }

  lemma {:induction false} FoundOverStaysOver(s: State, was: Record, ops: seq<Op>, op: Op, key: string)
    requires op.Check? && ChecksInOrder(ops + [op]) && WasFoundOver(s, was, ops, key)
    ensures var r := RecordOf(was, ops, key); r.Listed? && IsOver(r.dyn, op.now)
  {
    var (before, last) := (ops[..|ops| - 1], ops[|ops| - 1]);
    assert forall i :: 0 <= i < |before| ==> (before + [op])[i] == (ops + [op])[i];
    if last.Check? {
      assert (ops + [op])[|ops| - 1] == last && (ops + [op])[|ops|] == op;
      assert last.now <= op.now;
    }
    if WasFoundOver(s, was, before, key) {
      assert ChecksInOrder(before + [op]) by {
        forall i, j | 0 <= i < j < |before + [op]| && (before + [op])[i].Check? && (before + [op])[j].Check?
          ensures (before + [op])[i].now <= (before + [op])[j].now
        {
          var j' := if j < |before| then j else |ops|;
          assert (ops + [op])[j'] == (before + [op])[j] && (ops + [op])[i] == (before + [op])[i];
        }
      }
      FoundOverStaysOver(s, was, before, op, key);
    }
  }

  /** The limits a user's history puts in force: the node's, the panel's, and the dynamic one until it is over. */
  function LimitsByHistory(nodeLimit: int, r: Record, now: int): seq<int>
    requires r.Listed?
  {
    [nodeLimit, r.u.speedLimit] + if r.dyn.Until? && !IsOver(r.dyn, now) then [r.dyn.limit] else []
  }

  /** The least non-zero of these limits, none of which overflows when it is multiplied. */
  ghost predicate IsLeastByHistory(least: int, nodeLimit: int, r: Record, now: int)
    requires r.Listed?
  {
    && (forall l :: l in LimitsByHistory(nodeLimit, r, now) ==> 0 <= l * 1_000_000 < 9_223_372_036_854_775_808)
    && IsLeastNonZero(least, LimitsByHistory(nodeLimit, r, now))
  }

  /**
  With the clock never running back, an admitted check gives no bucket exactly when the history
  puts no limit in force, and otherwise a bucket at 125000 times the least one.
  */
  lemma AdmittedRateByHistory(tag: string, cfg: Config, nodeLimit: int, users: seq<UserInfo>, alive: map<int, int>,
                              ops: seq<Op>, s: State, op: Op, r: Record, least: int)
    requires s == PerformAll(Started(tag, cfg, nodeLimit, users, alive), ops)
    requires op.Check? && ChecksInOrder(ops + [op]) && ReplyTo(s, op).Admitted?
    requires r == RecordOf(LastOf(tag, users, op.key), ops, op.key)
    requires r.Listed? ==> IsLeastByHistory(least, nodeLimit, r, op.now)
    ensures r.Listed? && HasRate(ReplyTo(s, op).bucket, least)
  {
    var start := Started(tag, cfg, nodeLimit, users, alive);
    var was := LastOf(tag, users, op.key);
    EntryTellsItsHistory(tag, cfg, nodeLimit, users, alive, ops, op.key);
    CheckOnBuckets(s, op);
    if WasFoundOver(start, was, ops, op.key) {
      FoundOverStaysOver(start, was, ops, op, op.key);
    }
    NodeLimitStays(start, ops);
    StartedHas(tag, cfg, nodeLimit, users, alive);
    SameLimits(s, s.limits[op.key], r, WasFoundOver(start, was, ops, op.key), op.now, least);
    AdmittedRateIsEntitled(tag, cfg, nodeLimit, users, alive, ops, s, op, least);
  }

  lemma SameLimits(s: State, l: UserLimit, r: Record, foundOver: bool, now: int, least: int)
    requires EntryAgrees(l, r, foundOver) && (foundOver ==> IsOver(r.dyn, now))
    requires IsLeastByHistory(least, s.nodeLimit, r, now)
    ensures forall x :: x in LimitsInForce(s, l, now) ==> 0 <= x * 1_000_000 < TWO63
    ensures IsLeastNonZero(least, LimitsInForce(s, l, now))
  {
    var (a, b) := (LimitsByHistory(s.nodeLimit, r, now), LimitsInForce(s, l, now));
    assert forall x :: x in b ==> x in a || x == 0;
    assert forall x :: x in a ==> x in b;
  }

  lemma {:induction false} NodeLimitStays(s: State, ops: seq<Op>)
    ensures PerformAll(s, ops).nodeLimit == s.nodeLimit
    decreases ops
  {
    if ops != [] {
      StepKeepsNodeLimit(s, ops[0]);
      NodeLimitStays(Perform(s, ops[0]), ops[1..]);
    }
  }

  lemma StepKeepsNodeLimit(s: State, op: Op)
    ensures Perform(s, op).nodeLimit == s.nodeLimit
  {
    if op.Update? {
      UpdateKeepsNodeLimit(s, op.tag, op.added, op.deleted);
    } else if op.Check? {
      var (s', passed) := Gate(s, op.key, op.ip, op.isTcp, op.noSSUDP, op.now);
      assert s'.nodeLimit == s.nodeLimit && Perform(s, op).nodeLimit == s'.nodeLimit;
    }
  }

  lemma {:induction false} UpdateKeepsNodeLimit(s: State, tag: string, added: seq<UserInfo>, deleted: seq<UserInfo>)
    ensures PutUsers(DropUsers(s, tag, deleted), tag, added).nodeLimit == s.nodeLimit
    decreases |added| + |deleted|
  {
    if added != [] {
      UpdateKeepsNodeLimit(s, tag, added[..|added| - 1], deleted);
    } else if deleted != [] {
      UpdateKeepsNodeLimit(s, tag, [], deleted[..|deleted| - 1]);
    }
  }

  lemma StartedHas(tag: string, cfg: Config, nodeLimit: int, users: seq<UserInfo>, alive: map<int, int>)
    ensures Started(tag, cfg, nodeLimit, users, alive).nodeLimit == nodeLimit
  {
    var bare := State(cfg, nodeLimit, EMPTY, map[], map[], map[], map[], map[], alive, 0);
    assert DropUsers(bare, tag, []) == bare;
    UpdateKeepsNodeLimit(bare, tag, users, []);
  }
}
