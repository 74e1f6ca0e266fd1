/**
Whole runs of the node limiter: a bucket always has the rate its user is entitled to, and it
stays the same object exactly as long as nothing changes for that user.
*/
module LimiterHistory {
  import opened ConnLimits
  import opened Int64
  import opened Users
  import opened Limits
  import opened OnlinePayload

  // ---------- what the rate is ----------

  /** The least of the limits that are not zero, or zero when all are. */
  ghost predicate IsLeastNonZero(r: int, limits: seq<int>) {
    if forall l :: l in limits ==> l == 0 then r == 0
    else r != 0 && r in limits && forall l :: l in limits && l != 0 ==> r <= l
  }

  /** The limits in force for a user: the node's, the user's, and the dynamic one while it lasts. */
  function LimitsInForce(s: State, u: UserLimit, now: int): seq<int> {
    [s.nodeLimit, u.speedLimit] + if Expired(u, now) then [] else [u.dynamicSpeedLimit]
  }

  lemma DetermineIsLeastNonZero(s: State, u: UserLimit, now: int)
    requires forall l :: l in LimitsInForce(s, u, now) ==> l >= 0
    ensures IsLeastNonZero(DetermineSpeedLimit(s.nodeLimit, OwnLimit(u, now)), LimitsInForce(s, u, now))
  {
    var ls := LimitsInForce(s, u, now);
    assert ls[0] in ls && ls[1] in ls;
    assert !Expired(u, now) ==> ls[2] == u.dynamicSpeedLimit && u.dynamicSpeedLimit in ls;
  }

  /** The rate is 125000 bytes a second per megabit if and only if the 64-bit product does not overflow. */
  lemma RateIsExactIff(limit: int)
    requires limit >= 0
    ensures Rate(limit) == 125_000 * limit <==> limit * 1_000_000 < TWO63
  {
  }

  /** In general it is the 64-bit product divided by eight and rounded towards zero. */
  lemma RateTruncates(limit: int)
    ensures var bits := Wrap64(limit * 1_000_000);
            if bits >= 0 then 8 * Rate(limit) <= bits < 8 * Rate(limit) + 8
            else 8 * Rate(limit) - 8 < bits <= 8 * Rate(limit)
  {
  }

  // ---------- runs ----------

  /** One step of the limiter, or of the tables the bucket cache does not depend on. */
  datatype Op =
    | Check(key: string, ip: string, isTcp: bool, noSSUDP: bool, now: int)
    | Update(tag: string, added: seq<UserInfo>, deleted: seq<UserInfo>)
    | Dynamic(tag: string, uuid: string, limit: int, expire: int)
    | Conn(e: Event)
    | SetAlive(alive: map<int, int>)
    | Report(oldOnline: map<string, int>)

  function Perform(s: State, op: Op): State {
    match op
    case Check(key, ip, isTcp, noSSUDP, now) => AfterCheck(s, key, ip, isTcp, noSSUDP, now).0
    case Update(tag, added, deleted) => AfterUpdate(s, tag, added, deleted)
    case Dynamic(tag, uuid, limit, expire) => AfterDynamic(s, tag, uuid, limit, expire)
    case Conn(e) => s.(conn := Step(s.cfg, s.conn, e))
    case SetAlive(alive) => s.(alive := alive)
    case Report(oldOnline) => s.(online := map[], oldOnline := oldOnline)
  }

  function PerformAll(s: State, ops: seq<Op>): State
    decreases ops
  {
    if ops == [] then s else PerformAll(Perform(s, ops[0]), ops[1..])
  }

  function ReplyTo(s: State, op: Op): Reply
    requires op.Check?
  {
    AfterCheck(s, op.key, op.ip, op.isTcp, op.noSSUDP, op.now).1
  }

  // ---------- the cache ----------

  /** Every cached bucket has the rate it is filed under, and was made before the next one. */
  ghost predicate CacheIsSound(s: State) {
    forall key :: key in s.buckets ==>
      0 < s.buckets[key].limit == s.buckets[key].bucket.rate && s.buckets[key].bucket.id < s.nextBucket
  }

  lemma {:induction false} DropKeepsBuckets(s: State, tag: string, users: seq<UserInfo>)
    ensures var s' := DropUsers(s, tag, users);
            && s'.nextBucket == s.nextBucket
            && forall key :: key in s'.buckets <==> key in s.buckets && forall u :: u in users ==> UserTag(tag, u.uuid) != key
    ensures var s' := DropUsers(s, tag, users); forall key :: key in s'.buckets ==> s'.buckets[key] == s.buckets[key]
  {
    if users != [] {
      var (init, last) := (users[..|users| - 1], users[|users| - 1]);
      DropKeepsBuckets(s, tag, init);
      assert forall u :: u in users <==> u in init || u == last;
    }
  }

  lemma {:induction false} PutKeepsBuckets(s: State, tag: string, users: seq<UserInfo>)
    ensures PutUsers(s, tag, users).buckets == s.buckets && PutUsers(s, tag, users).nextBucket == s.nextBucket
  {
    if users != [] {
      PutKeepsBuckets(s, tag, users[..|users| - 1]);
    }
  }

  lemma UpdateOnBuckets(s: State, op: Op, key: string)
    requires op.Update?
    ensures var s' := Perform(s, op);
            && s'.nextBucket == s.nextBucket
            && (key in s'.buckets <==> key in s.buckets && forall u :: u in op.deleted ==> UserTag(op.tag, u.uuid) != key)
            && (key in s'.buckets ==> s'.buckets[key] == s.buckets[key])
  {
    DropKeepsBuckets(s, op.tag, op.deleted);
    PutKeepsBuckets(DropUsers(s, op.tag, op.deleted), op.tag, op.added);
  }

  lemma GateKeepsBuckets(s: State, op: Op)
    requires op.Check?
    ensures var (s', passed) := Gate(s, op.key, op.ip, op.isTcp, op.noSSUDP, op.now);
            s'.buckets == s.buckets && s'.nextBucket == s.nextBucket && (passed ==> op.key in s.limits)
  {
  }

  /** All a check does to the cache is to take a bucket at the rate it asks for. */
  lemma CheckOnBuckets(s: State, op: Op)
    requires op.Check?
    ensures var (s', reply) := (Perform(s, op), ReplyTo(s, op));
            if reply.Refused? then s'.buckets == s.buckets && s'.nextBucket == s.nextBucket
            else
              && op.key in s.limits
              && var (t, bucket) := AfterBucket(s, op.key, AskedRate(s, op.key, op.now));
                 s'.buckets == t.buckets && s'.nextBucket == t.nextBucket && reply.bucket == bucket
  {
    GateKeepsBuckets(s, op);
  }

  lemma StepKeepsCacheSound(s: State, op: Op)
    requires CacheIsSound(s)
    ensures CacheIsSound(Perform(s, op)) && s.nextBucket <= Perform(s, op).nextBucket
  {
    if op.Update? {
      UpdateOnBuckets(s, op, "");
      forall key
        ensures var s' := Perform(s, op);
                s'.nextBucket == s.nextBucket && (key in s'.buckets ==> key in s.buckets && s'.buckets[key] == s.buckets[key])
      {
        UpdateOnBuckets(s, op, key);
      }
    } else if op.Check? {
      CheckOnBuckets(s, op);
      TakingKeepsCacheSound(s, op.key, if ReplyTo(s, op).Admitted? then AskedRate(s, op.key, op.now) else 0);
    }
  }

  lemma TakingKeepsCacheSound(s: State, key: string, rate: int)
    requires CacheIsSound(s)
    ensures CacheIsSound(AfterBucket(s, key, rate).0) && s.nextBucket <= AfterBucket(s, key, rate).0.nextBucket
  {
  }

  lemma {:induction false} RunsKeepCacheSound(s: State, ops: seq<Op>)
    requires CacheIsSound(s)
    ensures CacheIsSound(PerformAll(s, ops)) && s.nextBucket <= PerformAll(s, ops).nextBucket
    decreases ops
  {
    if ops != [] {
      StepKeepsCacheSound(s, ops[0]);
      RunsKeepCacheSound(Perform(s, ops[0]), ops[1..]);
    }
  }

  lemma {:induction false} StartIsSound(tag: string, cfg: Config, nodeLimit: int, users: seq<UserInfo>, alive: map<int, int>)
    ensures CacheIsSound(Started(tag, cfg, nodeLimit, users, alive))
  {
    PutKeepsBuckets(State(cfg, nodeLimit, EMPTY, map[], map[], map[], map[], map[], alive, 0), tag, users);
  }

  /** The limits in force for a known user can be multiplied without overflow. */
  predicate LimitsAreSane(s: State, op: Op)
    requires op.Check?
  {
    op.key in s.limits &&
    forall l :: l in LimitsInForce(s, s.limits[op.key], op.now) ==> 0 <= l * 1_000_000 < TWO63
  }

  /** No bucket for no limit, else a bucket at 125000 times the limit. */
  predicate HasRate(bucket: MaybeBucket, limit: int) {
    if limit == 0 then bucket.NoBucket? else bucket.Limited? && bucket.bucket.rate == 125_000 * limit
  }

  lemma AdmittedRate(s: State, op: Op, least: int)
    requires CacheIsSound(s) && op.Check? && ReplyTo(s, op).Admitted? && LimitsAreSane(s, op)
    requires IsLeastNonZero(least, LimitsInForce(s, s.limits[op.key], op.now))
    ensures HasRate(ReplyTo(s, op).bucket, least)
  {
    var u := s.limits[op.key];
    DetermineIsLeastNonZero(s, u, op.now);
    var limit := DetermineSpeedLimit(s.nodeLimit, OwnLimit(u, op.now));
    assert limit == least;
    assert limit in LimitsInForce(s, u, op.now) || limit == 0;
    RateIsExactIff(limit);
    CheckOnBuckets(s, op);
  }

  /**
  After any run of a limiter, an admitted check gives no bucket exactly when no limit is in
  force, and otherwise a bucket whose rate is 125000 times the least of the limits in force.
  */
  lemma AdmittedRateIsEntitled(tag: string, cfg: Config, nodeLimit: int, users: seq<UserInfo>, alive: map<int, int>,
                               ops: seq<Op>, s: State, op: Op, least: int)
    requires s == PerformAll(Started(tag, cfg, nodeLimit, users, alive), ops)
    requires op.Check? && ReplyTo(s, op).Admitted? && LimitsAreSane(s, op)
    requires IsLeastNonZero(least, LimitsInForce(s, s.limits[op.key], op.now))
    ensures HasRate(ReplyTo(s, op).bucket, least)
  {
    StartIsSound(tag, cfg, nodeLimit, users, alive);
    RunsKeepCacheSound(Started(tag, cfg, nodeLimit, users, alive), ops);
    AdmittedRate(s, op, least);
  }

  // ---------- the same object ----------

  /** A step that ends the life of a user's bucket: a deletion, a dynamic update, or a check at another rate. */
  predicate Disturbs(s: State, op: Op, key: string, rate: int) {
    match op
    case Check(k, _, _, _, _) => k == key && ReplyTo(s, op).Admitted? && AskedRate(s, op.key, op.now) != rate
    case Update(tag, _, deleted) => exists u :: u in deleted && UserTag(tag, u.uuid) == key
    case Dynamic(tag, uuid, _, _) => UserTag(tag, uuid) == key && key in s.limits
    case _ => false
  }

  predicate Disturbed(s: State, ops: seq<Op>, key: string, rate: int)
    decreases ops
  {
    ops != [] && (Disturbs(s, ops[0], key, rate) || Disturbed(Perform(s, ops[0]), ops[1..], key, rate))
  }

  predicate Holds(s: State, key: string, b: Bucket) {
    key in s.buckets && s.buckets[key] == SpeedBucket(b.rate, b)
  }

  predicate Forgot(s: State, key: string, b: Bucket) {
    b.id < s.nextBucket && (key in s.buckets ==> s.buckets[key].bucket != b)
  }

  lemma StepOnBucket(s: State, op: Op, key: string, b: Bucket)
    requires CacheIsSound(s) && b.id < s.nextBucket
    ensures Holds(s, key, b) && !Disturbs(s, op, key, b.rate) ==> Holds(Perform(s, op), key, b)
    ensures Holds(s, key, b) && Disturbs(s, op, key, b.rate) ==> Forgot(Perform(s, op), key, b)
    ensures Forgot(s, key, b) ==> Forgot(Perform(s, op), key, b)
  {
    if op.Update? {
      UpdateOnBuckets(s, op, key);
    } else if op.Check? {
      CheckOnBuckets(s, op);
      if ReplyTo(s, op).Admitted? {
        TakingOnBucket(s, op.key, AskedRate(s, op.key, op.now), key, b);
      }
    }
  }

  lemma TakingOnBucket(s: State, at: string, rate: int, key: string, b: Bucket)
    requires CacheIsSound(s) && b.id < s.nextBucket
    ensures var s' := AfterBucket(s, at, rate).0;
            && (Holds(s, key, b) && (at != key || rate == b.rate) ==> Holds(s', key, b))
            && (Holds(s, key, b) && at == key && rate != b.rate ==> Forgot(s', key, b))
            && (Forgot(s, key, b) ==> Forgot(s', key, b))
  {
  }

  lemma {:induction false} BucketLivesUntilDisturbed(s: State, ops: seq<Op>, key: string, b: Bucket)
    requires CacheIsSound(s) && b.id < s.nextBucket
    ensures Holds(s, key, b) && !Disturbed(s, ops, key, b.rate) ==> Holds(PerformAll(s, ops), key, b)
    ensures Holds(s, key, b) && Disturbed(s, ops, key, b.rate) ==> Forgot(PerformAll(s, ops), key, b)
    ensures Forgot(s, key, b) ==> Forgot(PerformAll(s, ops), key, b)
    decreases ops
  {
    if ops != [] {
      StepOnBucket(s, ops[0], key, b);
      StepKeepsCacheSound(s, ops[0]);
      BucketLivesUntilDisturbed(Perform(s, ops[0]), ops[1..], key, b);
    }
  }

  lemma {:induction false} PerformAllAppend(s: State, ops: seq<Op>, op: Op)
    ensures PerformAll(s, ops + [op]) == Perform(PerformAll(s, ops), op)
    decreases ops
  {
    if ops == [] {
      assert [op][1..] == [];
    } else {
      assert (ops + [op])[1..] == ops[1..] + [op];
      PerformAllAppend(Perform(s, ops[0]), ops[1..], op);
    }
  }

  lemma {:induction false} DisturbedAppend(s: State, ops: seq<Op>, op: Op, key: string, rate: int)
    ensures Disturbed(s, ops + [op], key, rate) <==> Disturbed(s, ops, key, rate) || Disturbs(PerformAll(s, ops), op, key, rate)
    decreases ops
  {
    if ops == [] {
      assert [op][1..] == [];
    } else {
      assert (ops + [op])[1..] == ops[1..] + [op];
      DisturbedAppend(Perform(s, ops[0]), ops[1..], op, key, rate);
    }
  }

  lemma AdmittedBucketIsHeld(s: State, op: Op, b: Bucket)
    requires CacheIsSound(s) && op.Check? && ReplyTo(s, op) == Admitted(Limited(b))
    ensures Holds(Perform(s, op), op.key, b) && b.id < Perform(s, op).nextBucket
  {
    CheckOnBuckets(s, op);
  }

  /**
  Two admitted checks of a user return the same bucket object if and only if nothing disturbed
  it in between and the second asks for the same rate.
  */
  lemma SameBucketIffUndisturbed(s: State, first: Op, ops: seq<Op>, second: Op, b: Bucket, b': Bucket)
    requires CacheIsSound(s) && first.Check? && second.Check? && first.key == second.key
    requires ReplyTo(s, first) == Admitted(Limited(b))
    requires ReplyTo(PerformAll(Perform(s, first), ops), second) == Admitted(Limited(b'))
    ensures b == b' <==> !Disturbed(Perform(s, first), ops + [second], first.key, b.rate)
  {
    var s1 := Perform(s, first);
    var s2 := PerformAll(s1, ops);
    AdmittedBucketIsHeld(s, first, b);
    StepKeepsCacheSound(s, first);
    RunsKeepCacheSound(s1, ops);
    AdmittedBucketIsHeld(s2, second, b');
    DisturbedAppend(s1, ops, second, first.key, b.rate);
    BucketLivesUntilDisturbed(s1, ops, first.key, b);
    StepOnBucket(s2, second, first.key, b);
  }

  // ---------- the device window ----------

  predicate IsOnline(s: State, key: string, ip: string) {
    key in s.online && ip in s.online[key]
  }

  /** A step that closes a user's device window: a report, or the deletion of the user. */
  predicate ClosesWindow(op: Op, key: string) {
    op.Report? || (op.Update? && exists u :: u in op.deleted && UserTag(op.tag, u.uuid) == key)
  }

  lemma {:induction false} UpdateOnOnline(s: State, tag: string, deleted: seq<UserInfo>, added: seq<UserInfo>, key: string)
    requires forall u :: u in deleted ==> UserTag(tag, u.uuid) != key
    ensures var s' := PutUsers(DropUsers(s, tag, deleted), tag, added);
            key in s.online ==> key in s'.online && s'.online[key] == s.online[key]
    decreases |deleted| + |added|
  {
    if added != [] {
      UpdateOnOnline(s, tag, deleted, added[..|added| - 1], key);
    } else if deleted != [] {
      var (init, last) := (deleted[..|deleted| - 1], deleted[|deleted| - 1]);
      assert last in deleted;
      UpdateOnOnline(s, tag, init, [], key);
    }
  }

  lemma DeviceOnOnline(s: State, user: string, at: string, u: UserLimit, key: string, ip: string)
    ensures IsOnline(s, key, ip) ==> IsOnline(AfterDevice(s, user, at, u), key, ip)
    ensures !DeviceRefused(s, user, at, u) ==> IsOnline(AfterDevice(s, user, at, u), user, at)
  {
  }

  lemma GateOnOnline(s: State, op: Op, key: string, ip: string)
    requires op.Check?
    ensures var (s', passed) := Gate(s, op.key, op.ip, op.isTcp, op.noSSUDP, op.now);
            && (IsOnline(s, key, ip) ==> IsOnline(s', key, ip))
            && (passed && op.noSSUDP ==> IsOnline(s', op.key, NormalizeIP(op.ip)))
  {
    var at := NormalizeIP(op.ip);
    if !Refuses(s.cfg, s.conn, op.key, at) && op.key in s.limits && op.noSSUDP {
      var s1 := s.(conn := Step(s.cfg, s.conn, Add(op.key, at, op.isTcp, op.now)));
      DeviceOnOnline(s1.(limits := Expire(s.limits, op.key, op.now)), op.key, at, s.limits[op.key], key, ip);
    }
  }

  lemma CheckOnOnline(s: State, op: Op, key: string, ip: string)
    requires op.Check?
    ensures IsOnline(s, key, ip) ==> IsOnline(Perform(s, op), key, ip)
    ensures ReplyTo(s, op).Admitted? && op.noSSUDP ==> IsOnline(Perform(s, op), op.key, NormalizeIP(op.ip))
  {
    GateOnOnline(s, op, key, ip);
    var (s', passed) := Gate(s, op.key, op.ip, op.isTcp, op.noSSUDP, op.now);
    assert Perform(s, op).online == s'.online;
  }

  lemma {:induction false} OnlineLastsTheWindow(s: State, ops: seq<Op>, key: string, ip: string)
    requires IsOnline(s, key, ip) && forall op :: op in ops ==> !ClosesWindow(op, key)
    ensures IsOnline(PerformAll(s, ops), key, ip)
    decreases ops
  {
    if ops != [] {
      var op := ops[0];
      assert !ClosesWindow(op, key);
      if op.Check? {
        CheckOnOnline(s, op, key, ip);
      } else if op.Update? {
        UpdateOnOnline(s, op.tag, op.deleted, op.added, key);
      }
      OnlineLastsTheWindow(Perform(s, op), ops[1..], key, ip);
    }
  }

  /**
  An address the device limit let in stays let in until the window closes, however many devices
  the panel counts meanwhile: a later check of it is refused only by the connection limiter, or
  because the user is gone.
  */
  lemma AdmittedDeviceStaysAdmitted(s: State, first: Op, ops: seq<Op>, second: Op)
    requires first.Check? && first.noSSUDP && ReplyTo(s, first).Admitted?
    requires forall op :: op in ops ==> !ClosesWindow(op, first.key)
    requires second.Check? && second.key == first.key && NormalizeIP(second.ip) == NormalizeIP(first.ip)
    ensures var s2 := PerformAll(Perform(s, first), ops);
            ReplyTo(s2, second).Refused? <==>
              Refuses(s2.cfg, s2.conn, second.key, NormalizeIP(second.ip)) || second.key !in s2.limits
  {
    CheckOnOnline(s, first, first.key, NormalizeIP(first.ip));
    OnlineLastsTheWindow(Perform(s, first), ops, first.key, NormalizeIP(first.ip));
    OnlineIsNotRefused(PerformAll(Perform(s, first), ops), second);
  }

  lemma OnlineIsNotRefused(s: State, op: Op)
    requires op.Check? && IsOnline(s, op.key, NormalizeIP(op.ip))
    ensures ReplyTo(s, op).Refused? <==>
              Refuses(s.cfg, s.conn, op.key, NormalizeIP(op.ip)) || op.key !in s.limits
  {
    var (s', passed) := Gate(s, op.key, op.ip, op.isTcp, op.noSSUDP, op.now);
    assert passed <==> !(Refuses(s.cfg, s.conn, op.key, NormalizeIP(op.ip)) || op.key !in s.limits);
  }
}
