/**
Keeping users in step (node/task.go): the controller's list, the core's user table and the
limiter's tables follow the panel by differences, and stay what a rebuild would make them.
*/
module UserSync {
  import opened Users
  import opened ConnLimits
  import opened Limits
  import opened LimiterHistory
  import opened NaiveInbound
  import opened OnlinePayload
  import opened Ordering
  import Traffic

  // ---------- lists, tables and differences ----------

  predicate Unique(users: seq<UserInfo>) {
    forall i, j :: 0 <= i < j < |users| ==> users[i].uuid != users[j].uuid
  }

  /** A uuid stands for one record. */
  predicate WellKeyed(users: seq<UserInfo>) {
    forall u, v :: u in users && v in users && u.uuid == v.uuid ==> u == v
  }

  predicate HasUuid(users: seq<UserInfo>, uuid: string) {
    exists u :: u in users && u.uuid == uuid
  }

  function TableOf(users: seq<UserInfo>): UserTable {
    PutAll(map[], users)
  }

  ghost predicate IsDiff(before: seq<UserInfo>, after: seq<UserInfo>, deleted: seq<UserInfo>, added: seq<UserInfo>) {
    && (forall u :: u in deleted <==> u in before && u !in after)
    && (forall u :: u in added <==> u in after && u !in before)
  }

  lemma {:induction false} PutAllHas(table: UserTable, users: seq<UserInfo>, uuid: string)
    requires WellKeyed(users)
    ensures var t := PutAll(table, users);
            && (uuid in t <==> uuid in table || HasUuid(users, uuid))
            && (uuid in t && !HasUuid(users, uuid) ==> t[uuid] == table[uuid])
            && (forall u :: u in users && u.uuid == uuid ==> t[uuid] == u)
  {
    if users != [] {
      var (init, last) := (users[..|users| - 1], users[|users| - 1]);
      assert forall u :: u in users <==> u in init || u == last;
      PutAllHas(table, init, uuid);
    }
  }

  lemma {:induction false} DropAllHas(table: UserTable, users: seq<UserInfo>, uuid: string)
    ensures var t := DropAll(table, users);
            && (uuid in t <==> uuid in table && !HasUuid(users, uuid))
            && (uuid in t ==> t[uuid] == table[uuid])
  {
    if users != [] {
      var (init, last) := (users[..|users| - 1], users[|users| - 1]);
      assert forall u :: u in users <==> u in init || u == last;
      DropAllHas(table, init, uuid);
    }
  }

  lemma UniqueIsWellKeyed(users: seq<UserInfo>)
    requires Unique(users)
    ensures WellKeyed(users)
  {
    forall u, v | u in users && v in users && u.uuid == v.uuid
      ensures u == v
    {
      var i :| 0 <= i < |users| && users[i] == u;
      var j :| 0 <= j < |users| && users[j] == v;
    }
  }

  /** Dropping the deleted and putting the added turns the table of one list into that of the other. */
  lemma DiffOfTables(before: seq<UserInfo>, after: seq<UserInfo>, deleted: seq<UserInfo>, added: seq<UserInfo>)
    requires Unique(before) && Unique(after) && IsDiff(before, after, deleted, added)
    ensures PutAll(DropAll(TableOf(before), deleted), added) == TableOf(after)
  {
    UniqueIsWellKeyed(before);
    UniqueIsWellKeyed(after);
    var t := DropAll(TableOf(before), deleted);
    forall uuid
      ensures uuid in PutAll(t, added) <==> uuid in TableOf(after)
      ensures uuid in TableOf(after) ==> PutAll(t, added)[uuid] == TableOf(after)[uuid]
    {
      PutAllHas(map[], before, uuid);
      PutAllHas(map[], after, uuid);
      DropAllHas(TableOf(before), deleted, uuid);
      PutAllHas(t, added, uuid);
    }
  }

  /** What a failed cycle may have left in the core's table. */
  predicate PartlyPushed(was: UserTable, now: UserTable, deleted: seq<UserInfo>, added: seq<UserInfo>) {
    now == was || now == DropAll(was, deleted) || now == PutAll(DropAll(was, deleted), added)
  }

  /**
  A cycle whose last call fails has already changed the core's table to that of `after`, while the
  list stays `before`. The next cycle, with a list `third`, repairs the table if and only if what
  the failed cycle removed or added is accounted for by the lists it compares.
  */
  lemma FailedCycleIsRepairedIff(before: seq<UserInfo>, after: seq<UserInfo>, third: seq<UserInfo>,
                                 deleted: seq<UserInfo>, added: seq<UserInfo>)
    requires Unique(before) && Unique(after) && Unique(third) && IsDiff(before, third, deleted, added)
    ensures PutAll(DropAll(TableOf(after), deleted), added) == TableOf(third) <==>
              (forall u :: u in before && u in third ==> u in after) &&
              (forall u :: u in after ==> HasUuid(before, u.uuid) || HasUuid(third, u.uuid))
  {
    UniqueIsWellKeyed(before);
    UniqueIsWellKeyed(after);
    UniqueIsWellKeyed(third);
    var t := DropAll(TableOf(after), deleted);
    forall uuid
      ensures uuid in PutAll(t, added) <==> HasUuid(added, uuid) || (HasUuid(after, uuid) && !HasUuid(deleted, uuid))
      ensures forall u :: u in added && u.uuid == uuid ==> PutAll(t, added)[uuid] == u
      ensures forall u :: u in after && u.uuid == uuid && !HasUuid(deleted, uuid) && !HasUuid(added, uuid) ==>
                PutAll(t, added)[uuid] == u
      ensures uuid in TableOf(third) <==> HasUuid(third, uuid)
      ensures forall u :: u in third && u.uuid == uuid ==> TableOf(third)[uuid] == u
    {
      PutAllHas(map[], after, uuid);
      PutAllHas(map[], third, uuid);
      DropAllHas(TableOf(after), deleted, uuid);
      PutAllHas(t, added, uuid);
    }
    RepairedIff(before, after, third, deleted, added, PutAll(t, added));
  }

  lemma RepairedIff(before: seq<UserInfo>, after: seq<UserInfo>, third: seq<UserInfo>,
                    deleted: seq<UserInfo>, added: seq<UserInfo>, table: UserTable)
    requires WellKeyed(before) && WellKeyed(after) && WellKeyed(third) && IsDiff(before, third, deleted, added)
    requires forall uuid :: uuid in table <==> HasUuid(added, uuid) || (HasUuid(after, uuid) && !HasUuid(deleted, uuid))
    requires forall u :: u in added ==> u.uuid in table && table[u.uuid] == u
    requires forall u :: u in after && !HasUuid(deleted, u.uuid) && !HasUuid(added, u.uuid) ==>
               u.uuid in table && table[u.uuid] == u
    requires forall uuid :: uuid in TableOf(third) <==> HasUuid(third, uuid)
    requires forall u :: u in third ==> u.uuid in TableOf(third) && TableOf(third)[u.uuid] == u
    ensures table == TableOf(third) <==>
              (forall u :: u in before && u in third ==> u in after) &&
              (forall u :: u in after ==> HasUuid(before, u.uuid) || HasUuid(third, u.uuid))
  {
    if table == TableOf(third) {
      forall u | u in before && u in third
        ensures u in after
      {
        assert u.uuid in table && table[u.uuid] == u;
        assert !HasUuid(deleted, u.uuid) && !HasUuid(added, u.uuid);
      }
      forall u | u in after && !HasUuid(before, u.uuid)
        ensures HasUuid(third, u.uuid)
      {
        assert u.uuid in table;
      }
    } else if (forall u :: u in before && u in third ==> u in after) &&
              (forall u :: u in after ==> HasUuid(before, u.uuid) || HasUuid(third, u.uuid)) {
      forall uuid
        ensures uuid in table <==> uuid in TableOf(third)
        ensures uuid in table && uuid in TableOf(third) ==> table[uuid] == TableOf(third)[uuid]
      {
      }
    }
  }

  /** For unique lists the comparison is the difference both ways. */
  lemma ComparisonIsDiff(before: seq<UserInfo>, after: seq<UserInfo>, deleted: seq<UserInfo>)
    requires Unique(after) && forall u :: u in deleted <==> u in before && u !in after
    ensures IsDiff(before, after, deleted, Added(before, after, |after|))
  {
    assert !RepeatsOld(before, after);
    AddedIsNewIff(before, after);
  }

  // ---------- the limiter's tables ----------

  lemma TagsTellUsersApart(tag: string, a: string, b: string)
    ensures UserTag(tag, a) == UserTag(tag, b) <==> a == b
  {
    assert UserTag(tag, a)[|tag| + 1..] == a && UserTag(tag, b)[|tag| + 1..] == b;
  }

  /** A user's key is the tag, a bar and the uuid. */
  lemma TagIsJoined(tag: string, uuid: string)
    ensures UserTag(tag, uuid) == tag + "|" + uuid
  {
  }

  predicate HasTag(tag: string, users: seq<UserInfo>, key: string) {
    exists u :: u in users && UserTag(tag, u.uuid) == key
  }

  lemma {:induction false} DropUsersHas(s: State, tag: string, users: seq<UserInfo>, key: string)
    ensures var t := DropUsers(s, tag, users);
            && (key in t.limits <==> key in s.limits && !HasTag(tag, users, key))
            && (key in t.limits ==> t.limits[key] == s.limits[key])
            && (key in t.online <==> key in s.online && !HasTag(tag, users, key))
            && (key in t.uidOf <==> key in s.uidOf && !HasUuid(users, key))
            && (key in t.uidOf ==> t.uidOf[key] == s.uidOf[key])
  {
    if users != [] {
      var (init, last) := (users[..|users| - 1], users[|users| - 1]);
      assert forall u :: u in users <==> u in init || u == last;
      DropUsersHas(s, tag, init, key);
    }
  }

  lemma {:induction false} PutUsersLimits(s: State, tag: string, users: seq<UserInfo>, key: string)
    requires WellKeyed(users)
    ensures var t := PutUsers(s, tag, users);
            && (key in t.limits <==> key in s.limits || HasTag(tag, users, key))
            && (key in t.limits && !HasTag(tag, users, key) ==> t.limits[key] == s.limits[key])
            && (forall u :: u in users && UserTag(tag, u.uuid) == key ==> t.limits[key] == FreshLimit(u))
  {
    if users != [] {
      var (init, last) := (users[..|users| - 1], users[|users| - 1]);
      assert forall u :: u in users <==> u in init || u == last;
      PutUsersLimits(s, tag, init, key);
      forall u | u in users && UserTag(tag, u.uuid) == key == UserTag(tag, last.uuid)
        ensures u == last
      {
        TagsTellUsersApart(tag, u.uuid, last.uuid);
      }
    }
  }

  lemma {:induction false} PutUsersUids(s: State, tag: string, users: seq<UserInfo>, uuid: string)
    requires WellKeyed(users)
    ensures var t := PutUsers(s, tag, users);
            && (uuid in t.uidOf <==> uuid in s.uidOf || HasUuid(users, uuid))
            && (uuid in t.uidOf && !HasUuid(users, uuid) ==> t.uidOf[uuid] == s.uidOf[uuid])
            && (forall u :: u in users && u.uuid == uuid ==> t.uidOf[uuid] == u.id)
  {
    if users != [] {
      var (init, last) := (users[..|users| - 1], users[|users| - 1]);
      assert forall u :: u in users <==> u in init || u == last;
      PutUsersUids(s, tag, init, uuid);
    }
  }

  // ---------- being in step ----------

  /** The three views of a node's users, and the users whose limiter entry an expired dynamic limit dropped. */
  datatype Views = Views(list: seq<UserInfo>, naive: UserTable, lim: State, dropped: set<string>)

  function Tags(tag: string, users: seq<UserInfo>): set<string> {
    set u | u in users :: UserTag(tag, u.uuid)
  }

  /** What the panel says about a user; the dynamic limit and its end are the limiter's own. */
  predicate SaysTheSame(l: UserLimit, u: UserInfo) {
    l.uid == u.id && l.speedLimit == u.speedLimit && l.deviceLimit == u.deviceLimit
  }

  ghost predicate UidsInStep(v: Views) {
    && (forall uuid :: uuid in v.lim.uidOf <==> HasUuid(v.list, uuid))
    && (forall u :: u in v.list ==> v.lim.uidOf[u.uuid] == u.id)
  }

  ghost predicate LimitsInStep(tag: string, v: Views) {
    && v.dropped <= Tags(tag, v.list)
    && (forall key :: key in v.lim.limits <==> key in Tags(tag, v.list) && key !in v.dropped)
    && (forall u :: u in v.list && UserTag(tag, u.uuid) in v.lim.limits ==>
          SaysTheSame(v.lim.limits[UserTag(tag, u.uuid)], u))
    && (forall u :: u in v.list && UserTag(tag, u.uuid) in v.dropped ==> u.speedLimit == 0)
  }

  ghost predicate InStep(tag: string, v: Views) {
    Unique(v.list) && v.naive == TableOf(v.list) && UidsInStep(v) && LimitsInStep(tag, v)
  }

  /** One synchronisation with a new list, given the difference it found. */
  function Synced(tag: string, v: Views, users: seq<UserInfo>, deleted: seq<UserInfo>, added: seq<UserInfo>): Views {
    Views(users, PutAll(DropAll(v.naive, deleted), added), AfterUpdate(v.lim, tag, added, deleted),
          v.dropped - Tags(tag, deleted) - Tags(tag, added))
  }

  lemma SyncKeepsUids(tag: string, v: Views, users: seq<UserInfo>, deleted: seq<UserInfo>, added: seq<UserInfo>)
    requires InStep(tag, v) && Unique(users) && IsDiff(v.list, users, deleted, added)
    ensures UidsInStep(Synced(tag, v, users, deleted, added))
  {
    UniqueIsWellKeyed(v.list);
    UniqueIsWellKeyed(users);
    var s := DropUsers(v.lim, tag, deleted);
    forall uuid
      ensures uuid in PutUsers(s, tag, added).uidOf <==> HasUuid(users, uuid)
      ensures forall u :: u in users && u.uuid == uuid ==> PutUsers(s, tag, added).uidOf[uuid] == u.id
    {
      DropUsersHas(v.lim, tag, deleted, uuid);
      PutUsersUids(s, tag, added, uuid);
    }
  }

  lemma SyncKeepsLimits(tag: string, v: Views, users: seq<UserInfo>, deleted: seq<UserInfo>, added: seq<UserInfo>)
    requires InStep(tag, v) && Unique(users) && IsDiff(v.list, users, deleted, added)
    ensures LimitsInStep(tag, Synced(tag, v, users, deleted, added))
  {
    UniqueIsWellKeyed(v.list);
    UniqueIsWellKeyed(users);
    var s := DropUsers(v.lim, tag, deleted);
    var v' := Synced(tag, v, users, deleted, added);
    forall u, w | u in v.list && w in users && UserTag(tag, u.uuid) == UserTag(tag, w.uuid)
      ensures u.uuid == w.uuid
    {
      TagsTellUsersApart(tag, u.uuid, w.uuid);
    }
    forall key
      ensures key in v'.lim.limits <==> key in Tags(tag, users) && key !in v'.dropped
      ensures key in v'.dropped ==> key in Tags(tag, users)
      ensures forall u :: u in users && UserTag(tag, u.uuid) == key && key in v'.lim.limits ==>
                SaysTheSame(v'.lim.limits[key], u)
      ensures forall u :: u in users && UserTag(tag, u.uuid) == key && key in v'.dropped ==> u.speedLimit == 0
    {
      DropUsersHas(v.lim, tag, deleted, key);
      PutUsersLimits(s, tag, added, key);
      assert key in Tags(tag, deleted) <==> HasTag(tag, deleted, key);
      assert key in Tags(tag, added) <==> HasTag(tag, added, key);
    }
  }

  lemma SyncKeepsStep(tag: string, v: Views, users: seq<UserInfo>, deleted: seq<UserInfo>, added: seq<UserInfo>)
    requires InStep(tag, v) && Unique(users) && IsDiff(v.list, users, deleted, added)
    ensures InStep(tag, Synced(tag, v, users, deleted, added))
  {
    DiffOfTables(v.list, users, deleted, added);
    SyncKeepsUids(tag, v, users, deleted, added);
    SyncKeepsLimits(tag, v, users, deleted, added);
  }

  // ---------- runs ----------

  /** A panel list arriving, with the difference found, or a step of the limiter that changes no users. */
  datatype Event =
    | Cycle(users: seq<UserInfo>, deleted: seq<UserInfo>, added: seq<UserInfo>)
    | Other(op: Op)

  ghost predicate Legal(v: Views, e: Event) {
    match e
    case Cycle(users, deleted, added) => users != [] ==> Unique(users) && IsDiff(v.list, users, deleted, added)
    case Other(op) => !op.Update?
  }

  /**
  A check that gets past the connection limiter after the user's dynamic limit has expired, when
  the user has no base limit to fall back to.
  */
  predicate ExpiresAway(s: State, op: Op, key: string) {
    && op.Check? && op.key == key && key in s.limits
    && !Refuses(s.cfg, s.conn, key, NormalizeIP(op.ip))
    && Expired(s.limits[key], op.now) && s.limits[key].speedLimit == 0
  }

  function Advance(tag: string, v: Views, e: Event): Views {
    match e
    case Cycle(users, deleted, added) => if users == [] then v else Synced(tag, v, users, deleted, added)
    case Other(op) =>
      v.(lim := Perform(v.lim, op), dropped := v.dropped + set key | key in v.lim.limits && ExpiresAway(v.lim, op, key))
  }

  function AdvanceAll(tag: string, v: Views, es: seq<Event>): Views {
    if es == [] then v else Advance(tag, AdvanceAll(tag, v, es[..|es| - 1]), es[|es| - 1])
  }

  ghost predicate AllLegal(tag: string, v: Views, es: seq<Event>) {
    es != [] ==> AllLegal(tag, v, es[..|es| - 1]) && Legal(AdvanceAll(tag, v, es[..|es| - 1]), es[|es| - 1])
  }

  /** The latest list the panel sent that was not empty. */
  function LatestList(users: seq<UserInfo>, es: seq<Event>): seq<UserInfo> {
    if es == [] then users
    else
      var e := es[|es| - 1];
      if e.Cycle? && e.users != [] then e.users else LatestList(users, es[..|es| - 1])
  }

  /** Two entries say the same about what the panel decides. */
  predicate SameTerms(a: UserLimit, b: UserLimit) {
    a.uid == b.uid && a.speedLimit == b.speedLimit && a.deviceLimit == b.deviceLimit
  }

  lemma GateOnLimits(s: State, key: string, ip: string, isTcp: bool, noSSUDP: bool, now: int)
    ensures var s' := Gate(s, key, ip, isTcp, noSSUDP, now).0;
            s'.uidOf == s.uidOf &&
            s'.limits == if key in s.limits && !Refuses(s.cfg, s.conn, key, NormalizeIP(ip)) then Expire(s.limits, key, now)
                         else s.limits
  {
  }

  lemma BucketOnLimits(s: State, key: string, rate: int)
    ensures AfterBucket(s, key, rate).0.limits == s.limits && AfterBucket(s, key, rate).0.uidOf == s.uidOf
  {
  }

  lemma CheckOnLimits(s: State, op: Op)
    requires op.Check?
    ensures Perform(s, op).uidOf == s.uidOf
    ensures Perform(s, op).limits ==
              if op.key in s.limits && !Refuses(s.cfg, s.conn, op.key, NormalizeIP(op.ip)) then
                Expire(s.limits, op.key, op.now)
              else s.limits
  {
    var (s', passed) := Gate(s, op.key, op.ip, op.isTcp, op.noSSUDP, op.now);
    GateOnLimits(s, op.key, op.ip, op.isTcp, op.noSSUDP, op.now);
    if passed {
      BucketOnLimits(s', op.key, AskedRate(s, op.key, op.now));
    }
  }

  /**
  Apart from synchronisations, a user's entry goes away if and only if a check finds its dynamic
  limit expired and no base limit; nothing else touches what the panel said.
  */
  lemma EntryExpiresAwayIff(s: State, op: Op, key: string)
    requires !op.Update?
    ensures var s' := Perform(s, op);
            && s'.uidOf == s.uidOf
            && (key in s'.limits ==> key in s.limits && SameTerms(s'.limits[key], s.limits[key]))
            && (key in s.limits && key !in s'.limits <==> ExpiresAway(s, op, key))
  {
    if op.Check? {
      CheckOnLimits(s, op);
    }
  }

  /** Views whose limiter lost some users without a base limit, and kept the terms of the others. */
  lemma LosingUsersKeepsStep(tag: string, v: Views, v': Views)
    requires InStep(tag, v) && v'.list == v.list && v'.naive == v.naive && v'.lim.uidOf == v.lim.uidOf
    requires forall key :: key in v'.lim.limits ==> key in v.lim.limits && SameTerms(v'.lim.limits[key], v.lim.limits[key])
    requires forall key :: key in v'.dropped <==> key in v.dropped || (key in v.lim.limits && key !in v'.lim.limits)
    requires forall key :: key in v.lim.limits && key !in v'.lim.limits ==> v.lim.limits[key].speedLimit == 0
    ensures InStep(tag, v')
  {
  }

  lemma OtherKeepsStep(tag: string, v: Views, op: Op)
    requires InStep(tag, v) && !op.Update?
    ensures InStep(tag, Advance(tag, v, Other(op)))
  {
    var v' := Advance(tag, v, Other(op));
    forall key
      ensures v'.lim.uidOf == v.lim.uidOf
      ensures key in v'.lim.limits ==> key in v.lim.limits && SameTerms(v'.lim.limits[key], v.lim.limits[key])
      ensures key in v.lim.limits && key !in v'.lim.limits <==> ExpiresAway(v.lim, op, key)
    {
      EntryExpiresAwayIff(v.lim, op, key);
    }
    EntryExpiresAwayIff(v.lim, op, "");
    LosingUsersKeepsStep(tag, v, v');
  }

  /** The user was dropped at some check, and no later synchronisation added or deleted it. */
  ghost predicate WasDropped(tag: string, start: Views, es: seq<Event>, key: string) {
    exists i :: 0 <= i < |es| && DropsAt(tag, start, es, i, key)
  }

  ghost predicate DropsAt(tag: string, start: Views, es: seq<Event>, i: nat, key: string)
    requires i < |es|
  {
    && es[i].Other? && ExpiresAway(AdvanceAll(tag, start, es[..i]).lim, es[i].op, key)
    && forall j :: i < j < |es| ==> !Resets(tag, es[j], key)
  }

  predicate Resets(tag: string, e: Event, key: string) {
    e.Cycle? && e.users != [] && key in Tags(tag, e.deleted) + Tags(tag, e.added)
  }

  lemma DropsAtLater(tag: string, start: Views, es: seq<Event>, e: Event, i: nat, key: string)
    requires i < |es|
    ensures DropsAt(tag, start, es + [e], i, key) <==> DropsAt(tag, start, es, i, key) && !Resets(tag, e, key)
  {
    var es' := es + [e];
    assert es'[..i] == es[..i] && es'[i] == es[i];
    assert es'[|es|] == e;
    if DropsAt(tag, start, es', i, key) {
      forall j | i < j < |es|
        ensures !Resets(tag, es[j], key)
      {
        assert es[j] == es'[j];
      }
    }
  }

  lemma WasDroppedLater(tag: string, start: Views, es: seq<Event>, e: Event, key: string)
    ensures WasDropped(tag, start, es + [e], key) <==>
              (WasDropped(tag, start, es, key) && !Resets(tag, e, key)) ||
              (e.Other? && ExpiresAway(AdvanceAll(tag, start, es).lim, e.op, key))
  {
    var (es', n) := (es + [e], |es|);
    assert es'[..n] == es;
    assert DropsAt(tag, start, es', n, key) <==> e.Other? && ExpiresAway(AdvanceAll(tag, start, es).lim, e.op, key);
    forall i | 0 <= i < n
      ensures DropsAt(tag, start, es', i, key) <==> DropsAt(tag, start, es, i, key) && !Resets(tag, e, key)
    {
      DropsAtLater(tag, start, es, e, i, key);
    }
  }

  /** What the run keeps as dropped is what its checks dropped. */
  lemma {:induction false} DroppedIff(tag: string, start: Views, es: seq<Event>, key: string)
    requires start.dropped == {}
    ensures key in AdvanceAll(tag, start, es).dropped <==> WasDropped(tag, start, es, key)
  {
    if es == [] {
    } else {
      var (before, e) := (es[..|es| - 1], es[|es| - 1]);
      assert before + [e] == es;
      DroppedIff(tag, start, before, key);
      WasDroppedLater(tag, start, before, e, key);
    }
  }

  function StartedViews(tag: string, cfg: Config, nodeLimit: int, users: seq<UserInfo>, alive: map<int, int>): Views {
    Views(users, TableOf(users), Started(tag, cfg, nodeLimit, users, alive), {})
  }

  lemma StartIsInStep(tag: string, cfg: Config, nodeLimit: int, users: seq<UserInfo>, alive: map<int, int>)
    requires Unique(users)
    ensures InStep(tag, StartedViews(tag, cfg, nodeLimit, users, alive))
  {
    UniqueIsWellKeyed(users);
    var empty := State(cfg, nodeLimit, EMPTY, map[], map[], map[], map[], map[], alive, 0);
    forall key
      ensures key in PutUsers(empty, tag, users).limits <==> key in Tags(tag, users)
      ensures forall u :: u in users && UserTag(tag, u.uuid) == key ==> PutUsers(empty, tag, users).limits[key] == FreshLimit(u)
    {
      PutUsersLimits(empty, tag, users, key);
    }
    forall uuid
      ensures uuid in PutUsers(empty, tag, users).uidOf <==> HasUuid(users, uuid)
      ensures forall u :: u in users && u.uuid == uuid ==> PutUsers(empty, tag, users).uidOf[uuid] == u.id
    {
      PutUsersUids(empty, tag, users, uuid);
    }
  }

  lemma {:induction false} RunsStayInStep(tag: string, v: Views, es: seq<Event>)
    requires InStep(tag, v) && AllLegal(tag, v, es)
    ensures InStep(tag, AdvanceAll(tag, v, es)) && AdvanceAll(tag, v, es).list == LatestList(v.list, es)
  {
    if es != [] {
      var before := es[..|es| - 1];
      RunsStayInStep(tag, v, before);
      match es[|es| - 1]
      case Cycle(users, deleted, added) =>
        if users != [] {
          SyncKeepsStep(tag, AdvanceAll(tag, v, before), users, deleted, added);
        }
      case Other(op) =>
        OtherKeepsStep(tag, AdvanceAll(tag, v, before), op);
    }
  }

  /**
  After any run of synchronisations and limiter steps the three views are those of a node freshly
  started with the latest panel list, but for the users missing from the limiter: exactly those
  dropped by a check that found their dynamic limit expired and no base limit.
  */
  lemma IncrementalSyncEqualsRebuild(tag: string, cfg: Config, nodeLimit: int, users: seq<UserInfo>, alive: map<int, int>,
                                     es: seq<Event>)
    requires Unique(users) && AllLegal(tag, StartedViews(tag, cfg, nodeLimit, users, alive), es)
    ensures var start := StartedViews(tag, cfg, nodeLimit, users, alive);
            var v := AdvanceAll(tag, start, es);
            var r := StartedViews(tag, cfg, nodeLimit, LatestList(users, es), alive);
            && v.list == r.list && v.naive == r.naive && v.lim.uidOf == r.lim.uidOf
            && (forall key :: key in v.lim.limits ==> key in r.lim.limits && SameTerms(v.lim.limits[key], r.lim.limits[key]))
            && (forall key :: key in r.lim.limits && key !in v.lim.limits <==> WasDropped(tag, start, es, key))
  {
    var start := StartedViews(tag, cfg, nodeLimit, users, alive);
    StartIsInStep(tag, cfg, nodeLimit, users, alive);
    RunsStayInStep(tag, start, es);
    var (v, list) := (AdvanceAll(tag, start, es), LatestList(users, es));
    StartIsInStep(tag, cfg, nodeLimit, list, alive);
    SameViews(tag, v, StartedViews(tag, cfg, nodeLimit, list, alive));
    forall key
      ensures key in v.dropped <==> WasDropped(tag, start, es, key)
    {
      DroppedIff(tag, start, es, key);
    }
  }

  lemma SameViews(tag: string, v: Views, r: Views)
    requires InStep(tag, v) && InStep(tag, r) && v.list == r.list && r.dropped == {}
    ensures v.naive == r.naive && v.lim.uidOf == r.lim.uidOf
    ensures forall key :: key in v.lim.limits ==> key in r.lim.limits && SameTerms(v.lim.limits[key], r.lim.limits[key])
    ensures forall key :: key in r.lim.limits && key !in v.lim.limits <==> key in v.dropped
  {
    forall uuid | uuid in v.lim.uidOf
      ensures uuid in r.lim.uidOf && v.lim.uidOf[uuid] == r.lim.uidOf[uuid]
    {
      var u :| u in v.list && u.uuid == uuid;
    }
    forall key | key in Tags(tag, v.list)
      ensures exists u :: u in v.list && UserTag(tag, u.uuid) == key
    {
    }
  }

  /** A run that drops its user: a dynamic limit, and a check after it has expired. */
  lemma ExpiryDropsAUser(tag: string, u: UserInfo, limit: int, ip: string) returns (start: Views, es: seq<Event>)
    requires u.speedLimit == 0
    ensures start == StartedViews(tag, Config(false, 0, 0), 0, [u], map[])
    ensures es == [Other(Dynamic(tag, u.uuid, limit, 1_000_000_000)),
                   Other(Check(UserTag(tag, u.uuid), ip, true, false, 2_000_000_000))]
    ensures AllLegal(tag, start, es) && WasDropped(tag, start, es, UserTag(tag, u.uuid))
    ensures AdvanceAll(tag, start, es).list == [u] && UserTag(tag, u.uuid) !in AdvanceAll(tag, start, es).lim.limits
  {
    start := StartedViews(tag, Config(false, 0, 0), 0, [u], map[]);
    var (raise, check) := (Dynamic(tag, u.uuid, limit, 1_000_000_000), Check(UserTag(tag, u.uuid), ip, true, false, 2_000_000_000));
    es := [Other(raise), Other(check)];
    assert es[..1] == [Other(raise)] && es[..1][..0] == [] && es[..0] == [];
    assert [u][..0] == [];
    var bare := State(Config(false, 0, 0), 0, EMPTY, map[], map[], map[], map[], map[], map[], 0);
    assert PutUsers(bare, tag, []) == bare;
    assert start.lim == PutUser(bare, tag, u);
    var v := Advance(tag, start, es[0]);
    assert AdvanceAll(tag, start, es[..1]) == v;
    assert AdvanceAll(tag, start, es) == Advance(tag, AdvanceAll(tag, start, es[..|es| - 1]), es[1]);
    assert es[..|es| - 1] == es[..1];
    assert start.lim.limits[UserTag(tag, u.uuid)] == FreshLimit(u);
    assert ExpiresAway(v.lim, check, UserTag(tag, u.uuid));
    assert DropsAt(tag, start, es, 1, UserTag(tag, u.uuid));
    EntryExpiresAwayIff(v.lim, check, UserTag(tag, u.uuid));
  }

  /** A user dropped by an expired dynamic limit is turned away by every check until it is added again. */
  lemma DroppedUsersAreRefused(tag: string, v: Views, op: Op)
    requires InStep(tag, v) && op.Check? && op.key in v.dropped
    ensures ReplyTo(v.lim, op) == Refused
    ensures op.key in Advance(tag, v, Other(op)).dropped
  {
  }

  // ---------- the controller ----------

  lemma {:induction false} DynamicsHave(s: State, tag: string, uuids: seq<string>, limit: int, expire: int, uuid: string)
    ensures var (t, key) := (AfterDynamics(s, tag, uuids, limit, expire), UserTag(tag, uuid));
            && (key in t.limits <==> key in s.limits)
            && (key in s.limits && uuid in uuids ==>
                  t.limits[key] == s.limits[key].(dynamicSpeedLimit := limit, expireTime := Unix(expire)))
            && (key in s.limits && uuid !in uuids ==> t.limits[key] == s.limits[key])
            && (key in t.buckets <==> key in s.buckets && !(uuid in uuids && key in s.limits))
  {
    if uuids != [] {
      DynamicsHave(s, tag, uuids[..|uuids| - 1], limit, expire, uuid);
      TagsTellUsersApart(tag, uuid, uuids[|uuids| - 1]);
    }
  }

  function AfterDynamics(s: State, tag: string, uuids: seq<string>, limit: int, expire: int): State {
    if uuids == [] then s
    else AfterDynamic(AfterDynamics(s, tag, uuids[..|uuids| - 1], limit, expire), tag, uuids[|uuids| - 1], limit, expire)
  }

  datatype MaybeAlive = Unknown | Known(alive: map<int, int>)

  class Controller {
    const tag: string
    const server: NaiveCore
    const limiter: Limiter
    const traffic: Traffic.TrafficTable
    const dynamicLimit: int
    const dynamicMinutes: int
    var userList: seq<UserInfo>

    ghost predicate Valid()
      reads this, server, limiter, limiter.connLimiter
    {
      limiter.Valid() && tag in server.naiveState
    }

    constructor (tag: string, server: NaiveCore, limiter: Limiter, traffic: Traffic.TrafficTable,
                 dynamicLimit: int, dynamicMinutes: int, users: seq<UserInfo>)
      requires limiter.Valid() && tag in server.naiveState
      ensures Valid() && userList == users
      ensures this.tag == tag && this.server == server && this.limiter == limiter && this.traffic == traffic
    {
      this.tag, this.server, this.limiter, this.traffic := tag, server, limiter, traffic;
      this.dynamicLimit, this.dynamicMinutes := dynamicLimit, dynamicMinutes;
      userList := users;
    }

    /**
    One cycle of the node monitor when the node itself has not changed. Returns whether the list
    was taken over; a failing call to the core leaves the list and the limiter's users as they were.
    */
    method MonitorUsers(users: seq<UserInfo>, alive: MaybeAlive, delFault: Fault, addFault: Fault)
      returns (synced: bool, ghost deleted: seq<UserInfo>, ghost added: seq<UserInfo>)
      requires Valid()
      modifies this, server, limiter`alive, limiter`limits, limiter`uidOf, limiter`online, limiter`buckets, traffic
      ensures Valid() && userList == if synced then users else old(userList)
      ensures users == [] ==> !synced && deleted == added == []
      ensures users != [] && delFault == NoFault && addFault == NoFault ==> synced
      ensures users != [] && Unique(users) ==> IsDiff(old(userList), users, deleted, added)
      ensures if synced then server.naiveState[tag] == PutAll(DropAll(old(server.naiveState)[tag], deleted), added)
              else PartlyPushed(old(server.naiveState)[tag], server.naiveState[tag], deleted, added)
      ensures server.OnlyTouches(tag) && (synced && old(server.AllAgree()) ==> server.AllAgree())
      ensures limiter.Abs() == if synced then AfterUpdate(old(Refreshed(alive)), tag, added, deleted) else old(Refreshed(alive))
      ensures Forgets(if synced && traffic.settings.enabled then deleted else [])
    {
      deleted, added := [], [];
      if alive.Known? {
        limiter.SetAliveList(alive.alive);
      }
      if |users| == 0 {
        return false, [], [];
      }
      var gone, come := Compare(users);
      synced := TakeOver(users, gone, come, delFault, addFault);
      deleted, added := gone, come;
    }

    method Compare(users: seq<UserInfo>) returns (gone: seq<UserInfo>, come: seq<UserInfo>)
      ensures Unique(users) ==> IsDiff(userList, users, gone, come)
    {
      gone, come := CompareUserList(userList, users);
      if Unique(users) {
        ComparisonIsDiff(userList, users, gone);
      }
    }

    /** Pushes the difference to the core and, when that succeeds, to the limiter and the traffic counters. */
    method TakeOver(users: seq<UserInfo>, gone: seq<UserInfo>, come: seq<UserInfo>, delFault: Fault, addFault: Fault)
      returns (ok: bool)
      requires Valid()
      modifies this, server, limiter`alive, limiter`limits, limiter`uidOf, limiter`online, limiter`buckets, traffic
      ensures Valid() && userList == if ok then users else old(userList)
      ensures delFault == NoFault && addFault == NoFault ==> ok
      ensures if ok then server.naiveState[tag] == PutAll(DropAll(old(server.naiveState)[tag], gone), come)
              else PartlyPushed(old(server.naiveState)[tag], server.naiveState[tag], gone, come)
      ensures server.OnlyTouches(tag) && (ok && old(server.AllAgree()) ==> server.AllAgree())
      ensures limiter.Abs() == if ok then AfterUpdate(old(limiter.Abs()), tag, come, gone) else old(limiter.Abs())
      ensures Forgets(if ok && traffic.settings.enabled then gone else [])
    {
      ok := PushToCore(gone, come, delFault, addFault);
      if ok {
        UpdateTables(gone, come);
        userList := users;
      }
    }

    /** The limiter once the panel's device counts are taken over. */
    ghost function Refreshed(alive: MaybeAlive): State
      reads this, limiter, limiter.connLimiter
    {
      if alive.Known? then limiter.Abs().(alive := alive.alive) else limiter.Abs()
    }

    /** The traffic counters of these users are gone, and no others. */
    twostate predicate Forgets(gone: seq<UserInfo>)
      reads this, traffic
    {
      && (forall uuid :: uuid in traffic.traffic <==> uuid in old(traffic.traffic) && !HasUuid(gone, uuid))
      && (forall uuid :: uuid in traffic.traffic ==> traffic.traffic[uuid] == old(traffic.traffic)[uuid])
    }

    method PushToCore(gone: seq<UserInfo>, come: seq<UserInfo>, delFault: Fault, addFault: Fault) returns (ok: bool)
      requires tag in server.naiveState
      modifies server
      ensures tag in server.naiveState
      ensures delFault == NoFault && addFault == NoFault ==> ok
      ensures ok ==> server.naiveState[tag] == PutAll(DropAll(old(server.naiveState)[tag], gone), come)
      ensures !ok ==> PartlyPushed(old(server.naiveState)[tag], server.naiveState[tag], gone, come)
      ensures server.OnlyTouches(tag) && (ok && old(server.AllAgree()) ==> server.AllAgree())
    {
      if |gone| > 0 {
        var outcome := server.DelNaiveUsers(gone, tag, delFault);
        if outcome != Done {
          return false;
        }
      }
      if |come| > 0 {
        var outcome, _ := server.AddNaiveUsers(tag, come, addFault);
        if outcome != Done {
          return false;
        }
      }
      ok := true;
    }

    method UpdateTables(gone: seq<UserInfo>, come: seq<UserInfo>)
      requires limiter.Valid()
      modifies limiter`alive, limiter`limits, limiter`uidOf, limiter`online, limiter`buckets, traffic
      ensures limiter.Valid() && limiter.Abs() == AfterUpdate(old(limiter.Abs()), tag, come, gone)
      ensures Forgets(if traffic.settings.enabled then gone else [])
    {
      if |come| > 0 || |gone| > 0 {
        limiter.UpdateUser(tag, come, gone);
        ForgetTraffic(gone);
      }
    }

    method ForgetTraffic(gone: seq<UserInfo>)
      modifies traffic
      ensures Forgets(if traffic.settings.enabled then gone else [])
    {
      if traffic.settings.enabled {
        for i := 0 to |gone|
          invariant forall uuid :: uuid in traffic.traffic <==> uuid in old(traffic.traffic) && !HasUuid(gone[..i], uuid)
          invariant forall uuid :: uuid in traffic.traffic ==> traffic.traffic[uuid] == old(traffic.traffic)[uuid]
        {
          assert forall u :: u in gone[..i + 1] <==> u in gone[..i] || u == gone[i];
          traffic.DeleteTraffic(gone[i].uuid);
        }
        assert gone[..|gone|] == gone;
      }
    }

    /** Puts the dynamic limit on every user whose traffic reached the threshold, and on no other. */
    method SpeedChecker(now: int) returns (ghost matched: seq<string>)
      requires Valid()
      modifies limiter`limits, limiter`buckets, traffic
      ensures Valid()
      ensures forall uuid :: uuid in matched <==> Traffic.Reaches(old(traffic.traffic), traffic.settings, uuid)
      ensures traffic.traffic == Traffic.AfterConsume(old(traffic.traffic), traffic.settings)
      ensures limiter.Abs() ==
              AfterDynamics(old(limiter.Abs()), tag, matched, dynamicLimit, now + dynamicMinutes * 60_000_000_000)
    {
      matched := [];
      if !traffic.settings.enabled {
        assert traffic.traffic == Traffic.AfterConsume(traffic.traffic, traffic.settings);
        return;
      }
      var expire := now + dynamicMinutes * 60_000_000_000;
      var uuids := traffic.ConsumeDynamicSpeedLimitUsers();
      for i := 0 to |uuids|
        invariant Valid() && traffic.traffic == Traffic.AfterConsume(old(traffic.traffic), traffic.settings)
        invariant limiter.Abs() == AfterDynamics(old(limiter.Abs()), tag, uuids[..i], dynamicLimit, expire)
      {
        assert uuids[..i + 1][..i] == uuids[..i];
        var found := limiter.UpdateDynamicSpeedLimit(tag, uuids[i], dynamicLimit, expire);
      }
      assert uuids[..|uuids|] == uuids;
      matched := uuids;
    }
  }
}
