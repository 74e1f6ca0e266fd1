/** The user records of a panel and the comparison of two user lists (node/user.go). */
module Users {
  import opened Text
  import opened Ordering

  datatype UserInfo = UserInfo(id: int, uuid: string, speedLimit: int, deviceLimit: int)

  const BAR: char := '|'

  function CompareKey(u: UserInfo): string {
    Decimal(u.id) + [BAR] + u.uuid + [BAR] + Decimal(u.speedLimit) + [BAR] + Decimal(u.deviceLimit)
  }

  /** The key tells any two records apart, even when a uuid contains the separator. */
  lemma CompareKeyIsInjective(u: UserInfo, v: UserInfo)
    ensures CompareKey(u) == CompareKey(v) <==> u == v
  {
    if CompareKey(u) == CompareKey(v) {
      DecimalHasNo(u.id, BAR);
      DecimalHasNo(v.id, BAR);
      DecimalHasNo(u.speedLimit, BAR);
      DecimalHasNo(v.speedLimit, BAR);
      DecimalHasNo(u.deviceLimit, BAR);
      DecimalHasNo(v.deviceLimit, BAR);
      var (a, b) := (Decimal(u.id) + [BAR] + u.uuid, Decimal(v.id) + [BAR] + v.uuid);
      SplitAtLast(BAR, a + [BAR] + Decimal(u.speedLimit), Decimal(u.deviceLimit),
                  b + [BAR] + Decimal(v.speedLimit), Decimal(v.deviceLimit));
      SplitAtLast(BAR, a, Decimal(u.speedLimit), b, Decimal(v.speedLimit));
      SplitAtFirst(BAR, Decimal(u.id), u.uuid, Decimal(v.id), v.uuid);
      DecimalsAreInjective(u.id, v.id);
      DecimalsAreInjective(u.speedLimit, v.speedLimit);
      DecimalsAreInjective(u.deviceLimit, v.deviceLimit);
    }
  }

  // ---------- comparing two lists ----------

  /** A record of the new list is reported unless the old list has it and it comes here for the first time. */
  predicate IsReported(before: seq<UserInfo>, after: seq<UserInfo>, k: nat)
    requires k < |after|
  {
    after[k] !in before || after[k] in after[..k]
  }

  /** The records reported as added among the first n of the new list, in order. */
  function Added(before: seq<UserInfo>, after: seq<UserInfo>, n: nat): seq<UserInfo>
    requires n <= |after|
  {
    if n == 0 then []
    else Added(before, after, n - 1) + if IsReported(before, after, n - 1) then [after[n - 1]] else []
  }

  ghost predicate Injective(key: UserInfo -> string) {
    forall u, v :: key(u) == key(v) ==> u == v
  }

  /** The index maps the key of every record in `left`, and no other key, to a position of that record. */
  ghost predicate Indexes(key: UserInfo -> string, index: map<string, nat>, before: seq<UserInfo>, left: set<UserInfo>) {
    && (forall k :: k in index ==> index[k] < |before| && before[index[k]] in left && key(before[index[k]]) == k)
    && (forall u :: u in left ==> key(u) in index)
  }

  lemma IndexHas(key: UserInfo -> string, index: map<string, nat>, before: seq<UserInfo>, left: set<UserInfo>, u: UserInfo)
    requires Injective(key) && Indexes(key, index, before, left)
    ensures key(u) in index <==> u in left
  {
  }

  lemma IndexDrop(key: UserInfo -> string, index: map<string, nat>, before: seq<UserInfo>, left: set<UserInfo>, u: UserInfo)
    requires Injective(key) && Indexes(key, index, before, left) && u in left
    ensures Indexes(key, index - {key(u)}, before, left - {u})
  {
  }

  method IndexList(key: UserInfo -> string, before: seq<UserInfo>) returns (index: map<string, nat>, ghost left: set<UserInfo>)
    requires Injective(key)
    ensures Indexes(key, index, before, left)
    ensures forall u :: u in left <==> u in before
  {
    index := map[];
    left := {};
    for i := 0 to |before|
      invariant forall u :: u in left <==> u in before[..i]
      invariant Indexes(key, index, before, left)
    {
      assert before[..i + 1] == before[..i] + [before[i]];
      index := index[key(before[i]) := i];
      left := left + {before[i]};
    }
    assert before[..|before|] == before;
  }

  /** How far the comparison has come after i records of the new list. */
  ghost predicate Compared(key: UserInfo -> string, before: seq<UserInfo>, after: seq<UserInfo>, i: nat,
                           index: map<string, nat>, left: set<UserInfo>, added: seq<UserInfo>) {
    && i <= |after|
    && (forall u :: u in left <==> u in before && u !in after[..i])
    && Indexes(key, index, before, left)
    && added == Added(before, after, i)
  }

  lemma ComparedStep(key: UserInfo -> string, before: seq<UserInfo>, after: seq<UserInfo>, i: nat,
                     index: map<string, nat>, left: set<UserInfo>, added: seq<UserInfo>)
    requires Injective(key) && Compared(key, before, after, i, index, left, added) && i < |after|
    ensures if key(after[i]) !in index then
              Compared(key, before, after, i + 1, index, left, added + [after[i]])
            else
              Compared(key, before, after, i + 1, index - {key(after[i])}, left - {after[i]}, added)
  {
    var u := after[i];
    assert after[..i + 1] == after[..i] + [u];
    IndexHas(key, index, before, left, u);
    assert IsReported(before, after, i) <==> u !in left;
    if u in left {
      IndexDrop(key, index, before, left, u);
    }
  }

  /** The comparison, for any way of telling records apart by a key. */
  method CompareBy(key: UserInfo -> string, before: seq<UserInfo>, after: seq<UserInfo>)
    returns (deleted: seq<UserInfo>, added: seq<UserInfo>)
    requires Injective(key)
    ensures added == Added(before, after, |after|)
    ensures forall u :: u in deleted <==> u in before && u !in after
    ensures Distinct(deleted)
  {
    var oldMap;
    ghost var left;
    oldMap, left := IndexList(key, before);
    added := [];
    for i := 0 to |after|
      invariant Compared(key, before, after, i, oldMap, left, added)
    {
      ComparedStep(key, before, after, i, oldMap, left, added);
      if key(after[i]) !in oldMap {
        added := added + [after[i]];
      } else {
        oldMap := oldMap - {key(after[i])};
        left := left - {after[i]};
      }
    }
    assert after[..|after|] == after;
    deleted := ListValues(key, oldMap, before, left);
  }

  /** Walks the index in any order. */
  method ListValues(ghost key: UserInfo -> string, index: map<string, nat>, before: seq<UserInfo>, ghost left: set<UserInfo>)
    returns (deleted: seq<UserInfo>)
    requires Injective(key) && Indexes(key, index, before, left)
    ensures forall u :: u in deleted <==> u in left
    ensures Distinct(deleted)
  {
    deleted := [];
    var rest := index;
    ghost var missing := left;
    while rest != map[]
      invariant Indexes(key, rest, before, missing) && missing <= left
      invariant forall u :: u in deleted <==> u in left && u !in missing
      invariant Distinct(deleted)
      decreases rest.Keys
    {
      var k :| k in rest;
      var u := before[rest[k]];
      IndexDrop(key, rest, before, missing, u);
      deleted := deleted + [u];
      rest := rest - {k};
      missing := missing - {u};
    }
    assert missing == {};
  }

  method CompareUserList(before: seq<UserInfo>, after: seq<UserInfo>) returns (deleted: seq<UserInfo>, added: seq<UserInfo>)
    ensures added == Added(before, after, |after|)
    ensures forall u :: u in deleted <==> u in before && u !in after
    ensures Distinct(deleted)
  {
    forall u, v
      ensures CompareKey(u) == CompareKey(v) ==> u == v
    {
      CompareKeyIsInjective(u, v);
    }
    deleted, added := CompareBy(CompareKey, before, after);
  }

  lemma {:induction false} AddedHas(before: seq<UserInfo>, after: seq<UserInfo>, n: nat, u: UserInfo)
    requires n <= |after|
    ensures u in Added(before, after, n) <==> exists k :: 0 <= k < n && after[k] == u && IsReported(before, after, k)
  {
    if n > 0 {
      AddedHas(before, after, n - 1, u);
    }
  }

  /** A record of the old list occurs twice in the new one. */
  predicate RepeatsOld(before: seq<UserInfo>, after: seq<UserInfo>) {
    exists j, k :: 0 <= j < k < |after| && after[j] == after[k] && after[k] in before
  }

  /** The added records are exactly the new ones if and only if no old record is repeated in the new list. */
  lemma AddedIsNewIff(before: seq<UserInfo>, after: seq<UserInfo>)
    ensures (forall u :: u in Added(before, after, |after|) <==> u in after && u !in before) <==> !RepeatsOld(before, after)
  {
    forall u
      ensures u in Added(before, after, |after|) <==>
                exists k :: 0 <= k < |after| && after[k] == u && IsReported(before, after, k)
    {
      AddedHas(before, after, |after|, u);
    }
    if RepeatsOld(before, after) {
      var j, k :| 0 <= j < k < |after| && after[j] == after[k] && after[k] in before;
      assert after[..k][j] == after[k];
      assert IsReported(before, after, k);
    } else {
      forall k | 0 <= k < |after|
        ensures IsReported(before, after, k) <==> after[k] !in before
      {
      }
    }
  }
}
