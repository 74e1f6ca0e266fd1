/**
The naive inbound of core/sing/naive.go: a user table per tag, and an inbound that is rebuilt
from it after every change. The calls that can fail (building options, removing and creating
an inbound) fail as a parameter says.
*/
module NaiveInbound {
  import opened Users
  import opened Ordering
  import opened Text

  datatype AuthUser = AuthUser(username: string, password: string)

  datatype Fault = NoFault | BuildFails | RemoveFails | CreateFails

  datatype Outcome = Done | NotFound | Failed(fault: Fault)

  type UserTable = map<string, UserInfo>

  // ---------- user tables ----------

  function PutAll(table: UserTable, users: seq<UserInfo>): UserTable {
    if users == [] then table
    else PutAll(table, users[..|users| - 1])[users[|users| - 1].uuid := users[|users| - 1]]
  }

  function DropAll(table: UserTable, users: seq<UserInfo>): UserTable {
    if users == [] then table
    else DropAll(table, users[..|users| - 1]) - {users[|users| - 1].uuid}
  }

  function Usernames(creds: seq<AuthUser>): seq<string> {
    seq(|creds|, i requires 0 <= i < |creds| => creds[i].username)
  }

  /** One credential per uuid, in strictly increasing order. */
  ghost predicate CredentialsOf(creds: seq<AuthUser>, uuids: set<string>) {
    && (forall i :: 0 <= i < |creds| ==> creds[i].password == creds[i].username)
    && Increasing(STRING_ORDER, Usernames(creds))
    && uuids == set uuid | uuid in Usernames(creds)
  }

  /** Each uuid is name and password of one credential, and they go by name. */
  lemma CredentialsAreUuids(creds: seq<AuthUser>, uuids: set<string>)
    requires CredentialsOf(creds, uuids)
    ensures forall uuid :: uuid in uuids <==> AuthUser(uuid, uuid) in creds
    ensures forall i, j :: 0 <= i < j < |creds| ==> Before(creds[i].username, creds[j].username)
  {
    forall uuid
      ensures uuid in uuids <==> AuthUser(uuid, uuid) in creds
    {
      assert uuid in uuids <==> uuid in Usernames(creds);
      if i :| 0 <= i < |creds| && Usernames(creds)[i] == uuid {
        assert creds[i] == AuthUser(uuid, uuid);
      }
      if i :| 0 <= i < |creds| && creds[i] == AuthUser(uuid, uuid) {
        assert Usernames(creds)[i] == uuid;
      }
    }
    forall i, j | 0 <= i < j < |creds|
      ensures Before(creds[i].username, creds[j].username)
    {
      assert STRING_ORDER(Usernames(creds)[i], Usernames(creds)[j]);
    }
  }

  /** The credentials depend on the set of uuids alone. */
  lemma CredentialsAreUnique(a: seq<AuthUser>, b: seq<AuthUser>, uuids: set<string>)
    requires CredentialsOf(a, uuids) && CredentialsOf(b, uuids)
    ensures a == b
  {
    StringOrderIsStrictTotal();
    assert forall uuid :: uuid in Usernames(a) <==> uuid in uuids;
    IncreasingIsUnique(STRING_ORDER, Usernames(a), Usernames(b));
    forall i | 0 <= i < |a|
      ensures a[i] == b[i]
    {
      assert Usernames(a)[i] == Usernames(b)[i];
    }
  }

  method BuildNaiveAuthUsers(users: UserTable) returns (authUsers: seq<AuthUser>)
    ensures CredentialsOf(authUsers, users.Keys)
  {
    var keys: seq<string> := [];
    var pending := users.Keys;
    while pending != {}
      invariant pending <= users.Keys && Distinct(keys)
      invariant forall k :: k in keys <==> k in users && k !in pending
      decreases pending
    {
      var k :| k in pending;
      keys := keys + [k];
      pending := pending - {k};
    }
    StringOrderIsStrictTotal();
    SortSorts(STRING_ORDER, keys);
    keys := Sort(STRING_ORDER, keys);
    authUsers := [];
    for i := 0 to |keys|
      invariant |authUsers| == i
      invariant forall k :: 0 <= k < i ==> authUsers[k] == AuthUser(keys[k], keys[k])
    {
      authUsers := authUsers + [AuthUser(keys[i], keys[i])];
    }
    assert Usernames(authUsers) == keys;
  }

  lemma PutAndDrop<V>(m: map<string, V>, tag: string, v: V)
    ensures m[tag := v] - {tag} == m - {tag}
  {
  }

  class NaiveCore {
    var naiveState: map<string, UserTable>
    var inbounds: map<string, seq<AuthUser>>

    /** The inbound of a tag exists exactly when the tag has users, with the credentials of those users. */
    ghost predicate Agrees(tag: string)
      requires tag in naiveState
      reads this
    {
      && (tag in inbounds <==> naiveState[tag] != map[])
      && (tag in inbounds ==> CredentialsOf(inbounds[tag], naiveState[tag].Keys))
    }

    /** A tag in agreement has an inbound exactly when it has users, with one credential for each uuid. */
    lemma AgreementSays(tag: string)
      requires tag in naiveState && Agrees(tag)
      ensures tag in inbounds <==> |naiveState[tag]| > 0
      ensures tag in inbounds ==> forall uuid :: uuid in naiveState[tag] <==> AuthUser(uuid, uuid) in inbounds[tag]
    {
      if tag in inbounds {
        CredentialsAreUuids(inbounds[tag], naiveState[tag].Keys);
      }
    }

    ghost predicate AllAgree()
      reads this
    {
      forall tag :: tag in naiveState ==> Agrees(tag)
    }

    /** No tag but this one has its users or its inbound changed. */
    twostate predicate OnlyTouches(tag: string)
      reads this
    {
      && naiveState - {tag} == old(naiveState) - {tag}
      && inbounds - {tag} == old(inbounds) - {tag}
    }

    twostate lemma OthersStillAgree(tag: string)
      requires OnlyTouches(tag)
      ensures forall t :: t != tag ==>
                (t in naiveState <==> t in old(naiveState)) && (t in naiveState && old(Agrees(t)) ==> Agrees(t))
    {
      forall t | t != tag
        ensures (t in naiveState <==> t in old(naiveState)) && (t in naiveState && old(Agrees(t)) ==> Agrees(t))
      {
        assert t in naiveState <==> t in naiveState - {tag};
        assert t in inbounds <==> t in inbounds - {tag};
        assert t in old(naiveState) <==> t in old(naiveState) - {tag};
        assert t in old(inbounds) <==> t in old(inbounds) - {tag};
        assert t in naiveState ==> naiveState[t] == (naiveState - {tag})[t] == (old(naiveState) - {tag})[t];
        assert t in inbounds ==> inbounds[t] == (inbounds - {tag})[t] == (old(inbounds) - {tag})[t];
      }
    }

    constructor ()
      ensures naiveState == map[] && AllAgree()
    {
      naiveState, inbounds := map[], map[];
    }

    method AddNaiveNode(tag: string)
      modifies this`naiveState
      ensures naiveState == old(naiveState)[tag := map[]]
      ensures old(AllAgree()) && tag !in inbounds ==> AllAgree()
    {
      naiveState := naiveState[tag := map[]];
    }

    method AddNaiveUsers(tag: string, users: seq<UserInfo>, fault: Fault) returns (outcome: Outcome, added: nat)
      modifies this
      ensures outcome == NotFound <==> tag !in old(naiveState)
      ensures outcome == NotFound ==> naiveState == old(naiveState) && inbounds == old(inbounds)
      ensures outcome != NotFound ==>
                naiveState == old(naiveState)[tag := PutAll(old(naiveState)[tag], users)] && OnlyTouches(tag)
      ensures outcome == Done ==> Agrees(tag) && added == |users| && (old(AllAgree()) ==> AllAgree())
      ensures tag in old(naiveState) && fault == NoFault ==> outcome == Done
    {
      added := 0;
      if tag !in naiveState {
        return NotFound, 0;
      }
      var state := naiveState[tag];
      for i := 0 to |users|
        invariant state == PutAll(old(naiveState)[tag], users[..i])
      {
        assert users[..i + 1][..i] == users[..i];
        state := state[users[i].uuid := users[i]];
      }
      assert users[..|users|] == users;
      naiveState := naiveState[tag := state];
      outcome := ApplyNaiveInbound(tag, fault);
      OthersStillAgree(tag);
      if outcome == Done {
        added := |users|;
      }
    }

    method DelNaiveUsers(users: seq<UserInfo>, tag: string, fault: Fault) returns (outcome: Outcome)
      modifies this
      ensures outcome == NotFound <==> tag !in old(naiveState)
      ensures outcome == NotFound ==> naiveState == old(naiveState) && inbounds == old(inbounds)
      ensures outcome != NotFound ==>
                naiveState == old(naiveState)[tag := DropAll(old(naiveState)[tag], users)] && OnlyTouches(tag)
      ensures outcome == Done ==> Agrees(tag) && (old(AllAgree()) ==> AllAgree())
      ensures tag in old(naiveState) && fault == NoFault ==> outcome == Done
    {
      if tag !in naiveState {
        return NotFound;
      }
      var state := naiveState[tag];
      for i := 0 to |users|
        invariant state == DropAll(old(naiveState)[tag], users[..i])
      {
        assert users[..i + 1][..i] == users[..i];
        state := state - {users[i].uuid};
      }
      assert users[..|users|] == users;
      naiveState := naiveState[tag := state];
      outcome := ApplyNaiveInbound(tag, fault);
      OthersStillAgree(tag);
    }

    /** Takes the inbound of a tag away, if there is one. */
    method RemoveInbound(tag: string, fails: bool) returns (ok: bool)
      modifies this`inbounds
      ensures ok == (tag !in old(inbounds) || !fails)
      ensures inbounds == if ok then old(inbounds) - {tag} else old(inbounds)
      ensures inbounds - {tag} == old(inbounds) - {tag}
    {
      if tag in inbounds {
        if fails {
          return false;
        }
        inbounds := inbounds - {tag};
      }
      ok := true;
      assert inbounds == old(inbounds) - {tag};
    }

    /** Rebuilds the inbound of a tag; whatever was there before, success leaves it in agreement. */
    method ApplyNaiveInbound(tag: string, fault: Fault) returns (outcome: Outcome)
      requires tag in naiveState
      modifies this`inbounds
      ensures outcome == Done || outcome == Failed(fault)
      ensures outcome == Done ==> Agrees(tag)
      ensures inbounds - {tag} == old(inbounds) - {tag}
      ensures fault == NoFault ==> outcome == Done
    {
      var users := naiveState[tag];
      if |users| == 0 {
        var removed := RemoveInbound(tag, fault == RemoveFails);
        return if removed then Done else Failed(fault);
      }
      var creds := BuildNaiveAuthUsers(users);
      if fault == BuildFails {
        return Failed(fault);
      }
      var removed := RemoveInbound(tag, fault == RemoveFails);
      if !removed || fault == CreateFails {
        return Failed(fault);
      }
      PutAndDrop(inbounds, tag, creds);
      inbounds := inbounds[tag := creds];
      outcome := Done;
    }

    /** Removing a node forgets its users and takes its inbound away. */
    method DelNode(tag: string, removeFails: bool) returns (ok: bool)
      modifies this
      ensures naiveState == old(naiveState) - {tag}
      ensures ok <==> (tag in old(naiveState) && tag !in old(inbounds)) || (tag in old(inbounds) && !removeFails)
      ensures inbounds == if ok then old(inbounds) - {tag} else old(inbounds)
      ensures old(AllAgree()) ==> AllAgree()
    {
      var naive := tag in naiveState;
      if naive {
        naiveState := naiveState - {tag};
        if tag !in inbounds {
          return true;
        }
      }
      if removeFails || tag !in inbounds {
        return false;
      }
      inbounds := inbounds - {tag};
      ok := true;
    }
  }
}
