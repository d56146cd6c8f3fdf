/**
 The order in which the heads are shown: the current user's own head first,
 then every other live user in the order of the room's user list.
 */
module LiveUserOrder {
  import opened Types

  /** `users.find(u => u.id === liveUserId)`: the first user carrying that id. */
  function FindFirst(users: seq<LiveUser>, liveUserId: Option<string>): (r: Option<LiveUser>)
    ensures r.None? <==> forall k :: 0 <= k < |users| ==> !IdEquals(liveUserId, users[k].id)
    ensures r.Some? ==>
      exists k :: 0 <= k < |users| && users[k] == r.value && IdEquals(liveUserId, users[k].id)
        && forall j :: 0 <= j < k ==> !IdEquals(liveUserId, users[j].id)
  {
    if |users| == 0 then None
    else if IdEquals(liveUserId, users[0].id) then Some(users[0])
    else
      var r := FindFirst(users[1..], liveUserId);
      assert forall k :: 1 <= k < |users| ==> users[k] == users[1..][k - 1];
      r
  }

  /** `users.filter(u => u.id !== liveUserId)`: everybody but the current user. */
  function Without(users: seq<LiveUser>, liveUserId: Option<string>): (r: seq<LiveUser>)
    ensures |r| <= |users|
    ensures forall k :: 0 <= k < |r| ==> r[k] in users && !IdEquals(liveUserId, r[k].id)
  {
    if |users| == 0 then []
    else if IdEquals(liveUserId, users[0].id) then Without(users[1..], liveUserId)
    else [users[0]] + Without(users[1..], liveUserId)
  }

  /** How many users of the list carry the given id. */
  function Count(users: seq<LiveUser>, liveUserId: Option<string>): (r: nat)
  {
    if |users| == 0 then 0
    else (if IdEquals(liveUserId, users[0].id) then 1 else 0) + Count(users[1..], liveUserId)
  }

  /**
   The memoised `orderedLiveUsers`: `[currentUser, ...liveUsersWithoutCurrentUser]`.
   The head is `undefined` (None) when no user carries `liveUserId`; every
   later element is a real user.
   */
  function Ordered(users: seq<LiveUser>, liveUserId: Option<string>): (r: seq<Option<LiveUser>>)
    ensures |r| >= 1
  {
    var rest := Without(users, liveUserId);
    [FindFirst(users, liveUserId)] + seq(|rest|, i requires 0 <= i < |rest| => Some(rest[i]))
  }

  // ----- the filter, against independent descriptions of it -----

  /** Filtering distributes over concatenation: relative order is kept. */
  lemma {:induction false} WithoutAppend(a: seq<LiveUser>, b: seq<LiveUser>, liveUserId: Option<string>)
    ensures Without(a + b, liveUserId) == Without(a, liveUserId) + Without(b, liveUserId)
  {
    if |a| == 0 {
      assert a + b == b;
    } else {
      assert (a + b)[1..] == a[1..] + b;
      WithoutAppend(a[1..], b, liveUserId);
    }
  }

  /** Every user whose id differs from `liveUserId` survives the filter. */
  lemma {:induction false} WithoutKeepsOthers(users: seq<LiveUser>, liveUserId: Option<string>, k: nat)
    requires k < |users| && !IdEquals(liveUserId, users[k].id)
    ensures users[k] in Without(users, liveUserId)
  {
    if k > 0 {
      WithoutKeepsOthers(users[1..], liveUserId, k - 1);
    }
  }

  /** With nobody to drop, the filter is the identity. */
  lemma {:induction false} WithoutNoMatch(users: seq<LiveUser>, liveUserId: Option<string>)
    requires forall k :: 0 <= k < |users| ==> !IdEquals(liveUserId, users[k].id)
    ensures Without(users, liveUserId) == users
  {
    if |users| > 0 {
      WithoutNoMatch(users[1..], liveUserId);
    }
  }

  /** The filter drops exactly the users that carry `liveUserId`. */
  lemma {:induction false} WithoutLength(users: seq<LiveUser>, liveUserId: Option<string>)
    ensures |Without(users, liveUserId)| + Count(users, liveUserId) == |users|
  {
    if |users| > 0 {
      WithoutLength(users[1..], liveUserId);
    }
  }

  /** No user is found exactly when no user is counted. */
  lemma {:induction false} FindFirstCount(users: seq<LiveUser>, liveUserId: Option<string>)
    ensures FindFirst(users, liveUserId).None? <==> Count(users, liveUserId) == 0
  {
    if |users| > 0 {
      FindFirstCount(users[1..], liveUserId);
    }
  }

  // ----- the ordered list -----

  /** Position 0 is the first user carrying `liveUserId`, or undefined if there is none. */
  lemma OrderedHead(users: seq<LiveUser>, liveUserId: Option<string>)
    ensures Ordered(users, liveUserId)[0].None? <==>
      forall k :: 0 <= k < |users| ==> !IdEquals(liveUserId, users[k].id)
    ensures Ordered(users, liveUserId)[0].Some? ==>
      exists k :: 0 <= k < |users| && users[k] == Ordered(users, liveUserId)[0].value
        && IdEquals(liveUserId, users[k].id)
        && forall j :: 0 <= j < k ==> !IdEquals(liveUserId, users[j].id)
  {
  }

  /**
   After position 0 come exactly the other users, in their original order,
   and none of them is the current user.
   */
  lemma OrderedTail(users: seq<LiveUser>, liveUserId: Option<string>)
    ensures var r := Ordered(users, liveUserId);
      |r| == 1 + |Without(users, liveUserId)|
      && forall k :: 1 <= k < |r| ==>
        r[k] == Some(Without(users, liveUserId)[k - 1]) && !IdEquals(liveUserId, r[k].value.id)
  {
  }

  /** Every user that is not the current user appears after position 0. */
  lemma OrderedKeepsOthers(users: seq<LiveUser>, liveUserId: Option<string>, k: nat)
    requires k < |users| && !IdEquals(liveUserId, users[k].id)
    ensures Some(users[k]) in Ordered(users, liveUserId)[1..]
  {
    var rest := Without(users, liveUserId);
    WithoutKeepsOthers(users, liveUserId, k);
    var j :| 0 <= j < |rest| && rest[j] == users[k];
    assert Ordered(users, liveUserId)[1..][j] == Some(users[k]);
  }

  /**
   The ordered list has one slot for the current user plus one per other user,
   so it is exactly as long as the room's list when the current user occurs once.
   */
  lemma OrderedLength(users: seq<LiveUser>, liveUserId: Option<string>)
    ensures |Ordered(users, liveUserId)| == 1 + |users| - Count(users, liveUserId)
    ensures |Ordered(users, liveUserId)| == |users| <==> Count(users, liveUserId) == 1
  {
    WithoutLength(users, liveUserId);
  }

  /** When the current user is in the room, the ordered list is no longer than the room's list. */
  lemma OrderedNoLonger(users: seq<LiveUser>, liveUserId: Option<string>)
    requires Ordered(users, liveUserId)[0].Some?
    ensures |Ordered(users, liveUserId)| <= |users|
  {
    FindFirstCount(users, liveUserId);
    OrderedLength(users, liveUserId);
  }
}
