/**
 The row of heads: the click-to-follow decision, the per-head flags and
 stacking order, and the list of heads rendered from the ordered users.
 */
module CollaboratorHeads {
  import opened Types
  import opened LiveUserOrder
  import opened CollaboratorHead

  /** The intent a click on a head dispatches to the session store. */
  datatype FollowAction = StopFollow | Follow(liveUserId: string)

  /**
   `followLiveUser`: clicking one's own head or the followed head stops
   following; clicking anybody else follows that user.
   */
  function FollowLiveUser(user: LiveUser, liveUserId: Option<string>, followingUserId: Option<string>): (r: FollowAction)
    ensures r == StopFollow <==> IdEquals(liveUserId, user.id) || IdEquals(followingUserId, user.id)
    ensures r.Follow? ==> r.liveUserId == user.id
  {
    if IdEquals(liveUserId, user.id) || IdEquals(followingUserId, user.id) then StopFollow
    else Follow(user.id)
  }

  /** `user.id === liveUserId`: the head is the viewer's own. */
  function IsCurrentUser(user: LiveUser, liveUserId: Option<string>): (r: bool)
    ensures liveUserId.None? ==> !r
    ensures liveUserId.Some? ==> (r <==> user.id == liveUserId.value)
  {
    IdEquals(liveUserId, user.id)
  }

  /** `followingUserId !== null && user.id !== followingUserId`. */
  function IsDimmed(user: LiveUser, followingUserId: Option<string>): (r: bool)
    ensures followingUserId.None? ==> !r
    ensures followingUserId.Some? ==> (r <==> user.id != followingUserId.value)
  {
    followingUserId.Some? && !IdEquals(followingUserId, user.id)
  }

  /** The stacking order of the head at index `i`: `10 + liveUsers.length - i`. */
  function ZIndex(liveUsersCount: nat, i: nat): (r: int)
    ensures i <= liveUsersCount ==> r >= 10
    ensures r == 10 <==> i == liveUsersCount
  {
    10 + liveUsersCount - i
  }

  /** Everything one rendered head shows and does. */
  datatype HeadView = HeadView(
    id: string,
    username: string,
    avatarUrl: string,
    color: seq<int>,
    isCurrentUser: bool,
    isDimmed: bool,
    tooltip: string,
    opacity: real,
    zIndex: int,
    onClick: FollowAction)

  /** Reading a property of the `undefined` slot at this index throws a TypeError. */
  datatype RenderError = UndefinedUser(index: nat)

  /** The head drawn for `user` at index `i` of the ordered list. */
  function Head(user: LiveUser, i: nat, liveUsersCount: nat, liveUserId: Option<string>,
                followingUserId: Option<string>): (r: HeadView)
    ensures Shows(r, user)
    ensures r.isCurrentUser <==> IdEquals(liveUserId, user.id)
    ensures r.tooltip == r.username <==> !r.isCurrentUser
    ensures r.opacity == 0.5 <==> r.isDimmed
    ensures r.onClick == StopFollow <==> r.isCurrentUser || IdEquals(followingUserId, user.id)
  {
    var current := IsCurrentUser(user, liveUserId);
    var dimmed := IsDimmed(user, followingUserId);
    HeadView(user.id, user.username, user.avatarUrl, user.color, current, dimmed,
             Label(user.username, current), Opacity(dimmed), ZIndex(liveUsersCount, i),
             FollowLiveUser(user, liveUserId, followingUserId))
  }

  /** A head shows this user's record. */
  predicate Shows(h: HeadView, user: LiveUser)
  {
    h.id == user.id && h.username == user.username && h.avatarUrl == user.avatarUrl && h.color == user.color
  }

  /**
   `ordered.map((user, i) => ...)` from index `i` on: one head per slot, or
   the error of the first undefined slot.
   */
  function HeadsFrom(ordered: seq<Option<LiveUser>>, i: nat, liveUsersCount: nat,
                     liveUserId: Option<string>, followingUserId: Option<string>): (r: Result<seq<HeadView>, RenderError>)
    requires i <= |ordered|
    ensures r.Ok? <==> forall k :: i <= k < |ordered| ==> ordered[k].Some?
    ensures r.Ok? ==> (
      && |r.value| == |ordered| - i
      && forall k :: i <= k < |ordered| ==>
        r.value[k - i] == Head(ordered[k].value, k, liveUsersCount, liveUserId, followingUserId))
    ensures r.Err? ==> (
      && i <= r.error.index < |ordered| && ordered[r.error.index].None?
      && forall k :: i <= k < r.error.index ==> ordered[k].Some?)
    decreases |ordered| - i
  {
    if i == |ordered| then Ok([])
    else match ordered[i]
      case None => Err(UndefinedUser(i))
      case Some(user) =>
        match HeadsFrom(ordered, i + 1, liveUsersCount, liveUserId, followingUserId)
        case Err(e) => Err(e)
        case Ok(rest) =>
          var heads := [Head(user, i, liveUsersCount, liveUserId, followingUserId)] + rest;
          assert forall j :: 0 <= j < |rest| ==> heads[j + 1] == rest[j];
          Ok(heads)
  }

  /** The whole widget: the heads of `orderedLiveUsers`, in order. */
  function Render(liveUsers: seq<LiveUser>, liveUserId: Option<string>, followingUserId: Option<string>): (r: Result<seq<HeadView>, RenderError>)
    ensures r.Err? ==> r.error == UndefinedUser(0)
    ensures r.Ok? ==> 1 <= |r.value| <= |liveUsers|
  {
    OrderedTail(liveUsers, liveUserId);
    OrderedLength(liveUsers, liveUserId);
    FindFirstCount(liveUsers, liveUserId);
    HeadsFrom(Ordered(liveUsers, liveUserId), 0, |liveUsers|, liveUserId, followingUserId)
  }

  // ----- the follow toggle -----

  /**
   Following a user and then clicking that user again stops following. Once
   `followingUserId` is the user's id the second click stops following
   whatever came before; the requires names the first click that got there.
   */
  lemma ToggleSelfInverse(user: LiveUser, liveUserId: Option<string>, followingUserId: Option<string>)
    requires FollowLiveUser(user, liveUserId, followingUserId) == Follow(user.id)
    ensures FollowLiveUser(user, liveUserId, Some(user.id)) == StopFollow
  {
  }

  /** A click never asks to follow the viewer or the user already followed. */
  lemma FollowIsNew(user: LiveUser, liveUserId: Option<string>, followingUserId: Option<string>)
    requires FollowLiveUser(user, liveUserId, followingUserId).Follow?
    ensures !IdEquals(liveUserId, FollowLiveUser(user, liveUserId, followingUserId).liveUserId)
    ensures !IdEquals(followingUserId, FollowLiveUser(user, liveUserId, followingUserId).liveUserId)
  {
  }

  /** The decision reads nothing of the user but the id. */
  lemma FollowDependsOnIdOnly(u: LiveUser, v: LiveUser, liveUserId: Option<string>, followingUserId: Option<string>)
    requires u.id == v.id
    ensures FollowLiveUser(u, liveUserId, followingUserId) == FollowLiveUser(v, liveUserId, followingUserId)
  {
  }

  // ----- dimming and stacking -----

  /** The followed user is never dimmed; with nobody followed, nobody is. */
  lemma FollowedNeverDimmed(user: LiveUser, followingUserId: Option<string>)
    requires followingUserId.None? || IdEquals(followingUserId, user.id)
    ensures !IsDimmed(user, followingUserId)
    ensures Opacity(IsDimmed(user, followingUserId)) == 1.0
  {
  }

  /** Earlier heads stack above later ones. */
  lemma ZIndexDecreasing(liveUsersCount: nat, i: nat, j: nat)
    requires i < j
    ensures ZIndex(liveUsersCount, i) > ZIndex(liveUsersCount, j)
  {
  }

  /** Up to index `liveUsers.length`, no head drops below 10. */
  lemma ZIndexAtLeastTen(liveUsersCount: nat, i: nat)
    requires i <= liveUsersCount
    ensures ZIndex(liveUsersCount, i) >= 10
  {
  }

  // ----- the rendered row -----

  /** A rendered row has one head per ordered slot, each drawn for that slot's user. */
  lemma RenderAt(liveUsers: seq<LiveUser>, liveUserId: Option<string>, followingUserId: Option<string>)
    requires Render(liveUsers, liveUserId, followingUserId).Ok?
    ensures var heads := Render(liveUsers, liveUserId, followingUserId).value;
      var ordered := Ordered(liveUsers, liveUserId);
      |heads| == |ordered|
      && forall k :: 0 <= k < |heads| ==>
        ordered[k].Some? && heads[k] == Head(ordered[k].value, k, |liveUsers|, liveUserId, followingUserId)
  {
  }

  /**
   The row renders exactly when the viewer is among the live users; otherwise
   the undefined head at position 0 throws.
   */
  lemma RenderFailsWithoutCurrentUser(liveUsers: seq<LiveUser>, liveUserId: Option<string>, followingUserId: Option<string>)
    ensures Render(liveUsers, liveUserId, followingUserId).Err? <==>
      forall k :: 0 <= k < |liveUsers| ==> !IdEquals(liveUserId, liveUsers[k].id)
    ensures Render(liveUsers, liveUserId, followingUserId).Err? ==>
      Render(liveUsers, liveUserId, followingUserId).error == UndefinedUser(0)
  {
    var ordered := Ordered(liveUsers, liveUserId);
    OrderedHead(liveUsers, liveUserId);
    OrderedTail(liveUsers, liveUserId);
    assert forall k :: 1 <= k < |ordered| ==> ordered[k].Some?;
  }

  /**
   The viewer's own head comes first, labelled " (you)", and clicking it stops
   following; every later head shows a different user with the bare username.
   */
  lemma RenderCurrentUserFirst(liveUsers: seq<LiveUser>, liveUserId: Option<string>, followingUserId: Option<string>)
    requires Render(liveUsers, liveUserId, followingUserId).Ok?
    ensures var heads := Render(liveUsers, liveUserId, followingUserId).value;
      |heads| >= 1
      && heads[0].isCurrentUser && IdEquals(liveUserId, heads[0].id)
      && heads[0].tooltip == heads[0].username + YouSuffix
      && heads[0].onClick == StopFollow
      && forall k :: 1 <= k < |heads| ==>
        !heads[k].isCurrentUser && !IdEquals(liveUserId, heads[k].id) && heads[k].tooltip == heads[k].username
  {
    RenderAt(liveUsers, liveUserId, followingUserId);
    OrderedTail(liveUsers, liveUserId);
  }

  /**
   Position 0 shows the first live user carrying the viewer's id; the later
   heads show the other users, one each, in the room's order.
   */
  lemma RenderShowsOrderedUsers(liveUsers: seq<LiveUser>, liveUserId: Option<string>, followingUserId: Option<string>)
    requires Render(liveUsers, liveUserId, followingUserId).Ok?
    ensures var heads := Render(liveUsers, liveUserId, followingUserId).value;
      var others := Without(liveUsers, liveUserId);
      |heads| == 1 + |others|
      && (exists k :: 0 <= k < |liveUsers| && Shows(heads[0], liveUsers[k])
            && IdEquals(liveUserId, liveUsers[k].id)
            && forall j :: 0 <= j < k ==> !IdEquals(liveUserId, liveUsers[j].id))
      && forall k :: 1 <= k < |heads| ==> Shows(heads[k], others[k - 1])
  {
    RenderAt(liveUsers, liveUserId, followingUserId);
    OrderedHead(liveUsers, liveUserId);
    OrderedTail(liveUsers, liveUserId);
  }

  /** One head per live user exactly when the viewer is in the room once. */
  lemma RenderLength(liveUsers: seq<LiveUser>, liveUserId: Option<string>, followingUserId: Option<string>)
    requires Render(liveUsers, liveUserId, followingUserId).Ok?
    ensures |Render(liveUsers, liveUserId, followingUserId).value| == |liveUsers| <==> Count(liveUsers, liveUserId) == 1
    ensures |Render(liveUsers, liveUserId, followingUserId).value| <= |liveUsers|
  {
    RenderAt(liveUsers, liveUserId, followingUserId);
    OrderedLength(liveUsers, liveUserId);
    OrderedNoLonger(liveUsers, liveUserId);
  }

  /**
   With nobody followed every head is at full opacity; otherwise exactly the
   heads of other users than the followed one are dimmed to half.
   */
  lemma RenderDimming(liveUsers: seq<LiveUser>, liveUserId: Option<string>, followingUserId: Option<string>)
    requires Render(liveUsers, liveUserId, followingUserId).Ok?
    ensures var heads := Render(liveUsers, liveUserId, followingUserId).value;
      && (followingUserId.None? ==> forall k :: 0 <= k < |heads| ==> !heads[k].isDimmed && heads[k].opacity == 1.0)
      && (followingUserId.Some? ==> forall k :: 0 <= k < |heads| ==>
            (heads[k].isDimmed <==> heads[k].id != followingUserId.value)
            && heads[k].opacity == (if heads[k].id == followingUserId.value then 1.0 else 0.5))
  {
    RenderAt(liveUsers, liveUserId, followingUserId);
  }

  /** Clicking a head dispatches the toggle for exactly that head's user. */
  lemma RenderClicks(liveUsers: seq<LiveUser>, liveUserId: Option<string>, followingUserId: Option<string>)
    requires Render(liveUsers, liveUserId, followingUserId).Ok?
    ensures var heads := Render(liveUsers, liveUserId, followingUserId).value;
      forall k :: 0 <= k < |heads| ==>
        (heads[k].onClick == StopFollow <==> IdEquals(liveUserId, heads[k].id) || IdEquals(followingUserId, heads[k].id))
        && (heads[k].onClick.Follow? ==> heads[k].onClick.liveUserId == heads[k].id)
  {
    RenderAt(liveUsers, liveUserId, followingUserId);
  }

  /** The rendered heads stack strictly front to back, all above 10. */
  lemma RenderStacking(liveUsers: seq<LiveUser>, liveUserId: Option<string>, followingUserId: Option<string>)
    requires Render(liveUsers, liveUserId, followingUserId).Ok?
    ensures var heads := Render(liveUsers, liveUserId, followingUserId).value;
      && (forall k :: 0 <= k < |heads| ==> heads[k].zIndex > 10)
      && forall k, j :: 0 <= k < j < |heads| ==> heads[k].zIndex > heads[j].zIndex
  {
    RenderAt(liveUsers, liveUserId, followingUserId);
    OrderedNoLonger(liveUsers, liveUserId);
  }
}
