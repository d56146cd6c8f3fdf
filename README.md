# Collaborator heads: a Dafny model

The collaborative editor's header shows one small avatar ("head") for each
user connected to the live session. The row puts the viewer's own head first.
Clicking a head follows that user, or stops following. While someone is
followed, every other head is dimmed.

This project models the decision logic behind that widget as pure Dafny
functions, and proves what the logic promises:

- `types.dfy` (module `Types`): the `LiveUser` record, `Option` and
  `Result`. It also defines `IdEquals`, the JavaScript `x === id` test
  against an id that may be `null`.
- `ordering.dfy` (module `LiveUserOrder`): the memoised `orderedLiveUsers`,
  built from `find`, `filter` and an array spread.
- `head.dfy` (module `CollaboratorHead`): the tooltip label and the opacity
  of one head.
- `heads.dfy` (module `CollaboratorHeads`): the `followLiveUser` toggle,
  the `isCurrentUser` and `isDimmed` flags, the `zIndex` formula, and the
  rendered row. The row is the `map` over `orderedLiveUsers` that builds one
  `HeadView` per slot.

How the code's behaviour is modelled:

- The store holds `liveUserId` and `followingUserId` as strings or `null`.
  Both are modelled as `Option<string>`. A `null` id never equals a user's id.
- `orderedLiveUsers` is a sequence of `Option<LiveUser>`. Its first slot is
  whatever `find` returned, so it is `undefined` (None) when no live user has
  the viewer's id. It always has that slot, so its length is one more than
  the number of other users.
- The code has no guard for that undefined slot. Rendering it reads
  `user.id` of `undefined`, which throws a TypeError. `Render` therefore
  returns `Err(UndefinedUser(0))` in that case, and
  `RenderFailsWithoutCurrentUser` proves this is the only way it fails.
- The click handler dispatches `onStopFollow` or `onFollow` to the store.
  Here it returns the action as a `FollowAction` value instead.
- The source types `color` as `number[]` (CollaboratorHeads.tsx:16), so the
  model uses `seq<int>`.

## Model

| member | source | states |
|---|---|---|
| LiveUserOrder.FindFirst | packages/app/src/app/pages/Sandbox/Editor/Header/CollaboratorHeads/CollaboratorHeads.tsx:101 | No user is returned exactly when no user carries `liveUserId`. Otherwise the result is the user at some index k whose id matches, and no user before k matches. |
| LiveUserOrder.FindFirstCount | packages/app/src/app/pages/Sandbox/Editor/Header/CollaboratorHeads/CollaboratorHeads.tsx:101 | `find` returns undefined exactly when no user in the list carries the id. |
| LiveUserOrder.Without | packages/app/src/app/pages/Sandbox/Editor/Header/CollaboratorHeads/CollaboratorHeads.tsx:102-104 | Every element of the filtered list comes from the input and has an id other than `liveUserId`. The result is never longer than the input. |
| LiveUserOrder.WithoutAppend | packages/app/src/app/pages/Sandbox/Editor/Header/CollaboratorHeads/CollaboratorHeads.tsx:102-104 | Filtering a concatenation gives the concatenation of the filtered parts, so the original relative order is kept. |
| LiveUserOrder.WithoutKeepsOthers | packages/app/src/app/pages/Sandbox/Editor/Header/CollaboratorHeads/CollaboratorHeads.tsx:102-104 | Every user whose id differs from `liveUserId` is in the filtered list. |
| LiveUserOrder.WithoutNoMatch | packages/app/src/app/pages/Sandbox/Editor/Header/CollaboratorHeads/CollaboratorHeads.tsx:102-104 | When no user carries `liveUserId`, the filter returns the list unchanged. |
| LiveUserOrder.WithoutLength | packages/app/src/app/pages/Sandbox/Editor/Header/CollaboratorHeads/CollaboratorHeads.tsx:102-104 | The filtered length plus the number of users carrying `liveUserId` equals the input length. |
| LiveUserOrder.Ordered | packages/app/src/app/pages/Sandbox/Editor/Header/CollaboratorHeads/CollaboratorHeads.tsx:100-106 | The ordered list always has a slot at position 0, even when no user is found. |
| LiveUserOrder.OrderedHead | packages/app/src/app/pages/Sandbox/Editor/Header/CollaboratorHeads/CollaboratorHeads.tsx:101-105 | Position 0 is undefined exactly when nobody carries `liveUserId`. Otherwise it is the first user that does. |
| LiveUserOrder.OrderedTail | packages/app/src/app/pages/Sandbox/Editor/Header/CollaboratorHeads/CollaboratorHeads.tsx:102-105 | Each position after 0 holds the matching element of the filtered list, in order. None of them carries `liveUserId`. |
| LiveUserOrder.OrderedKeepsOthers | packages/app/src/app/pages/Sandbox/Editor/Header/CollaboratorHeads/CollaboratorHeads.tsx:102-105 | Every user with an id other than `liveUserId` appears after position 0. |
| LiveUserOrder.OrderedLength | packages/app/src/app/pages/Sandbox/Editor/Header/CollaboratorHeads/CollaboratorHeads.tsx:102-105 | The length is 1 + \|users\| − (number of users carrying the id). So it equals \|users\| exactly when the current user occurs once. |
| LiveUserOrder.OrderedNoLonger | packages/app/src/app/pages/Sandbox/Editor/Header/CollaboratorHeads/CollaboratorHeads.tsx:101-105 | When the current user is found, the ordered list is no longer than the room's list. |
| CollaboratorHead.Label | packages/app/src/app/pages/Sandbox/Editor/Header/CollaboratorHeads/CollaboratorHeads.tsx:36-39 | The tooltip starts with the username. After the username comes " (you)" on the viewer's own head, and nothing otherwise. |
| CollaboratorHead.LabelMarksCurrentUser | packages/app/src/app/pages/Sandbox/Editor/Header/CollaboratorHeads/CollaboratorHeads.tsx:37-38 | The label equals the bare username exactly when the head is not the viewer's own. Otherwise it is six characters longer. |
| CollaboratorHead.Opacity | packages/app/src/app/pages/Sandbox/Editor/Header/CollaboratorHeads/CollaboratorHeads.tsx:57 | Opacity lies in (0, 1]. It is 1 exactly when the head is not dimmed, and 0.5 when it is. |
| CollaboratorHeads.FollowLiveUser | packages/app/src/app/pages/Sandbox/Editor/Header/CollaboratorHeads/CollaboratorHeads.tsx:108-114 | A click yields stop-follow exactly when the clicked id equals `liveUserId` or `followingUserId`. Otherwise it yields Follow with the clicked user's id. |
| CollaboratorHeads.ToggleSelfInverse | packages/app/src/app/pages/Sandbox/Editor/Header/CollaboratorHeads/CollaboratorHeads.tsx:109-112 | Once a click has followed user u, so that `followingUserId` is u's id, clicking u again yields stop-follow. |
| CollaboratorHeads.FollowIsNew | packages/app/src/app/pages/Sandbox/Editor/Header/CollaboratorHeads/CollaboratorHeads.tsx:108-114 | A Follow action never carries the viewer's own id or the id already followed. |
| CollaboratorHeads.FollowDependsOnIdOnly | packages/app/src/app/pages/Sandbox/Editor/Header/CollaboratorHeads/CollaboratorHeads.tsx:108-114 | Two users with the same id get the same decision. |
| CollaboratorHeads.IsDimmed | packages/app/src/app/pages/Sandbox/Editor/Header/CollaboratorHeads/CollaboratorHeads.tsx:142-144 | With nobody followed, no head is dimmed. With someone followed, a head is dimmed exactly when its id differs from the followed id. |
| CollaboratorHeads.IsCurrentUser | packages/app/src/app/pages/Sandbox/Editor/Header/CollaboratorHeads/CollaboratorHeads.tsx:140 | A head is the viewer's own exactly when `liveUserId` is set and equals the user's id. No head is the viewer's when `liveUserId` is null. `RenderCurrentUserFirst` proves that only head 0 has the flag. |
| CollaboratorHeads.ZIndex | packages/app/src/app/pages/Sandbox/Editor/Header/CollaboratorHeads/CollaboratorHeads.tsx:125 | The zIndex is at least 10 for every index up to `liveUsers.length`, and it is exactly 10 at index `liveUsers.length`. `ZIndexDecreasing` proves the stacking order. |
| CollaboratorHeads.Head | packages/app/src/app/pages/Sandbox/Editor/Header/CollaboratorHeads/CollaboratorHeads.tsx:134-145 | One head shows its user's id, username, avatar and colour. Its label is the bare username exactly when it is not the viewer's own head. Its opacity is 0.5 exactly when it is dimmed. Clicking it stops following exactly when it is the viewer's head or the followed user's. |
| CollaboratorHeads.Render | packages/app/src/app/pages/Sandbox/Editor/Header/CollaboratorHeads/CollaboratorHeads.tsx:116-153 | The whole row. A failure is always the undefined slot at position 0. A successful row has between 1 and `liveUsers.length` heads. `RenderAt` proves that each head is drawn for its ordered slot. |
| CollaboratorHeads.FollowedNeverDimmed | packages/app/src/app/pages/Sandbox/Editor/Header/CollaboratorHeads/CollaboratorHeads.tsx:142-144 | The followed user's head is never dimmed and is at full opacity. The same holds for every head when nobody is followed. |
| CollaboratorHeads.ZIndexDecreasing | packages/app/src/app/pages/Sandbox/Editor/Header/CollaboratorHeads/CollaboratorHeads.tsx:125 | The zIndex strictly decreases with the index, so earlier heads stack above later ones. |
| CollaboratorHeads.ZIndexAtLeastTen | packages/app/src/app/pages/Sandbox/Editor/Header/CollaboratorHeads/CollaboratorHeads.tsx:125 | For every index up to `liveUsers.length`, the zIndex is at least 10. |
| CollaboratorHeads.HeadsFrom | packages/app/src/app/pages/Sandbox/Editor/Header/CollaboratorHeads/CollaboratorHeads.tsx:121-147 | The map succeeds exactly when every slot holds a user. It then yields one head per slot, in order, each drawn for its slot's user at its index. Otherwise it reports the first undefined slot. |
| CollaboratorHeads.RenderAt | packages/app/src/app/pages/Sandbox/Editor/Header/CollaboratorHeads/CollaboratorHeads.tsx:121-147 | A rendered row has one head per ordered slot. Head k is drawn for the user in slot k, at index k. |
| CollaboratorHeads.RenderFailsWithoutCurrentUser | packages/app/src/app/pages/Sandbox/Editor/Header/CollaboratorHeads/CollaboratorHeads.tsx:100-132 | Rendering throws exactly when no live user carries `liveUserId`, and then the failure is at position 0. |
| CollaboratorHeads.RenderCurrentUserFirst | packages/app/src/app/pages/Sandbox/Editor/Header/CollaboratorHeads/CollaboratorHeads.tsx:121-145 | Head 0 is the viewer's own: its id and flag say so, its label ends in " (you)", and clicking it stops following. Every later head is someone else, labelled with the bare username. |
| CollaboratorHeads.RenderShowsOrderedUsers | packages/app/src/app/pages/Sandbox/Editor/Header/CollaboratorHeads/CollaboratorHeads.tsx:100-139 | Head 0 shows the first live user carrying the viewer's id. Heads 1.. show the other users, in the room's order. |
| CollaboratorHeads.RenderLength | packages/app/src/app/pages/Sandbox/Editor/Header/CollaboratorHeads/CollaboratorHeads.tsx:100-121 | The row has one head per live user exactly when the viewer occurs once, and never more heads than live users. |
| CollaboratorHeads.RenderDimming | packages/app/src/app/pages/Sandbox/Editor/Header/CollaboratorHeads/CollaboratorHeads.tsx:142-144 | With nobody followed, every head is undimmed at opacity 1. Otherwise exactly the heads of users other than the followed one are dimmed, at opacity 0.5. |
| CollaboratorHeads.RenderClicks | packages/app/src/app/pages/Sandbox/Editor/Header/CollaboratorHeads/CollaboratorHeads.tsx:141 | Clicking a head stops following exactly when that head is the viewer's or the followed user's. Otherwise it follows that head's user. |
| CollaboratorHeads.RenderStacking | packages/app/src/app/pages/Sandbox/Editor/Header/CollaboratorHeads/CollaboratorHeads.tsx:121-125 | Every rendered head has a zIndex above 10, and the zIndex strictly decreases from front to back. |

## Left out

- React rendering, the JSX tree and `React.useMemo` caching: none of these changes which heads are shown or in what order.
- framer-motion `AnimatePresence` and the `motion.div` animation values (lines 120-133): time-based behaviour of an external library. The `key={user.id}` is modelled only as the read that throws on an undefined slot.
- `Tooltip`, `SingletonTooltip`, `Avatar`, `Stack`, `Text`, the "View Profile" line, `HEAD_SIZE` and the CSS objects: foreign UI components and styling.
- The hover opacity, the CSS transition and the `rgb(...)` box shadow built with `color.join(',')`: presentation only. The model keeps the colour only as data carried into each head.
- The Overmind store (`useOvermind`, `actions.live.onFollow`, `actions.live.onStopFollow`): external state management. The store's state is passed in as parameters, and the dispatched intent is returned as a `FollowAction` value.
- React's treatment of duplicate `key`s when two live users share an id: it belongs to the framework, not to this file.
