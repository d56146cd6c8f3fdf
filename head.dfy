/**
 What one avatar head shows, given the two flags its parent computes for it:
 the tooltip text and the button's resting opacity.
 */
module CollaboratorHead {

  /** The suffix the tooltip appends for the viewer's own head. */
  const YouSuffix: string := " (you)"

  /**
   The tooltip's first line: the username, followed by " (you)" on the
   viewer's own head (React renders the `false` of `isCurrentUser && ...` as nothing).
   */
  function Label(username: string, isCurrentUser: bool): (r: string)
    ensures |username| <= |r| && r[..|username|] == username
    ensures r[|username|..] == (if isCurrentUser then YouSuffix else "")
  {
    if isCurrentUser then username + YouSuffix else username
  }

  /** The button's opacity when not hovered: half for a dimmed head, full otherwise. */
  function Opacity(isDimmed: bool): (r: real)
    ensures 0.0 < r <= 1.0
    ensures r == 1.0 <==> !isDimmed
    ensures isDimmed ==> r == 0.5
  {
    if isDimmed then 0.5 else 1.0
  }

  /** The label tells the viewer's head apart: it differs from the bare username exactly then. */
  lemma LabelMarksCurrentUser(username: string, isCurrentUser: bool)
    ensures Label(username, isCurrentUser) == username <==> !isCurrentUser
    ensures |Label(username, isCurrentUser)| == |username| + (if isCurrentUser then |YouSuffix| else 0)
  {
  }
}
