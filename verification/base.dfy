/** Shared vocabulary: an optional value, the document identifiers, and the
    first-match lookup every `findOne` query performs.

    Every collection of the backend (users, verification entries, workspaces,
    projects) is modelled as a sequence in the database's natural order, and a
    user's, workspace's or project's identifier is its position in that sequence.
    None of the modelled operations deletes a user, a workspace or a project, so
    positions are stable identifiers. */
module Base {

  /** A value that may be absent (a missing request field, an empty query result). */
  datatype Option<+T> = None | Some(value: T)

  type UserId = nat
  type WorkspaceId = nat
  type ProjectId = nat

  /** `findOne(filter)`: the position of the first element that matches, if any. */
  function FirstMatch<T>(s: seq<T>, matches: T -> bool): (r: Option<nat>)
    ensures r.None? <==> forall k :: 0 <= k < |s| ==> !matches(s[k])
    ensures r.Some? ==> r.value < |s| && matches(s[r.value])
    ensures r.Some? ==> forall k :: 0 <= k < r.value ==> !matches(s[k])
  {
    if |s| == 0 then None
    else if matches(s[0]) then Some(0)
    else match FirstMatch(s[1..], matches)
      case None => None
      case Some(k) => Some(k + 1)
  }

  /** A first match survives any change that keeps the matched element matching
      and everything before it as it was. */
  lemma FirstMatchKept<T>(s: seq<T>, t: seq<T>, matches: T -> bool, i: nat)
    requires FirstMatch(s, matches) == Some(i)
    requires i < |t| && matches(t[i])
    requires forall k :: 0 <= k < i ==> t[k] == s[k]
    ensures FirstMatch(t, matches) == Some(i)
  {
    assert forall k :: 0 <= k < i ==> !matches(t[k]);
  }

  /** Appending an element never changes an existing first match, and the appended
      element is the first match when nothing before it matched. */
  lemma FirstMatchAppend<T>(s: seq<T>, x: T, matches: T -> bool)
    ensures FirstMatch(s, matches).Some? ==> FirstMatch(s + [x], matches) == FirstMatch(s, matches)
    ensures FirstMatch(s, matches).None? ==>
              FirstMatch(s + [x], matches) == if matches(x) then Some(|s|) else None
  {
    var r := FirstMatch(s + [x], matches);
    assert forall k :: 0 <= k < |s| ==> (s + [x])[k] == s[k];
    assert (s + [x])[|s|] == x;
    if FirstMatch(s, matches).Some? {
      FirstMatchKept(s, s + [x], matches, FirstMatch(s, matches).value);
    }
  }
}
