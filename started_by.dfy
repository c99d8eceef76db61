/**
 * The started-by marker that carries a task group's name: `RunTask` and
 * `DescribeTasksForTaskGroup` encode it with the format `fargate:%s`, and
 * `ListTaskGroups` decodes it with the unanchored pattern `fargate:(.*)`.
 *
 * The pattern matches at the leftmost occurrence of `fargate:`; its capture
 * `.*` is greedy and `.` does not match a newline, so the captured name runs
 * from just after that occurrence to the first newline or to the end.
 */
module StartedBy {
  import opened EcsTypes

  const Prefix: string := "fargate:"

  /** `fmt.Sprintf(startedByFormat, name)`. */
  function Encode(taskGroupName: string): (startedBy: string)
    ensures MarkerAt(startedBy, 0)
    ensures startedBy[|Prefix|..] == taskGroupName
  {
    Prefix + taskGroupName
  }

  /** An occurrence of `fargate:` starts at index `i` of `s`. */
  predicate MarkerAt(s: string, i: int)
  {
    0 <= i && i + |Prefix| <= |s| && s[i..i + |Prefix|] == Prefix
  }

  /** `i` is the first index at which `fargate:` occurs in `s`. */
  predicate LeftmostMarkerAt(s: string, i: int)
  {
    MarkerAt(s, i) && forall j :: 0 <= j < i ==> !MarkerAt(s, j)
  }

  /** The first occurrence of `fargate:` at or after `from`, if any. */
  function FindMarker(s: string, from: nat): (r: Option<nat>)
    requires from <= |s|
    ensures r.None? ==> forall i :: from <= i ==> !MarkerAt(s, i)
    ensures r.Some? ==> from <= r.value && MarkerAt(s, r.value)
    ensures r.Some? ==> forall i :: from <= i < r.value ==> !MarkerAt(s, i)
    decreases |s| - from
  {
    if from + |Prefix| > |s| then None
    else if MarkerAt(s, from) then Some(from)
    else FindMarker(s, from + 1)
  }

  /** What `.*` captures: the longest prefix of `s` without a newline. */
  function Line(s: string): (r: string)
    ensures r <= s
    ensures '\n' !in r
    ensures |r| < |s| ==> s[|r|] == '\n'
  {
    if s == [] || s[0] == '\n' then [] else [s[0]] + Line(s[1..])
  }

  /**
   * The submatch of `fargate:(.*)` in a started-by value, or `None` when the
   * pattern does not match (then `FindStringSubmatch` gives no submatch).
   */
  function Decode(startedBy: string): (group: Option<string>)
    ensures group.None? ==> forall i :: !MarkerAt(startedBy, i)
    ensures group.Some? ==> '\n' !in group.value
  {
    match FindMarker(startedBy, 0)
    case None => None
    case Some(i) => Some(Line(startedBy[i + |Prefix|..]))
  }

  /**
   * The pattern matches exactly when `fargate:` occurs; the name is then what
   * follows the leftmost occurrence, up to the first newline or the end.
   */
  lemma DecodeMatchesLeftmostMarker(startedBy: string)
    ensures Decode(startedBy).None? <==> forall i :: !MarkerAt(startedBy, i)
    ensures Decode(startedBy).Some? ==>
      exists i :: LeftmostMarkerAt(startedBy, i) && Decode(startedBy).value == Line(startedBy[i + |Prefix|..])
    ensures Decode(startedBy).Some? ==> '\n' !in Decode(startedBy).value
  {
    match FindMarker(startedBy, 0)
    case None =>
    case Some(i) =>
      assert LeftmostMarkerAt(startedBy, i);
  }

  /**
   * Decoding an encoded name gives the name back up to its first newline;
   * in particular a name without a newline round-trips.
   */
  lemma {:induction false} DecodeEncode(taskGroupName: string)
    ensures Decode(Encode(taskGroupName)) == Some(Line(taskGroupName))
    ensures '\n' !in taskGroupName ==> Decode(Encode(taskGroupName)) == Some(taskGroupName)
  {
    var s := Encode(taskGroupName);
    assert MarkerAt(s, 0);
    assert s[|Prefix|..] == taskGroupName;
    var r := Line(taskGroupName);
    if '\n' !in taskGroupName {
      assert r == taskGroupName;
    }
  }

  /** Re-encoding a decoded name decodes to the same name. */
  lemma {:induction false} DecodeIsStable(startedBy: string)
    requires Decode(startedBy).Some?
    ensures Decode(Encode(Decode(startedBy).value)) == Decode(startedBy)
  {
    DecodeEncode(Decode(startedBy).value);
  }

  /** A marker that does not contain `fargate:` belongs to no group. */
  lemma NoMarkerNoGroup()
    ensures Decode("sidecar-xyz") == None
    ensures Decode("fargate:web") == Some("web")
  {
    DecodeEncode("web");
    assert "fargate:web" == Encode("web");
    var s := "sidecar-xyz";
    forall i | 0 <= i <= 3 ensures !MarkerAt(s, i) {
      assert s[i..i + |Prefix|][0] == s[i] != 'f';
    }
  }
}
