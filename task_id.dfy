/**
 * The task id shown to users: the last element of `strings.Split(taskArn, "/")`.
 */
module TaskIds {

  const ArnSeparator: char := '/'

  /** Number of occurrences of `c` in `s`. */
  function Occurrences(s: string, c: char): nat
  {
    if s == [] then 0
    else Occurrences(s[..|s| - 1], c) + (if s[|s| - 1] == c then 1 else 0)
  }

  /**
   * `strings.Split(s, string(sep))`: the pieces of `s` between separators,
   * one more piece than there are separators (so `Split("", sep) == [""]`).
   */
  function Split(s: string, sep: char): (parts: seq<string>)
    ensures |parts| == Occurrences(s, sep) + 1
    ensures forall k :: 0 <= k < |parts| ==> sep !in parts[k]
  {
    if s == [] then [[]]
    else
      var init := Split(s[..|s| - 1], sep);
      var c := s[|s| - 1];
      if c == sep then init + [[]]
      else init[..|init| - 1] + [init[|init| - 1] + [c]]
  }

  /** `strings.Join(parts, string(sep))`, the inverse of `Split`. */
  function Join(parts: seq<string>, sep: char): string
    requires |parts| >= 1
  {
    if |parts| == 1 then parts[0]
    else Join(parts[..|parts| - 1], sep) + [sep] + parts[|parts| - 1]
  }

  /** Splitting and joining again gives back the original string. */
  lemma {:induction false} JoinSplit(s: string, sep: char)
    ensures Join(Split(s, sep), sep) == s
    decreases |s|
  {
    if s != [] {
      var s' := s[..|s| - 1];
      var init := Split(s', sep);
      JoinSplit(s', sep);
      var c := s[|s| - 1];
      assert s == s' + [c];
      if c == sep {
        var parts := init + [[]];
        assert parts[..|parts| - 1] == init;
      } else {
        var parts := init[..|init| - 1] + [init[|init| - 1] + [c]];
        assert parts[..|parts| - 1] == init[..|init| - 1];
        if |init| == 1 {
          assert Join(parts, sep) == init[0] + [c];
        } else {
          assert init[..|init| - 1][..|init| - 2] == init[..|init| - 2];
          assert Join(init, sep) == Join(init[..|init| - 1], sep) + [sep] + init[|init| - 1];
        }
      }
    }
  }

  /** The task id of a task ARN: `contents[len(contents)-1]`. */
  function TaskIdOf(taskArn: string): (taskId: string)
    ensures ArnSeparator !in taskId
  {
    var contents := Split(taskArn, ArnSeparator);
    contents[|contents| - 1]
  }

  /**
   * The task id is the part of the ARN after its last `/`: it holds no `/`,
   * ends the ARN, and is preceded by a `/` unless it is the whole ARN, which
   * happens exactly when the ARN holds no `/`.
   */
  lemma {:induction false} TaskIdIsLastSegment(taskArn: string)
    ensures ArnSeparator !in TaskIdOf(taskArn)
    ensures |TaskIdOf(taskArn)| <= |taskArn|
    ensures taskArn[|taskArn| - |TaskIdOf(taskArn)|..] == TaskIdOf(taskArn)
    ensures ArnSeparator !in taskArn <==> TaskIdOf(taskArn) == taskArn
    ensures ArnSeparator in taskArn ==> taskArn[|taskArn| - |TaskIdOf(taskArn)| - 1] == ArnSeparator
    decreases |taskArn|
  {
    var id := TaskIdOf(taskArn);
    if taskArn != [] {
      var init := taskArn[..|taskArn| - 1];
      var c := taskArn[|taskArn| - 1];
      assert taskArn == init + [c];
      TaskIdIsLastSegment(init);
      if c != ArnSeparator {
        assert id == TaskIdOf(init) + [c];
        assert ArnSeparator in taskArn <==> ArnSeparator in init;
      }
    }
  }

  /** Scenario: a full task ARN and a bare id. */
  lemma TaskIdExamples()
    ensures TaskIdOf("arn:aws:ecs:us-east-1:123:task/abc") == "abc"
    ensures TaskIdOf("abc") == "abc"
  {
    TaskIdIsLastSegment("abc");
    var arn := "arn:aws:ecs:us-east-1:123:task/abc";
    TaskIdIsLastSegment(arn);
    var id := TaskIdOf(arn);
    assert arn[|arn| - 4] == '/';
    assert arn[|arn| - 3..] == "abc";
  }
}
