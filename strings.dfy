/** Character search and line splitting on strings (sequences of Unicode code points). */
module Strings {
  import opened Wrappers

  /** Position of the first occurrence of `c` in `s`, if any. */
  function IndexOf(s: string, c: char): (r: Option<nat>)
    ensures r.None? <==> c !in s
    ensures r.Some? ==> r.value < |s| && s[r.value] == c && c !in s[..r.value]
  {
    if s == [] then None
    else if s[0] == c then Some(0)
    else
      match IndexOf(s[1..], c)
      case None => None
      case Some(i) =>
        assert s[1..][..i] == s[1..i + 1];
        Some(i + 1)
  }

  /** Position of the last occurrence of `c` in `s`, if any. */
  function LastIndexOf(s: string, c: char): (r: Option<nat>)
    ensures r.None? <==> c !in s
    ensures r.Some? ==> r.value < |s| && s[r.value] == c && c !in s[r.value + 1..]
  {
    if s == [] then None
    else if s[|s| - 1] == c then Some(|s| - 1)
    else
      var init := s[..|s| - 1];
      assert s == init + [s[|s| - 1]];
      match LastIndexOf(init, c)
      case None => None
      case Some(i) =>
        assert s[i + 1..] == init[i + 1..] + [s[|s| - 1]];
        Some(i)
  }

  /** The pieces of `s` between line breaks, in order; never empty. */
  function Lines(s: string): (r: seq<string>)
    decreases |s|
  {
    match IndexOf(s, '\n')
    case None => [s]
    case Some(i) => [s[..i]] + Lines(s[i + 1..])
  }

  /** A line break after a piece without line breaks starts a new line. */
  lemma LinesCons(a: string, b: string)
    requires '\n' !in a
    ensures Lines(a + "\n" + b) == [a] + Lines(b)
  {
    var s := a + "\n" + b;
    assert s[..|a|] == a;
    assert s[|a|] == '\n';
    assert IndexOf(s, '\n') == Some(|a|);
    assert s[|a| + 1..] == b;
  }

  /** The lines `ls` joined with a line break between each two. */
  function JoinLines(ls: seq<string>): string
  {
    if ls == [] then ""
    else if |ls| == 1 then ls[0]
    else ls[0] + "\n" + JoinLines(ls[1..])
  }

  /** Splitting joined lines gives the lines back, as long as none contains a line break. */
  lemma {:induction false} LinesJoinLines(ls: seq<string>)
    requires ls != []
    requires forall k :: 0 <= k < |ls| ==> '\n' !in ls[k]
    ensures Lines(JoinLines(ls)) == ls
  {
    if |ls| == 1 {
      assert IndexOf(ls[0], '\n') == None;
    } else {
      LinesJoinLines(ls[1..]);
      LinesCons(ls[0], JoinLines(ls[1..]));
    }
  }

  /** Joined lines start with the first line and end with the last one. */
  lemma {:induction false} JoinLinesFrame(ls: seq<string>)
    requires ls != []
    ensures ls[0] <= JoinLines(ls)
    ensures var j, last := JoinLines(ls), ls[|ls| - 1];
      |last| <= |j| && j[|j| - |last|..] == last
  {
    if |ls| > 1 {
      JoinLinesFrame(ls[1..]);
      var rest := JoinLines(ls[1..]);
      assert JoinLines(ls) == (ls[0] + "\n") + rest;
    }
  }
}
