/** Trimming, for whatever a caller takes for white space. */
module Texts {
  type Class = char -> bool

  function TrimLeft(s: string, space: Class): string {
    if s != "" && space(s[0]) then TrimLeft(s[1..], space) else s
  }

  function TrimRight(s: string, space: Class): string {
    if s != "" && space(s[|s| - 1]) then TrimRight(s[..|s| - 1], space) else s
  }

  function Trim(s: string, space: Class): string { TrimRight(TrimLeft(s, space), space) }

  predicate AllOf(s: string, space: Class) { forall i :: 0 <= i < |s| ==> space(s[i]) }

  /** Neither begins nor ends with white space. */
  predicate Firm(s: string, space: Class) { s != "" && !space(s[0]) && !space(s[|s| - 1]) }

  lemma {:induction false} TrimLeftTo(spaces: string, s: string, space: Class)
    requires AllOf(spaces, space) && s != "" && !space(s[0])
    ensures TrimLeft(spaces + s, space) == s
    decreases |spaces|
  {
    if spaces == "" {
      assert spaces + s == s;
    } else {
      assert (spaces + s)[1..] == spaces[1..] + s;
      TrimLeftTo(spaces[1..], s, space);
    }
  }

  lemma {:induction false} TrimRightTo(s: string, spaces: string, space: Class)
    requires AllOf(spaces, space) && s != "" && !space(s[|s| - 1])
    ensures TrimRight(s + spaces, space) == s
    decreases |spaces|
  {
    if spaces == "" {
      assert s + spaces == s;
    } else {
      assert (s + spaces)[..|s + spaces| - 1] == s + spaces[..|spaces| - 1];
      TrimRightTo(s, spaces[..|spaces| - 1], space);
    }
  }

  /** Trimming takes off exactly the white space around a text. */
  lemma TrimTo(before: string, s: string, after: string, space: Class)
    requires AllOf(before, space) && AllOf(after, space) && Firm(s, space)
    ensures Trim(before + (s + after), space) == s
  {
    TrimLeftTo(before, s + after, space);
    TrimRightTo(s, after, space);
  }

  lemma TrimNothing(s: string, space: Class)
    requires s == "" || Firm(s, space)
    ensures Trim(s, space) == s
  {
    if s != "" {
      TrimTo("", s, "", space);
      assert "" + (s + "") == s;
    }
  }
}
