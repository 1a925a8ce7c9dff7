/** The two JavaScript string tests the route guard and the API client rely on. */
module Strings {

  /** JavaScript's `s.startsWith(prefix)`. */
  predicate StartsWith(s: string, prefix: string) {
    |prefix| <= |s| && s[..|prefix|] == prefix
  }

  /** `sub` occurs in `s` beginning at index `i`. */
  ghost predicate OccursAt(s: string, sub: string, i: int) {
    0 <= i && i + |sub| <= |s| && s[i..i + |sub|] == sub
  }

  /** JavaScript's `s.includes(sub)`: a left-to-right scan for an occurrence. */
  function Includes(s: string, sub: string): (b: bool)
    ensures b <==> exists i :: OccursAt(s, sub, i)
    decreases |s|
  {
    if StartsWith(s, sub) then
      assert OccursAt(s, sub, 0);
      true
    else if |s| <= |sub| then
      assert forall i :: !OccursAt(s, sub, i);
      false
    else
      OccursInTail(s, sub);
      Includes(s[1..], sub)
  }

  /** An occurrence not at the front of `s` is an occurrence in `s[1..]`, and back. */
  lemma OccursInTail(s: string, sub: string)
    requires |s| > 0 && !StartsWith(s, sub)
    ensures (exists i :: OccursAt(s, sub, i)) <==> (exists j :: OccursAt(s[1..], sub, j))
  {
    if i :| OccursAt(s, sub, i) {
      assert s[1..][i - 1..i - 1 + |sub|] == s[i..i + |sub|];
      assert OccursAt(s[1..], sub, i - 1);
    }
    if j :| OccursAt(s[1..], sub, j) {
      assert s[1..][j..j + |sub|] == s[j + 1..j + 1 + |sub|];
      assert OccursAt(s, sub, j + 1);
    }
  }
}
