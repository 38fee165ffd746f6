/**
 * Text matching for the search field: `localizedCaseInsensitiveContains`,
 * with case folding limited to the letters A-Z.
 */
module Text {

  function LowerChar(c: char): char {
    if 'A' <= c <= 'Z' then (c as int + 32) as char else c
  }

  function Lower(s: string): (r: string)
    ensures |r| == |s|
    ensures forall i :: 0 <= i < |s| ==> r[i] == LowerChar(s[i])
  {
    if s == [] then [] else [LowerChar(s[0])] + Lower(s[1..])
  }

  /** `q` occurs in `s` starting at position `i`. */
  predicate OccursAt(q: string, s: string, i: int) {
    0 <= i && i + |q| <= |s| && s[i..i + |q|] == q
  }

  /** Substring search, one start position after another. */
  function Contains(s: string, q: string): bool {
    if |q| <= |s| && s[..|q|] == q then true
    else if s == [] then false
    else Contains(s[1..], q)
  }

  /** The search finds `q` exactly when `q` occurs somewhere in `s`. */
  lemma {:induction false} ContainsIffOccurs(s: string, q: string)
    ensures Contains(s, q) <==> exists i :: OccursAt(q, s, i)
  {
    if |q| <= |s| && s[..|q|] == q {
      assert OccursAt(q, s, 0);
    } else if s != [] {
      ContainsIffOccurs(s[1..], q);
      if exists i :: OccursAt(q, s[1..], i) {
        var i :| OccursAt(q, s[1..], i);
        assert s[i + 1..i + 1 + |q|] == s[1..][i..i + |q|];
        assert OccursAt(q, s, i + 1);
      }
      if exists i :: OccursAt(q, s, i) {
        var i :| OccursAt(q, s, i);
        if i != 0 {
          assert s[1..][i - 1..i - 1 + |q|] == s[i..i + |q|];
          assert OccursAt(q, s[1..], i - 1);
        }
      }
    }
  }

  /** `title.localizedCaseInsensitiveContains(query)`. */
  predicate ContainsIgnoringCase(title: string, query: string) {
    Contains(Lower(title), Lower(query))
  }
}
