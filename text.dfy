/** Text helpers used by the stock view: lower-casing, substring search and
    the order in which names are compared when sorting. */
module Text {

  /** Lower-cases one character (ASCII letters only). */
  function LowerChar(c: char): char
  {
    if 'A' <= c <= 'Z' then (c as int + 32) as char else c
  }

  /** Lower-cases a whole string, character by character. */
  function Lower(s: string): (r: string)
    ensures |r| == |s|
  {
    seq(|s|, i requires 0 <= i < |s| => LowerChar(s[i]))
  }

  /** `t` occurs in `s` starting at position `k`. */
  predicate OccursAt(s: string, t: string, k: int)
  {
    0 <= k && k + |t| <= |s| && s[k..k + |t|] == t
  }

  /** Substring search, scanning `s` from the left. */
  function ContainsText(s: string, t: string): bool
    decreases |s|
  {
    if |t| > |s| then false
    else if s[..|t|] == t then true
    else ContainsText(s[1..], t)
  }

  /** The scan finds `t` exactly when `t` occurs somewhere in `s`. */
  lemma {:induction false} ContainsTextMeaning(s: string, t: string)
    ensures ContainsText(s, t) <==> exists k :: OccursAt(s, t, k)
    decreases |s|
  {
    if |t| > |s| {
      // no position leaves room for t
    } else if s[..|t|] == t {
      assert OccursAt(s, t, 0);
    } else {
      ContainsTextMeaning(s[1..], t);
      if ContainsText(s[1..], t) {
        var k :| OccursAt(s[1..], t, k);
        assert s[1..][k..k + |t|] == s[k + 1..k + 1 + |t|];
        assert OccursAt(s, t, k + 1);
      } else {
        forall k | OccursAt(s, t, k)
          ensures false
        {
          if k > 0 {
            assert s[1..][k - 1..k - 1 + |t|] == s[k..k + |t|];
            assert OccursAt(s[1..], t, k - 1);
          }
        }
      }
    }
  }

  /** Python's `<=` on strings: lexicographic by code point, a proper
      prefix comes first. */
  predicate StrLe(a: string, b: string)
  {
    if a == [] then true
    else if b == [] then false
    else if a[0] != b[0] then a[0] < b[0]
    else StrLe(a[1..], b[1..])
  }

  lemma {:induction false} StrLeTotal(a: string, b: string)
    ensures StrLe(a, b) || StrLe(b, a)
  {
    if a != [] && b != [] && a[0] == b[0] { StrLeTotal(a[1..], b[1..]); }
  }

  lemma {:induction false} StrLeTransitive(a: string, b: string, c: string)
    requires StrLe(a, b) && StrLe(b, c)
    ensures StrLe(a, c)
  {
    if a != [] && b != [] && c != [] && a[0] == b[0] == c[0] {
      StrLeTransitive(a[1..], b[1..], c[1..]);
    }
  }
}
