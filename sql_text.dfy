/**
 * The SQL string primitives the payment-history queries are built from:
 * 1-based SUBSTRING (two- and three-argument forms), `||` (sequence
 * concatenation) and REGEXP_REPLACE with a one-character class, which
 * is a per-character map.
 */
module SqlText {

  function Min(a: int, b: int): int { if a <= b then a else b }

  function Max(a: int, b: int): int { if a >= b then a else b }

  /** SUBSTRING(s, start, len): `len` characters from 1-based `start`, clamped at the end of `s`. */
  function Substring(s: string, start: int, len: int): (r: string)
    requires start >= 1 && len >= 0
    ensures |r| == if start - 1 >= |s| then 0 else Min(len, |s| - (start - 1))
    ensures forall i :: 0 <= i < |r| ==> r[i] == s[start - 1 + i]
  {
    s[Min(start - 1, |s|)..Min(start - 1 + len, |s|)]
  }

  /** SUBSTRING(s, start): from 1-based `start` to the end of `s`. */
  function SubstringFrom(s: string, start: int): (r: string)
    requires start >= 1
    ensures |r| == if start - 1 >= |s| then 0 else |s| - (start - 1)
    ensures forall i :: 0 <= i < |r| ==> r[i] == s[start - 1 + i]
  {
    s[Min(start - 1, |s|)..]
  }

  /** A prefix and the rest taken from where it stops give back the whole string. */
  lemma SubstringThenRest(s: string, len: int)
    requires len >= 0
    ensures Substring(s, 1, len) + SubstringFrom(s, len + 1) == s
  {
  }

  /** The character classes the queries replace: `[^B]` and `[123456JKL0]`. */
  datatype CharClass = NotB | Cx6Delinquent

  predicate InClass(c: char, k: CharClass)
  {
    match k
    case NotB => c != 'B'
    case Cx6Delinquent => c in "123456JKL0"
  }

  /**
   * REGEXP_REPLACE(s, '[class]', 'D', 'g'): every character of the class
   * becomes `D`, every other character is kept, and nothing moves.
   */
  function ReplaceWithD(s: string, k: CharClass): (r: string)
    ensures |r| == |s|
    ensures forall i :: 0 <= i < |s| ==> r[i] == if InClass(s[i], k) then 'D' else s[i]
  {
    if s == [] then []
    else ReplaceWithD(s[..|s| - 1], k) + [if InClass(s[|s| - 1], k) then 'D' else s[|s| - 1]]
  }

  /** The replacement works piecewise: it commutes with `||`. */
  lemma ReplaceWithDConcat(a: string, b: string, k: CharClass)
    ensures ReplaceWithD(a + b, k) == ReplaceWithD(a, k) + ReplaceWithD(b, k)
  {
    var l, r := ReplaceWithD(a + b, k), ReplaceWithD(a, k) + ReplaceWithD(b, k);
    assert |l| == |r|;
    forall i | 0 <= i < |l| ensures l[i] == r[i] {
      if i < |a| { assert (a + b)[i] == a[i]; } else { assert (a + b)[i] == b[i - |a|]; }
    }
  }
}
