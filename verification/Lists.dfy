/** Bounded lists: collections.deque(maxlen=...), and lists without repeats. */
module Lists {
  /** deque(maxlen=cap).append(x) */
  function Append<T>(s: seq<T>, x: T, cap: nat): (r: seq<T>)
    requires |s| <= cap && cap > 0
    ensures |r| <= cap && |r| > 0 && r[|r| - 1] == x
  {
    if |s| == cap then s[1..] + [x] else s + [x]
  }

  /** The last n elements. */
  function Suffix<T>(s: seq<T>, n: nat): seq<T> {
    if |s| <= n then s else s[|s| - n..]
  }

  /** A bounded deque holds the last elements ever appended. */
  lemma SuffixAppend<T>(s: seq<T>, x: T, cap: nat)
    requires cap > 0
    ensures Append(Suffix(s, cap), x, cap) == Suffix(s + [x], cap)
  {
  }

  predicate NoRepeats<T(==)>(s: seq<T>) {
    forall i, j :: 0 <= i < j < |s| ==> s[i] != s[j]
  }
}
