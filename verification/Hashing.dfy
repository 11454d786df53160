/** What the two hash-chained ledgers assume of SHA-256, and how they cut hashed text apart. */
module Hashing {

  /** The hash is a hexadecimal digest of 64 characters, so somewhere it has collisions; see `CollisionAmong`. */
  ghost predicate Digest(sha: string -> string) {
    forall x :: |sha(x)| == 64 && ':' !in sha(x) && '{' !in sha(x)
  }

  /** One of the texts `s` and one of the texts `t` differ and have the same digest. */
  ghost predicate CollisionAmong(sha: string -> string, s: set<string>, t: set<string>) {
    exists x, y :: x in s && y in t && x != y && sha(x) == sha(y)
  }

  lemma HeadOfCut(c: char, a: string, s: string)
    ensures a == [] ==> (a + [c] + s)[0] == c && (a + [c] + s)[1..] == s
    ensures a != [] ==> (a + [c] + s)[0] == a[0] && a[0] in a && (a + [c] + s)[1..] == a[1..] + [c] + s
  {
  }

  /** A text cut at the first occurrence of a character that neither head contains. */
  lemma {:induction false} CutAtFirst(c: char, a: string, s: string, b: string, t: string)
    requires c !in a && c !in b && a + [c] + s == b + [c] + t
    ensures a == b && s == t
    decreases |a|
  {
    HeadOfCut(c, a, s);
    HeadOfCut(c, b, t);
    if a != [] && b != [] {
      CutAtFirst(c, a[1..], s, b[1..], t);
      assert a == [a[0]] + a[1..] && b == [b[0]] + b[1..];
    }
  }
}
