/**
 * `getSecretRoomId`: the direct-chat room key of two users. The two ids are
 * put in a two-element array, sorted with JavaScript's default string order,
 * joined with "_" and hashed with SHA-256 (FIPS 180-4, hex digest). The
 * digest itself is not modelled: it is the function value `hash`, so every
 * property below holds whatever the digest is, and the properties about
 * distinct rooms are stated for the canonical preimage.
 */
module RoomIdentity {
  import opened Common

  /** JavaScript's default sort order on strings: lexicographic by character, a prefix first. */
  predicate LexLe(a: string, b: string)
  {
    |a| == 0 || (|b| > 0 && (a[0] < b[0] || (a[0] == b[0] && LexLe(a[1..], b[1..]))))
  }

  /** Any two strings are comparable. */
  lemma {:induction false} LexLeTotal(a: string, b: string)
    ensures LexLe(a, b) || LexLe(b, a)
  {
    if |a| > 0 && |b| > 0 && a[0] == b[0] {
      LexLeTotal(a[1..], b[1..]);
    }
  }

  /** Two strings each at most the other are equal. */
  lemma {:induction false} LexLeAntisymmetric(a: string, b: string)
    requires LexLe(a, b) && LexLe(b, a)
    ensures a == b
  {
    if |a| > 0 && |b| > 0 {
      LexLeAntisymmetric(a[1..], b[1..]);
      assert a == [a[0]] + a[1..] && b == [b[0]] + b[1..];
    }
  }

  /** `[x, y].sort()`: the two ids in ascending order. */
  function SortedPair(x: Id, y: Id): (p: (Id, Id))
    ensures LexLe(p.0, p.1)
    ensures p == (x, y) || p == (y, x)
  {
    LexLeTotal(x, y);
    if LexLe(x, y) then (x, y) else (y, x)
  }

  /** The separator `join` puts between the two sorted ids. */
  const Separator: char := '_'

  /** The string that is hashed: `[userId, targetUserId].sort().join("_")`. */
  function Preimage(userId: Id, targetUserId: Id): string
  {
    var p := SortedPair(userId, targetUserId);
    p.0 + [Separator] + p.1
  }

  /**
   * `getSecretRoomId(targetUserId, userId)` with `hash` standing for the
   * SHA-256 hex digest. The source names its parameters in the opposite
   * order to its callers; the sort makes that irrelevant (see
   * `SecretRoomIdSymmetric`).
   */
  function SecretRoomId(hash: string -> string, targetUserId: Id, userId: Id): string
  {
    hash(Preimage(userId, targetUserId))
  }

  /** The hashed string is the smaller id, "_", then the larger id. */
  lemma PreimageShape(a: Id, b: Id)
    ensures LexLe(a, b) ==> Preimage(a, b) == a + "_" + b
    ensures LexLe(b, a) ==> Preimage(a, b) == b + "_" + a
  {
    if LexLe(a, b) && LexLe(b, a) {
      LexLeAntisymmetric(a, b);
    }
  }

  /** Sorting makes the preimage independent of argument order. */
  lemma PreimageSymmetric(a: Id, b: Id)
    ensures Preimage(a, b) == Preimage(b, a)
  {
    LexLeTotal(a, b);
    PreimageShape(a, b);
    PreimageShape(b, a);
  }

  /** `getSecretRoomId(a, b) == getSecretRoomId(b, a)` for every digest function. */
  lemma SecretRoomIdSymmetric(hash: string -> string, a: Id, b: Id)
    ensures SecretRoomId(hash, a, b) == SecretRoomId(hash, b, a)
  {
    PreimageSymmetric(a, b);
  }

  /** The id contains no separator character. */
  predicate NoSeparator(id: Id)
  {
    Separator !in id
  }

  /** In `x + "_" + y` with no "_" in `x`, the first separator sits at index `|x|`. */
  lemma FirstSeparator(x: string, y: string)
    requires NoSeparator(x)
    ensures (x + [Separator] + y)[|x|] == Separator
    ensures forall i :: 0 <= i < |x| ==> (x + [Separator] + y)[i] != Separator
  {
    forall i | 0 <= i < |x|
      ensures (x + [Separator] + y)[i] != Separator
    {
      assert (x + [Separator] + y)[i] == x[i];
    }
  }

  /** Splitting at the first separator recovers both halves when the left half has none. */
  lemma SplitAtSeparator(x: string, y: string, x': string, y': string)
    requires NoSeparator(x) && NoSeparator(x')
    requires x + [Separator] + y == x' + [Separator] + y'
    ensures x == x' && y == y'
  {
    var s := x + [Separator] + y;
    FirstSeparator(x, y);
    FirstSeparator(x', y');
    assert |x| == |x'|;
    assert x == s[..|x|] == x';
    assert y == s[|x| + 1..] == y';
  }

  /**
   * When no id contains "_", the preimage determines the unordered pair:
   * equal preimages come from the same two ids, in one order or the other.
   */
  lemma PreimageDeterminesPair(a: Id, b: Id, c: Id, d: Id)
    requires NoSeparator(a) && NoSeparator(b) && NoSeparator(c) && NoSeparator(d)
    requires Preimage(a, b) == Preimage(c, d)
    ensures (a == c && b == d) || (a == d && b == c)
  {
    var p, q := SortedPair(a, b), SortedPair(c, d);
    SplitAtSeparator(p.0, p.1, q.0, q.1);
  }

  /** Ids that contain "_" can collide: ("a_b", "c") and ("a", "b_c") hash the same string. */
  lemma SeparatorInIdsCollides()
    ensures Preimage("a_b", "c") == Preimage("a", "b_c") == "a_b_c"
    ensures !NoSeparator("a_b") && !NoSeparator("b_c")
  {
    assert LexLe("a_b", "c");
    assert LexLe("a", "b_c");
  }

  /** A digest that maps distinct strings to distinct digests (the idealised SHA-256). */
  ghost predicate Injective(hash: string -> string)
  {
    forall s, t :: hash(s) == hash(t) ==> s == t
  }

  /**
   * For an ideal digest and separator-free ids, two users share a room key
   * exactly when they are the same unordered pair.
   */
  lemma SecretRoomIdIdentifiesPair(hash: string -> string, a: Id, b: Id, c: Id, d: Id)
    requires Injective(hash)
    requires NoSeparator(a) && NoSeparator(b) && NoSeparator(c) && NoSeparator(d)
    ensures SecretRoomId(hash, a, b) == SecretRoomId(hash, c, d) <==> ((a == c && b == d) || (a == d && b == c))
  {
    if SecretRoomId(hash, a, b) == SecretRoomId(hash, c, d) {
      PreimageDeterminesPair(b, a, d, c);
    } else if a == d && b == c {
      SecretRoomIdSymmetric(hash, a, b);
    }
  }
}
