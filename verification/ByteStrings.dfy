/** Go strings and byte slices, with the lexicographic order of the ordered store. */
module ByteStrings {

  type Byte = b: int | 0 <= b < 256
  type Bytes = seq<Byte>

  const COLON: Byte := 58

  datatype Option<+T> = None | Some(value: T)

  /** bytes.Compare(a, b) < 0. */
  predicate Less(a: Bytes, b: Bytes) {
    b != [] && (a == [] || a[0] < b[0] || (a[0] == b[0] && Less(a[1..], b[1..])))
  }

  lemma {:induction false} LessTransitive(a: Bytes, b: Bytes, c: Bytes)
    requires Less(a, b) && Less(b, c)
    ensures Less(a, c)
  {
    if a != [] && a[0] == b[0] && b[0] == c[0] {
      LessTransitive(a[1..], b[1..], c[1..]);
    }
  }

  lemma {:induction false} LessIrreflexive(a: Bytes)
    ensures !Less(a, a)
  {
    if a != [] { LessIrreflexive(a[1..]); }
  }

  lemma {:induction false} LessTotal(a: Bytes, b: Bytes)
    ensures a == b || Less(a, b) || Less(b, a)
  {
    if a != [] && b != [] && a[0] == b[0] {
      LessTotal(a[1..], b[1..]);
      assert a == [a[0]] + a[1..] && b == [b[0]] + b[1..];
    }
  }

  lemma LessAsymmetric(a: Bytes, b: Bytes)
    requires Less(a, b)
    ensures !Less(b, a) && a != b
  {}

  /** A string is never below one of its prefixes. */
  lemma {:induction false} PrefixNotAbove(p: Bytes, k: Bytes)
    requires p <= k
    ensures !Less(k, p)
  {
    if p != [] { PrefixNotAbove(p[1..], k[1..]); }
  }

  /** The strings extending `p` are an interval: past the first string at or above `p` that
      does not extend it, none does. */
  lemma {:induction false} PrefixBlockEnds(p: Bytes, a: Bytes, b: Bytes)
    requires !Less(a, p) && !(p <= a) && Less(a, b)
    ensures !(p <= b)
  {
    if p != [] && a != [] && b != [] && a[0] == b[0] == p[0] {
      assert a == [a[0]] + a[1..] && p == [p[0]] + p[1..] && b == [b[0]] + b[1..];
      assert p[1..] <= a[1..] ==> p <= a;
      PrefixBlockEnds(p[1..], a[1..], b[1..]);
    }
  }

  /** Order does not depend on a shared prefix. */
  lemma {:induction false} LessAfterPrefix(p: Bytes, a: Bytes, b: Bytes)
    ensures Less(p + a, p + b) <==> Less(a, b)
  {
    if p == [] {
      assert p + a == a && p + b == b;
    } else {
      assert (p + a)[1..] == p[1..] + a && (p + b)[1..] == p[1..] + b;
      LessAfterPrefix(p[1..], a, b);
    }
  }

  /** Two prefixes of one string are prefixes of each other. */
  lemma PrefixesNest(p: Bytes, q: Bytes, k: Bytes)
    requires p <= k && q <= k
    ensures |p| <= |q| ==> p <= q
  {}

  /** strings.Contains. */
  predicate Contains(s: Bytes, t: Bytes) {
    exists i | 0 <= i <= |s| :: OccursAt(s, t, i)
  }

  predicate OccursAt(s: Bytes, t: Bytes, i: nat) {
    i + |t| <= |s| && s[i..i + |t|] == t
  }
}
