/** Row keys: the `::`-join of a rule line, its inverse `strings.Split`, and the place of a
    line in the flat key space (server/adapter/adapter.go, server/adapter/badger.go). */
module Keys {
  import opened ByteStrings

  /** A stored line: the policy type followed by the rule's fields. */
  type Line = seq<Bytes>

  const SEP: Bytes := [COLON, COLON]
  const NAMESPACE_PREFIX: Bytes := [0]
  const POLICY_PREFIX: Bytes := [1]

  /** strings.Join(line, "::"). */
  function Join(line: Line): Bytes {
    if line == [] then []
    else if |line| == 1 then line[0]
    else line[0] + SEP + Join(line[1..])
  }

  predicate SepAt(s: Bytes, i: int) {
    0 <= i && i + 2 <= |s| && s[i] == COLON && s[i + 1] == COLON
  }

  /** Position of the leftmost `::`, or |s| when there is none. */
  function FirstSep(s: Bytes): (i: nat)
    ensures i <= |s|
    ensures i < |s| ==> SepAt(s, i)
    ensures forall j | 0 <= j < i :: !SepAt(s, j)
  {
    if s == [] then 0
    else if SepAt(s, 0) then 0
    else
      var r := FirstSep(s[1..]);
      assert forall j | 1 <= j :: SepAt(s, j) <==> SepAt(s[1..], j - 1);
      r + 1
  }

  /** strings.Split(s, "::"): cut at the leftmost separator, go on after it. */
  function Split(s: Bytes): Line
    decreases |s|
  {
    var i := FirstSep(s);
    if i == |s| then [s] else [s[..i]] + Split(s[i + 2..])
  }

  predicate HasSep(s: Bytes) { exists i | 0 <= i < |s| :: SepAt(s, i) }

  predicate EndsInColon(s: Bytes) { s != [] && s[|s| - 1] == COLON }

  /** The lines whose key can be taken apart again. */
  predicate WellFormed(line: Line) {
    && line != []
    && (forall i | 0 <= i < |line| :: !HasSep(line[i]))
    && (forall i | 0 <= i < |line| - 1 :: !EndsInColon(line[i]))
  }

  lemma FirstSepIs(s: Bytes, i: nat)
    requires i <= |s| && (i < |s| ==> SepAt(s, i)) && forall j | 0 <= j < i :: !SepAt(s, j)
    ensures FirstSep(s) == i
  {}

  /** The separator after a field without `::` and without a final `:` is the leftmost one. */
  lemma SplitAfterField(f: Bytes, rest: Bytes)
    requires !HasSep(f) && !EndsInColon(f)
    ensures Split(f + SEP + rest) == [f] + Split(rest)
  {
    var s := f + SEP + rest;
    forall j | 0 <= j < |f| ensures !SepAt(s, j) {
      assert !SepAt(f, j);
    }
    FirstSepIs(s, |f|);
    assert s[..|f|] == f && s[|f| + 2..] == rest;
  }

  lemma {:induction false} SplitJoin(line: Line)
    requires WellFormed(line)
    ensures Split(Join(line)) == line
  {
    if |line| == 1 {
      SplitOne(line[0]);
    } else {
      var f, tail := line[0], line[1..];
      TailWellFormed(line);
      SplitJoin(tail);
      SplitAfterField(f, Join(tail));
      assert line == [f] + tail;
    }
  }

  lemma SplitOne(f: Bytes)
    requires !HasSep(f)
    ensures Split(f) == [f]
  {
    FirstSepIs(f, |f|);
  }

  lemma TailWellFormed(line: Line)
    requires WellFormed(line) && |line| > 1
    ensures !HasSep(line[0]) && !EndsInColon(line[0]) && WellFormed(line[1..])
  {}

  lemma JoinCons(f: Bytes, line: Line)
    requires line != []
    ensures Join([f] + line) == f + SEP + Join(line)
  {}

  lemma {:induction false} JoinSplit(s: Bytes)
    ensures Split(s) != [] && Join(Split(s)) == s
    decreases |s|
  {
    var i := FirstSep(s);
    if i < |s| {
      var head, rest := s[..i], s[i + 2..];
      JoinSplit(rest);
      JoinCons(head, Split(rest));
      CutAtSep(s, i);
    }
  }

  lemma CutAtSep(s: Bytes, i: nat)
    requires SepAt(s, i)
    ensures s == s[..i] + SEP + s[i + 2..]
  {}

  lemma {:induction false} SplitWellFormed(s: Bytes)
    ensures WellFormed(Split(s))
    decreases |s|
  {
    var i := FirstSep(s);
    if i < |s| {
      var head := s[..i];
      SplitWellFormed(s[i + 2..]);
      forall j ensures !SepAt(head, j) {
        assert SepAt(head, j) ==> SepAt(s, j);
      }
      assert EndsInColon(head) ==> SepAt(s, i - 1);
      var line := Split(s);
      assert forall j | 1 <= j < |line| :: line[j] == Split(s[i + 2..])[j - 1];
    }
  }

  /** Splitting undoes joining exactly on the well-formed lines. */
  lemma JoinRoundTrip(line: Line)
    ensures Split(Join(line)) == line <==> WellFormed(line)
  {
    SplitWellFormed(Join(line));
    if WellFormed(line) { SplitJoin(line); }
  }

  lemma JoinInjective(a: Line, b: Line)
    requires WellFormed(a) && WellFormed(b) && Join(a) == Join(b)
    ensures a == b
  {
    SplitJoin(a);
    SplitJoin(b);
  }

  /** Bucket.withPrefix: every policy key is 0x01, the namespace, then the bucket key, with
      nothing between the last two. */
  function WithPrefix(ns: Bytes, key: Bytes): Bytes {
    POLICY_PREFIX + ns + key
  }

  function RowKey(ns: Bytes, line: Line): Bytes {
    WithPrefix(ns, Join(line))
  }

  function RegistryKey(ns: Bytes): Bytes {
    NAMESPACE_PREFIX + ns
  }

  predicate PrefixFree(names: set<Bytes>) {
    forall m, n | m in names && n in names && m <= n :: m == n
  }

  /** A row key with prefix 0x01 ++ m, for m in the prefix-free set, belongs to m. */
  lemma NamespaceOfKey(names: set<Bytes>, m: Bytes, n: Bytes, key: Bytes)
    requires PrefixFree(names) && m in names && n in names
    requires WithPrefix(m, []) <= WithPrefix(n, key)
    ensures m == n
  {
    var k := n + key;
    assert WithPrefix(n, key)[1..] == k;
    assert WithPrefix(m, [])[1..] == m;
    assert forall i | 0 <= i < |m| :: m[i] == WithPrefix(m, [])[i + 1] == WithPrefix(n, key)[i + 1] == k[i];
    assert m <= k && n <= k;
    PrefixesNest(m, n, k);
    PrefixesNest(n, m, k);
  }

  /** Keys are injective on (namespace, line). */
  lemma RowKeyInjective(names: set<Bytes>, m: Bytes, a: Line, n: Bytes, b: Line)
    requires PrefixFree(names) && m in names && n in names
    requires WellFormed(a) && WellFormed(b)
    ensures RowKey(m, a) == RowKey(n, b) <==> m == n && a == b
  {
    if RowKey(m, a) == RowKey(n, b) {
      assert WithPrefix(m, []) <= RowKey(m, a);
      NamespaceOfKey(names, m, n, Join(b));
      assert RowKey(m, a)[1 + |m|..] == Join(a) && RowKey(n, b)[1 + |m|..] == Join(b);
      JoinInjective(a, b);
    }
  }

  /** Some well-formed lines of two namespaces share a key exactly when one name is a prefix of
      the other: without a separator after the name, prefix-freeness is what isolation needs. */
  lemma NamespacesCollide(m: Bytes, n: Bytes)
    ensures m <= n || n <= m <==>
            exists a: Line, b: Line :: WellFormed(a) && WellFormed(b) && RowKey(m, a) == RowKey(n, b)
  {
    if m <= n {
      CollidingLine(m, n);
    } else if n <= m {
      CollidingLine(n, m);
    } else if exists a: Line, b: Line :: WellFormed(a) && WellFormed(b) && RowKey(m, a) == RowKey(n, b) {
      var a: Line, b: Line :| WellFormed(a) && WellFormed(b) && RowKey(m, a) == RowKey(n, b);
      var names := {m, n};
      assert WithPrefix(m, []) <= RowKey(m, a);
      NamespaceOfKey(names, m, n, Join(b));
    }
  }

  lemma CollidingLine(m: Bytes, n: Bytes)
    requires m <= n
    ensures exists a: Line, b: Line :: WellFormed(a) && WellFormed(b) && RowKey(m, a) == RowKey(n, b)
    ensures exists a: Line, b: Line :: WellFormed(a) && WellFormed(b) && RowKey(n, a) == RowKey(m, b)
  {
    var b: Line := [[]];
    var a := Split(n[|m|..]);
    SplitWellFormed(n[|m|..]);
    JoinSplit(n[|m|..]);
    assert m + n[|m|..] == n;
    assert RowKey(m, a) == POLICY_PREFIX + n == RowKey(n, b);
  }
}
