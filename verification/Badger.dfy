/** The ordered key/value store under the policy adapter: a table read in key order, iterators
    that seek and step, and transactions that are committed whole or dropped
    (server/adapter/badger.go). */
module Badger {
  import opened ByteStrings
  import opened Keys

  /** Namespace rows hold nothing; a policy row holds its line (JSON of a string list). */
  datatype Value = Blank | Rule(line: Line)

  type Table = map<Bytes, Value>

  ghost predicate Ascending(keys: seq<Bytes>) {
    forall i, j | 0 <= i < j < |keys| :: Less(keys[i], keys[j])
  }

  // ---- key order ----

  predicate Least(k: Bytes, keys: set<Bytes>) {
    k in keys && forall x | x in keys :: x == k || Less(k, x)
  }

  lemma {:induction false} LeastExists(keys: set<Bytes>)
    requires keys != {}
    ensures exists k :: Least(k, keys)
  {
    var x :| x in keys;
    var rest := keys - {x};
    assert keys == rest + {x};
    if rest == {} {
      assert Least(x, keys);
    } else {
      LeastExists(rest);
      var m :| Least(m, rest);
      LessTotal(x, m);
      if Less(x, m) {
        forall y | y in rest ensures y == x || Less(x, y) {
          if y != m { LessTransitive(x, m, y); }
        }
        assert Least(x, keys);
      } else {
        assert Least(m, keys);
      }
    }
  }

  lemma LeastUnique(k: Bytes, m: Bytes, keys: set<Bytes>)
    requires Least(k, keys) && Least(m, keys)
    ensures k == m
  {
    if k != m { LessAsymmetric(k, m); }
  }

  /** The keys in ascending byte order, as an iterator visits them. */
  function Ordered(keys: set<Bytes>): seq<Bytes>
    decreases |keys|
  {
    if keys == {} then []
    else
      LeastExists(keys);
      assert forall k, m | Least(k, keys) && Least(m, keys) :: k == m by {
        forall k, m | Least(k, keys) && Least(m, keys) ensures k == m { LeastUnique(k, m, keys); }
      }
      var k :| Least(k, keys);
      [k] + Ordered(keys - {k})
  }

  lemma {:induction false} OrderedHas(keys: set<Bytes>)
    ensures |Ordered(keys)| == |keys|
    ensures forall k :: k in Ordered(keys) <==> k in keys
    decreases |keys|
  {
    if keys != {} { OrderedHas(keys - {Ordered(keys)[0]}); }
  }

  lemma {:induction false} OrderedAscending(keys: set<Bytes>)
    ensures Ascending(Ordered(keys))
    decreases |keys|
  {
    if keys != {} {
      var s := Ordered(keys);
      var k := s[0];
      OrderedHas(keys - {k});
      OrderedAscending(keys - {k});
      assert s[1..] == Ordered(keys - {k});
      forall j | 0 < j < |s| ensures Less(s[0], s[j]) {
        assert s[j] == s[1..][j - 1];
        assert s[j] in keys - {k};
      }
      forall i, j | 0 < i < j < |s| ensures Less(s[i], s[j]) {
        assert s[i] == s[1..][i - 1] && s[j] == s[1..][j - 1];
      }
    }
  }

  /** Where a forward seek lands: the number of leading keys below `key`. */
  function LowerBound(keys: seq<Bytes>, key: Bytes): (i: nat)
    ensures i <= |keys|
    ensures forall j | 0 <= j < i :: Less(keys[j], key)
    ensures i < |keys| ==> !Less(keys[i], key)
  {
    if keys == [] || !Less(keys[0], key) then 0 else 1 + LowerBound(keys[1..], key)
  }

  /** From the landing point on, no key is below the sought one. */
  lemma LowerBoundRest(keys: seq<Bytes>, key: Bytes, j: nat)
    requires Ascending(keys) && LowerBound(keys, key) <= j < |keys|
    ensures !Less(keys[j], key)
  {
    var i := LowerBound(keys, key);
    if i < j && Less(keys[j], key) { LessTransitive(keys[i], keys[j], key); }
  }

  // ---- prefix scans ----

  /** The keys extending `p`, in the order given. */
  function Scan(keys: seq<Bytes>, p: Bytes): (s: seq<Bytes>)
    ensures |s| <= |keys|
  {
    if keys == [] then []
    else (if p <= keys[0] then [keys[0]] else []) + Scan(keys[1..], p)
  }

  /** A scan loses nothing, adds nothing, repeats nothing and keeps the order. */
  lemma {:induction false} ScanComplete(keys: seq<Bytes>, p: Bytes)
    requires Ascending(keys)
    ensures forall k :: k in Scan(keys, p) <==> k in keys && p <= k
    ensures Ascending(Scan(keys, p))
  {
    if keys != [] {
      var rest := keys[1..];
      assert forall i | 0 <= i < |rest| :: rest[i] == keys[i + 1];
      ScanComplete(rest, p);
      assert forall k :: k in keys <==> k == keys[0] || k in rest;
      var s := Scan(keys, p);
      if p <= keys[0] {
        assert s == [keys[0]] + Scan(rest, p);
        forall j | 0 < j < |s| ensures Less(s[0], s[j]) {
          assert s[j] in rest;
        }
      } else {
        assert s == Scan(rest, p);
      }
    }
  }

  lemma {:induction false} ScanNone(keys: seq<Bytes>, p: Bytes)
    requires forall i | 0 <= i < |keys| :: !(p <= keys[i])
    ensures Scan(keys, p) == []
  {
    if keys != [] { ScanNone(keys[1..], p); }
  }

  lemma {:induction false} ScanAll(keys: seq<Bytes>, p: Bytes)
    requires forall i | 0 <= i < |keys| :: p <= keys[i]
    ensures Scan(keys, p) == keys
  {
    if keys != [] { ScanAll(keys[1..], p); }
  }

  lemma {:induction false} ScanAppend(a: seq<Bytes>, b: seq<Bytes>, p: Bytes)
    ensures Scan(a + b, p) == Scan(a, p) + Scan(b, p)
  {
    if a == [] {
      assert a + b == b;
    } else {
      assert (a + b)[1..] == a[1..] + b;
      ScanAppend(a[1..], b, p);
    }
  }

  lemma ScanParts(keys: seq<Bytes>, p: Bytes, lo: nat, hi: nat)
    requires lo <= hi <= |keys|
    requires forall j | 0 <= j < lo :: !(p <= keys[j])
    requires forall j | lo <= j < hi :: p <= keys[j]
    requires forall j | hi <= j < |keys| :: !(p <= keys[j])
    ensures Scan(keys, p) == keys[lo..hi]
  {
    var a, b, c := keys[..lo], keys[lo..hi], keys[hi..];
    ScanNone(a, p);
    ScanAll(b, p);
    ScanNone(c, p);
    ScanAppend(a, b, p);
    ScanAppend(a + b, c, p);
    ThreeParts(keys, lo, hi);
  }

  lemma ThreeParts(keys: seq<Bytes>, lo: nat, hi: nat)
    requires lo <= hi <= |keys|
    ensures keys == keys[..lo] + keys[lo..hi] + keys[hi..]
  {}

  /** The keys stepped over from position `i` while the prefix holds. */
  function Walk(keys: seq<Bytes>, p: Bytes, i: nat): seq<Bytes>
    decreases |keys| - i
  {
    if i < |keys| && p <= keys[i] then [keys[i]] + Walk(keys, p, i + 1) else []
  }

  lemma WalkNext(before: seq<Bytes>, keys: seq<Bytes>, p: Bytes, i: nat)
    requires i < |keys| && p <= keys[i]
    ensures before + Walk(keys, p, i) == (before + [keys[i]]) + Walk(keys, p, i + 1)
  {}

  lemma {:induction false} WalkIsBlock(keys: seq<Bytes>, p: Bytes, i: nat) returns (hi: nat)
    requires i <= |keys|
    ensures i <= hi <= |keys| && Walk(keys, p, i) == keys[i..hi]
    ensures forall j | i <= j < hi :: p <= keys[j]
    ensures hi < |keys| ==> !(p <= keys[hi])
    decreases |keys| - i
  {
    hi := i;
    if i < |keys| && p <= keys[i] {
      hi := WalkIsBlock(keys, p, i + 1);
      assert keys[i..hi] == [keys[i]] + keys[i + 1..hi];
    }
  }

  /** Seeking to `p` and stepping while the prefix holds walks exactly the scan. */
  lemma WalkIsScan(keys: seq<Bytes>, p: Bytes)
    requires Ascending(keys)
    ensures Walk(keys, p, LowerBound(keys, p)) == Scan(keys, p)
  {
    var lo := LowerBound(keys, p);
    var hi := WalkIsBlock(keys, p, lo);
    forall j | 0 <= j < |keys| && !(lo <= j < hi) ensures !(p <= keys[j]) {
      NotInBlock(keys, p, hi, j);
    }
    ScanParts(keys, p, lo, hi);
  }

  lemma NotInBlock(keys: seq<Bytes>, p: Bytes, hi: nat, j: nat)
    requires Ascending(keys) && LowerBound(keys, p) <= hi <= |keys|
    requires hi < |keys| ==> !(p <= keys[hi])
    requires j < |keys| && (j < LowerBound(keys, p) || hi <= j)
    ensures !(p <= keys[j])
  {
    if j < LowerBound(keys, p) {
      if p <= keys[j] { PrefixNotAbove(p, keys[j]); }
    } else if hi < j {
      LowerBoundRest(keys, p, hi);
      PrefixBlockEnds(p, keys[hi], keys[j]);
    }
  }

  // ---- iterators ----

  /** Where a seek lands: at or above the key, or at or below it when reversed. */
  function SeekPosition(keys: seq<Bytes>, key: Bytes, reverse: bool): int {
    var i := LowerBound(keys, key);
    if !reverse || (i < |keys| && keys[i] == key) then i else i - 1
  }

  class Iterator {
    const keys: seq<Bytes>
    const reverse: bool
    var pos: int

    constructor (table: Table, reverse: bool)
      ensures keys == Ordered(table.Keys) && this.reverse == reverse && pos == -1
    {
      keys := Ordered(table.Keys);
      this.reverse := reverse;
      pos := -1;
    }

    method Seek(key: Bytes)
      modifies this
      ensures pos == SeekPosition(keys, key, reverse)
    {
      pos := SeekPosition(keys, key, reverse);
    }

    predicate Valid()
      reads this
    {
      0 <= pos < |keys|
    }

    predicate ValidForPrefix(p: Bytes)
      reads this
    {
      Valid() && p <= keys[pos]
    }

    method Next()
      modifies this
      ensures pos == if reverse then old(pos) - 1 else old(pos) + 1
    {
      pos := if reverse then pos - 1 else pos + 1;
    }
  }

  lemma TableScan(table: Table, p: Bytes)
    ensures forall k :: k in Scan(Ordered(table.Keys), p) <==> k in table && p <= k
    ensures Ascending(Scan(Ordered(table.Keys), p))
  {
    OrderedAscending(table.Keys);
    OrderedHas(table.Keys);
    ScanComplete(Ordered(table.Keys), p);
  }

  /** The seek-and-step loop shared by Bucket.ForEach, BadgerStore.ForEach and the adapter. */
  method PrefixKeys(table: Table, p: Bytes) returns (out: seq<Bytes>)
    ensures out == Scan(Ordered(table.Keys), p)
  {
    var it := new Iterator(table, false);
    it.Seek(p);
    out := [];
    OrderedAscending(table.Keys);
    WalkIsScan(it.keys, p);
    ghost var all := Scan(it.keys, p);
    while it.ValidForPrefix(p)
      invariant 0 <= it.pos <= |it.keys|
      invariant out + Walk(it.keys, p, it.pos) == all
      decreases |it.keys| - it.pos
    {
      WalkNext(out, it.keys, p, it.pos);
      out := out + [it.keys[it.pos]];
      it.Next();
    }
  }

  // ---- transactions ----

  /** A read-write transaction: a private copy of the table that counts its writes. Badger
      refuses writes beyond a limit per transaction. */
  class Txn {
    var table: Table
    var writes: nat
    var discarded: bool
    const limit: nat

    constructor (table: Table, limit: nat)
      ensures this.table == table && writes == 0 && !discarded && this.limit == limit
    {
      this.table := table;
      this.limit := limit;
      writes, discarded := 0, false;
    }

    method Set(key: Bytes, value: Value) returns (ok: bool)
      modifies this`table, this`writes
      ensures ok == (old(writes) < limit)
      ensures ok ==> table == old(table)[key := value] && writes == old(writes) + 1
      ensures !ok ==> table == old(table) && writes == old(writes)
    {
      ok := writes < limit;
      if ok { table, writes := table[key := value], writes + 1; }
    }

    method Delete(key: Bytes) returns (ok: bool)
      modifies this`table, this`writes
      ensures ok == (old(writes) < limit)
      ensures ok ==> table == old(table) - {key} && writes == old(writes) + 1
      ensures !ok ==> table == old(table) && writes == old(writes)
    {
      ok := writes < limit;
      if ok { table, writes := table - {key}, writes + 1; }
    }

    method Discard()
      modifies this`discarded
      ensures discarded
    {
      discarded := true;
    }
  }

  /** BadgerStore. Update and View open a transaction, run their body and close it with
      `Close`, which discards the writes of a body that failed. */
  class BadgerStore {
    var table: Table
    const limit: nat

    constructor (limit: nat)
      ensures table == map[] && this.limit == limit
    {
      table := map[];
      this.limit := limit;
    }

    method Begin() returns (tx: Txn)
      ensures fresh(tx) && tx.table == table && tx.writes == 0 && !tx.discarded && tx.limit == limit
    {
      tx := new Txn(table, limit);
    }

    /** The error of a failed body is dropped; what is reported is Badger's answer to the commit:
        none for a transaction without writes, an error for a discarded one that has some. */
    method Close(tx: Txn, bodyOk: bool) returns (err: bool)
      requires !tx.discarded && (tx.writes == 0 ==> tx.table == table)
      modifies this`table, tx`discarded
      ensures table == if bodyOk then tx.table else old(table)
      ensures err <==> !bodyOk && tx.writes > 0
    {
      if !bodyOk { tx.Discard(); }
      if tx.writes == 0 { return false; }
      if tx.discarded { return true; }
      table := tx.table;
      err := false;
    }

    /** Snapshot's backup of the whole table. */
    method Backup() returns (rows: Table)
      ensures rows == table
    {
      rows := table;
    }

    /** Restore: the rows of a backup are loaded with their versions. A key in `newer` has a newer
        version in the store, a value or a deletion, and is read as before. */
    method Load(rows: Table, newer: set<Bytes>)
      modifies this`table
      ensures table == LoadedOver(old(table), rows, newer)
    {
      table := table + (rows - newer);
    }

    /** ForEach: the registered namespaces. */
    method Namespaces() returns (names: seq<Bytes>)
      ensures names == RegisteredNames(table)
    {
      var keys := PrefixKeys(table, NAMESPACE_PREFIX);
      names := Strip(keys, 1);
    }
  }

  /** What is read after a backup is loaded over a table in which the keys of `newer` are newer. */
  function LoadedOver(t: Table, rows: Table, newer: set<Bytes>): Table { t + (rows - newer) }

  /** The keys without their first `n` bytes. */
  function Strip(keys: seq<Bytes>, n: nat): seq<Bytes> {
    seq(|keys|, i requires 0 <= i < |keys| => if n <= |keys[i]| then keys[i][n..] else [])
  }

  function RegisteredNames(table: Table): seq<Bytes> {
    Strip(Scan(Ordered(table.Keys), NAMESPACE_PREFIX), 1)
  }

  /** BadgerStore.ForEach reports the registered names once each, in byte order. */
  lemma RegisteredNamesComplete(table: Table)
    ensures forall n :: n in RegisteredNames(table) <==> RegistryKey(n) in table
    ensures Ascending(RegisteredNames(table))
  {
    var keys := Scan(Ordered(table.Keys), NAMESPACE_PREFIX);
    var names := RegisteredNames(table);
    TableScan(table, NAMESPACE_PREFIX);
    forall i | 0 <= i < |keys| ensures keys[i] == RegistryKey(names[i]) {
      assert keys[i] in keys;
      assert NAMESPACE_PREFIX <= keys[i];
    }
    forall n ensures n in names <==> RegistryKey(n) in table {
      if n in names {
        var i :| 0 <= i < |names| && names[i] == n;
        assert keys[i] in keys;
      }
      if RegistryKey(n) in table {
        assert RegistryKey(n) in keys;
        var i :| 0 <= i < |keys| && keys[i] == RegistryKey(n);
        assert names[i] == n;
      }
    }
    forall i, j | 0 <= i < j < |names| ensures Less(names[i], names[j]) {
      LessAfterPrefix(NAMESPACE_PREFIX, names[i], names[j]);
    }
  }

  /** Ascending key lists with the same members are equal. */
  lemma {:induction false} AscendingDetermined(a: seq<Bytes>, b: seq<Bytes>)
    requires Ascending(a) && Ascending(b) && forall k :: k in a <==> k in b
    ensures a == b
  {
    assert a != [] ==> a[0] in b;
    assert b != [] ==> b[0] in a;
    if a != [] && b != [] {
      SameHead(a, b);
      var x, y := a[1..], b[1..];
      forall k ensures k in x <==> k in y {
        HeadNotInTail(a);
        HeadNotInTail(b);
        assert k in a <==> k == a[0] || k in x;
        assert k in b <==> k == b[0] || k in y;
      }
      AscendingDetermined(x, y);
      assert a == [a[0]] + x && b == [b[0]] + y;
    }
  }

  lemma HeadNotInTail(a: seq<Bytes>)
    requires Ascending(a) && a != []
    ensures a[0] !in a[1..]
  {
    forall j | 0 < j < |a| ensures a[j] != a[0] { LessAsymmetric(a[0], a[j]); }
  }

  lemma SameHead(a: seq<Bytes>, b: seq<Bytes>)
    requires Ascending(a) && Ascending(b) && a != [] && b != [] && a[0] in b && b[0] in a
    ensures a[0] == b[0]
  {
    if a[0] != b[0] {
      var i :| 0 <= i < |b| && b[i] == a[0];
      assert Less(b[0], b[i]);
      LessAsymmetric(b[0], a[0]);
    }
  }
}
