/** The policy adapter: rules of every namespace as rows of one ordered table
    (server/adapter/adapter.go). */
module Adapter {
  import opened ByteStrings
  import opened Keys
  import opened Badger

  // ---- what the batch operations do to the table ----

  function PutLines(t: Table, ns: Bytes, lines: seq<Line>): Table {
    if lines == [] then t
    else
      var last := lines[|lines| - 1];
      PutLines(t, ns, lines[..|lines| - 1])[RowKey(ns, last) := Rule(last)]
  }

  function EraseLines(t: Table, ns: Bytes, lines: seq<Line>): Table {
    if lines == [] then t
    else EraseLines(t, ns, lines[..|lines| - 1]) - {RowKey(ns, lines[|lines| - 1])}
  }

  /** One turn of the update loop: only a stored old line is replaced. */
  function ReplaceLine(t: Table, ns: Bytes, from: Line, to: Line): Table {
    if RowKey(ns, from) in t
    then (t - {RowKey(ns, from)})[RowKey(ns, to) := Rule(to)]
    else t
  }

  function ReplaceLines(t: Table, ns: Bytes, olds: seq<Line>, news: seq<Line>): Table
    requires |olds| == |news|
  {
    if olds == [] then t
    else
      var n := |olds| - 1;
      ReplaceLine(ReplaceLines(t, ns, olds[..n], news[..n]), ns, olds[n], news[n])
  }

  /** convertRule over a batch: the policy type in front of each rule. */
  function Convert(ptype: Bytes, rules: seq<seq<Bytes>>): seq<Line> {
    seq(|rules|, i requires 0 <= i < |rules| => [ptype] + rules[i])
  }

  /** Every policy row holds a line, so that decoding it succeeds. */
  ghost predicate PolicyRows(t: Table) {
    forall k | k in t && POLICY_PREFIX <= k :: t[k].Rule?
  }

  /** The lines under the keys of policy rows. */
  function LinesAt(t: Table, keys: seq<Bytes>): seq<Line> {
    seq(|keys|, i requires 0 <= i < |keys| =>
      if keys[i] in t && t[keys[i]].Rule? then t[keys[i]].line else [])
  }

  /** What LoadPolicy reads from a namespace, in key order. */
  function Loaded(t: Table, ns: Bytes): seq<Line> {
    LinesAt(t, Scan(Ordered(t.Keys), WithPrefix(ns, [])))
  }

  /** Whether filtered removal at field `index` >= 1 deletes a key it has scanned. The name is
      cut off one byte early, so the first piece keeps one byte in front of the policy type. */
  predicate FieldMatch(key: Bytes, ns: Bytes, index: nat, values: seq<Bytes>) {
    && Contains(key, Join(values))
    && HasPiece(key, ns, index)
    && values != []
    && Split(key[|ns|..])[index + 1] == values[0]
  }

  predicate HasPiece(key: Bytes, ns: Bytes, index: nat) {
    |ns| <= |key| && index + 1 < |Split(key[|ns|..])|
  }

  predicate FilterMatch(key: Bytes, ns: Bytes, ptype: Bytes, index: int, values: seq<Bytes>) {
    if index == 0 then WithPrefix(ns, Join([ptype] + values)) <= key
    else index > 0 && WithPrefix(ns, ptype) <= key && FieldMatch(key, ns, index, values)
  }

  function FieldMatches(found: seq<Bytes>, ns: Bytes, index: nat, values: seq<Bytes>): (s: seq<Bytes>)
    ensures |s| <= |found|
  {
    if found == [] then []
    else (if FieldMatch(found[0], ns, index, values) then [found[0]] else []) + FieldMatches(found[1..], ns, index, values)
  }

  lemma FieldMatchesNext(before: seq<Bytes>, found: seq<Bytes>, i: nat, ns: Bytes, index: nat, values: seq<Bytes>)
    requires i < |found|
    ensures before + FieldMatches(found[i..], ns, index, values) ==
            (before + if FieldMatch(found[i], ns, index, values) then [found[i]] else []) +
            FieldMatches(found[i + 1..], ns, index, values)
  {
    var s := found[i..];
    assert s[0] == found[i] && s[1..] == found[i + 1..];
  }

  lemma {:induction false} FieldMatchesHas(found: seq<Bytes>, ns: Bytes, index: nat, values: seq<Bytes>)
    ensures forall k :: k in FieldMatches(found, ns, index, values) <==> k in found && FieldMatch(k, ns, index, values)
  {
    if found != [] {
      FieldMatchesHas(found[1..], ns, index, values);
      assert forall k :: k in found <==> k == found[0] || k in found[1..];
    }
  }

  lemma {:induction false} FieldMatchesAscending(found: seq<Bytes>, ns: Bytes, index: nat, values: seq<Bytes>)
    requires Ascending(found)
    ensures Ascending(FieldMatches(found, ns, index, values))
  {
    if found != [] {
      var rest := found[1..];
      assert Ascending(rest) && forall k | k in rest :: Less(found[0], k);
      FieldMatchesAscending(rest, ns, index, values);
      FieldMatchesHas(rest, ns, index, values);
      var m := FieldMatches(rest, ns, index, values);
      assert forall i | 0 <= i < |m| :: m[i] in m;
    }
  }

  /** A list in strictly ascending order holds each key once. */
  lemma {:induction false} AscendingCount(keys: seq<Bytes>)
    requires Ascending(keys)
    ensures |ToSet(keys)| == |keys|
  {
    if keys != [] {
      var n := |keys| - 1;
      AscendingCount(keys[..n]);
      if keys[n] in keys[..n] {
        var i :| 0 <= i < n && keys[..n][i] == keys[n];
        LessAsymmetric(keys[i], keys[n]);
      }
      assert ToSet(keys) == ToSet(keys[..n]) + {keys[n]};
    }
  }

  /** Deleting the collected keys leaves exactly the rows the filter does not match, and takes as
      many writes as it does match. */
  lemma EraseMatched(t: Table, ns: Bytes, ptype: Bytes, index: int, values: seq<Bytes>, matched: seq<Bytes>)
    requires index == 0 ==> matched == Scan(Ordered(t.Keys), WithPrefix(ns, Join([ptype] + values)))
    requires index > 0 ==> matched == FieldMatches(Scan(Ordered(t.Keys), WithPrefix(ns, ptype)), ns, index, values)
    requires index < 0 ==> matched == []
    ensures t - ToSet(matched) == EraseFiltered(t, ns, ptype, index, values)
    ensures |matched| == |MatchedKeys(t, ns, ptype, index, values)|
  {
    if index == 0 {
      TableScan(t, WithPrefix(ns, Join([ptype] + values)));
    } else if index > 0 {
      TableScan(t, WithPrefix(ns, ptype));
      FieldMatchesHas(Scan(Ordered(t.Keys), WithPrefix(ns, ptype)), ns, index, values);
      FieldMatchesAscending(Scan(Ordered(t.Keys), WithPrefix(ns, ptype)), ns, index, values);
    }
    AscendingCount(matched);
    assert ToSet(matched) == MatchedKeys(t, ns, ptype, index, values);
  }

  /** The table after filtered removal. */
  function EraseFiltered(t: Table, ns: Bytes, ptype: Bytes, index: int, values: seq<Bytes>): Table {
    map k | k in t && !FilterMatch(k, ns, ptype, index, values) :: t[k]
  }

  /** A filter past field 0 with an empty, non-nil value list reads its first value and fails
      at the first scanned row that has the field. */
  ghost predicate FilterPanics(t: Table, ns: Bytes, ptype: Bytes, index: int, values: seq<Bytes>) {
    index > 0 && values == [] && exists k | k in t :: WithPrefix(ns, ptype) <= k && HasPiece(k, ns, index)
  }

  datatype FilterOutcome = NoValues | Panicked | Done(err: bool)

  /** The writes the update loop makes: two for every old line it finds. */
  function ReplaceWrites(t: Table, ns: Bytes, olds: seq<Line>, news: seq<Line>): nat
    requires |olds| == |news|
  {
    if olds == [] then 0
    else
      var n := |olds| - 1;
      ReplaceWrites(t, ns, olds[..n], news[..n]) +
      if RowKey(ns, olds[n]) in ReplaceLines(t, ns, olds[..n], news[..n]) then 2 else 0
  }

  lemma {:induction false} ReplaceWritesGrow(t: Table, ns: Bytes, olds: seq<Line>, news: seq<Line>, i: nat)
    requires |olds| == |news| && i <= |olds|
    ensures ReplaceWrites(t, ns, olds[..i], news[..i]) <= ReplaceWrites(t, ns, olds, news)
  {
    if i == |olds| {
      assert olds[..i] == olds && news[..i] == news;
    } else {
      var n := |olds| - 1;
      assert olds[..n][..i] == olds[..i] && news[..n][..i] == news[..i];
      ReplaceWritesGrow(t, ns, olds[..n], news[..n], i);
    }
  }

  /** The keys a filtered removal deletes. */
  function MatchedKeys(t: Table, ns: Bytes, ptype: Bytes, index: int, values: seq<Bytes>): set<Bytes> {
    set k | k in t && FilterMatch(k, ns, ptype, index, values)
  }

  /** Whether an error is reported for a batch of that many writes: not when even the first is
      refused, for then the transaction holds no writes. */
  predicate Refused(writes: nat, limit: nat) { 0 < limit < writes }

  // ---- the adapter ----

  class Adapter {
    const db: BadgerStore
    const namespace: Bytes

    constructor (db: BadgerStore, namespace: Bytes)
      ensures this.db == db && this.namespace == namespace
    {
      this.db, this.namespace := db, namespace;
    }

    /** NewAdapter's init: CreateBucketIfNotExists looks the bare name up, without the prefix
        under which it is stored. */
    method Init() returns (ok: bool)
      modifies db`table
      ensures ok <==> namespace != []
      ensures db.table == if ok && 0 < db.limit then Register(old(db.table), namespace) else old(db.table)
    {
      if namespace == [] { return false; }
      var tx := db.Begin();
      ok := true;
      if namespace !in tx.table { ok := tx.Set(RegistryKey(namespace), Blank); }
      var err := db.Close(tx, ok);
      ok := !err;
    }

    method LoadPolicy() returns (lines: seq<Line>)
      ensures lines == Loaded(db.table, namespace)
    {
      var keys := PrefixKeys(db.table, WithPrefix(namespace, []));
      lines := LinesAt(db.table, keys);
    }

    method AddPolicies(ptype: Bytes, rules: seq<seq<Bytes>>) returns (err: bool)
      modifies db`table
      ensures err <==> Refused(|rules|, db.limit)
      ensures db.table == if |rules| <= db.limit
              then PutLines(old(db.table), namespace, Convert(ptype, rules)) else old(db.table)
    {
      var tx := db.Begin();
      var i, ok := 0, true;
      ghost var lines := Convert(ptype, rules);
      while i < |rules| && ok
        invariant i <= |rules| && !tx.discarded && fresh(tx) && db.table == old(db.table)
        invariant ok ==> tx.writes == i <= db.limit
        invariant !ok ==> tx.writes == db.limit < |rules|
        invariant ok ==> tx.table == PutLines(old(db.table), namespace, lines[..i])
        invariant tx.writes == 0 ==> tx.table == db.table
        invariant tx.limit == db.limit
      {
        var line := [ptype] + rules[i];
        ok := tx.Set(RowKey(namespace, line), Rule(line));
        assert lines[..i + 1][..i] == lines[..i] && lines[i] == line;
        i := i + 1;
      }
      assert lines[..|rules|] == lines;
      err := db.Close(tx, ok);
    }

    method RemovePolicies(ptype: Bytes, rules: seq<seq<Bytes>>) returns (err: bool)
      modifies db`table
      ensures err <==> Refused(|rules|, db.limit)
      ensures db.table == if |rules| <= db.limit
              then EraseLines(old(db.table), namespace, Convert(ptype, rules)) else old(db.table)
    {
      var tx := db.Begin();
      var i, ok := 0, true;
      ghost var lines := Convert(ptype, rules);
      while i < |rules| && ok
        invariant i <= |rules| && !tx.discarded && fresh(tx) && db.table == old(db.table)
        invariant ok ==> tx.writes == i <= db.limit
        invariant !ok ==> tx.writes == db.limit < |rules|
        invariant ok ==> tx.table == EraseLines(old(db.table), namespace, lines[..i])
        invariant tx.writes == 0 ==> tx.table == db.table
        invariant tx.limit == db.limit
      {
        var line := [ptype] + rules[i];
        ok := tx.Delete(RowKey(namespace, line));
        assert lines[..i + 1][..i] == lines[..i] && lines[i] == line;
        i := i + 1;
      }
      assert lines[..|rules|] == lines;
      err := db.Close(tx, ok);
    }

    /** Lists of different lengths fail inside the body, before any write: nothing is reported. */
    method UpdatePolicies(ptype: Bytes, olds: seq<seq<Bytes>>, news: seq<seq<Bytes>>) returns (err: bool)
      modifies db`table
      ensures |olds| != |news| ==> !err && db.table == old(db.table)
      ensures |olds| == |news| ==>
                var writes := ReplaceWrites(old(db.table), namespace, Convert(ptype, olds), Convert(ptype, news));
                && (err <==> Refused(writes, db.limit))
                && db.table == if writes <= db.limit
                   then ReplaceLines(old(db.table), namespace, Convert(ptype, olds), Convert(ptype, news)) else old(db.table)
    {
      var tx := db.Begin();
      if |olds| != |news| {
        err := db.Close(tx, false);
        return;
      }
      var i, ok := 0, true;
      ghost var t, from, to := db.table, Convert(ptype, olds), Convert(ptype, news);
      while i < |olds| && ok
        invariant i <= |olds| && !tx.discarded && fresh(tx) && db.table == old(db.table)
        invariant ok ==> tx.writes == ReplaceWrites(t, namespace, from[..i], to[..i]) <= db.limit
        invariant !ok ==> tx.writes == db.limit < ReplaceWrites(t, namespace, from[..i], to[..i])
        invariant ok ==> tx.table == ReplaceLines(t, namespace, from[..i], to[..i])
        invariant tx.writes == 0 ==> tx.table == t
        invariant tx.limit == db.limit
      {
        var or := [ptype] + olds[i];
        var line := [ptype] + news[i];
        if RowKey(namespace, or) in tx.table {
          ok := tx.Delete(RowKey(namespace, or));
          if ok { ok := tx.Set(RowKey(namespace, line), Rule(line)); }
        }
        assert from[..i + 1][..i] == from[..i] && to[..i + 1][..i] == to[..i];
        assert from[i] == or && to[i] == line;
        i := i + 1;
      }
      ReplaceWritesGrow(t, namespace, from, to, i);
      assert from[..|olds|] == from && to[..|olds|] == to;
      err := db.Close(tx, ok);
    }

    /** The test inside the collecting loop; reading values[0] of an empty list panics. */
    method MatchKey(key: Bytes, index: nat, values: seq<Bytes>) returns (panicked: bool, hit: bool)
      requires |namespace| <= |key|
      ensures panicked <==> values == [] && HasPiece(key, namespace, index)
      ensures hit <==> FieldMatch(key, namespace, index, values)
    {
      assert OccursAt(key, [], 0);
      if Contains(key, Join(values)) {
        var pieces := Split(key[|namespace|..]);
        if index + 1 < |pieces| {
          return values == [], values != [] && pieces[index + 1] == values[0];
        }
      }
      return false, false;
    }

    /** The collecting loop of filtered removal past field 0. */
    method MatchField(found: seq<Bytes>, index: nat, values: seq<Bytes>) returns (panicked: bool, matched: seq<Bytes>)
      requires forall i | 0 <= i < |found| :: |namespace| <= |found[i]|
      ensures panicked <==> values == [] && exists i | 0 <= i < |found| :: HasPiece(found[i], namespace, index)
      ensures !panicked ==> matched == FieldMatches(found, namespace, index, values)
    {
      var i := 0;
      matched := [];
      while i < |found|
        invariant i <= |found|
        invariant values == [] ==> forall j | 0 <= j < i :: !HasPiece(found[j], namespace, index)
        invariant matched + FieldMatches(found[i..], namespace, index, values) == FieldMatches(found, namespace, index, values)
      {
        var hit;
        panicked, hit := MatchKey(found[i], index, values);
        if panicked { return; }
        FieldMatchesNext(matched, found, i, namespace, index, values);
        matched := matched + if hit then [found[i]] else [];
        i := i + 1;
      }
      panicked := false;
    }

    method RemoveFilteredPolicy(ptype: Bytes, index: int, values: Option<seq<Bytes>>) returns (outcome: FilterOutcome)
      modifies db`table
      ensures outcome.NoValues? <==> values.None?
      ensures outcome.Panicked? <==> values.Some? && FilterPanics(old(db.table), namespace, ptype, index, values.value)
      ensures !outcome.Done? ==> db.table == old(db.table)
      ensures outcome.Done? ==>
                var writes := |MatchedKeys(old(db.table), namespace, ptype, index, values.value)|;
                && (outcome.err <==> Refused(writes, db.limit))
                && db.table == if writes <= db.limit
                   then EraseFiltered(old(db.table), namespace, ptype, index, values.value) else old(db.table)
    {
      if values.None? { return NoValues; }
      var matched := [];
      if index == 0 {
        matched := PrefixKeys(db.table, WithPrefix(namespace, Join([ptype] + values.value)));
      } else if index > -1 {
        var found := PrefixKeys(db.table, WithPrefix(namespace, ptype));
        TableScan(db.table, WithPrefix(namespace, ptype));
        assert forall i | 0 <= i < |found| :: found[i] in found;
        var panicked;
        panicked, matched := MatchField(found, index, values.value);
        assert panicked <==> FilterPanics(db.table, namespace, ptype, index, values.value);
        if panicked { return Panicked; }
      }
      EraseMatched(db.table, namespace, ptype, index, values.value, matched);
      var err := DeleteKeys(matched);
      outcome := Done(err);
    }

    /** The closing Update of filtered removal. */
    method DeleteKeys(keys: seq<Bytes>) returns (err: bool)
      modifies db`table
      ensures err <==> Refused(|keys|, db.limit)
      ensures db.table == if |keys| <= db.limit then old(db.table) - ToSet(keys) else old(db.table)
    {
      var tx := db.Begin();
      var i, ok := 0, true;
      while i < |keys| && ok
        invariant i <= |keys| && !tx.discarded && fresh(tx) && db.table == old(db.table)
        invariant ok ==> tx.writes == i <= db.limit
        invariant !ok ==> tx.writes == db.limit < |keys|
        invariant ok ==> tx.table == old(db.table) - ToSet(keys[..i])
        invariant tx.writes == 0 ==> tx.table == db.table
        invariant tx.limit == db.limit
      {
        ok := tx.Delete(keys[i]);
        assert ToSet(keys[..i + 1]) == ToSet(keys[..i]) + {keys[i]};
        i := i + 1;
      }
      assert keys[..|keys|] == keys;
      err := db.Close(tx, ok);
    }
  }

  function ToSet(keys: seq<Bytes>): set<Bytes> { set k | k in keys }

  function Register(t: Table, ns: Bytes): Table {
    if ns in t then t else t[RegistryKey(ns) := Blank]
  }
}
