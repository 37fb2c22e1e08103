/** Filtered removal is string surgery on keys: a byte-prefix scan for field 0, a contains-and-split
    scan for later fields. What it removes, in terms of rules (server/adapter/adapter.go:137-220). */
module Filtering {
  import opened ByteStrings
  import opened Keys
  import opened Badger
  import opened Adapter
  import opened Refinement

  predicate ColonFree(line: Line) {
    line != [] && forall i | 0 <= i < |line| :: COLON !in line[i]
  }

  // ---- prefixes of joined lines ----

  /** A joined line is its first field, then nothing or a separator and the rest. */
  lemma JoinShape(line: Line)
    requires line != []
    ensures line[0] <= Join(line)
    ensures |line| == 1 ==> Join(line) == line[0]
    ensures |line| > 1 ==> Join(line) == line[0] + SEP + Join(line[1..])
  {}

  /** What reaches past the first field holds a colon. */
  lemma PastFirstField(f: Bytes, line: Line)
    requires line != [] && f <= Join(line) && |line[0]| < |f|
    ensures COLON in f
  {
    JoinShape(line);
    assert f[|line[0]|] == Join(line)[|line[0]|];
  }

  lemma InsideFirstField(line: Line)
    requires line != []
    ensures |line[0]| <= |Join(line)| && forall i | 0 <= i < |line[0]| :: Join(line)[i] in line[0]
  {}

  lemma FirstFieldPrefix(f: Bytes, line: Line)
    requires ColonFree(line) && COLON !in f
    ensures f <= Join(line) <==> f <= line[0]
  {
    JoinShape(line);
    if f <= Join(line) {
      if |line[0]| < |f| { PastFirstField(f, line); }
      PrefixesNest(f, line[0], Join(line));
    }
  }

  lemma FirstFieldWhole(f: Bytes, rest: Bytes, line: Line)
    requires ColonFree(line) && COLON !in f
    ensures f + SEP + rest <= Join(line) <==> |line| > 1 && f == line[0] && rest <= Join(line[1..])
  {
    JoinShape(line);
    var s := f + SEP + rest;
    if s <= Join(line) {
      assert f <= s && s[|f|] == COLON && Join(line)[|f|] == COLON;
      FirstFieldPrefix(f, line);
      InsideFirstField(line);
      assert rest == s[|f| + 2..] && (|line| > 1 ==> Join(line[1..]) == Join(line)[|f| + 2..]);
    }
    if |line| > 1 && f == line[0] { SharedPrefix(f + SEP, rest, Join(line[1..])); }
  }

  /** Equal on all filter fields but the last, whose counterpart starts with it. */
  predicate FieldPrefix(filter: Line, line: Line) {
    var n := |filter|;
    0 < n <= |line| && filter[..n - 1] == line[..n - 1] && filter[n - 1] <= line[n - 1]
  }

  /** A byte prefix of joined colon-free lines is a field prefix. */
  lemma {:induction false} JoinPrefix(filter: Line, line: Line)
    requires ColonFree(filter) && ColonFree(line)
    ensures Join(filter) <= Join(line) <==> FieldPrefix(filter, line)
  {
    if |filter| == 1 {
      FirstFieldPrefix(filter[0], line);
    } else {
      var f, l := filter[1..], line[1..];
      JoinShape(filter);
      FirstFieldWhole(filter[0], Join(f), line);
      if |line| > 1 {
        JoinPrefix(f, l);
        FieldPrefixTail(filter, line);
      }
    }
  }

  lemma FieldPrefixTail(filter: Line, line: Line)
    requires |filter| > 1 && |line| > 1
    ensures FieldPrefix(filter, line) <==> filter[0] == line[0] && FieldPrefix(filter[1..], line[1..])
  {
    var n := |filter|;
    if n <= |line| {
      var a, b := filter[..n - 1], line[..n - 1];
      assert filter[1..][..n - 2] == a[1..] && line[1..][..n - 2] == b[1..];
      assert a == [filter[0]] + a[1..] && b == [line[0]] + b[1..];
    }
  }

  // ---- field 0 ----

  lemma SharedPrefix(p: Bytes, a: Bytes, b: Bytes)
    ensures p + a <= p + b <==> a <= b
  {
    if p + a <= p + b {
      assert a == (p + a)[|p|..] && b == (p + b)[|p|..];
    }
    if a <= b { assert p + b == (p + a) + b[|a|..]; }
  }

  lemma FieldZeroKey(ns: Bytes, line: Line, ptype: Bytes, values: seq<Bytes>)
    requires ColonFree(line) && ColonFree([ptype] + values)
    ensures FilterMatch(RowKey(ns, line), ns, ptype, 0, values) <==> FieldPrefix([ptype] + values, line)
  {
    SharedPrefix(POLICY_PREFIX + ns, Join([ptype] + values), Join(line));
    JoinPrefix([ptype] + values, line);
  }

  function Keep(rules: set<Line>, gone: Line -> bool): set<Line> {
    set l | l in rules && !gone(l)
  }

  ghost predicate AllColonFree(a: Policies, names: set<Bytes>) {
    forall ns, l | ns in names && l in Rules(a, ns) :: ColonFree(l)
  }

  /** Erasing by a key test that agrees with a rule test refines dropping those rules. */
  lemma FilterRefines(t: Table, u: Table, a: Policies, names: set<Bytes>, ns: Bytes, gone: Line -> bool)
    requires PrefixFree(names) && ns in names && Refines(t, a, names)
    requires forall k | k in u :: k in t && u[k] == t[k]
    requires forall m, l | m in names && l in Rules(a, m) :: RowKey(m, l) in u <==> !(m == ns && gone(l))
    ensures Refines(u, a[ns := Keep(Rules(a, ns), gone)], names)
  {
    var b := a[ns := Keep(Rules(a, ns), gone)];
    forall m, l | m in names && l in Rules(b, m) ensures Stores(u, RowKey(m, l), m, l) {
      assert l in Rules(a, m) && Stores(t, RowKey(m, l), m, l);
    }
    forall k | k in u && POLICY_PREFIX <= k
      ensures exists m, l :: m in names && l in Rules(b, m) && Stores(u, k, m, l)
    {
      var m, l :| m in names && l in Rules(a, m) && Stores(t, k, m, l);
      assert l in Rules(b, m) && Stores(u, k, m, l);
    }
  }

  /** The scan stays behind its own name. */
  lemma FilterLocal(names: set<Bytes>, ns: Bytes, m: Bytes, line: Line, ptype: Bytes, index: int, values: seq<Bytes>)
    requires PrefixFree(names) && ns in names && m in names
    requires FilterMatch(RowKey(m, line), ns, ptype, index, values)
    ensures m == ns
  {
    var p := WithPrefix(ns, if index == 0 then Join([ptype] + values) else ptype);
    assert WithPrefix(ns, []) <= p <= RowKey(m, line);
    NamespaceOfKey(names, ns, m, Join(line));
  }

  /** Whatever the index, the values and the rules: the rules whose own key passes the scan go,
      and no others of any namespace. */
  lemma KeyRemoval(t: Table, a: Policies, names: set<Bytes>, ns: Bytes, ptype: Bytes, index: int, values: seq<Bytes>)
    requires PrefixFree(names) && ns in names && Refines(t, a, names)
    ensures Refines(EraseFiltered(t, ns, ptype, index, values),
                    a[ns := Keep(Rules(a, ns), l => FilterMatch(RowKey(ns, l), ns, ptype, index, values))], names)
  {
    var u := EraseFiltered(t, ns, ptype, index, values);
    var gone := (l: Line) => FilterMatch(RowKey(ns, l), ns, ptype, index, values);
    forall m, l | m in names && l in Rules(a, m) ensures RowKey(m, l) in u <==> !(m == ns && gone(l)) {
      assert Stores(t, RowKey(m, l), m, l);
      if FilterMatch(RowKey(m, l), ns, ptype, index, values) { FilterLocal(names, ns, m, l, ptype, index, values); }
    }
    FilterRefines(t, u, a, names, ns, gone);
  }

  /** Two tests keep the same rules exactly when they agree on every rule. */
  lemma KeepSame(rules: set<Line>, p: Line -> bool, q: Line -> bool)
    ensures Keep(rules, p) == Keep(rules, q) <==> forall l | l in rules :: p(l) <==> q(l)
  {
    if Keep(rules, p) == Keep(rules, q) {
      forall l | l in rules ensures p(l) <==> q(l) {
        assert l in Keep(rules, p) <==> l in Keep(rules, q);
      }
    }
  }

  /** Main result at field 0: exactly the namespace's rules that agree with the filter on the
      policy type and on all values but the last, and whose next field starts with the last. */
  lemma FieldZeroRemoval(t: Table, a: Policies, names: set<Bytes>, ns: Bytes, ptype: Bytes, values: seq<Bytes>)
    requires PrefixFree(names) && ns in names && Refines(t, a, names) && AllColonFree(a, names)
    requires ColonFree([ptype] + values)
    ensures Refines(EraseFiltered(t, ns, ptype, 0, values),
                    a[ns := Keep(Rules(a, ns), l => FieldPrefix([ptype] + values, l))], names)
  {
    KeyRemoval(t, a, names, ns, ptype, 0, values);
    forall l | l in Rules(a, ns) ensures FilterMatch(RowKey(ns, l), ns, ptype, 0, values) <==> FieldPrefix([ptype] + values, l) {
      FieldZeroKey(ns, l, ptype, values);
    }
    KeepSame(Rules(a, ns), l => FilterMatch(RowKey(ns, l), ns, ptype, 0, values), l => FieldPrefix([ptype] + values, l));
  }

  /** The filter the documentation describes: equal on every given field. */
  predicate FieldEqual(filter: Line, line: Line) {
    filter <= line
  }

  /** The scan is the documented filter exactly when no rule agreeing on the earlier fields has
      a field that properly extends the last value. */
  lemma FieldZeroIsDocumented(rules: set<Line>, filter: Line)
    requires filter != []
    ensures Keep(rules, l => FieldPrefix(filter, l)) == Keep(rules, l => FieldEqual(filter, l)) <==>
            forall l | l in rules && FieldPrefix(filter, l) :: l[|filter| - 1] == filter[|filter| - 1]
  {
    var n := |filter| - 1;
    forall l: Line ensures FieldEqual(filter, l) <==> FieldPrefix(filter, l) && l[n] == filter[n] {
      FieldEqualSplit(filter, l);
    }
    KeepSame(rules, l => FieldPrefix(filter, l), l => FieldEqual(filter, l));
  }

  lemma FieldEqualSplit(filter: Line, line: Line)
    requires filter != []
    ensures FieldEqual(filter, line) <==> FieldPrefix(filter, line) && line[|filter| - 1] == filter[|filter| - 1]
  {}

  /** The filter `p, a` removes the row of the rule `p, ab`, which differs in the given field. */
  lemma FieldZeroOverreach(ns: Bytes)
    ensures var line: Line := [[112], [97, 98]];
            && RowKey(ns, line) !in EraseFiltered(map[RowKey(ns, line) := Rule(line)], ns, [112], 0, [[97]])
            && !FieldEqual([[112], [97]], line)
  {
    FieldZeroKey(ns, [[112], [97, 98]], [112], [[97]]);
  }

  // ---- fields past 0 ----

  lemma DropAllButLast(p: Bytes, s: Bytes)
    requires p != []
    ensures (p + s)[|p| - 1..] == [p[|p| - 1]] + s
  {}

  /** Splitting the key one byte early keeps every piece but the first. */
  lemma SplitShifted(ns: Bytes, line: Line)
    requires ColonFree(line) && line[0] != []
    ensures |Split(RowKey(ns, line)[|ns|..])| == |line|
    ensures Split(RowKey(ns, line)[|ns|..])[1..] == line[1..]
  {
    var p := POLICY_PREFIX + ns;
    var c := [p[|ns|]];
    var shifted := [c + line[0]] + line[1..];
    DropAllButLast(p, Join(line));
    JoinShifted(c, line);
    ShiftedWellFormed(c, line);
    SplitJoin(shifted);
  }

  lemma JoinShifted(c: Bytes, line: Line)
    requires line != []
    ensures Join([c + line[0]] + line[1..]) == c + Join(line)
  {}

  lemma ShiftedWellFormed(c: Bytes, line: Line)
    requires |c| == 1 && ColonFree(line) && line[0] != []
    ensures WellFormed([c + line[0]] + line[1..])
  {}

  lemma ContainsExtend(a: Bytes, s: Bytes, t: Bytes)
    requires Contains(s, t)
    ensures Contains(a + s, t)
  {
    var i :| 0 <= i <= |s| && OccursAt(s, t, i);
    assert (a + s)[|a| + i..|a| + i + |t|] == s[i..i + |t|];
    assert OccursAt(a + s, t, |a| + i);
  }

  lemma {:induction false} JoinPrefixFields(part: Line, line: Line)
    requires part != [] && part <= line
    ensures Join(part) <= Join(line)
  {
    JoinShape(part);
    JoinShape(line);
    if |part| > 1 {
      JoinPrefixFields(part[1..], line[1..]);
      SharedPrefix(line[0] + SEP, Join(part[1..]), Join(line[1..]));
    }
  }

  /** Consecutive fields of a line occur joined in its join. */
  lemma {:induction false} JoinContains(line: Line, i: nat, values: seq<Bytes>)
    requires values != [] && i + |values| <= |line| && line[i..i + |values|] == values
    ensures Contains(Join(line), Join(values))
  {
    if i == 0 {
      JoinPrefixFields(values, line);
      assert OccursAt(Join(line), Join(values), 0);
    } else {
      JoinShape(line);
      assert line[1..][i - 1..i - 1 + |values|] == values;
      JoinContains(line[1..], i - 1, values);
      ContainsExtend(line[0] + SEP, Join(line[1..]), Join(values));
    }
  }

  /** The rule test of the scan at field `index`: the type starts with the given one, the field
      equals the first value, and the joined values occur somewhere in the key. */
  predicate FieldRemoved(ns: Bytes, line: Line, ptype: Bytes, index: nat, values: seq<Bytes>)
    requires values != []
  {
    && line != [] && ptype <= line[0]
    && index + 1 < |line| && line[index + 1] == values[0]
    && Contains(RowKey(ns, line), Join(values))
  }

  lemma FieldKey(ns: Bytes, line: Line, ptype: Bytes, index: nat, values: seq<Bytes>)
    requires ColonFree(line) && COLON !in ptype && ptype != [] && index > 0 && values != []
    ensures FilterMatch(RowKey(ns, line), ns, ptype, index, values) <==> FieldRemoved(ns, line, ptype, index, values)
  {
    SharedPrefix(POLICY_PREFIX + ns, ptype, Join(line));
    FirstFieldPrefix(ptype, line);
    if line[0] != [] {
      SplitShifted(ns, line);
      var pieces := Split(RowKey(ns, line)[|ns|..]);
      assert index + 1 < |line| ==> pieces[index + 1] == pieces[1..][index] == line[1..][index];
    }
  }

  /** Main result past field 0. */
  lemma FieldRemoval(t: Table, a: Policies, names: set<Bytes>, ns: Bytes, ptype: Bytes, index: nat, values: seq<Bytes>)
    requires PrefixFree(names) && ns in names && Refines(t, a, names) && AllColonFree(a, names)
    requires COLON !in ptype && ptype != [] && index > 0 && values != []
    ensures Refines(EraseFiltered(t, ns, ptype, index, values),
                    a[ns := Keep(Rules(a, ns), l => FieldRemoved(ns, l, ptype, index, values))], names)
  {
    KeyRemoval(t, a, names, ns, ptype, index, values);
    forall l | l in Rules(a, ns)
      ensures FilterMatch(RowKey(ns, l), ns, ptype, index, values) <==> FieldRemoved(ns, l, ptype, index, values)
    {
      FieldKey(ns, l, ptype, index, values);
    }
    KeepSame(Rules(a, ns), l => FilterMatch(RowKey(ns, l), ns, ptype, index, values),
             l => FieldRemoved(ns, l, ptype, index, values));
  }

  /** One value: the occurrence test adds nothing. Several values: every field-wise match goes. */
  lemma FieldRemovedMeaning(ns: Bytes, line: Line, ptype: Bytes, index: nat, values: seq<Bytes>)
    requires values != [] && line != [] && index > 0
    ensures |values| == 1 ==>
              (FieldRemoved(ns, line, ptype, index, values) <==>
               ptype <= line[0] && index + 1 < |line| && line[index + 1] == values[0])
    ensures ptype <= line[0] && index + 1 + |values| <= |line| && line[index + 1..index + 1 + |values|] == values ==>
              FieldRemoved(ns, line, ptype, index, values)
  {
    var i := index + 1;
    if i < |line| && line[i] == values[0] && |values| == 1 {
      assert line[i..i + 1] == values;
      JoinContains(line, i, values);
      ContainsExtend(POLICY_PREFIX + ns, Join(line), Join(values));
    }
    if i + |values| <= |line| && line[i..i + |values|] == values {
      assert line[i] == values[0];
      JoinContains(line, i, values);
      ContainsExtend(POLICY_PREFIX + ns, Join(line), Join(values));
    }
  }
}
