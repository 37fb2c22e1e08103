/** The flat table refines a map from namespace to rule set: what every run of add, remove and
    update calls keeps, for prefix-free namespaces and well-formed lines. */
module Refinement {
  import opened ByteStrings
  import opened Keys
  import opened Badger
  import opened Adapter

  datatype Call =
    | Add(ns: Bytes, lines: seq<Line>)
    | Remove(ns: Bytes, lines: seq<Line>)
    | Update(ns: Bytes, olds: seq<Line>, news: seq<Line>)

  /** A call on the table. An update with lists of different lengths fails and changes nothing. */
  function Step(t: Table, c: Call): Table {
    match c
    case Add(ns, lines) => PutLines(t, ns, lines)
    case Remove(ns, lines) => EraseLines(t, ns, lines)
    case Update(ns, olds, news) => if |olds| == |news| then ReplaceLines(t, ns, olds, news) else t
  }

  function RunCalls(t: Table, calls: seq<Call>): Table {
    if calls == [] then t else Step(RunCalls(t, calls[..|calls| - 1]), calls[|calls| - 1])
  }

  // ---- the specification ----

  type Policies = map<Bytes, set<Line>>

  function Rules(a: Policies, ns: Bytes): set<Line> {
    if ns in a then a[ns] else {}
  }

  function ToLineSet(lines: seq<Line>): set<Line> { set l | l in lines }

  function SpecReplace(s: set<Line>, olds: seq<Line>, news: seq<Line>): set<Line>
    requires |olds| == |news|
  {
    if olds == [] then s
    else
      var n := |olds| - 1;
      var s' := SpecReplace(s, olds[..n], news[..n]);
      if olds[n] in s' then s' - {olds[n]} + {news[n]} else s'
  }

  function SpecStep(a: Policies, c: Call): Policies {
    match c
    case Add(ns, lines) => a[ns := Rules(a, ns) + ToLineSet(lines)]
    case Remove(ns, lines) => a[ns := Rules(a, ns) - ToLineSet(lines)]
    case Update(ns, olds, news) =>
      if |olds| == |news| then a[ns := SpecReplace(Rules(a, ns), olds, news)] else a
  }

  function SpecRun(a: Policies, calls: seq<Call>): Policies {
    if calls == [] then a else SpecStep(SpecRun(a, calls[..|calls| - 1]), calls[|calls| - 1])
  }

  ghost predicate AllWellFormed(lines: seq<Line>) { forall i | 0 <= i < |lines| :: WellFormed(lines[i]) }

  ghost predicate CallOk(c: Call, names: set<Bytes>) {
    c.ns in names &&
    match c
    case Add(_, lines) => AllWellFormed(lines)
    case Remove(_, lines) => AllWellFormed(lines)
    case Update(_, olds, news) => AllWellFormed(olds) && AllWellFormed(news)
  }

  // ---- the abstraction ----

  ghost predicate Stores(t: Table, k: Bytes, ns: Bytes, l: Line) {
    WellFormed(l) && k == RowKey(ns, l) && k in t && t[k] == Rule(l)
  }

  /** The policy rows of `t` are exactly the rules of `a`, each under its own key. */
  ghost predicate Refines(t: Table, a: Policies, names: set<Bytes>) {
    && (forall ns, l | ns in names && l in Rules(a, ns) :: Stores(t, RowKey(ns, l), ns, l))
    && (forall k | k in t && POLICY_PREFIX <= k ::
          exists ns, l :: ns in names && l in Rules(a, ns) && Stores(t, k, ns, l))
  }

  lemma PutRefines(t: Table, a: Policies, names: set<Bytes>, ns: Bytes, l: Line)
    requires PrefixFree(names) && ns in names && WellFormed(l) && Refines(t, a, names)
    ensures Refines(t[RowKey(ns, l) := Rule(l)], a[ns := Rules(a, ns) + {l}], names)
  {
    var key := RowKey(ns, l);
    var t', a' := t[key := Rule(l)], a[ns := Rules(a, ns) + {l}];
    forall m, x | m in names && x in Rules(a', m) ensures Stores(t', RowKey(m, x), m, x) {
      if !(m == ns && x == l) {
        assert x in Rules(a, m) && Stores(t, RowKey(m, x), m, x);
        RowKeyInjective(names, m, x, ns, l);
      }
    }
    forall k | k in t' && POLICY_PREFIX <= k
      ensures exists m, x :: m in names && x in Rules(a', m) && Stores(t', k, m, x)
    {
      if k == key {
        assert Stores(t', k, ns, l);
      } else {
        var m, x :| m in names && x in Rules(a, m) && Stores(t, k, m, x);
        assert Stores(t', k, m, x) && x in Rules(a', m);
      }
    }
  }

  lemma EraseRefines(t: Table, a: Policies, names: set<Bytes>, ns: Bytes, l: Line)
    requires PrefixFree(names) && ns in names && WellFormed(l) && Refines(t, a, names)
    ensures Refines(t - {RowKey(ns, l)}, a[ns := Rules(a, ns) - {l}], names)
  {
    var key := RowKey(ns, l);
    var t', a' := t - {key}, a[ns := Rules(a, ns) - {l}];
    forall m, x | m in names && x in Rules(a', m) ensures Stores(t', RowKey(m, x), m, x) {
      assert x in Rules(a, m) && Stores(t, RowKey(m, x), m, x);
      RowKeyInjective(names, m, x, ns, l);
    }
    forall k | k in t' && POLICY_PREFIX <= k
      ensures exists m, x :: m in names && x in Rules(a', m) && Stores(t', k, m, x)
    {
      var m, x :| m in names && x in Rules(a, m) && Stores(t, k, m, x);
      assert Stores(t', k, m, x) && x in Rules(a', m);
    }
  }

  /** The loop's existence test asks the specification's question. */
  lemma PresentIffRule(t: Table, a: Policies, names: set<Bytes>, ns: Bytes, l: Line)
    requires PrefixFree(names) && ns in names && WellFormed(l) && Refines(t, a, names)
    ensures RowKey(ns, l) in t <==> l in Rules(a, ns)
  {
    var k := RowKey(ns, l);
    if k in t {
      assert POLICY_PREFIX <= k;
      var m, x :| m in names && x in Rules(a, m) && Stores(t, k, m, x);
      RowKeyInjective(names, m, x, ns, l);
    }
    if l in Rules(a, ns) {
      assert Stores(t, k, ns, l);
    }
  }

  lemma RefinesCongruent(t: Table, a: Policies, b: Policies, names: set<Bytes>)
    requires Refines(t, a, names) && forall ns :: Rules(a, ns) == Rules(b, ns)
    ensures Refines(t, b, names)
  {}

  function AddEach(s: set<Line>, lines: seq<Line>): set<Line> {
    if lines == [] then s else AddEach(s, lines[..|lines| - 1]) + {lines[|lines| - 1]}
  }

  function RemoveEach(s: set<Line>, lines: seq<Line>): set<Line> {
    if lines == [] then s else RemoveEach(s, lines[..|lines| - 1]) - {lines[|lines| - 1]}
  }

  lemma {:induction false} EachIsAll(s: set<Line>, lines: seq<Line>)
    ensures AddEach(s, lines) == s + ToLineSet(lines)
    ensures RemoveEach(s, lines) == s - ToLineSet(lines)
  {
    if lines != [] {
      var n := |lines| - 1;
      EachIsAll(s, lines[..n]);
      assert lines == lines[..n] + [lines[n]];
      assert ToLineSet(lines) == ToLineSet(lines[..n]) + {lines[n]};
    }
  }

  lemma {:induction false} AddRefines(t: Table, a: Policies, names: set<Bytes>, ns: Bytes, lines: seq<Line>)
    requires PrefixFree(names) && ns in names && AllWellFormed(lines) && Refines(t, a, names)
    ensures Refines(PutLines(t, ns, lines), a[ns := AddEach(Rules(a, ns), lines)], names)
  {
    if lines == [] {
      RefinesCongruent(t, a, a[ns := Rules(a, ns)], names);
    } else {
      var n := |lines| - 1;
      var c := a[ns := AddEach(Rules(a, ns), lines[..n])];
      AddRefines(t, a, names, ns, lines[..n]);
      PutRefines(PutLines(t, ns, lines[..n]), c, names, ns, lines[n]);
      assert c[ns := Rules(c, ns) + {lines[n]}] == a[ns := AddEach(Rules(a, ns), lines)];
    }
  }

  lemma {:induction false} RemoveRefines(t: Table, a: Policies, names: set<Bytes>, ns: Bytes, lines: seq<Line>)
    requires PrefixFree(names) && ns in names && AllWellFormed(lines) && Refines(t, a, names)
    ensures Refines(EraseLines(t, ns, lines), a[ns := RemoveEach(Rules(a, ns), lines)], names)
  {
    if lines == [] {
      RefinesCongruent(t, a, a[ns := Rules(a, ns)], names);
    } else {
      var n := |lines| - 1;
      var c := a[ns := RemoveEach(Rules(a, ns), lines[..n])];
      RemoveRefines(t, a, names, ns, lines[..n]);
      EraseRefines(EraseLines(t, ns, lines[..n]), c, names, ns, lines[n]);
      assert c[ns := Rules(c, ns) - {lines[n]}] == a[ns := RemoveEach(Rules(a, ns), lines)];
    }
  }

  /** One turn of the update loop. */
  lemma ReplaceRefines(t: Table, a: Policies, names: set<Bytes>, ns: Bytes, from: Line, to: Line)
    requires PrefixFree(names) && ns in names && Refines(t, a, names) && WellFormed(from) && WellFormed(to)
    ensures Refines(ReplaceLine(t, ns, from, to),
                    a[ns := if from in Rules(a, ns) then Rules(a, ns) - {from} + {to} else Rules(a, ns)], names)
  {
    PresentIffRule(t, a, names, ns, from);
    if from in Rules(a, ns) {
      var b := a[ns := Rules(a, ns) - {from}];
      EraseRefines(t, a, names, ns, from);
      PutRefines(t - {RowKey(ns, from)}, b, names, ns, to);
      assert b[ns := Rules(b, ns) + {to}] == a[ns := Rules(a, ns) - {from} + {to}];
    } else {
      RefinesCongruent(t, a, a[ns := Rules(a, ns)], names);
    }
  }

  lemma {:induction false} UpdateRefines(t: Table, a: Policies, names: set<Bytes>, ns: Bytes, olds: seq<Line>, news: seq<Line>)
    requires PrefixFree(names) && ns in names && Refines(t, a, names)
    requires |olds| == |news| && AllWellFormed(olds) && AllWellFormed(news)
    ensures Refines(ReplaceLines(t, ns, olds, news), a[ns := SpecReplace(Rules(a, ns), olds, news)], names)
  {
    if olds == [] {
      RefinesCongruent(t, a, a[ns := Rules(a, ns)], names);
    } else {
      var n := |olds| - 1;
      var t1 := ReplaceLines(t, ns, olds[..n], news[..n]);
      var a1 := a[ns := SpecReplace(Rules(a, ns), olds[..n], news[..n])];
      UpdateRefines(t, a, names, ns, olds[..n], news[..n]);
      ReplaceRefines(t1, a1, names, ns, olds[n], news[n]);
      RefinesCongruent(ReplaceLines(t, ns, olds, news),
                       a1[ns := if olds[n] in Rules(a1, ns) then Rules(a1, ns) - {olds[n]} + {news[n]} else Rules(a1, ns)],
                       a[ns := SpecReplace(Rules(a, ns), olds, news)], names);
    }
  }

  lemma StepRefines(t: Table, a: Policies, names: set<Bytes>, c: Call)
    requires PrefixFree(names) && CallOk(c, names) && Refines(t, a, names)
    ensures Refines(Step(t, c), SpecStep(a, c), names)
  {
    match c
    case Add(ns, lines) => EachIsAll(Rules(a, ns), lines); AddRefines(t, a, names, ns, lines);
    case Remove(ns, lines) => EachIsAll(Rules(a, ns), lines); RemoveRefines(t, a, names, ns, lines);
    case Update(ns, olds, news) =>
      if |olds| == |news| { UpdateRefines(t, a, names, ns, olds, news); }
  }

  /** The simulation over whole runs. */
  lemma {:induction false} RunRefines(t: Table, a: Policies, names: set<Bytes>, calls: seq<Call>)
    requires PrefixFree(names) && Refines(t, a, names)
    requires forall i | 0 <= i < |calls| :: CallOk(calls[i], names)
    ensures Refines(RunCalls(t, calls), SpecRun(a, calls), names)
  {
    if calls != [] {
      var n := |calls| - 1;
      RunRefines(t, a, names, calls[..n]);
      StepRefines(RunCalls(t, calls[..n]), SpecRun(a, calls[..n]), names, calls[n]);
    }
  }

  // ---- reading back ----

  ghost predicate Distinct(lines: seq<Line>) {
    forall i, j | 0 <= i < j < |lines| :: lines[i] != lines[j]
  }

  /** A scan of a namespace reads exactly its rules, each once. */
  lemma LoadedIsRules(t: Table, a: Policies, names: set<Bytes>, ns: Bytes)
    requires PrefixFree(names) && ns in names && Refines(t, a, names)
    ensures ToLineSet(Loaded(t, ns)) == Rules(a, ns)
    ensures Distinct(Loaded(t, ns))
  {
    var p := WithPrefix(ns, []);
    var keys := Scan(Ordered(t.Keys), p);
    var lines := Loaded(t, ns);
    TableScan(t, p);
    forall i | 0 <= i < |keys| ensures lines[i] in Rules(a, ns) && keys[i] == RowKey(ns, lines[i]) {
      assert keys[i] in keys;
      RowOfNamespace(t, a, names, ns, keys[i]);
    }
    forall l | l in Rules(a, ns) ensures l in lines {
      assert Stores(t, RowKey(ns, l), ns, l);
      assert p <= RowKey(ns, l);
      assert RowKey(ns, l) in keys;
      var i :| 0 <= i < |keys| && keys[i] == RowKey(ns, l);
      assert lines[i] == l;
    }
    forall i, j | 0 <= i < j < |lines| ensures lines[i] != lines[j] {
      LessAsymmetric(keys[i], keys[j]);
    }
  }

  lemma RowOfNamespace(t: Table, a: Policies, names: set<Bytes>, ns: Bytes, k: Bytes)
    requires PrefixFree(names) && ns in names && Refines(t, a, names)
    requires k in t && WithPrefix(ns, []) <= k
    ensures t[k].Rule? && t[k].line in Rules(a, ns) && k == RowKey(ns, t[k].line)
  {
    assert POLICY_PREFIX <= k;
    var m, x :| m in names && x in Rules(a, m) && Stores(t, k, m, x);
    NamespaceOfKey(names, ns, m, Join(x));
  }

  /** Main result: after any run over an empty store, scanning a namespace yields exactly the
      rules the map specification holds, each once. */
  lemma ScanAfterRun(names: set<Bytes>, calls: seq<Call>, ns: Bytes)
    requires PrefixFree(names) && ns in names
    requires forall i | 0 <= i < |calls| :: CallOk(calls[i], names)
    ensures ToLineSet(Loaded(RunCalls(map[], calls), ns)) == Rules(SpecRun(map[], calls), ns)
    ensures Distinct(Loaded(RunCalls(map[], calls), ns))
  {
    RunRefines(map[], map[], names, calls);
    LoadedIsRules(RunCalls(map[], calls), SpecRun(map[], calls), names, ns);
  }

  // ---- isolation ----

  ghost predicate SameAt(t: Table, u: Table, k: Bytes) {
    (k in t <==> k in u) && (k in t ==> t[k] == u[k])
  }

  lemma {:induction false} BatchFootprint(t: Table, ns: Bytes, lines: seq<Line>, k: Bytes)
    requires !(WithPrefix(ns, []) <= k)
    ensures SameAt(PutLines(t, ns, lines), t, k) && SameAt(EraseLines(t, ns, lines), t, k)
  {
    if lines != [] {
      var n := |lines| - 1;
      BatchFootprint(t, ns, lines[..n], k);
      assert WithPrefix(ns, []) <= RowKey(ns, lines[n]);
    }
  }

  lemma {:induction false} UpdateFootprint(t: Table, ns: Bytes, olds: seq<Line>, news: seq<Line>, k: Bytes)
    requires |olds| == |news| && !(WithPrefix(ns, []) <= k)
    ensures SameAt(ReplaceLines(t, ns, olds, news), t, k)
  {
    if olds != [] {
      var n := |olds| - 1;
      UpdateFootprint(t, ns, olds[..n], news[..n], k);
      assert WithPrefix(ns, []) <= RowKey(ns, olds[n]) && WithPrefix(ns, []) <= RowKey(ns, news[n]);
    }
  }

  /** A call touches only keys behind its own namespace, whatever the names and lines. */
  lemma StepFootprint(t: Table, c: Call, k: Bytes)
    requires !(WithPrefix(c.ns, []) <= k)
    ensures SameAt(Step(t, c), t, k)
  {
    match c
    case Add(ns, lines) => BatchFootprint(t, ns, lines, k);
    case Remove(ns, lines) => BatchFootprint(t, ns, lines, k);
    case Update(ns, olds, news) => if |olds| == |news| { UpdateFootprint(t, ns, olds, news, k); }
  }

  /** What is loaded from a namespace depends only on the rows behind its name. */
  lemma LoadedLocal(t: Table, u: Table, ns: Bytes)
    requires forall k | WithPrefix(ns, []) <= k :: SameAt(t, u, k)
    ensures Loaded(t, ns) == Loaded(u, ns)
  {
    var p := WithPrefix(ns, []);
    TableScan(t, p);
    TableScan(u, p);
    var a, b := Scan(Ordered(t.Keys), p), Scan(Ordered(u.Keys), p);
    forall k ensures k in a <==> k in b {
      if p <= k { assert SameAt(t, u, k); }
    }
    AscendingDetermined(a, b);
    forall i | 0 <= i < |a| ensures SameAt(t, u, a[i]) { assert a[i] in a; }
  }

  /** No call changes the registry, or what any other prefix-free namespace loads. */
  lemma CallIsolated(t: Table, names: set<Bytes>, c: Call, m: Bytes)
    requires PrefixFree(names) && c.ns in names && m in names && m != c.ns
    ensures Loaded(Step(t, c), m) == Loaded(t, m)
    ensures RegisteredNames(Step(t, c)) == RegisteredNames(t)
  {
    forall k | WithPrefix(m, []) <= k ensures SameAt(Step(t, c), t, k) {
      if WithPrefix(c.ns, []) <= k {
        assert k == WithPrefix(m, k[1 + |m|..]);
        NamespaceOfKey(names, c.ns, m, k[1 + |m|..]);
      }
      StepFootprint(t, c, k);
    }
    LoadedLocal(Step(t, c), t, m);
    RegistryKept(t, c);
  }

  lemma RegistryKept(t: Table, c: Call)
    ensures RegisteredNames(Step(t, c)) == RegisteredNames(t)
  {
    var u := Step(t, c);
    RegisteredNamesComplete(t);
    RegisteredNamesComplete(u);
    forall n ensures RegistryKey(n) in t <==> RegistryKey(n) in u {
      assert RegistryKey(n)[0] == 0 && WithPrefix(c.ns, [])[0] == 1;
      StepFootprint(t, c, RegistryKey(n));
    }
    AscendingDetermined(RegisteredNames(t), RegisteredNames(u));
  }
}
