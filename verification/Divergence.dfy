/** Filtered removal and batch update reach memory through Casbin and rows through the adapter, by
    different rules. Exactly when a node's memory still agrees with what it would load from its
    rows afterwards, that is, when a restart or a restored snapshot would not change decisions. */
module Divergence {
  import opened ByteStrings
  import opened Keys
  import opened Badger
  import opened Adapter
  import opened Refinement
  import opened Filtering
  import opened Fsm
  import opened Casbin
  import opened Coherence

  /** The memory of a namespace is what its rows would load. */
  ghost predicate InStep(e: Engine, n: Node, ns: Bytes)
    requires ns in n.enforcers
  {
    n.enforcers[ns].rules == LoadSet(e, n.table, ns)
  }

  // ---- filtered removal ----

  lemma LoadAfterFilter(e: Engine, names: set<Bytes>, a: Policies, t: Table, ns: Bytes, ptype: Bytes, index: int, values: seq<Bytes>)
    requires NamesOk(names) && RowsOk(e, names, a, t) && ns in names
    ensures LoadSet(e, EraseFiltered(t, ns, ptype, index, values), ns) ==
            Keep(Rules(a, ns), l => FilterMatch(RowKey(ns, l), ns, ptype, index, values))
  {
    FilterRows(e, names, a, t, ns, ptype, index, values);
    LoadSetIsRules(e, EraseFiltered(t, ns, ptype, index, values),
                   a[ns := Keep(Rules(a, ns), l => FilterMatch(RowKey(ns, l), ns, ptype, index, values))], names, ns);
  }

  /** What the command does to the node. */
  lemma FilterApplied(e: Engine, n: Node, ns: Bytes, ptype: Bytes, index: int, values: seq<Bytes>)
    requires ns in n.enforcers && n.enforcers[ns].model.Some? && values != []
    ensures var n' := Apply(e, n, RemoveFiltered(ns, ptype, index, values)).0;
            && n'.table == EraseFiltered(n.table, ns, ptype, index, values)
            && ns in n'.enforcers && n'.enforcers[ns].rules == e.filter(n.enforcers[ns].rules, ptype, index, values).0
  {}

  /** Filtered removal, for every index, negative ones included, and every non-empty list of values: memory and rows stay in
      step exactly when, rule by rule, the key scan and Casbin agree. */
  lemma FilterInStep(e: Engine, names: set<Bytes>, a: Policies, n: Node, ns: Bytes, ptype: Bytes, index: int, values: seq<Bytes>)
    requires NamesOk(names) && Coherent(e, names, a, n) && FiltersByField(e)
    requires ns in n.enforcers && n.enforcers[ns].model.Some? && values != []
    requires AllReadable(n.enforcers[ns].rules, ptype, index, values)
    ensures var n' := Apply(e, n, RemoveFiltered(ns, ptype, index, values)).0;
            ns in n'.enforcers &&
            (InStep(e, n', ns) <==>
             forall l | l in n.enforcers[ns].rules ::
               MemMatch(l, ptype, index, values) <==> FilterMatch(RowKey(ns, l), ns, ptype, index, values))
  {
    var rules := n.enforcers[ns].rules;
    MemoryIsRules(e, names, a, n, ns);
    FilterApplied(e, n, ns, ptype, index, values);
    LoadAfterFilter(e, names, a, n.table, ns, ptype, index, values);
    KeepSame(rules, l => MemMatch(l, ptype, index, values), l => FilterMatch(RowKey(ns, l), ns, ptype, index, values));
  }

  /** Before field 0 the adapter deletes nothing: no rule of the type may match through the values. */
  lemma NegativeInStep(e: Engine, names: set<Bytes>, a: Policies, n: Node, ns: Bytes, ptype: Bytes, index: int, values: seq<Bytes>)
    requires NamesOk(names) && Coherent(e, names, a, n) && FiltersByField(e)
    requires ns in n.enforcers && n.enforcers[ns].model.Some? && values != [] && index < 0
    requires AllReadable(n.enforcers[ns].rules, ptype, index, values)
    ensures var n' := Apply(e, n, RemoveFiltered(ns, ptype, index, values)).0;
            ns in n'.enforcers &&
            (InStep(e, n', ns) <==> forall l | l in n.enforcers[ns].rules :: !MemMatch(l, ptype, index, values))
  {
    FilterInStep(e, names, a, n, ns, ptype, index, values);
  }

  /** The rule at which a removal at field 0 leaves both sides alike: if the scan reaches it, its
      last given field is not merely longer, and if Casbin does, the values it passed over are empty
      there too. */
  predicate AlikeAtZero(l: Line, ptype: Bytes, values: seq<Bytes>)
    requires values != []
  {
    var k := |values| - 1;
    && (FieldPrefix([ptype] + values, l) ==> values[k] == [] || l[k + 1] == values[k])
    && (MemMatch(l, ptype, 0, values) ==> k + 1 < |l| && forall i | 0 <= i < k && values[i] == [] :: l[i + 1] == [])
  }

  lemma ZeroAlike(l: Line, ptype: Bytes, values: seq<Bytes>)
    requires values != []
    ensures AlikeAtZero(l, ptype, values) <==> (MemMatch(l, ptype, 0, values) <==> FieldPrefix([ptype] + values, l))
  {
    FieldPrefixFields(l, ptype, values);
  }

  lemma FieldPrefixFields(l: Line, ptype: Bytes, values: seq<Bytes>)
    requires values != []
    ensures var k := |values| - 1;
            FieldPrefix([ptype] + values, l) <==>
            && k + 1 < |l| && l[0] == ptype && (forall i | 0 <= i < k :: values[i] == l[i + 1]) && values[k] <= l[k + 1]
  {
    var filter, k := [ptype] + values, |values| - 1;
    if k + 1 < |l| {
      var front, fields := values[..k], l[1..k + 1];
      assert filter[..k + 1] == [ptype] + front && l[..k + 1] == [l[0]] + fields;
      assert fields == ([l[0]] + fields)[1..] && front == ([ptype] + front)[1..];
      assert forall i | 0 <= i < k :: front[i] == values[i] && fields[i] == l[i + 1];
    }
  }

  /** At field 0, for colon-free rules and filter: no rule that the byte prefix reaches has a longer
      field in the last place, and none that Casbin reaches through an empty value has a field
      there. */
  lemma FieldZeroInStep(e: Engine, names: set<Bytes>, a: Policies, n: Node, ns: Bytes, ptype: Bytes, values: seq<Bytes>)
    requires NamesOk(names) && Coherent(e, names, a, n) && AllColonFree(a, names) && FiltersByField(e)
    requires ns in n.enforcers && n.enforcers[ns].model.Some?
    requires values != [] && ColonFree([ptype] + values) && AllReadable(n.enforcers[ns].rules, ptype, 0, values)
    ensures var n' := Apply(e, n, RemoveFiltered(ns, ptype, 0, values)).0;
            ns in n'.enforcers &&
            (InStep(e, n', ns) <==> forall l | l in n.enforcers[ns].rules :: AlikeAtZero(l, ptype, values))
  {
    var rules := n.enforcers[ns].rules;
    MemoryIsRules(e, names, a, n, ns);
    FilterInStep(e, names, a, n, ns, ptype, 0, values);
    forall l | l in rules
      ensures AlikeAtZero(l, ptype, values) <==>
              (MemMatch(l, ptype, 0, values) <==> FilterMatch(RowKey(ns, l), ns, ptype, 0, values))
    {
      FieldZeroKey(ns, l, ptype, values);
      ZeroAlike(l, ptype, values);
    }
  }

  /** Without empty values only the longer field remains. */
  lemma FieldZeroPlain(l: Line, ptype: Bytes, values: seq<Bytes>)
    requires values != [] && [] !in values
    ensures AlikeAtZero(l, ptype, values) <==>
            (FieldPrefix([ptype] + values, l) ==> l[|values|] == values[|values| - 1])
  {
    assert forall i | 0 <= i < |values| :: values[i] in values;
    if MemMatch(l, ptype, 0, values) { assert HasField(l, |values| - 1, values[|values| - 1]); }
  }

  /** The rule at which a removal past field 0 leaves both sides alike: if the scan reaches it, its
      type is not merely longer and its later fields match, and if Casbin does, the scan finds the
      first value in its place and all of them, joined, somewhere in the key. */
  predicate AlikePastZero(ns: Bytes, l: Line, ptype: Bytes, index: nat, values: seq<Bytes>)
    requires values != []
  {
    && (FieldRemoved(ns, l, ptype, index, values) ==> MemMatch(l, ptype, index, values))
    && (MemMatch(l, ptype, index, values) ==>
          HasField(l, index, values[0]) && Contains(RowKey(ns, l), Join(values)))
  }

  /** Past field 0, for colon-free rules. */
  lemma LaterFieldInStep(e: Engine, names: set<Bytes>, a: Policies, n: Node, ns: Bytes, ptype: Bytes, index: nat, values: seq<Bytes>)
    requires NamesOk(names) && Coherent(e, names, a, n) && AllColonFree(a, names) && FiltersByField(e)
    requires ns in n.enforcers && n.enforcers[ns].model.Some?
    requires index > 0 && values != [] && ptype != [] && COLON !in ptype
    requires AllReadable(n.enforcers[ns].rules, ptype, index, values)
    ensures var n' := Apply(e, n, RemoveFiltered(ns, ptype, index, values)).0;
            ns in n'.enforcers &&
            (InStep(e, n', ns) <==> forall l | l in n.enforcers[ns].rules :: AlikePastZero(ns, l, ptype, index, values))
  {
    var rules := n.enforcers[ns].rules;
    MemoryIsRules(e, names, a, n, ns);
    FilterInStep(e, names, a, n, ns, ptype, index, values);
    forall l | l in rules
      ensures AlikePastZero(ns, l, ptype, index, values) <==>
              (MemMatch(l, ptype, index, values) <==> FilterMatch(RowKey(ns, l), ns, ptype, index, values))
    {
      FieldKey(ns, l, ptype, index, values);
    }
  }

  /** Without empty values: no rule that the scan reaches has a longer type or differs from the
      filter in a later value. */
  lemma LaterFieldPlain(ns: Bytes, l: Line, ptype: Bytes, index: nat, values: seq<Bytes>)
    requires values != [] && [] !in values && index > 0
    ensures AlikePastZero(ns, l, ptype, index, values) <==>
            (FieldRemoved(ns, l, ptype, index, values) ==>
               l[0] == ptype && forall i | 1 <= i < |values| :: HasField(l, index + i, values[i]))
  {
    PlainMatch(l, ptype, index, values);
    if MemMatch(l, ptype, index, values) {
      MatchedSlice(l, index, values);
      FieldRemovedMeaning(ns, l, ptype, index, values);
    }
    if FieldRemoved(ns, l, ptype, index, values) { assert HasField(l, index + 0, values[0]); }
  }

  /** Without empty values Casbin compares every field. */
  lemma PlainMatch(l: Line, ptype: Bytes, index: int, values: seq<Bytes>)
    requires [] !in values
    ensures MemMatch(l, ptype, index, values) <==>
            l != [] && l[0] == ptype && forall i | 0 <= i < |values| :: HasField(l, index + i, values[i])
  {
    forall i | 0 <= i < |values| ensures values[i] != [] { assert values[i] in values; }
  }

  lemma MatchedSlice(l: Line, index: nat, values: seq<Bytes>)
    requires values != [] && forall i | 0 <= i < |values| :: HasField(l, index + i, values[i])
    ensures index + 1 + |values| <= |l| && l[index + 1..index + 1 + |values|] == values
  {
    var k := |values| - 1;
    assert HasField(l, index + k, values[k]);
    var part := l[index + 1..index + 1 + |values|];
    forall i | 0 <= i < |values| ensures part[i] == values[i] { assert HasField(l, index + i, values[i]); }
  }

  // ---- batch update ----

  /** The new rules whose old rule is stored and met for the first time. */
  function Taken(rules: set<Line>, olds: seq<Line>, news: seq<Line>): set<Line>
    requires |olds| == |news|
  {
    set i | 0 <= i < |olds| && olds[i] in rules && olds[i] !in olds[..i] :: news[i]
  }

  lemma TakenSnoc(rules: set<Line>, olds: seq<Line>, news: seq<Line>)
    requires |olds| == |news| > 0
    ensures var n := |olds| - 1;
            Taken(rules, olds, news) ==
            Taken(rules, olds[..n], news[..n]) + if olds[n] in rules && olds[n] !in olds[..n] then {news[n]} else {}
  {
    var n := |olds| - 1;
    assert forall i | 0 <= i < n :: olds[..n][..i] == olds[..i];
  }

  /** The adapter's loop replaces the old rules it finds. */
  lemma {:induction false} ReplaceFound(rules: set<Line>, olds: seq<Line>, news: seq<Line>)
    requires |olds| == |news| && Separate(rules, olds, news)
    ensures SpecReplace(rules, olds, news) == (rules - ToLineSet(olds)) + Taken(rules, olds, news)
  {
    if olds == [] {
      assert rules - ToLineSet(olds) == rules && Taken(rules, olds, news) == {};
    } else {
      var n := |olds| - 1;
      var fo, fn, l := olds[..n], news[..n], olds[n];
      assert Separate(rules, fo, fn) by { assert forall i | 0 <= i < n :: fn[i] == news[i] && fo[i] == olds[i]; }
      ReplaceFound(rules, fo, fn);
      TakenSnoc(rules, olds, news);
      assert olds == fo + [l];
      assert ToLineSet(olds) == ToLineSet(fo) + {l};
      NotTaken(rules, olds, news, l);
      ReplaceFoundStep(rules, ToLineSet(fo), Taken(rules, fo, fn), l, news[n]);
    }
  }

  lemma ReplaceFoundStep(rules: set<Line>, gone: set<Line>, taken: set<Line>, from: Line, to: Line)
    requires from !in taken
    ensures var s := (rules - gone) + taken;
            (if from in s then s - {from} + {to} else s) ==
            (rules - (gone + {from})) + (taken + if from in rules && from !in gone then {to} else {})
  {}

  lemma NotTaken(rules: set<Line>, olds: seq<Line>, news: seq<Line>, l: Line)
    requires |olds| == |news| > 0 && Separate(rules, olds, news) && l in olds
    ensures l !in Taken(rules, olds[..|olds| - 1], news[..|olds| - 1])
    ensures l !in Taken(rules, olds, news)
  {}

  /** What the command does to the node: lists of different lengths reach memory only. */
  lemma UpdateApplied(e: Engine, n: Node, ns: Bytes, ptype: Bytes, olds: seq<seq<Bytes>>, news: seq<seq<Bytes>>)
    requires ns in n.enforcers && n.enforcers[ns].model.Some?
    ensures var n' := Apply(e, n, UpdatePolicies(ns, ptype, olds, news)).0;
            && n'.table == (if |olds| == |news| then ReplaceLines(n.table, ns, Convert(ptype, olds), Convert(ptype, news)) else n.table)
            && ns in n'.enforcers
            && n'.enforcers[ns].rules == e.update(n.enforcers[ns].rules, Convert(ptype, olds), Convert(ptype, news)).0
  {}

  /** A batch update keeps memory and rows in step exactly when, with lists of one length, its old
      rules are distinct and all stored or none is stored, and, with lists of different lengths,
      there is no old rule or one is not found. */
  lemma UpdateInStep(e: Engine, names: set<Bytes>, a: Policies, n: Node, ns: Bytes, ptype: Bytes,
                     olds: seq<seq<Bytes>>, news: seq<seq<Bytes>>)
    requires NamesOk(names) && Coherent(e, names, a, n) && UpdatesAllOrNone(e)
    requires ns in n.enforcers && n.enforcers[ns].model.Some?
    requires AllSound(e, Convert(ptype, olds)) && AllSound(e, Convert(ptype, news))
    requires Separate(n.enforcers[ns].rules, Convert(ptype, olds), Convert(ptype, news))
    requires Paired(n.enforcers[ns].rules, Convert(ptype, olds), Convert(ptype, news))
    ensures var n' := Apply(e, n, UpdatePolicies(ns, ptype, olds, news)).0;
            var rules, from := n.enforcers[ns].rules, Convert(ptype, olds);
            ns in n'.enforcers &&
            (InStep(e, n', ns) <==>
             if |olds| == |news| then AllFound(rules, from) || ToLineSet(from) !! rules
             else olds == [] || !AllFound(rules, from))
  {
    var rules, from, to := n.enforcers[ns].rules, Convert(ptype, olds), Convert(ptype, news);
    MemoryIsRules(e, names, a, n, ns);
    UpdateApplied(e, n, ns, ptype, olds, news);
    if |olds| == |news| {
      LoadAfterUpdate(e, names, a, n.table, ns, from, to);
      ReplaceFound(rules, from, to);
      UpdateSets(rules, from, to);
    } else {
      LoadSetIsRules(e, n.table, a, names, ns);
      UpdateUneven(rules, from, to);
    }
  }

  /** Memory without its rows: any replacement takes it out of step. */
  lemma UpdateUneven(rules: set<Line>, olds: seq<Line>, news: seq<Line>)
    requires |olds| != |news| && Separate(rules, olds, news) && Paired(rules, olds, news)
    ensures AllOrNone(rules, olds, news) == rules <==> olds == [] || !AllFound(rules, olds)
  {
    if |olds| < |news| {
      if olds != [] && AllFound(rules, olds) {
        assert olds[0] in ToLineSet(olds);
        assert forall i | 0 <= i < |olds| :: news[..|olds|][i] == news[i];
        assert olds[0] !in AllOrNone(rules, olds, news);
      } else if olds == [] {
        assert (rules - ToLineSet(olds)) + ToLineSet(news[..0]) == rules;
      }
    } else {
      FoundPrefix(rules, olds, |news| + 1);
    }
  }

  lemma FoundPrefix(rules: set<Line>, olds: seq<Line>, n: nat)
    requires n <= |olds|
    ensures AllFound(rules, olds) ==> AllFound(rules, olds[..n])
  {
    assert forall l | l in olds[..n] :: l in olds;
  }

  lemma LoadAfterUpdate(e: Engine, names: set<Bytes>, a: Policies, t: Table, ns: Bytes, from: seq<Line>, to: seq<Line>)
    requires NamesOk(names) && RowsOk(e, names, a, t) && ns in names && |from| == |to|
    requires AllSound(e, from) && AllSound(e, to)
    ensures LoadSet(e, ReplaceLines(t, ns, from, to), ns) == SpecReplace(Rules(a, ns), from, to)
  {
    var b := a[ns := SpecReplace(Rules(a, ns), from, to)];
    UpdateRefines(t, a, names, ns, from, to);
    forall m, l | m in names && l in Rules(b, m) ensures e.load(l) == l {
      if m == ns { ReplaceSource(Rules(a, ns), from, to, l); }
    }
    LoadSetIsRules(e, ReplaceLines(t, ns, from, to), b, names, ns);
  }

  lemma {:induction false} ReplaceSource(rules: set<Line>, olds: seq<Line>, news: seq<Line>, l: Line)
    requires |olds| == |news| && l in SpecReplace(rules, olds, news)
    ensures l in rules || l in news
  {
    if olds != [] {
      var n := |olds| - 1;
      if l in SpecReplace(rules, olds[..n], news[..n]) { ReplaceSource(rules, olds[..n], news[..n], l); }
    }
  }

  /** All-or-none and found-only replacement agree exactly when all or none are found. */
  lemma UpdateSets(rules: set<Line>, olds: seq<Line>, news: seq<Line>)
    requires |olds| == |news| && Separate(rules, olds, news)
    ensures AllOrNone(rules, olds, news) == (rules - ToLineSet(olds)) + Taken(rules, olds, news) <==>
            AllFound(rules, olds) || ToLineSet(olds) !! rules
  {
    var rows := (rules - ToLineSet(olds)) + Taken(rules, olds, news);
    assert news[..|olds|] == news;
    if AllFound(rules, olds) {
      AllTaken(rules, olds, news);
    } else if ToLineSet(olds) !! rules {
      assert rules - ToLineSet(olds) == rules && Taken(rules, olds, news) == {};
    } else {
      var l :| l in ToLineSet(olds) && l in rules;
      NotTaken(rules, olds, news, l);
      assert l !in rows;
    }
  }

  lemma AllTaken(rules: set<Line>, olds: seq<Line>, news: seq<Line>)
    requires |olds| == |news| && Distinct(olds) && ToLineSet(olds) <= rules
    ensures Taken(rules, olds, news) == ToLineSet(news)
  {
    forall i | 0 <= i < |olds| ensures olds[i] in rules && olds[i] !in olds[..i] { assert olds[i] in ToLineSet(olds); }
    forall l | l in news ensures l in Taken(rules, olds, news) {
      var i :| 0 <= i < |news| && news[i] == l;
      assert olds[i] in rules;
    }
  }
}
