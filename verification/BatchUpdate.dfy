/** The sequential delete-then-put loop of UpdatePolicies against simultaneous replacement
    (server/adapter/adapter.go:268-293). */
module BatchUpdate {
  import opened ByteStrings
  import opened Keys
  import opened Badger
  import opened Adapter
  import opened Refinement

  /** The update loop never adds rows, for any lists. */
  lemma {:induction false} RowCountNeverGrows(t: Table, ns: Bytes, olds: seq<Line>, news: seq<Line>)
    requires |olds| == |news|
    ensures |ReplaceLines(t, ns, olds, news)| <= |t|
  {
    if olds != [] {
      var n := |olds| - 1;
      RowCountNeverGrows(t, ns, olds[..n], news[..n]);
      ReplaceCount(ReplaceLines(t, ns, olds[..n], news[..n]), ns, olds[n], news[n]);
    }
  }

  lemma ReplaceCount(t: Table, ns: Bytes, from: Line, to: Line)
    ensures |ReplaceLine(t, ns, from, to)| <= |t|
    ensures RowKey(ns, to) !in t ==> |ReplaceLine(t, ns, from, to)| == |t|
  {}

  function KeysOf(ns: Bytes, lines: seq<Line>): set<Bytes> {
    set i | 0 <= i < |lines| :: RowKey(ns, lines[i])
  }

  /** The replacements of the old lines the table holds before the update. */
  function Replacements(t: Table, ns: Bytes, olds: seq<Line>, news: seq<Line>): Table
    requires |olds| == |news|
  {
    if olds == [] then map[]
    else
      var n := |olds| - 1;
      var front := Replacements(t, ns, olds[..n], news[..n]);
      if RowKey(ns, olds[n]) in t then front[RowKey(ns, news[n]) := Rule(news[n])] else front
  }

  lemma {:induction false} ReplacementKeys(t: Table, ns: Bytes, olds: seq<Line>, news: seq<Line>)
    requires |olds| == |news|
    ensures Replacements(t, ns, olds, news).Keys <= KeysOf(ns, news)
  {
    if olds != [] {
      var n := |olds| - 1;
      ReplacementKeys(t, ns, olds[..n], news[..n]);
      KeysOfSnoc(ns, news);
    }
  }

  lemma KeysOfSnoc(ns: Bytes, lines: seq<Line>)
    requires lines != []
    ensures KeysOf(ns, lines) == KeysOf(ns, lines[..|lines| - 1]) + {RowKey(ns, lines[|lines| - 1])}
  {}

  /** Distinct well-formed lines have distinct keys. */
  lemma KeyNotBefore(ns: Bytes, lines: seq<Line>, l: Line)
    requires AllWellFormed(lines) && WellFormed(l) && l !in lines
    ensures RowKey(ns, l) !in KeysOf(ns, lines)
  {
    forall i | 0 <= i < |lines| ensures RowKey(ns, lines[i]) != RowKey(ns, l) {
      assert lines[i] in lines;
      RowKeyInjective({ns}, ns, lines[i], ns, l);
    }
  }

  /** New lines that are neither stored nor among the old ones. */
  ghost predicate Fresh(t: Table, ns: Bytes, olds: seq<Line>, news: seq<Line>) {
    forall i | 0 <= i < |news| :: RowKey(ns, news[i]) !in t && news[i] !in olds
  }

  ghost predicate Replaceable(t: Table, ns: Bytes, olds: seq<Line>, news: seq<Line>) {
    && |olds| == |news| && AllWellFormed(olds) && AllWellFormed(news)
    && Distinct(olds) && Distinct(news) && Fresh(t, ns, olds, news)
  }

  lemma ReplaceableFront(t: Table, ns: Bytes, olds: seq<Line>, news: seq<Line>)
    requires Replaceable(t, ns, olds, news) && olds != []
    ensures var n := |olds| - 1;
            Replaceable(t, ns, olds[..n], news[..n]) && olds[n] !in olds[..n] && news[n] !in news[..n]
  {
    var n := |olds| - 1;
    assert forall i | 0 <= i < n :: news[..n][i] == news[i] && olds[..n][i] == olds[i];
  }

  /** Distinct old lines and distinct fresh new lines: the loop is simultaneous replacement of the
      stored old lines, and the number of rows is conserved. */
  lemma {:induction false} UpdateIsSimultaneous(t: Table, ns: Bytes, olds: seq<Line>, news: seq<Line>)
    requires Replaceable(t, ns, olds, news)
    ensures ReplaceLines(t, ns, olds, news) == (t - KeysOf(ns, olds)) + Replacements(t, ns, olds, news)
    ensures |ReplaceLines(t, ns, olds, news)| == |t|
  {
    if olds == [] {
      assert t - KeysOf(ns, olds) == t;
    } else {
      var n := |olds| - 1;
      var fo, fn := olds[..n], news[..n];
      ReplaceableFront(t, ns, olds, news);
      UpdateIsSimultaneous(t, ns, fo, fn);
      var u := ReplaceLines(t, ns, fo, fn);
      SimultaneousStep(t, u, ns, olds, news);
      ReplaceCount(u, ns, olds[n], news[n]);
    }
  }

  lemma SimultaneousStep(t: Table, u: Table, ns: Bytes, olds: seq<Line>, news: seq<Line>)
    requires Replaceable(t, ns, olds, news) && olds != []
    requires olds[|olds| - 1] !in olds[..|olds| - 1] && news[|olds| - 1] !in news[..|olds| - 1]
    requires u == (t - KeysOf(ns, olds[..|olds| - 1])) + Replacements(t, ns, olds[..|olds| - 1], news[..|olds| - 1])
    ensures RowKey(ns, news[|olds| - 1]) !in u
    ensures ReplaceLine(u, ns, olds[|olds| - 1], news[|olds| - 1])
         == (t - KeysOf(ns, olds)) + Replacements(t, ns, olds, news)
  {
    var n := |olds| - 1;
    var fo, fn := olds[..n], news[..n];
    var k, k' := RowKey(ns, olds[n]), RowKey(ns, news[n]);
    var added := Replacements(t, ns, fo, fn);
    ReplacementKeys(t, ns, fo, fn);
    KeysOfSnoc(ns, olds);
    KeyNotBefore(ns, fo, olds[n]);
    KeyNotBefore(ns, fn, news[n]);
    assert olds[n] !in fn by {
      forall i | 0 <= i < n ensures fn[i] != olds[n] { assert news[i] !in olds; assert olds[n] in olds; }
    }
    KeyNotBefore(ns, fn, olds[n]);
    ReplaceAlgebra(t, KeysOf(ns, fo), added, k, k', Rule(news[n]));
  }

  lemma ReplaceAlgebra(t: Table, gone: set<Bytes>, added: Table, k: Bytes, k': Bytes, v: Value)
    requires k !in gone && k !in added && k' !in added && k' !in t
    ensures k' !in (t - gone) + added
    ensures k in (t - gone) + added <==> k in t
    ensures k in t ==> (((t - gone) + added) - {k})[k' := v] == (t - (gone + {k})) + added[k' := v]
    ensures k !in t ==> (t - gone) + added == (t - (gone + {k})) + added
  {}
}
