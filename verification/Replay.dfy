/** Making the same adapter writes again over rows that survived them
    (server/adapter/adapter.go:114-307). What a restarted node writes depends on its memory as well:
    Restart.dfy and LineReplay.dfy build on this for commands. */
module Replay {
  import opened ByteStrings
  import opened Keys
  import opened Badger
  import opened Adapter
  import opened Refinement

  /** A write as it reaches the adapter. Registering is unconditional here: it is what `Register`
      does for a name that is no stored key, which `Coherence.NamesOk` ensures. */
  datatype Entry =
    | RegisterEntry(ns: Bytes)
    | AddEntry(ns: Bytes, lines: seq<Line>)
    | RemoveEntry(ns: Bytes, lines: seq<Line>)
    | FilterEntry(ns: Bytes, ptype: Bytes, index: int, values: seq<Bytes>)

  function ApplyEntry(t: Table, e: Entry): Table {
    match e
    case RegisterEntry(ns) => t[RegistryKey(ns) := Blank]
    case AddEntry(ns, lines) => PutLines(t, ns, lines)
    case RemoveEntry(ns, lines) => EraseLines(t, ns, lines)
    case FilterEntry(ns, ptype, index, values) => EraseFiltered(t, ns, ptype, index, values)
  }

  function RunLog(t: Table, log: seq<Entry>): Table {
    if log == [] then t else ApplyEntry(RunLog(t, log[..|log| - 1]), log[|log| - 1])
  }

  /** What an entry does to one key, whatever the table. */
  datatype Effect = Untouched | Becomes(value: Value) | Gone

  function PutEffect(ns: Bytes, lines: seq<Line>, k: Bytes): Effect {
    if lines == [] then Untouched
    else
      var last := lines[|lines| - 1];
      if k == RowKey(ns, last) then Becomes(Rule(last)) else PutEffect(ns, lines[..|lines| - 1], k)
  }

  function EraseEffect(ns: Bytes, lines: seq<Line>, k: Bytes): Effect {
    if exists i | 0 <= i < |lines| :: k == RowKey(ns, lines[i]) then Gone else Untouched
  }

  function EntryEffect(e: Entry, k: Bytes): Effect {
    match e
    case RegisterEntry(ns) => if k == RegistryKey(ns) then Becomes(Blank) else Untouched
    case AddEntry(ns, lines) => PutEffect(ns, lines, k)
    case RemoveEntry(ns, lines) => EraseEffect(ns, lines, k)
    case FilterEntry(ns, ptype, index, values) =>
      if FilterMatch(k, ns, ptype, index, values) then Gone else Untouched
  }

  /** The last effect a log has on a key. */
  function LogEffect(log: seq<Entry>, k: Bytes): Effect {
    if log == [] then Untouched
    else
      var e := EntryEffect(log[|log| - 1], k);
      if e.Untouched? then LogEffect(log[..|log| - 1], k) else e
  }

  predicate Writes(e: Entry, k: Bytes) { !EntryEffect(e, k).Untouched? }

  ghost predicate Touches(log: seq<Entry>, k: Bytes) {
    exists i | 0 <= i < |log| :: Writes(log[i], k)
  }

  lemma TouchesPrefix(log: seq<Entry>, j: nat, k: Bytes)
    requires j <= |log|
    ensures Touches(log[..j], k) ==> Touches(log, k)
    ensures j + 1 == |log| ==> (Touches(log, k) <==> Touches(log[..j], k) || Writes(log[j], k))
  {}

  ghost predicate Shows(t: Table, k: Bytes, e: Effect, was: Table) {
    match e
    case Untouched => SameAt(t, was, k)
    case Becomes(v) => k in t && t[k] == v
    case Gone => k !in t
  }

  lemma {:induction false} PutShows(t: Table, ns: Bytes, lines: seq<Line>, k: Bytes)
    ensures Shows(PutLines(t, ns, lines), k, PutEffect(ns, lines, k), t)
  {
    if lines != [] { PutShows(t, ns, lines[..|lines| - 1], k); }
  }

  lemma {:induction false} EraseShows(t: Table, ns: Bytes, lines: seq<Line>, k: Bytes)
    ensures Shows(EraseLines(t, ns, lines), k, EraseEffect(ns, lines, k), t)
  {
    if lines != [] {
      var n := |lines| - 1;
      EraseShows(t, ns, lines[..n], k);
      if EraseEffect(ns, lines[..n], k).Gone? {
        var i :| 0 <= i < n && k == RowKey(ns, lines[..n][i]);
        assert k == RowKey(ns, lines[i]);
      }
      if EraseEffect(ns, lines, k).Gone? && k != RowKey(ns, lines[n]) {
        var i :| 0 <= i < |lines| && k == RowKey(ns, lines[i]);
        assert k == RowKey(ns, lines[..n][i]);
      }
    }
  }

  lemma {:induction false} LogShows(t: Table, log: seq<Entry>, k: Bytes)
    ensures Shows(RunLog(t, log), k, LogEffect(log, k), t)
  {
    if log != [] {
      var n := |log| - 1;
      var u := RunLog(t, log[..n]);
      LogShows(t, log[..n], k);
      match log[n]
      case AddEntry(ns, lines) => PutShows(u, ns, lines, k);
      case RemoveEntry(ns, lines) => EraseShows(u, ns, lines, k);
      case RegisterEntry(_) =>
      case FilterEntry(_, _, _, _) =>
    }
  }

  lemma {:induction false} LogTouches(log: seq<Entry>, k: Bytes)
    ensures Touches(log, k) <==> !LogEffect(log, k).Untouched?
  {
    if log != [] {
      var n := |log| - 1;
      LogTouches(log[..n], k);
      TouchesPrefix(log, n, k);
    }
  }

  lemma {:induction false} RunLogConcat(t: Table, u: seq<Entry>, v: seq<Entry>)
    ensures RunLog(t, u + v) == RunLog(RunLog(t, u), v)
  {
    if v == [] {
      assert u + v == u;
    } else {
      var n := |v| - 1;
      assert (u + v)[..|u| + n] == u + v[..n] && (u + v)[|u| + n] == v[n];
      RunLogConcat(t, u, v[..n]);
    }
  }

  /** Main result: replaying `v` over any rows that agree with the final ones wherever `v` does
      not write rebuilds exactly the final rows. */
  lemma ReplayRebuilds(start: Table, rows: Table, u: seq<Entry>, v: seq<Entry>)
    requires forall k | !Touches(v, k) :: SameAt(rows, RunLog(start, u + v), k)
    ensures RunLog(rows, v) == RunLog(start, u + v)
  {
    var final, again := RunLog(start, u + v), RunLog(rows, v);
    RunLogConcat(start, u, v);
    forall k ensures SameAt(again, final, k) {
      LogShows(rows, v, k);
      LogShows(RunLog(start, u), v, k);
      LogTouches(v, k);
      if !Touches(v, k) { assert SameAt(rows, final, k); }
    }
    SameEverywhere(again, final);
  }

  lemma SameEverywhere(t: Table, u: Table)
    requires forall k :: SameAt(t, u, k)
    ensures t == u
  {
    forall k ensures k in t <==> k in u { assert SameAt(t, u, k); }
    forall k | k in t ensures t[k] == u[k] { assert SameAt(t, u, k); }
  }

  /** A snapshot's rows loaded over survivors: on a shared key either side's value may be read. */
  ghost predicate Merged(rows: Table, a: Table, b: Table) {
    forall k :: SameAt(rows, a, k) || SameAt(rows, b, k)
  }

  /** A crash after any number of the writes since the snapshot `u`, with the snapshot's rows
      loaded over the survivors or not: replay rebuilds the final rows. */
  lemma CrashReplayHarmless(start: Table, rows: Table, u: seq<Entry>, v: seq<Entry>, applied: nat)
    requires applied <= |v|
    requires Merged(rows, RunLog(start, u + v[..applied]), RunLog(start, u))
    ensures RunLog(rows, v) == RunLog(start, u + v)
  {
    var base := RunLog(start, u);
    RunLogConcat(start, u, v[..applied]);
    RunLogConcat(start, u, v);
    forall k | !Touches(v, k) ensures SameAt(rows, RunLog(start, u + v), k) {
      LogTouches(v, k);
      LogTouches(v[..applied], k);
      TouchesPrefix(v, applied, k);
      LogShows(base, v, k);
      LogShows(base, v[..applied], k);
      assert SameAt(rows, RunLog(start, u + v[..applied]), k) || SameAt(rows, base, k);
    }
    ReplayRebuilds(start, rows, u, v);
  }

  /** Updates are conditional on what is stored, so replaying them need not rebuild the rows: after
      a -> b and then c -> a over {a, c}, the rows are {b, a}; replaying both over those loses a. */
  lemma UpdateReplayDiffers(ns: Bytes)
    ensures var a, b, c := [[97]], [[98]], [[99]];
            var t := PutLines(map[], ns, [a, c]);
            var v := [Update(ns, [a], [b]), Update(ns, [c], [a])];
            RowKey(ns, a) in RunCalls(t, v) && RowKey(ns, a) !in RunCalls(RunCalls(t, v), v)
  {
    var a: Line, b: Line, c: Line := [[97]], [[98]], [[99]];
    var ka, kb, kc := RowKey(ns, a), RowKey(ns, b), RowKey(ns, c);
    assert ka[|ns| + 1] == 97 && kb[|ns| + 1] == 98 && kc[|ns| + 1] == 99;
    var e1, e2 := Update(ns, [a], [b]), Update(ns, [c], [a]);
    var v := [e1, e2];
    var t := PutLines(map[], ns, [a, c]);
    assert [a, c][..1] == [a] && [a][..0] == [];
    assert PutLines(map[], ns, [a]) == map[ka := Rule(a)];
    assert t == map[ka := Rule(a), kc := Rule(c)];
    RunTwo(t, e1, e2);
    UpdateOne(t, ns, a, b);
    var t1 := Step(t, e1);
    UpdateOne(t1, ns, c, a);
    var t2 := Step(t1, e2);
    RunTwo(t2, e1, e2);
    UpdateOne(t2, ns, a, b);
    UpdateOne(Step(t2, e1), ns, c, a);
  }

  lemma RunTwo(t: Table, c: Call, d: Call)
    ensures RunCalls(t, [c, d]) == Step(Step(t, c), d)
  {
    assert [c, d][..1] == [c] && [c][..0] == [];
    assert RunCalls(t, [c]) == Step(t, c);
  }

  lemma UpdateOne(t: Table, ns: Bytes, from: Line, to: Line)
    ensures Step(t, Update(ns, [from], [to])) == ReplaceLine(t, ns, from, to)
  {
    assert ReplaceLines(t, ns, [from][..0], [to][..0]) == t;
  }
}
