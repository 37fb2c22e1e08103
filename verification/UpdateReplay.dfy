/** Making the same adapter writes again, conditional updates among them, over the rows a crash left:
    exactly which lists of writes rebuild their rows, at which crash points
    (server/adapter/adapter.go:114-307). */
module UpdateReplay {
  import opened ByteStrings
  import opened Keys
  import opened Badger
  import opened Adapter
  import opened Refinement
  import opened Replay

  /** A write as it reaches the adapter, updates included. */
  datatype Write =
    | Plain(entry: Entry)
    | Replace(ns: Bytes, olds: seq<Line>, news: seq<Line>)

  function ApplyWrite(t: Table, w: Write): Table {
    match w
    case Plain(entry) => ApplyEntry(t, entry)
    case Replace(ns, olds, news) => Step(t, Update(ns, olds, news))
  }

  function RunWrites(t: Table, log: seq<Write>): Table {
    if log == [] then t else ApplyWrite(RunWrites(t, log[..|log| - 1]), log[|log| - 1])
  }

  // ---- key by key ----

  /** What a batch does to the stored keys, one turn of its loop at a time. */
  datatype Op =
    | Put(key: Bytes)
    | Drop(key: Bytes)
    | Sweep(ns: Bytes, ptype: Bytes, index: int, values: seq<Bytes>)
    | Move(from: Bytes, to: Bytes)

  function OpStep(s: set<Bytes>, o: Op): set<Bytes> {
    match o
    case Put(k) => s + {k}
    case Drop(k) => s - {k}
    case Sweep(ns, ptype, index, values) => set k | k in s && !FilterMatch(k, ns, ptype, index, values)
    case Move(from, to) => if from in s then s - {from} + {to} else s
  }

  function OpRun(s: set<Bytes>, ops: seq<Op>): set<Bytes> {
    if ops == [] then s else OpStep(OpRun(s, ops[..|ops| - 1]), ops[|ops| - 1])
  }

  /** The keys stored after the operations over an empty store. */
  function Added(ops: seq<Op>): set<Bytes> { OpRun({}, ops) }

  /** Where an operation leaves a stored key: under which key, or nowhere. */
  function OpFollow(o: Op, k: Bytes): Option<Bytes> {
    match o
    case Put(_) => Some(k)
    case Drop(x) => if k == x then None else Some(k)
    case Sweep(ns, ptype, index, values) => if FilterMatch(k, ns, ptype, index, values) then None else Some(k)
    case Move(from, to) => if k == from then Some(to) else Some(k)
  }

  function Follow(ops: seq<Op>, k: Bytes): Option<Bytes> {
    if ops == [] then Some(k)
    else
      var f := Follow(ops[..|ops| - 1], k);
      if f.None? then None else OpFollow(ops[|ops| - 1], f.value)
  }

  lemma {:induction false} FollowConcat(u: seq<Op>, v: seq<Op>, k: Bytes)
    ensures Follow(u + v, k) == if Follow(u, k).None? then None else Follow(v, Follow(u, k).value)
  {
    if v == [] {
      assert u + v == u;
    } else {
      var n := |v| - 1;
      assert (u + v)[..|u| + n] == u + v[..n] && (u + v)[|u| + n] == v[n];
      FollowConcat(u, v[..n], k);
    }
  }

  lemma {:induction false} OpRunConcat(s: set<Bytes>, u: seq<Op>, v: seq<Op>)
    ensures OpRun(s, u + v) == OpRun(OpRun(s, u), v)
  {
    if v == [] {
      assert u + v == u;
    } else {
      var n := |v| - 1;
      assert (u + v)[..|u| + n] == u + v[..n] && (u + v)[|u| + n] == v[n];
      OpRunConcat(s, u, v[..n]);
    }
  }

  function Carried(ops: seq<Op>, s: set<Bytes>): set<Bytes> {
    set k | k in s && Follow(ops, k).Some? :: Follow(ops, k).value
  }

  lemma CarriedHas(ops: seq<Op>, s: set<Bytes>, k: Bytes)
    requires k in s && Follow(ops, k).Some?
    ensures Follow(ops, k).value in Carried(ops, s)
  {}

  lemma StepSplits(s: set<Bytes>, t: set<Bytes>, o: Op)
    ensures OpStep(s + t, o) == OpStep(s, o) + OpStep(t, o)
  {}

  lemma StepCarries(s: set<Bytes>, o: Op, k: Bytes)
    ensures k in s && OpFollow(o, k).Some? ==> OpFollow(o, k).value in OpStep(s, o)
    ensures k in OpStep(s, o) ==> o == Put(k) || exists j :: j in s && OpFollow(o, j) == Some(k)
  {
    if k in OpStep(s, o) && o != Put(k) {
      var j := if o.Move? && k == o.to && o.from in s then o.from else k;
      assert j in s && OpFollow(o, j) == Some(k);
    }
  }

  /** Each stored key goes its own way: the keys after a run are those the run itself leaves, and
      those it carries over from the start. */
  lemma {:induction false} RunCarries(s: set<Bytes>, ops: seq<Op>)
    ensures OpRun(s, ops) == Carried(ops, s) + Added(ops)
  {
    if ops == [] {
      forall k | k in s ensures k in Carried(ops, s) { CarriedHas(ops, s, k); }
    } else {
      var n := |ops| - 1;
      var front, o := ops[..n], ops[n];
      RunCarries(s, front);
      StepSplits(Carried(front, s), Added(front), o);
      forall k ensures k in OpStep(Carried(front, s), o) + Added(ops) <==> k in Carried(ops, s) + Added(ops) {
        StepCarried(s, front, o, k);
        assert ops == front + [o];
      }
    }
  }

  lemma StepCarried(s: set<Bytes>, front: seq<Op>, o: Op, k: Bytes)
    ensures var ops := front + [o];
            k in OpStep(Carried(front, s), o) + Added(ops) <==> k in Carried(ops, s) + Added(ops)
  {
    var ops := front + [o];
    assert ops[..|front|] == front && Added(ops) == OpStep(Added(front), o);
    if k in OpStep(Carried(front, s), o) {
      StepCarries(Carried(front, s), o, k);
      if o != Put(k) {
        var j :| j in Carried(front, s) && OpFollow(o, j) == Some(k);
        var i :| i in s && Follow(front, i) == Some(j);
        CarriedHas(ops, s, i);
      }
    }
    if k in Carried(ops, s) {
      var i :| i in s && Follow(ops, i) == Some(k);
      CarriedHas(front, s, i);
      StepCarries(Carried(front, s), o, Follow(front, i).value);
    }
  }

  // ---- exactly when a replay rebuilds the keys ----

  /** The key ends nowhere, or where the run leaves a key anyway. */
  ghost predicate Within(f: Option<Bytes>, added: set<Bytes>) { f.None? || f.value in added }

  ghost predicate Alike(f: Option<Bytes>, g: Option<Bytes>, added: set<Bytes>) {
    f == g || (Within(f, added) && Within(g, added))
  }

  /** The keys a run moves away. */
  function Sources(ops: seq<Op>): set<Bytes> { set i | 0 <= i < |ops| && ops[i].Move? :: ops[i].from }

  /** Every key the part `p` leaves of its own ends up under the whole log where it leaves one anyway. */
  ghost predicate OwnSettled(p: seq<Op>, v: seq<Op>) {
    forall a | a in Added(p) :: Within(Follow(v, a), Added(v))
  }

  /** Read off the log: every key the part `p` leaves of its own, and every key `p` has moved,
      ends up under the whole log `v` where it would have ended without the crash. */
  ghost predicate Settled(p: seq<Op>, v: seq<Op>) {
    && OwnSettled(p, v)
    && (forall k | k in Sources(p) && Follow(p, k).Some? ::
          Alike(Follow(v, Follow(p, k).value), Follow(v, k), Added(v)))
  }

  lemma {:induction false} OnlySourcesMove(ops: seq<Op>, k: Bytes)
    ensures k in Sources(ops) || Follow(ops, k).None? || Follow(ops, k) == Some(k)
  {
    if ops != [] {
      var n := |ops| - 1;
      OnlySourcesMove(ops[..n], k);
      if k in Sources(ops[..n]) {
        var i :| 0 <= i < n && ops[..n][i].Move? && ops[..n][i].from == k;
        assert ops[i].from == k;
      }
    }
  }

  /** What the condition says of every key, moved or not. */
  lemma SettledEverywhere(p: seq<Op>, q: seq<Op>, k: Bytes)
    requires Settled(p, p + q)
    ensures Follow(p, k).None? ==> Follow(p + q, k).None?
    ensures Follow(p, k).Some? ==> Alike(Follow(p + q, Follow(p, k).value), Follow(p + q, k), Added(p + q))
  {
    OnlySourcesMove(p, k);
    FollowConcat(p, q, k);
  }

  /** Whatever is carried through the part and then the whole, or through the whole at once. */
  lemma SettledReplays(s: set<Bytes>, p: seq<Op>, q: seq<Op>)
    requires Settled(p, p + q)
    ensures OpRun(OpRun(s, p), p + q) == OpRun(s, p + q)
  {
    var v := p + q;
    RunCarries(s, p);
    RunCarries(s, v);
    RunCarries(OpRun(s, p), v);
    forall x | x in Carried(v, OpRun(s, p)) ensures x in OpRun(s, v) {
      var y :| y in OpRun(s, p) && Follow(v, y) == Some(x);
      if y !in Added(p) {
        var k :| k in s && Follow(p, k) == Some(y);
        SettledEverywhere(p, q, k);
        if Follow(v, k).Some? { CarriedHas(v, s, k); }
      }
    }
    forall x | x in Carried(v, s) ensures x in OpRun(OpRun(s, p), v) {
      var k :| k in s && Follow(v, k) == Some(x);
      SettledEverywhere(p, q, k);
      CarriedHas(p, s, k);
      var y := Follow(p, k).value;
      if Follow(v, y).Some? { CarriedHas(v, OpRun(s, p), y); }
    }
  }

  lemma OneCarried(ops: seq<Op>, k: Bytes)
    ensures Carried(ops, {k}) == if Follow(ops, k).None? then {} else {Follow(ops, k).value}
  {
    if Follow(ops, k).Some? { CarriedHas(ops, {k}, k); }
  }

  lemma ReplaysOwn(p: seq<Op>, v: seq<Op>, a: Bytes)
    requires OpRun(OpRun({}, p), v) == OpRun({}, v) && a in Added(p)
    ensures Within(Follow(v, a), Added(v))
  {
    RunCarries(Added(p), v);
    if Follow(v, a).Some? { CarriedHas(v, Added(p), a); }
  }

  lemma ReplaysMoved(p: seq<Op>, v: seq<Op>, k: Bytes)
    requires OpRun(OpRun({k}, p), v) == OpRun({k}, v) && Follow(p, k).Some?
    requires forall a | a in Added(p) :: Within(Follow(v, a), Added(v))
    ensures Alike(Follow(v, Follow(p, k).value), Follow(v, k), Added(v))
  {
    var y, s := Follow(p, k).value, OpRun({k}, p);
    RunCarries({k}, p);
    RunCarries({k}, v);
    RunCarries(s, v);
    OneCarried(p, k);
    OneCarried(v, k);
    if Follow(v, y).Some? { CarriedHas(v, s, y); }
    if Follow(v, k).Some? && !Within(Follow(v, k), Added(v)) {
      var z :| z in s && Follow(v, z) == Follow(v, k);
    }
  }

  ghost predicate KeysReplay(p: seq<Op>, v: seq<Op>) {
    forall s :: OpRun(OpRun(s, p), v) == OpRun(s, v)
  }

  /** Replaying the whole after a part rebuilds the keys from every start, exactly when the
      condition holds. */
  lemma KeysReplayExact(p: seq<Op>, q: seq<Op>)
    ensures KeysReplay(p, p + q) <==> Settled(p, p + q)
  {
    var v := p + q;
    if Settled(p, v) {
      forall s ensures OpRun(OpRun(s, p), v) == OpRun(s, v) { SettledReplays(s, p, q); }
    }
    if KeysReplay(p, v) {
      forall a | a in Added(p) ensures Within(Follow(v, a), Added(v)) { ReplaysOwn(p, v, a); }
      forall k | k in Sources(p) && Follow(p, k).Some? ensures Alike(Follow(v, Follow(p, k).value), Follow(v, k), Added(v)) {
        ReplaysMoved(p, v, k);
      }
    }
  }

  /** From an empty store only the part's own keys matter. */
  lemma EmptyKeysExact(p: seq<Op>, v: seq<Op>)
    ensures OpRun(OpRun({}, p), v) == OpRun({}, v) <==> OwnSettled(p, v)
  {
    RunCarries(Added(p), v);
    if OpRun(OpRun({}, p), v) == OpRun({}, v) {
      forall a | a in Added(p) ensures Within(Follow(v, a), Added(v)) { ReplaysOwn(p, v, a); }
    }
  }

  /** With the start's own keys kept beside the part's, a moved key may also be gone in the end. */
  ghost predicate Covered(p: seq<Op>, v: seq<Op>) {
    && OwnSettled(p, v)
    && (forall k | k in Sources(p) && Follow(p, k).Some? :: CoveredAt(p, v, k))
  }

  ghost predicate CoveredAt(p: seq<Op>, v: seq<Op>, k: Bytes)
    requires Follow(p, k).Some?
  {
    var f := Follow(v, Follow(p, k).value);
    Within(f, Added(v)) || f == Follow(v, k)
  }

  lemma CoveredEverywhere(p: seq<Op>, v: seq<Op>, k: Bytes)
    requires Covered(p, v) && Follow(p, k).Some?
    ensures CoveredAt(p, v, k)
  {
    OnlySourcesMove(p, k);
  }

  lemma CoveredMerges(s: set<Bytes>, p: seq<Op>, v: seq<Op>)
    requires Covered(p, v)
    ensures OpRun(OpRun(s, p) + s, v) == OpRun(s, v)
  {
    RunSplits(OpRun(s, p), s, v);
    RunCarries(s, p);
    RunCarries(s, v);
    RunCarries(OpRun(s, p), v);
    forall x | x in Carried(v, OpRun(s, p)) ensures x in OpRun(s, v) {
      var y :| y in OpRun(s, p) && Follow(v, y) == Some(x);
      if y !in Added(p) {
        var k :| k in s && Follow(p, k) == Some(y);
        CoveredEverywhere(p, v, k);
        if Follow(v, k).Some? { CarriedHas(v, s, k); }
      }
    }
  }

  ghost predicate KeysMerge(p: seq<Op>, v: seq<Op>) {
    forall s :: OpRun(OpRun(s, p) + s, v) == OpRun(s, v)
  }

  lemma MergesMoved(p: seq<Op>, v: seq<Op>, k: Bytes)
    requires OpRun(OpRun({k}, p) + {k}, v) == OpRun({k}, v) && Follow(p, k).Some?
    ensures CoveredAt(p, v, k)
  {
    var y, s := Follow(p, k).value, OpRun({k}, p) + {k};
    RunCarries({k}, p);
    RunCarries({k}, v);
    RunCarries(s, v);
    OneCarried(p, k);
    OneCarried(v, k);
    if Follow(v, y).Some? { CarriedHas(v, s, y); }
  }

  /** Replaying the whole over the part's keys beside the start's, exactly when they are covered. */
  lemma KeysMergeExact(p: seq<Op>, v: seq<Op>)
    ensures KeysMerge(p, v) <==> Covered(p, v)
  {
    if Covered(p, v) {
      forall s ensures OpRun(OpRun(s, p) + s, v) == OpRun(s, v) { CoveredMerges(s, p, v); }
    }
    if KeysMerge(p, v) {
      assert OpRun({}, p) + {} == OpRun({}, p);
      assert OpRun(OpRun({}, p) + {}, v) == OpRun({}, v);
      EmptyKeysExact(p, v);
      forall k | k in Sources(p) && Follow(p, k).Some? ensures CoveredAt(p, v, k) { MergesMoved(p, v, k); }
    }
  }

  lemma SettledCovers(p: seq<Op>, v: seq<Op>)
    requires Settled(p, v)
    ensures Covered(p, v)
  {}

  // ---- logs that are settled everywhere ----

  ghost predicate Leaves(o: Op, k: Bytes) { OpFollow(o, k) == Some(k) }

  /** No update's new key was moved or removed before it, and no added key was moved before it. */
  ghost predicate NoReuse(ops: seq<Op>) {
    forall i, j | 0 <= j < i < |ops| ::
      && (ops[i].Move? ==> Leaves(ops[j], ops[i].to))
      && (ops[i].Put? && ops[j].Move? ==> Leaves(ops[j], ops[i].key))
  }

  lemma {:induction false} LeftAlone(ops: seq<Op>, k: Bytes)
    requires forall j | 0 <= j < |ops| :: Leaves(ops[j], k) || (!ops[j].Move? && OpFollow(ops[j], k).None?)
    ensures Follow(ops, k).None? || Follow(ops, k) == Some(k)
    ensures (forall j | 0 <= j < |ops| :: Leaves(ops[j], k)) ==> Follow(ops, k) == Some(k)
  {
    if ops != [] {
      var n := |ops| - 1;
      assert forall j | 0 <= j < n :: ops[..n][j] == ops[j];
      LeftAlone(ops[..n], k);
    }
  }

  /** A moved key stays where it landed when the operations run again. */
  lemma {:induction false} Landed(ops: seq<Op>, k: Bytes)
    requires NoReuse(ops) && Follow(ops, k).Some?
    ensures var f := Follow(ops, k).value; f == k || Follow(ops, f) == Some(f)
  {
    if ops != [] {
      var n := |ops| - 1;
      var front, o := ops[..n], ops[n];
      assert forall j | 0 <= j < n :: front[j] == ops[j];
      Landed(front, k);
      if o.Move? { LeftAlone(front, o.to); }
    }
  }

  /** An added key is still there, or gone, when the operations run again. */
  lemma {:induction false} AddedStays(ops: seq<Op>, a: Bytes)
    requires NoReuse(ops) && a in Added(ops)
    ensures Follow(ops, a).None? || Follow(ops, a) == Some(a)
  {
    if ops != [] {
      var n := |ops| - 1;
      var front, o := ops[..n], ops[n];
      assert forall j | 0 <= j < n :: front[j] == ops[j];
      if a in Added(front) {
        AddedStays(front, a);
        if o.Move? { LeftAlone(front, o.to); }
      } else {
        assert o == Put(a) || (o.Move? && o.to == a);
        LeftAlone(front, a);
      }
    }
  }

  lemma NoReuseSettled(p: seq<Op>, q: seq<Op>)
    requires NoReuse(p + q)
    ensures Settled(p, p + q)
  {
    var v := p + q;
    assert NoReuse(p) by { assert forall i | 0 <= i < |p| :: p[i] == v[i]; }
    OpRunConcat({}, p, q);
    RunCarries(Added(p), q);
    forall a | a in Added(p) ensures Within(Follow(v, a), Added(v)) {
      AddedStays(p, a);
      FollowConcat(p, q, a);
      if Follow(v, a).Some? { CarriedHas(q, Added(p), a); }
    }
    forall k | k in Sources(p) && Follow(p, k).Some? ensures Alike(Follow(v, Follow(p, k).value), Follow(v, k), Added(v)) {
      Landed(p, k);
      FollowConcat(p, q, k);
      FollowConcat(p, q, Follow(p, k).value);
    }
  }

  // ---- from keys to rows ----

  function PutOps(ns: Bytes, lines: seq<Line>): seq<Op> {
    seq(|lines|, i requires 0 <= i < |lines| => Put(RowKey(ns, lines[i])))
  }

  function DropOps(ns: Bytes, lines: seq<Line>): seq<Op> {
    seq(|lines|, i requires 0 <= i < |lines| => Drop(RowKey(ns, lines[i])))
  }

  function MoveOps(ns: Bytes, olds: seq<Line>, news: seq<Line>): seq<Op>
    requires |olds| == |news|
  {
    seq(|olds|, i requires 0 <= i < |olds| => Move(RowKey(ns, olds[i]), RowKey(ns, news[i])))
  }

  /** The turns of a write; an update with lists of different lengths has none. */
  function OpsOf(w: Write): seq<Op> {
    match w
    case Plain(RegisterEntry(ns)) => [Put(RegistryKey(ns))]
    case Plain(AddEntry(ns, lines)) => PutOps(ns, lines)
    case Plain(RemoveEntry(ns, lines)) => DropOps(ns, lines)
    case Plain(FilterEntry(ns, ptype, index, values)) => [Sweep(ns, ptype, index, values)]
    case Replace(ns, olds, news) => if |olds| == |news| then MoveOps(ns, olds, news) else []
  }

  function LogOps(log: seq<Write>): seq<Op> {
    if log == [] then [] else LogOps(log[..|log| - 1]) + OpsOf(log[|log| - 1])
  }

  lemma ConcatAssociates(a: seq<Op>, b: seq<Op>, c: seq<Op>)
    ensures a + b + c == a + (b + c)
  {}

  lemma LogOpsSnoc(log: seq<Write>, w: Write)
    ensures LogOps(log + [w]) == LogOps(log) + OpsOf(w)
  {
    assert (log + [w])[..|log|] == log;
  }

  lemma {:induction false} LogOpsConcat(u: seq<Write>, v: seq<Write>)
    ensures LogOps(u + v) == LogOps(u) + LogOps(v)
  {
    if v == [] {
      assert u + v == u;
    } else {
      var front, w := v[..|v| - 1], v[|v| - 1];
      assert v == front + [w];
      assert u + v == (u + front) + [w];
      LogOpsSnoc(u + front, w);
      LogOpsSnoc(front, w);
      LogOpsConcat(u, front);
      ConcatAssociates(LogOps(u), LogOps(front), OpsOf(w));
    }
  }

  lemma OpRunSnoc(s: set<Bytes>, ops: seq<Op>, o: Op)
    ensures OpRun(s, ops + [o]) == OpStep(OpRun(s, ops), o)
  {
    assert (ops + [o])[..|ops|] == ops;
  }

  lemma {:induction false} PutKeys(t: Table, ns: Bytes, lines: seq<Line>)
    ensures PutLines(t, ns, lines).Keys == OpRun(t.Keys, PutOps(ns, lines))
  {
    if lines != [] {
      var n := |lines| - 1;
      PutKeys(t, ns, lines[..n]);
      assert PutOps(ns, lines) == PutOps(ns, lines[..n]) + [Put(RowKey(ns, lines[n]))];
      OpRunSnoc(t.Keys, PutOps(ns, lines[..n]), Put(RowKey(ns, lines[n])));
    }
  }

  lemma {:induction false} DropKeys(t: Table, ns: Bytes, lines: seq<Line>)
    ensures EraseLines(t, ns, lines).Keys == OpRun(t.Keys, DropOps(ns, lines))
  {
    if lines != [] {
      var n := |lines| - 1;
      DropKeys(t, ns, lines[..n]);
      assert DropOps(ns, lines) == DropOps(ns, lines[..n]) + [Drop(RowKey(ns, lines[n]))];
      OpRunSnoc(t.Keys, DropOps(ns, lines[..n]), Drop(RowKey(ns, lines[n])));
    }
  }

  lemma {:induction false} MoveKeys(t: Table, ns: Bytes, olds: seq<Line>, news: seq<Line>)
    requires |olds| == |news|
    ensures ReplaceLines(t, ns, olds, news).Keys == OpRun(t.Keys, MoveOps(ns, olds, news))
  {
    if olds != [] {
      var n := |olds| - 1;
      var front, o := MoveOps(ns, olds[..n], news[..n]), Move(RowKey(ns, olds[n]), RowKey(ns, news[n]));
      MoveKeys(t, ns, olds[..n], news[..n]);
      assert MoveOps(ns, olds, news) == front + [o];
      OpRunSnoc(t.Keys, front, o);
    }
  }

  lemma WriteKeys(t: Table, w: Write)
    ensures ApplyWrite(t, w).Keys == OpRun(t.Keys, OpsOf(w))
  {
    match w
    case Plain(RegisterEntry(ns)) => OpRunSnoc(t.Keys, [], Put(RegistryKey(ns)));
    case Plain(AddEntry(ns, lines)) => PutKeys(t, ns, lines);
    case Plain(RemoveEntry(ns, lines)) => DropKeys(t, ns, lines);
    case Plain(FilterEntry(ns, ptype, index, values)) => OpRunSnoc(t.Keys, [], Sweep(ns, ptype, index, values));
    case Replace(ns, olds, news) => if |olds| == |news| { MoveKeys(t, ns, olds, news); }
  }

  /** The stored keys after a log are those its turns leave. */
  lemma {:induction false} RunKeys(t: Table, log: seq<Write>)
    ensures RunWrites(t, log).Keys == OpRun(t.Keys, LogOps(log))
  {
    if log != [] {
      var n := |log| - 1;
      RunKeys(t, log[..n]);
      WriteKeys(RunWrites(t, log[..n]), log[n]);
      OpRunConcat(t.Keys, LogOps(log[..n]), OpsOf(log[n]));
    }
  }

  // ---- rows ----

  ghost predicate RowOf(names: set<Bytes>, k: Bytes, ns: Bytes, l: Line) {
    ns in names && WellFormed(l) && k == RowKey(ns, l)
  }

  /** The value a key has whenever it is stored: the line it spells, or nothing. */
  ghost function ValueOf(names: set<Bytes>, k: Bytes): Value {
    if exists ns, l :: RowOf(names, k, ns, l) then
      var ns, l :| RowOf(names, k, ns, l);
      Rule(l)
    else Blank
  }

  lemma RowValue(names: set<Bytes>, ns: Bytes, l: Line)
    requires PrefixFree(names) && ns in names && WellFormed(l)
    ensures ValueOf(names, RowKey(ns, l)) == Rule(l)
  {
    var k := RowKey(ns, l);
    assert RowOf(names, k, ns, l);
    forall m, x | RowOf(names, k, m, x) ensures x == l { RowKeyInjective(names, m, x, ns, l); }
  }

  lemma RegistryValue(names: set<Bytes>, ns: Bytes)
    ensures ValueOf(names, RegistryKey(ns)) == Blank
  {
    forall m, l ensures !RowOf(names, RegistryKey(ns), m, l) {
      assert RegistryKey(ns)[0] == 0 && RowKey(m, l)[0] == 1;
    }
  }

  ghost predicate Canonical(names: set<Bytes>, t: Table) { forall k | k in t :: t[k] == ValueOf(names, k) }

  /** Only what is written needs a known namespace and well-formed lines. */
  ghost predicate WriteOk(names: set<Bytes>, w: Write) {
    match w
    case Plain(AddEntry(ns, lines)) => ns in names && AllWellFormed(lines)
    case Replace(ns, _, news) => ns in names && AllWellFormed(news)
    case _ => true
  }

  ghost predicate AllWritesOk(names: set<Bytes>, log: seq<Write>) {
    forall i | 0 <= i < |log| :: WriteOk(names, log[i])
  }

  lemma {:induction false} PutCanonical(names: set<Bytes>, t: Table, ns: Bytes, lines: seq<Line>)
    requires PrefixFree(names) && ns in names && AllWellFormed(lines) && Canonical(names, t)
    ensures Canonical(names, PutLines(t, ns, lines))
  {
    if lines != [] {
      PutCanonical(names, t, ns, lines[..|lines| - 1]);
      RowValue(names, ns, lines[|lines| - 1]);
    }
  }

  lemma {:induction false} EraseCanonical(names: set<Bytes>, t: Table, ns: Bytes, lines: seq<Line>)
    requires Canonical(names, t)
    ensures Canonical(names, EraseLines(t, ns, lines))
  {
    if lines != [] { EraseCanonical(names, t, ns, lines[..|lines| - 1]); }
  }

  lemma {:induction false} ReplaceCanonical(names: set<Bytes>, t: Table, ns: Bytes, olds: seq<Line>, news: seq<Line>)
    requires PrefixFree(names) && ns in names && AllWellFormed(news) && Canonical(names, t) && |olds| == |news|
    ensures Canonical(names, ReplaceLines(t, ns, olds, news))
  {
    if olds != [] {
      var n := |olds| - 1;
      ReplaceCanonical(names, t, ns, olds[..n], news[..n]);
      RowValue(names, ns, news[n]);
    }
  }

  lemma WriteCanonical(names: set<Bytes>, t: Table, w: Write)
    requires PrefixFree(names) && WriteOk(names, w) && Canonical(names, t)
    ensures Canonical(names, ApplyWrite(t, w))
  {
    match w
    case Plain(RegisterEntry(ns)) => RegistryValue(names, ns);
    case Plain(AddEntry(ns, lines)) => PutCanonical(names, t, ns, lines);
    case Plain(RemoveEntry(ns, lines)) => EraseCanonical(names, t, ns, lines);
    case Plain(FilterEntry(_, _, _, _)) =>
    case Replace(ns, olds, news) => if |olds| == |news| { ReplaceCanonical(names, t, ns, olds, news); }
  }

  lemma {:induction false} RunCanonical(names: set<Bytes>, t: Table, log: seq<Write>)
    requires PrefixFree(names) && AllWritesOk(names, log) && Canonical(names, t)
    ensures Canonical(names, RunWrites(t, log))
  {
    if log != [] {
      var n := |log| - 1;
      RunCanonical(names, t, log[..n]);
      WriteCanonical(names, RunWrites(t, log[..n]), log[n]);
    }
  }

  lemma CanonicalByKeys(names: set<Bytes>, t: Table, u: Table)
    requires Canonical(names, t) && Canonical(names, u) && t.Keys == u.Keys
    ensures t == u
  {
    forall k | k in t ensures k in u && t[k] == u[k] { assert k in u.Keys; }
    forall k | k in u ensures k in t { assert k in t.Keys; }
  }

  // ---- the main results ----

  /** Replaying the log over the rows that `m` of its entries left rebuilds its rows, from every
      table of rows. */
  ghost predicate Rebuilds(names: set<Bytes>, log: seq<Write>, m: nat)
    requires m <= |log|
  {
    forall t | Canonical(names, t) :: RunWrites(RunWrites(t, log[..m]), log) == RunWrites(t, log)
  }

  lemma CrashKeys(t: Table, log: seq<Write>, m: nat)
    requires m <= |log|
    ensures RunWrites(RunWrites(t, log[..m]), log).Keys == OpRun(OpRun(t.Keys, LogOps(log[..m])), LogOps(log))
    ensures RunWrites(t, log).Keys == OpRun(t.Keys, LogOps(log))
  {
    RunKeys(t, log[..m]);
    RunKeys(RunWrites(t, log[..m]), log);
    RunKeys(t, log);
  }

  lemma CutOps(log: seq<Write>, m: nat)
    requires m <= |log|
    ensures LogOps(log) == LogOps(log[..m]) + LogOps(log[m..])
  {
    assert log == log[..m] + log[m..];
    LogOpsConcat(log[..m], log[m..]);
  }

  lemma SettledRebuilds(names: set<Bytes>, log: seq<Write>, m: nat, t: Table)
    requires PrefixFree(names) && AllWritesOk(names, log) && m <= |log| && Canonical(names, t)
    requires KeysReplay(LogOps(log[..m]), LogOps(log))
    ensures RunWrites(RunWrites(t, log[..m]), log) == RunWrites(t, log)
  {
    CrashKeys(t, log, m);
    RunCanonical(names, t, log[..m]);
    RunCanonical(names, RunWrites(t, log[..m]), log);
    RunCanonical(names, t, log);
    CanonicalByKeys(names, RunWrites(RunWrites(t, log[..m]), log), RunWrites(t, log));
  }

  lemma RebuildsKeys(names: set<Bytes>, log: seq<Write>, m: nat, s: set<Bytes>)
    requires m <= |log| && Rebuilds(names, log, m)
    ensures OpRun(OpRun(s, LogOps(log[..m])), LogOps(log)) == OpRun(s, LogOps(log))
  {
    var t: Table := map k | k in s :: ValueOf(names, k);
    assert t.Keys == s && Canonical(names, t);
    CrashKeys(t, log, m);
  }

  /** Main result: for every log of registrations, additions, removals, filtered removals and
      conditional updates, and every crash point, the replay rebuilds the rows from every start if
      and only if the entries already applied are settled in the log. */
  lemma ReplayExact(names: set<Bytes>, log: seq<Write>, m: nat)
    requires PrefixFree(names) && AllWritesOk(names, log) && m <= |log|
    ensures Rebuilds(names, log, m) <==> Settled(LogOps(log[..m]), LogOps(log))
  {
    CutOps(log, m);
    KeysReplayExact(LogOps(log[..m]), LogOps(log[m..]));
    if Settled(LogOps(log[..m]), LogOps(log)) {
      forall t | Canonical(names, t) ensures RunWrites(RunWrites(t, log[..m]), log) == RunWrites(t, log) {
        SettledRebuilds(names, log, m, t);
      }
    }
    if Rebuilds(names, log, m) {
      forall s ensures OpRun(OpRun(s, LogOps(log[..m])), LogOps(log)) == OpRun(s, LogOps(log)) {
        RebuildsKeys(names, log, m, s);
      }
    }
  }

  /** From an empty table, as after a first start: exactly when the entries' own keys are settled. */
  lemma EmptyReplayExact(names: set<Bytes>, log: seq<Write>, m: nat)
    requires PrefixFree(names) && AllWritesOk(names, log) && m <= |log|
    ensures RunWrites(RunWrites(map[], log[..m]), log) == RunWrites(map[], log) <==>
            OwnSettled(LogOps(log[..m]), LogOps(log))
  {
    var t: Table := map[];
    CrashKeys(t, log, m);
    EmptyKeysExact(LogOps(log[..m]), LogOps(log));
    RunCanonical(names, t, log[..m]);
    RunCanonical(names, RunWrites(t, log[..m]), log);
    RunCanonical(names, t, log);
    assert t.Keys == {};
    if OwnSettled(LogOps(log[..m]), LogOps(log)) {
      CanonicalByKeys(names, RunWrites(RunWrites(t, log[..m]), log), RunWrites(t, log));
    }
  }

  /** The same with the snapshot's rows loaded over the survivors. */
  ghost predicate RebuildsMerged(names: set<Bytes>, log: seq<Write>, m: nat)
    requires m <= |log|
  {
    forall t | Canonical(names, t) :: RunWrites(RunWrites(t, log[..m]) + t, log) == RunWrites(t, log)
  }

  lemma MergedKeys(t: Table, log: seq<Write>, m: nat)
    requires m <= |log|
    ensures RunWrites(RunWrites(t, log[..m]) + t, log).Keys == OpRun(OpRun(t.Keys, LogOps(log[..m])) + t.Keys, LogOps(log))
    ensures RunWrites(t, log).Keys == OpRun(t.Keys, LogOps(log))
  {
    var far := RunWrites(t, log[..m]);
    RunKeys(t, log[..m]);
    RunKeys(far + t, log);
    RunKeys(t, log);
    assert (far + t).Keys == far.Keys + t.Keys;
  }

  lemma CoveredRebuilds(names: set<Bytes>, log: seq<Write>, m: nat, t: Table)
    requires PrefixFree(names) && AllWritesOk(names, log) && m <= |log| && Canonical(names, t)
    requires KeysMerge(LogOps(log[..m]), LogOps(log))
    ensures RunWrites(RunWrites(t, log[..m]) + t, log) == RunWrites(t, log)
  {
    MergedKeys(t, log, m);
    RunCanonical(names, t, log[..m]);
    RunCanonical(names, RunWrites(t, log[..m]) + t, log);
    RunCanonical(names, t, log);
    CanonicalByKeys(names, RunWrites(RunWrites(t, log[..m]) + t, log), RunWrites(t, log));
  }

  lemma MergedRebuildsKeys(names: set<Bytes>, log: seq<Write>, m: nat, s: set<Bytes>)
    requires m <= |log| && RebuildsMerged(names, log, m)
    ensures OpRun(OpRun(s, LogOps(log[..m])) + s, LogOps(log)) == OpRun(s, LogOps(log))
  {
    var t: Table := map k | k in s :: ValueOf(names, k);
    assert t.Keys == s && Canonical(names, t);
    MergedKeys(t, log, m);
  }

  /** Each stored key still goes its own way: exactly when the entries already applied are covered,
      which settled ones are. */
  lemma MergedReplay(names: set<Bytes>, log: seq<Write>, m: nat)
    requires PrefixFree(names) && AllWritesOk(names, log) && m <= |log|
    ensures RebuildsMerged(names, log, m) <==> Covered(LogOps(log[..m]), LogOps(log))
    ensures Settled(LogOps(log[..m]), LogOps(log)) ==> Covered(LogOps(log[..m]), LogOps(log))
  {
    var p, v := LogOps(log[..m]), LogOps(log);
    KeysMergeExact(p, v);
    if Settled(p, v) { SettledCovers(p, v); }
    if Covered(p, v) {
      forall t | Canonical(names, t) ensures RunWrites(RunWrites(t, log[..m]) + t, log) == RunWrites(t, log) {
        CoveredRebuilds(names, log, m, t);
      }
    }
    if RebuildsMerged(names, log, m) {
      forall s ensures OpRun(OpRun(s, p) + s, v) == OpRun(s, v) { MergedRebuildsKeys(names, log, m, s); }
    }
  }

  lemma {:induction false} RunSplits(s: set<Bytes>, t: set<Bytes>, ops: seq<Op>)
    ensures OpRun(s + t, ops) == OpRun(s, ops) + OpRun(t, ops)
  {
    if ops != [] {
      var n := |ops| - 1;
      RunSplits(s, t, ops[..n]);
      StepSplits(OpRun(s, ops[..n]), OpRun(t, ops[..n]), ops[n]);
    }
  }

  /** A log whose updates write no key that was moved or removed before, and that adds no key that
      was moved before, replays from every crash point. */
  lemma NoReuseReplays(names: set<Bytes>, log: seq<Write>, m: nat)
    requires PrefixFree(names) && AllWritesOk(names, log) && m <= |log| && NoReuse(LogOps(log))
    ensures Rebuilds(names, log, m)
  {
    CutOps(log, m);
    NoReuseSettled(LogOps(log[..m]), LogOps(log[m..]));
    ReplayExact(names, log, m);
  }
}
