/** Runs from an empty node at which the properties that do not hold fail, with a sample of what is
    taken from Casbin that meets every condition the theorems put on it. */
module Failures {
  import opened ByteStrings
  import opened Keys
  import opened Badger
  import opened Adapter
  import opened Refinement
  import opened Filtering
  import opened Fsm
  import opened Casbin
  import opened Coherence
  import Replay
  import opened Restart
  import opened Snapshots
  import LineReplay
  import opened Divergence

  /** Texts parse as they are, lines survive the comma join, updates go all or none, filters go
      field by field. */
  ghost const SAMPLE: Engine := Engine(
    text => Some(text),
    l => l,
    (rules, olds, news) => (AllOrNone(rules, olds, news), true),
    (rules, ptype, index, values) => (Keep(rules, l => MemMatch(l, ptype, index, values)), []),
    (model, rules, params) => Deny)

  lemma SampleOk()
    ensures EngineOk(SAMPLE) && FiltersByField(SAMPLE) && UpdatesAllOrNone(SAMPLE)
    ensures forall l | WellFormed(l) :: Sound(SAMPLE, l)
  {}

  const NS: Bytes := [50]
  const TEXT: Bytes := [109]
  const P: Bytes := [112]
  const P2: Bytes := [112, 50]
  const A: Bytes := [97]
  const B: Bytes := [98]
  const AB: Bytes := [97, 98]

  const NAMES: set<Bytes> := {NS}

  /** One namespace, and the line added to it. */
  function Only(l: Line): (scope: Policies)
    ensures scope.Keys == NAMES && NamesOk(scope.Keys)
  {
    map[NS := {l}]
  }

  /** A namespace with a model and one rule. */
  function Seed(ptype: Bytes, rule: seq<Bytes>): seq<Command> {
    [CreateNamespace(NS), SetModel(NS, TEXT), AddPolicies(NS, ptype, [rule])]
  }

  lemma SeedAllowed(ptype: Bytes, rule: seq<Bytes>)
    requires WellFormed([ptype] + rule)
    ensures AllAllowed(SAMPLE, Only([ptype] + rule), Seed(ptype, rule))
  {
    assert Convert(ptype, [rule]) == [[ptype] + rule];
  }

  lemma SeedRun(ptype: Bytes, rule: seq<Bytes>)
    ensures var n1 := Apply(SAMPLE, EMPTY, CreateNamespace(NS)).0;
            var n2 := Apply(SAMPLE, n1, SetModel(NS, TEXT)).0;
            && Run(SAMPLE, EMPTY, Seed(ptype, rule)[..2]) == n2
            && Run(SAMPLE, EMPTY, Seed(ptype, rule)) == Apply(SAMPLE, n2, AddPolicies(NS, ptype, [rule])).0
  {
    var log := Seed(ptype, rule);
    assert log[..2][..1] == log[..1] && log[..1][..0] == [];
    assert Run(SAMPLE, EMPTY, log[..1]) == Apply(SAMPLE, EMPTY, log[0]).0;
    assert Run(SAMPLE, EMPTY, log[..2]) == Apply(SAMPLE, Run(SAMPLE, EMPTY, log[..1]), log[1]).0;
  }

  /** Memory after the first two commands holds nothing. */
  lemma Opened()
    ensures var n := Apply(SAMPLE, Apply(SAMPLE, EMPTY, CreateNamespace(NS)).0, SetModel(NS, TEXT)).0;
            NS in n.enforcers && n.enforcers[NS] == Enforcer(Some(TEXT), {})
  {
    var t: Table := map[RegistryKey(NS) := Blank];
    assert Register(map[], NS) == t;
    assert RegistryKey(NS)[0] == 0;
    assert Refines(t, map[], NAMES);
    LoadSetIsRules(SAMPLE, t, map[], NAMES, NS);
  }

  lemma SeedMemory(ptype: Bytes, rule: seq<Bytes>)
    ensures var n := Run(SAMPLE, EMPTY, Seed(ptype, rule));
            NS in n.enforcers && n.enforcers[NS] == Enforcer(Some(TEXT), {[ptype] + rule})
  {
    SeedRun(ptype, rule);
    Opened();
    var l := [ptype] + rule;
    assert Convert(ptype, [rule]) == [l] && {} + ToLineSet([l]) == {l};
  }

  /** A coherent node whose memory of the namespace is one colon-free rule. */
  ghost predicate OneRule(a: Policies, n: Node, l: Line) {
    && NamesOk(NAMES) && Coherent(SAMPLE, NAMES, a, n) && AllColonFree(a, NAMES)
    && NS in n.enforcers && n.enforcers[NS] == Enforcer(Some(TEXT), {l})
  }

  lemma Seeded(ptype: Bytes, rule: seq<Bytes>) returns (a: Policies)
    requires ColonFree([ptype] + rule)
    ensures OneRule(a, Run(SAMPLE, EMPTY, Seed(ptype, rule)), [ptype] + rule)
  {
    var log := Seed(ptype, rule);
    SampleOk();
    SeedAllowed(ptype, rule);
    RunCoherent(SAMPLE, Only([ptype] + rule), map[], EMPTY, log);
    a := AbsRun(SAMPLE, map[], EMPTY, log);
    SeedMemory(ptype, rule);
    MemoryIsRules(SAMPLE, NAMES, a, Run(SAMPLE, EMPTY, log), NS);
  }

  ghost predicate OutOfStep(n: Node, c: Command) {
    var n' := Apply(SAMPLE, n, c).0;
    NS in n'.enforcers && !InStep(SAMPLE, n', NS)
  }

  // ---- filtered removal ----

  lemma FilterSplits(a: Policies, n: Node)
    requires OneRule(a, n, [P, AB])
    ensures OutOfStep(n, RemoveFiltered(NS, P, 0, [A]))
  {
    SampleOk();
    LongerField();
    FieldZeroInStep(SAMPLE, NAMES, a, n, NS, P, [A]);
  }

  lemma LongerField()
    ensures !AlikeAtZero([P, AB], P, [A])
    ensures Readable([P, AB], P, 0, [A]) && ColonFree([P] + [A])
  {
    FieldZeroPlain([P, AB], P, [A]);
    FieldPrefixFields([P, AB], P, [A]);
  }

  /** Removing `p, a` leaves the rule `p, ab` in memory and takes its row. */
  lemma FilterFails()
    ensures OutOfStep(Run(SAMPLE, EMPTY, Seed(P, [AB])), RemoveFiltered(NS, P, 0, [A]))
  {
    var a := Seeded(P, [AB]);
    assert [P] + [AB] == [P, AB];
    FilterSplits(a, Run(SAMPLE, EMPTY, Seed(P, [AB])));
  }

  lemma LaterFilterSplits(a: Policies, n: Node)
    requires OneRule(a, n, [P2, A, B])
    ensures OutOfStep(n, RemoveFiltered(NS, P, 1, [B]))
  {
    SampleOk();
    LaterFieldInStep(SAMPLE, NAMES, a, n, NS, P, 1, [B]);
    FieldRemovedMeaning(NS, [P2, A, B], P, 1, [B]);
  }

  /** Removing `b` at field 1 of type p takes the row of a p2 rule and leaves it in memory. */
  lemma LaterFilterFails()
    ensures OutOfStep(Run(SAMPLE, EMPTY, Seed(P2, [A, B])), RemoveFiltered(NS, P, 1, [B]))
  {
    var a := Seeded(P2, [A, B]);
    assert [P2] + [A, B] == [P2, A, B];
    LaterFilterSplits(a, Run(SAMPLE, EMPTY, Seed(P2, [A, B])));
  }

  lemma WildcardSplits(a: Policies, n: Node)
    requires OneRule(a, n, [P, A, B])
    ensures OutOfStep(n, RemoveFiltered(NS, P, 1, [[]]))
  {
    SampleOk();
    LaterFieldInStep(SAMPLE, NAMES, a, n, NS, P, 1, [[]]);
    assert MemMatch([P, A, B], P, 1, [[]]) && !HasField([P, A, B], 1, []);
  }

  /** An empty value at field 1 takes the rule from memory and leaves its row. */
  lemma WildcardFails()
    ensures OutOfStep(Run(SAMPLE, EMPTY, Seed(P, [A, B])), RemoveFiltered(NS, P, 1, [[]]))
  {
    var a := Seeded(P, [A, B]);
    assert [P] + [A, B] == [P, A, B];
    WildcardSplits(a, Run(SAMPLE, EMPTY, Seed(P, [A, B])));
  }

  lemma NegativeSplits(a: Policies, n: Node)
    requires OneRule(a, n, [P, A])
    ensures OutOfStep(n, RemoveFiltered(NS, P, -1, [[]]))
  {
    SampleOk();
    NegativeInStep(SAMPLE, NAMES, a, n, NS, P, -1, [[]]);
    assert MemMatch([P, A], P, -1, [[]]);
  }

  /** An empty value at a negative field takes every rule of the type from memory and no row. */
  lemma NegativeFails()
    ensures OutOfStep(Run(SAMPLE, EMPTY, Seed(P, [A])), RemoveFiltered(NS, P, -1, [[]]))
  {
    var a := Seeded(P, [A]);
    assert [P] + [A] == [P, A];
    NegativeSplits(a, Run(SAMPLE, EMPTY, Seed(P, [A])));
  }

  // ---- batch update ----

  lemma UpdateSplits(a: Policies, n: Node)
    requires OneRule(a, n, [P, A])
    ensures OutOfStep(n, UpdatePolicies(NS, P, [[A], [B]], [[AB], [P]]))
  {
    SampleOk();
    var from, to := Convert(P, [[A], [B]]), Convert(P, [[AB], [P]]);
    PairLines(A, B);
    PairLines(AB, P);
    HalfStored(from, to);
    UpdateInStep(SAMPLE, NAMES, a, n, NS, P, [[A], [B]], [[AB], [P]]);
  }

  lemma PairLines(x: Bytes, y: Bytes)
    requires COLON !in x && COLON !in y
    ensures Convert(P, [[x], [y]]) == [[P, x], [P, y]] && AllSound(SAMPLE, [[P, x], [P, y]])
  {
    assert [P] + [x] == [P, x] && [P] + [y] == [P, y];
    assert WellFormed([P, x]) && WellFormed([P, y]);
  }

  lemma HalfStored(from: seq<Line>, to: seq<Line>)
    requires from == [[P, A], [P, B]] && to == [[P, AB], [P, P]]
    ensures Separate({[P, A]}, from, to)
    ensures !(ToLineSet(from) <= {[P, A]}) && !(ToLineSet(from) !! {[P, A]})
  {
    assert from[0] in ToLineSet(from) && from[1] in ToLineSet(from);
    assert from[0][1] == A && from[1][1] == B && to[0][1] == AB && to[1][1] == P;
  }

  /** Updating a stored and a missing rule replaces the stored one on disk and neither in memory. */
  lemma UpdateFails()
    ensures OutOfStep(Run(SAMPLE, EMPTY, Seed(P, [A])), UpdatePolicies(NS, P, [[A], [B]], [[AB], [P]]))
  {
    var a := Seeded(P, [A]);
    assert [P] + [A] == [P, A];
    UpdateSplits(a, Run(SAMPLE, EMPTY, Seed(P, [A])));
  }

  lemma UnevenSplits(a: Policies, n: Node)
    requires OneRule(a, n, [P, A])
    ensures OutOfStep(n, UpdatePolicies(NS, P, [[A]], [[AB], [P]]))
  {
    SampleOk();
    var from, to := Convert(P, [[A]]), Convert(P, [[AB], [P]]);
    assert [P] + [A] == [P, A] && from == [[P, A]];
    PairLines(AB, P);
    OneStored(from, to);
    UpdateInStep(SAMPLE, NAMES, a, n, NS, P, [[A]], [[AB], [P]]);
  }

  lemma OneStored(from: seq<Line>, to: seq<Line>)
    requires from == [[P, A]] && to == [[P, AB], [P, P]]
    ensures Separate({[P, A]}, from, to) && AllFound({[P, A]}, from) && AllSound(SAMPLE, from)
  {
    assert from[0][1] == A && to[0][1] == AB;
    assert WellFormed([P, A]);
  }

  /** Lists of different lengths: the rule is replaced in memory and not on disk. */
  lemma UnevenFails()
    ensures OutOfStep(Run(SAMPLE, EMPTY, Seed(P, [A])), UpdatePolicies(NS, P, [[A]], [[AB], [P]]))
  {
    var a := Seeded(P, [A]);
    assert [P] + [A] == [P, A];
    UnevenSplits(a, Run(SAMPLE, EMPTY, Seed(P, [A])));
  }

  // ---- restart with a filter ----

  const FILTERED: seq<Command> :=
    [CreateNamespace(NS), SetModel(NS, TEXT), RemoveFiltered(NS, P, 0, [A]), AddPolicies(NS, P, [[AB]])]

  lemma BitsSnoc(u: seq<Command>, c: Command, ns: Bytes, l: Line, b: LineReplay.Bits)
    ensures LineReplay.BitsRun(SAMPLE, map[], u + [c], ns, l, b) ==
            LineReplay.BitsStep(SAMPLE, SkeletonRun(SAMPLE, map[], u), c, ns, l, LineReplay.BitsRun(SAMPLE, map[], u, ns, l, b))
    ensures SkeletonRun(SAMPLE, map[], u + [c]) == SkeletonStep(SAMPLE, SkeletonRun(SAMPLE, map[], u), c)
  {
    assert (u + [c])[..|u|] == u;
  }

  const OPEN: seq<Command> := [CreateNamespace(NS), SetModel(NS, TEXT)]

  lemma OpenBits(l: Line, b: LineReplay.Bits)
    ensures LineReplay.BitsRun(SAMPLE, map[], OPEN, NS, l, b) == LineReplay.Bits(b.row, b.row)
    ensures LineReplay.HasModel(SkeletonRun(SAMPLE, map[], OPEN), NS)
  {
    var c0, c1 := OPEN[0], OPEN[1];
    assert [] + [c0] == [c0] && [c0] + [c1] == OPEN;
    BitsSnoc([], c0, NS, l, b);
    BitsSnoc([c0], c1, NS, l, b);
  }

  lemma FilterStep(b: LineReplay.Bits)
    ensures LineReplay.BitsRun(SAMPLE, map[], OPEN + [RemoveFiltered(NS, P, 0, [A])], NS, [P, AB], b) ==
            LineReplay.Bits(b.row, false)
    ensures LineReplay.HasModel(SkeletonRun(SAMPLE, map[], OPEN + [RemoveFiltered(NS, P, 0, [A])]), NS)
  {
    OpenBits([P, AB], b);
    RowOnlyHere();
    BitsSnoc(OPEN, RemoveFiltered(NS, P, 0, [A]), NS, [P, AB], b);
  }

  /** The line p, ab through the log: from nowhere it ends in memory and on disk; from disk it is
      loaded, loses its row to the filter and is not written again. */
  lemma FilteredBits(b: LineReplay.Bits)
    ensures LineReplay.BitsRun(SAMPLE, map[], FILTERED, NS, [P, AB], b) == LineReplay.Bits(true, !b.row)
  {
    var u, c := OPEN + [RemoveFiltered(NS, P, 0, [A])], AddPolicies(NS, P, [[AB]]);
    assert u + [c] == FILTERED;
    assert [P] + [AB] == [P, AB] && Convert(P, [[AB]]) == [[P, AB]];
    FilterStep(b);
    BitsSnoc(u, c, NS, [P, AB], b);
  }

  /** The filter on p, a takes the row of p, ab alone. */
  lemma RowOnlyHere()
    ensures FilterMatch(RowKey(NS, [P, AB]), NS, P, 0, [A]) && !MemMatch([P, AB], P, 0, [A])
  {
    FieldZeroKey(NS, [P, AB], P, [A]);
    FieldPrefixFields([P, AB], P, [A]);
    assert [P, AB][1] == AB && AB != A;
    assert MemMatch([P, AB], P, 0, [A]) ==> HasField([P, AB], 0 + 0, [A][0]);
  }

  /** The log is permitted, and Casbin panics nowhere along it. */
  lemma FilteredPermitted(sk: Skeleton, b: LineReplay.Bits)
    ensures AllPermitted(SAMPLE, Only([P, AB]), FILTERED)
    ensures LineReplay.Reads(SAMPLE, sk, FILTERED, NS, [P, AB], b)
  {
    SampleOk();
    LongerField();
    assert [P] + [AB] == [P, AB] && Convert(P, [[AB]]) == [[P, AB]];
    LineReplay.ScopeReads(SAMPLE, Only([P, AB]), sk, FILTERED, NS, [P, AB], b);
  }

  /** The row of the line after a run of the log over any tidy rows. */
  lemma FilteredRow(a: Policies, n: Node)
    requires LineReplay.Tidy(SAMPLE, Only([P, AB]), a, n) && n.enforcers == map[]
    ensures RowKey(NS, [P, AB]) in Run(SAMPLE, n, FILTERED).table <==> [P, AB] !in Rules(a, NS)
    ensures LineReplay.Tidy(SAMPLE, Only([P, AB]), LineReplay.RowsRun(SAMPLE, a, n, FILTERED), Run(SAMPLE, n, FILTERED))
  {
    var l: Line, scope := [P, AB], Only([P, AB]);
    SampleOk();
    assert SkeletonOf(n) == map[];
    FilteredPermitted(map[], LineReplay.BitsOf(a, n, NS, l));
    LineReplay.RunLines(SAMPLE, scope, a, n, FILTERED);
    FilteredBits(LineReplay.BitsOf(a, n, NS, l));
    PresentIffRule(Run(SAMPLE, n, FILTERED).table, LineReplay.RowsRun(SAMPLE, a, n, FILTERED), NAMES, NS, l);
  }

  /** A restart loses a row: the filter on p, a takes the surviving row of p, ab and leaves the line
      in memory, so the addition that first wrote it writes nothing. */
  lemma FilterReplayFails()
    ensures var rows := Run(SAMPLE, EMPTY, FILTERED).table;
            && RowKey(NS, [P, AB]) in rows
            && RowKey(NS, [P, AB]) !in Run(SAMPLE, Node(rows, map[], map[]), FILTERED).table
  {
    var l: Line, scope := [P, AB], Only([P, AB]);
    LineReplay.EmptyTidy(SAMPLE, scope);
    FilteredRow(map[], EMPTY);
    var a, t := LineReplay.RowsRun(SAMPLE, map[], EMPTY, FILTERED), Run(SAMPLE, EMPTY, FILTERED).table;
    PresentIffRule(t, a, NAMES, NS, l);
    FilteredRow(a, Node(t, map[], map[]));
  }

  // ---- restart from a snapshot with a filter ----

  const FILTER: Command := RemoveFiltered(NS, P, 0, [A])

  /** The line p, ab after the seed, and after the filter that follows it. */
  lemma SeedBits(b: LineReplay.Bits)
    ensures LineReplay.BitsRun(SAMPLE, map[], Seed(P, [AB]), NS, [P, AB], LineReplay.ABSENT) == LineReplay.Bits(true, true)
    ensures LineReplay.HasModel(SkeletonRun(SAMPLE, map[], Seed(P, [AB])), NS)
    ensures LineReplay.BitsRun(SAMPLE, SkeletonRun(SAMPLE, map[], Seed(P, [AB])), [FILTER], NS, [P, AB], b) ==
            LineReplay.Bits(b.mem, false)
  {
    var u, c := OPEN, AddPolicies(NS, P, [[AB]]);
    assert u + [c] == Seed(P, [AB]);
    assert [P] + [AB] == [P, AB] && Convert(P, [[AB]]) == [[P, AB]];
    OpenBits([P, AB], LineReplay.ABSENT);
    BitsSnoc(u, c, NS, [P, AB], LineReplay.ABSENT);
    RowOnlyHere();
    FilterAlone(SkeletonRun(SAMPLE, map[], u + [c]), b);
  }

  lemma FilterAlone(sk: Skeleton, b: LineReplay.Bits)
    requires LineReplay.HasModel(sk, NS)
    ensures LineReplay.BitsRun(SAMPLE, sk, [FILTER], NS, [P, AB], b) == LineReplay.Bits(b.mem, false)
  {
    RowOnlyHere();
    assert [FILTER][..0] == [];
    assert SkeletonRun(SAMPLE, sk, []) == sk && LineReplay.BitsRun(SAMPLE, sk, [], NS, [P, AB], b) == b;
  }

  lemma SnapshotPermitted(t: Table)
    ensures var u, v := Seed(P, [AB]), [FILTER];
            && AllPermitted(SAMPLE, Only([P, AB]), u) && AllPermitted(SAMPLE, Only([P, AB]), v)
            && LineReplay.ReadsAlone(SAMPLE, Only([P, AB]), u + v)
            && LineReplay.ReadsRestored(SAMPLE, Only([P, AB]), u, v, t)
  {
    var u, v, sk := Seed(P, [AB]), [FILTER], SkeletonRun(SAMPLE, map[], Seed(P, [AB]));
    SeedPermitted();
    SeedReads(map[], u + v, LineReplay.ABSENT);
    SeedReads(sk, v, LineReplay.Restored(sk, NS, [P, AB] in Loaded(t, NS)));
  }

  lemma SeedPermitted()
    ensures var u, v := Seed(P, [AB]), [FILTER];
            AllPermitted(SAMPLE, Only([P, AB]), u) && AllPermitted(SAMPLE, Only([P, AB]), v) && AllPermitted(SAMPLE, Only([P, AB]), u + v)
  {
    SampleOk();
    assert [P] + [AB] == [P, AB];
    SeedAllowed(P, [AB]);
  }

  lemma SeedReads(sk: Skeleton, log: seq<Command>, b: LineReplay.Bits)
    requires log == Seed(P, [AB]) + [FILTER] || log == [FILTER]
    ensures LineReplay.Reads(SAMPLE, sk, log, NS, [P, AB], b)
  {
    SeedPermitted();
    LongerField();
    LineReplay.ScopeReads(SAMPLE, Only([P, AB]), sk, log, NS, [P, AB], b);
  }

  /** A snapshot taken before a filter, restored after it: with the snapshot's row read back the node
      comes back; with the deletion of the row kept, the rule is missing from memory. */
  lemma NewerDeletionFails()
    ensures var u, v := Seed(P, [AB]), [FILTER];
            var far, s := Run(SAMPLE, EMPTY, u + v).table, Snapshot(Run(SAMPLE, EMPTY, u));
            && s.Some?
            && var all := RestoreAt(SAMPLE, Node(far, map[], map[]), s.value, LoadedOver(far, s.value.table, {}));
               var kept := RestoreAt(SAMPLE, Node(far, map[], map[]), s.value, LoadedOver(far, s.value.table, {RowKey(NS, [P, AB])}));
               && all.Some? && SameView(Run(SAMPLE, all.value, v), Run(SAMPLE, EMPTY, u + v))
               && kept.Some? && !SameView(Run(SAMPLE, kept.value, v), Run(SAMPLE, EMPTY, u + v))
  {
    NewerOutcome({});
    NewerOutcome({RowKey(NS, [P, AB])});
  }

  lemma NewerOutcome(newer: set<Bytes>)
    ensures var u, v := Seed(P, [AB]), [FILTER];
            var far, s := Run(SAMPLE, EMPTY, u + v).table, Snapshot(Run(SAMPLE, EMPTY, u));
            && s.Some?
            && var r := RestoreAt(SAMPLE, Node(far, map[], map[]), s.value, LoadedOver(far, s.value.table, newer));
               && r.Some?
               && (SameView(Run(SAMPLE, r.value, v), Run(SAMPLE, EMPTY, u + v)) <==> RowKey(NS, [P, AB]) !in newer)
  {
    var u, v, l: Line := Seed(P, [AB]), [FILTER], [P, AB];
    var far := Run(SAMPLE, EMPTY, u + v).table;
    var near := Run(SAMPLE, EMPTY, u).table;
    SampleOk();
    SeedMemory(P, [AB]);
    SeedNames();
    SnapshotPermitted(LoadedOver(far, near, newer));
    assert v[..1] == v;
    LineReplay.WarmRestartExact(SAMPLE, Only(l), u, v, 1, map[], newer);
    NewerBits(newer);
  }

  lemma SeedNames()
    ensures AllModelled(Run(SAMPLE, EMPTY, Seed(P, [AB])))
  {
    SeedRun(P, [AB]);
    Opened();
  }

  lemma NewerBits(newer: set<Bytes>)
    ensures var u, v := Seed(P, [AB]), [FILTER];
            LineReplay.RecoversFrom(SAMPLE, u, v, NS, [P, AB], LineReplay.LoadedRow(SAMPLE, u, v, 1, NS, [P, AB], newer)) <==>
            RowKey(NS, [P, AB]) !in newer
  {
    var u, v := Seed(P, [AB]), [FILTER];
    var sk, row := SkeletonRun(SAMPLE, map[], u), LineReplay.LoadedRow(SAMPLE, u, v, 1, NS, [P, AB], newer);
    assert v[..1] == v;
    LineReplay.BitsRunConcat(SAMPLE, map[], u, v, NS, [P, AB], LineReplay.ABSENT);
    SeedBits(LineReplay.Bits(true, true));
    SeedBits(LineReplay.Restored(sk, NS, row));
  }

  // ---- restart with an update ----

  const UPDATE: Command := UpdatePolicies(NS, P, [[A], [B]], [[AB], [P]])
  const ADD: Command := AddPolicies(NS, P, [[A]])
  const UPDATED: seq<Command> := OPEN + [UPDATE] + [ADD]

  /** An opened node whose memory of the namespace is its rows. */
  ghost predicate OpenNode(a: Policies, n: Node, rules: set<Line>) {
    && NamesOk(NAMES) && Coherent(SAMPLE, NAMES, a, n)
    && NS in n.enforcers && n.enforcers[NS] == Enforcer(Some(TEXT), rules)
  }

  lemma RunOpen(n: Node)
    ensures var n1 := Apply(SAMPLE, n, CreateNamespace(NS)).0;
            Run(SAMPLE, n, OPEN) == Apply(SAMPLE, n1, SetModel(NS, TEXT)).0
    ensures Run(SAMPLE, n, UPDATED) == Apply(SAMPLE, Apply(SAMPLE, Run(SAMPLE, n, OPEN), UPDATE).0, ADD).0
  {
    assert OPEN[..1][..0] == [] && Run(SAMPLE, n, OPEN[..1]) == Apply(SAMPLE, n, OPEN[0]).0;
    assert UPDATED[..3] == OPEN + [UPDATE] && (OPEN + [UPDATE])[..2] == OPEN;
    assert Run(SAMPLE, n, OPEN + [UPDATE]) == Apply(SAMPLE, Run(SAMPLE, n, OPEN), UPDATE).0;
  }

  /** Opening a node with no enforcers over coherent rows. */
  lemma OpenOver(a: Policies, n: Node)
    requires NamesOk(NAMES) && RowsOk(SAMPLE, NAMES, a, n.table) && n.enforcers == map[]
    ensures OpenNode(a, Run(SAMPLE, n, OPEN), Rules(a, NS))
  {
    SampleOk();
    RunOpen(n);
    var n1 := Apply(SAMPLE, n, CreateNamespace(NS)).0;
    assert Coherent(SAMPLE, NAMES, a, n1);
    SetModelCoherent(SAMPLE, NAMES, a, n1, NS, TEXT);
    Registering(SAMPLE, NAMES, a, n1.table, NS);
  }

  /** The update over a node that holds nothing, or the rule p, a alone: memory keeps it, the row of
      p, a becomes that of p, ab. */
  lemma UpdateOver(a: Policies, n: Node, rules: set<Line>)
    requires OpenNode(a, n, rules) && (rules == {} || rules == {[P, A]})
    ensures var n' := Apply(SAMPLE, n, UPDATE).0;
            && NS in n'.enforcers && n'.enforcers[NS] == Enforcer(Some(TEXT), rules)
            && RowKey(NS, [P, A]) !in n'.table
  {
    UpdateStep(n);
    Replaced(rules, FROM, TO);
    MemoryIsRules(SAMPLE, NAMES, a, n, NS);
    RowReplaced(a, n.table);
  }

  const FROM: seq<Line> := [[P, A], [P, B]]
  const TO: seq<Line> := [[P, AB], [P, P]]

  lemma UpdateStep(n: Node)
    requires Modelled(n, NS)
    ensures var n' := Apply(SAMPLE, n, UPDATE).0;
            && n'.table == ReplaceLines(n.table, NS, FROM, TO) && NS in n'.enforcers
            && n'.enforcers[NS] == n.enforcers[NS].(rules := AllOrNone(n.enforcers[NS].rules, FROM, TO))
  {
    PairLines(A, B);
    PairLines(AB, P);
    UpdateApplied(SAMPLE, n, NS, P, [[A], [B]], [[AB], [P]]);
  }

  lemma RowReplaced(a: Policies, t: Table)
    requires NamesOk(NAMES) && Refines(t, a, NAMES) && [P, A] !in SpecReplace(Rules(a, NS), FROM, TO)
    ensures RowKey(NS, [P, A]) !in ReplaceLines(t, NS, FROM, TO)
  {
    PairLines(A, B);
    PairLines(AB, P);
    assert WellFormed([P, A]);
    UpdateRefines(t, a, NAMES, NS, FROM, TO);
    PresentIffRule(ReplaceLines(t, NS, FROM, TO), a[NS := SpecReplace(Rules(a, NS), FROM, TO)], NAMES, NS, [P, A]);
  }

  lemma Replaced(rules: set<Line>, from: seq<Line>, to: seq<Line>)
    requires (rules == {} || rules == {[P, A]}) && from == [[P, A], [P, B]] && to == [[P, AB], [P, P]]
    ensures [P, A] !in SpecReplace(rules, from, to) && AllOrNone(rules, from, to) == rules
  {
    HalfStored(from, to);
    assert from[1] in ToLineSet(from) && from[1] !in rules by { assert from[1][1] == B && [P, A][1] == A; }
    assert Separate(rules, from, to);
    ReplaceFound(rules, from, to);
    assert [P, A] in from by { assert from[0] == [P, A]; }
    NotTaken(rules, from, to, [P, A]);
  }

  lemma AddOver(n: Node, rules: set<Line>)
    requires NS in n.enforcers && n.enforcers[NS] == Enforcer(Some(TEXT), rules) && RowKey(NS, [P, A]) !in n.table
    ensures RowKey(NS, [P, A]) in Apply(SAMPLE, n, ADD).0.table <==> [P, A] !in rules
  {
    AddStep(n, rules);
    assert [[P, A]][..0] == [];
  }

  /** What the addition does to the rows. */
  lemma AddStep(n: Node, rules: set<Line>)
    requires NS in n.enforcers && n.enforcers[NS] == Enforcer(Some(TEXT), rules)
    ensures Apply(SAMPLE, n, ADD).0.table == PutLines(n.table, NS, if [P, A] in rules then [] else [[P, A]])
    ensures Missing([[P, A]], rules) == if [P, A] in rules then [] else [[P, A]]
  {
    var lines := Convert(P, [[A]]);
    assert [P] + [A] == [P, A] && lines == [[P, A]] && lines[..0] == [];
    assert Missing(lines, rules) == if [P, A] in rules then [] else [[P, A]];
  }

  /** A restart loses a row to a batch update: the update takes the surviving row of p, a and, one of
      its old rules missing, leaves the rule in memory, so the addition that first wrote it writes
      nothing. */
  lemma UpdateReplayFails()
    ensures var rows := Run(SAMPLE, EMPTY, UPDATED).table;
            && RowKey(NS, [P, A]) in rows
            && RowKey(NS, [P, A]) !in Run(SAMPLE, Node(rows, map[], map[]), UPDATED).table
  {
    var a := UpdatedRows();
    var r := Node(Run(SAMPLE, EMPTY, UPDATED).table, map[], map[]);
    RunOpen(r);
    OpenOver(a, r);
    UpdateOver(a, Run(SAMPLE, r, OPEN), {[P, A]});
    AddOver(Apply(SAMPLE, Run(SAMPLE, r, OPEN), UPDATE).0, {[P, A]});
  }

  /** The rows the log leaves: the one rule. */
  lemma UpdatedRows() returns (a: Policies)
    ensures NamesOk(NAMES) && RowsOk(SAMPLE, NAMES, a, Run(SAMPLE, EMPTY, UPDATED).table) && Rules(a, NS) == {[P, A]}
    ensures RowKey(NS, [P, A]) in Run(SAMPLE, EMPTY, UPDATED).table
  {
    var n := Run(SAMPLE, EMPTY, OPEN);
    RunOpen(EMPTY);
    OpenOver(map[], EMPTY);
    UpdateOver(map[], n, {});
    AddOver(Apply(SAMPLE, n, UPDATE).0, {});
    NothingReplaced(n);
    a := AddedRows(Apply(SAMPLE, n, UPDATE).0);
  }

  lemma AddedRows(n: Node) returns (a: Policies)
    requires NamesOk(NAMES) && RowsOk(SAMPLE, NAMES, map[], n.table)
    requires NS in n.enforcers && n.enforcers[NS] == Enforcer(Some(TEXT), {})
    ensures RowsOk(SAMPLE, NAMES, a, Apply(SAMPLE, n, ADD).0.table) && Rules(a, NS) == {[P, A]}
  {
    var lines: seq<Line> := [[P, A]];
    AddStep(n, {});
    assert WellFormed([P, A]) && Rules(map[], NS) == {} && ToLineSet(lines) == {[P, A]};
    AddRows(SAMPLE, NAMES, map[], n.table, NS, lines);
    a := map[][NS := Rules(map[], NS) + ToLineSet(lines)];
  }

  /** An update finds nothing to replace where there are no rules. */
  lemma NothingReplaced(n: Node)
    requires OpenNode(map[], n, {})
    ensures Apply(SAMPLE, n, UPDATE).0.table == n.table
  {
    UpdateStep(n);
    PairLines(A, B);
    assert FROM[..2] == FROM && TO[..2] == TO;
    NoneReplaced(n.table, FROM, TO, 2);
  }

  lemma {:induction false} NoneReplaced(t: Table, from: seq<Line>, to: seq<Line>, k: nat)
    requires |from| == |to| && k <= |from| && Refines(t, map[], NAMES) && PrefixFree(NAMES) && AllWellFormed(from)
    ensures ReplaceLines(t, NS, from[..k], to[..k]) == t
  {
    if k > 0 {
      NoneReplaced(t, from, to, k - 1);
      assert from[..k][..k - 1] == from[..k - 1] && to[..k][..k - 1] == to[..k - 1];
      PresentIffRule(t, map[], NAMES, NS, from[k - 1]);
    }
  }

  // ---- reads during replay ----

  lemma TraceSnoc(e: Engine, sk: Skeleton, u: seq<Command>, c: Command)
    ensures Trace(e, sk, u + [c]) == Trace(e, sk, u) + [EntryOf(SkeletonRun(e, sk, u), c)]
  {
    assert (u + [c])[..|u|] == u;
  }

  lemma SeedTrace()
    ensures Trace(SAMPLE, map[], Seed(P, [A])[..2]) == [NOTHING, Replay.RegisterEntry(NS)]
  {
    var c, d := CreateNamespace(NS), SetModel(NS, TEXT);
    assert Seed(P, [A])[..2] == [c] + [d] && [] + [c] == [c];
    TraceSnoc(SAMPLE, map[], [], c);
    TraceSnoc(SAMPLE, map[], [c], d);
    assert SkeletonRun(SAMPLE, map[], [c]) == map[NS := None] by { assert [c][..0] == []; }
  }

  /** The first two commands of a seed write no policy row. */
  lemma SeedWrites(k: Bytes)
    requires k != [] && k[0] == 1
    ensures !Replay.Touches(Trace(SAMPLE, map[], Seed(P, [A])[..2]), k)
  {
    SeedTrace();
    assert RegistryKey(NS)[0] == 0;
    assert !Replay.Writes(NOTHING, k) && !Replay.Writes(Replay.RegisterEntry(NS), k);
  }

  lemma SurvivingRow(a: Policies, n: Node, l: Line)
    requires OneRule(a, n, l)
    ensures RowKey(NS, l) in n.table
  {
    MemoryIsRules(SAMPLE, NAMES, a, n, NS);
    assert Stores(n.table, RowKey(NS, l), NS, l);
  }

  /** Restarted after three entries, a node that has replayed two of them already holds the rule of
      the third. */
  lemma MidReplayFails()
    ensures var log := Seed(P, [A]);
            var r := Run(SAMPLE, Node(Run(SAMPLE, EMPTY, log).table, map[], map[]), log[..2]);
            var prefix := Run(SAMPLE, EMPTY, log[..2]);
            NS in r.enforcers && NS in prefix.enforcers && r.enforcers[NS] != prefix.enforcers[NS]
  {
    var log := Seed(P, [A]);
    SampleOk();
    SeedAllowed(P, [A]);
    NotRewritten();
    OpenedPrefix();
    assert log[..3] == log;
    MidReplayRead(SAMPLE, Only([P] + [A]), log, 3, 2, NS);
  }

  lemma OpenedPrefix()
    ensures var n := Run(SAMPLE, EMPTY, Seed(P, [A])[..2]);
            NS in n.enforcers && n.enforcers[NS].model.Some?
  {
    SeedRun(P, [A]);
    Opened();
  }

  lemma NotRewritten()
    ensures !AllRewritten(Run(SAMPLE, EMPTY, Seed(P, [A])).table, Trace(SAMPLE, map[], Seed(P, [A])[..2]), NS)
  {
    var log, l := Seed(P, [A]), [P] + [A];
    var a := Seeded(P, [A]);
    SurvivingRow(a, Run(SAMPLE, EMPTY, log), l);
    assert WithPrefix(NS, []) <= RowKey(NS, l);
    SeedWrites(RowKey(NS, l));
  }
}
