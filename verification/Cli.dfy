/** The command line's pending transaction (cmd/cli/ctx.go:81-321, cmd/cli/rule.go). */
module Cli {
  import opened ByteStrings
  import opened Keys

  // ---- rules ----

  datatype CliRule = CliRule(key: Bytes, ptype: Bytes, v0: Bytes, v1: Bytes, v2: Bytes, v3: Bytes, v4: Bytes, v5: Bytes)

  function Field(line: seq<Bytes>, i: nat): Bytes { if i < |line| then line[i] else [] }

  /** At most six fields of a typed line are kept. */
  function FirstSix(line: seq<Bytes>): seq<Bytes> { if |line| <= 6 then line else line[..6] }

  function RuleOf(ptype: Bytes, line: seq<Bytes>): CliRule {
    CliRule(Join([ptype] + FirstSix(line)), ptype, Field(line, 0), Field(line, 1), Field(line, 2), Field(line, 3),
            Field(line, 4), Field(line, 5))
  }

  /** convertRule: the struct is filled and the key list grown field by field. */
  method ConvertRule(ptype: Bytes, line: seq<Bytes>) returns (rule: CliRule)
    ensures rule == RuleOf(ptype, line)
  {
    rule := CliRule([], ptype, [], [], [], [], [], []);
    var keySlice := [ptype];
    var l := |line|;
    if l > 0 { rule := rule.(v0 := line[0]); keySlice := keySlice + [line[0]]; }
    if l > 1 { rule := rule.(v1 := line[1]); keySlice := keySlice + [line[1]]; }
    if l > 2 { rule := rule.(v2 := line[2]); keySlice := keySlice + [line[2]]; }
    if l > 3 { rule := rule.(v3 := line[3]); keySlice := keySlice + [line[3]]; }
    if l > 4 { rule := rule.(v4 := line[4]); keySlice := keySlice + [line[4]]; }
    if l > 5 { rule := rule.(v5 := line[5]); keySlice := keySlice + [line[5]]; }
    assert keySlice == [ptype] + FirstSix(line);
    rule := rule.(key := Join(keySlice));
  }

  /** The fields before the first empty one. */
  function UpToEmpty(fields: seq<Bytes>): seq<Bytes> {
    if fields == [] || fields[0] == [] then [] else [fields[0]] + UpToEmpty(fields[1..])
  }

  function Fields(r: CliRule): seq<Bytes> { [r.v0, r.v1, r.v2, r.v3, r.v4, r.v5] }

  /** ToStringArray. */
  method ToStringArray(r: CliRule) returns (out: seq<Bytes>)
    ensures out == UpToEmpty(Fields(r))
  {
    out := [];
    var fields, i := Fields(r), 0;
    while i < 6
      invariant i <= 6 && out + UpToEmpty(fields[i..]) == UpToEmpty(fields)
    {
      assert fields[i..][1..] == fields[i + 1..];
      if fields[i] == [] { return; }
      out := out + [fields[i]];
      i := i + 1;
    }
  }

  /** A padded tail of empty fields does not show. */
  lemma {:induction false} UpToEmptyPadded(a: seq<Bytes>, pad: seq<Bytes>)
    requires pad == [] || pad[0] == []
    ensures UpToEmpty(a + pad) == UpToEmpty(a)
  {
    if a == [] {
      assert a + pad == pad;
    } else {
      assert (a + pad)[1..] == a[1..] + pad;
      UpToEmptyPadded(a[1..], pad);
    }
  }

  /** What is sent of a typed rule: its fields up to the first empty one, at most six. */
  lemma SentFields(ptype: Bytes, line: seq<Bytes>)
    ensures UpToEmpty(Fields(RuleOf(ptype, line))) == UpToEmpty(FirstSix(line))
  {
    var six, all := FirstSix(line), Fields(RuleOf(ptype, line));
    var n := |six|;
    assert six == all[..n];
    assert n < 6 ==> all[n] == [];
    UpToEmptyPadded(six, all[n..]);
    assert all == six + all[n..];
  }

  // ---- the pending transaction ----

  datatype Tx = NoTx | AddTx | RemoveTx | UpdateTx

  datatype Pending = Pending(tx: Tx, sec: Bytes, ptype: Bytes, operations: seq<CliRule>, updates: seq<seq<CliRule>>)

  const START := Pending(NoTx, [], [], [], [])

  /** An input line by its first word; a commit carries whether the server reports an effect. */
  datatype Input =
    | AddLine(argv: seq<Bytes>)
    | RemoveLine(argv: seq<Bytes>)
    | UpdateLine(argv: seq<Bytes>)
    | DeleteLine(argv: seq<Bytes>)
    | AbortLine
    | CommitLine(effected: bool)
    | OtherLine

  const G: Bytes := [103]
  const P: Bytes := [112]

  function SecOf(ptype: Bytes): Bytes { if ptype == [] then [] else [ptype[0]] }
  predicate SecOk(ptype: Bytes) { ptype == [] || SecOf(ptype) == G || SecOf(ptype) == P }

  function TxInput(p: Pending, tx: Tx, argv: seq<Bytes>): Pending {
    if p.tx != tx && p.tx != NoTx then p
    else
      var q := p.(tx := tx);
      if argv == [] || !SecOk(argv[0]) || (p.ptype != [] && p.ptype != argv[0]) then q
      else q.(sec := SecOf(argv[0]), ptype := argv[0], operations := p.operations + [RuleOf(argv[0], argv[1..])])
  }

  /** A second rule completes the open group, otherwise a new group is opened. */
  function Grouped(groups: seq<seq<CliRule>>, r: CliRule): seq<seq<CliRule>> {
    var n := |groups|;
    if n > 0 && |groups[n - 1]| == 1 then groups[n - 1 := groups[n - 1] + [r]] else groups + [[r]]
  }

  function UpdateInput(p: Pending, argv: seq<Bytes>): Pending {
    if p.tx != UpdateTx && p.tx != NoTx then p
    else
      var q := p.(tx := UpdateTx);
      if argv == [] || !SecOk(argv[0]) || (p.sec != [] && p.sec != SecOf(argv[0])) then q
      else q.(sec := SecOf(argv[0]), updates := Grouped(p.updates, RuleOf(argv[0], argv[1..])))
  }

  predicate Digits(s: Bytes) { s != [] && forall i | 0 <= i < |s| :: 48 <= s[i] <= 57 }

  function Number(s: Bytes): nat
    requires forall i | 0 <= i < |s| :: 48 <= s[i] <= 57
  {
    if s == [] then 0 else Number(s[..|s| - 1]) * 10 + (s[|s| - 1] - 48)
  }

  /** The index strconv.Atoi leaves behind: 0 when the text is no number, which is not an error to
      the caller. A number beyond the int range is beyond every list as well. */
  function Atoi(s: Bytes): int {
    if s != [] && (s[0] == 43 || s[0] == 45) then
      if Digits(s[1..]) then (if s[0] == 45 then 0 - Number(s[1..]) as int else Number(s[1..])) else 0
    else if Digits(s) then Number(s) else 0
  }

  function RemoveAt(groups: seq<seq<CliRule>>, i: nat): seq<seq<CliRule>>
    requires i < |groups|
  {
    groups[..i] + groups[i + 1..]
  }

  function DeleteInput(p: Pending, argv: seq<Bytes>): Pending {
    if argv == [] || !(-1 < Atoi(argv[0]) < |p.updates|) then p
    else p.(updates := RemoveAt(p.updates, Atoi(argv[0])))
  }

  /** InitTx and ABORT: everything but the policy type is reset. */
  function Reset(p: Pending): Pending { p.(tx := NoTx, sec := [], operations := [], updates := []) }

  function Step(p: Pending, input: Input): Pending {
    match input
    case AddLine(argv) => TxInput(p, AddTx, argv)
    case RemoveLine(argv) => TxInput(p, RemoveTx, argv)
    case UpdateLine(argv) => UpdateInput(p, argv)
    case DeleteLine(argv) => DeleteInput(p, argv)
    case AbortLine => Reset(p)
    case CommitLine(effected) => if effected && p.tx != NoTx then Reset(p) else p
    case OtherLine => p
  }

  function Run(inputs: seq<Input>): Pending {
    if inputs == [] then START else Step(Run(inputs[..|inputs| - 1]), inputs[|inputs| - 1])
  }

  // ---- what a commit sends ----

  datatype Request =
    | Nothing
    | SendRules(tx: Tx, sec: Bytes, ptype: Bytes, rules: seq<seq<Bytes>>)
    | SendUpdate(sec: Bytes, ptype: Bytes, olds: seq<seq<Bytes>>, news: seq<seq<Bytes>>)

  function Rows(rules: seq<CliRule>): seq<seq<Bytes>> {
    seq(|rules|, i requires 0 <= i < |rules| => UpToEmpty(Fields(rules[i])))
  }

  /** The old (k = 0) or new (k = 1) rules of the complete groups, in order. */
  function Side(groups: seq<seq<CliRule>>, k: nat): seq<seq<Bytes>>
    requires k < 2
  {
    if groups == [] then []
    else
      var n := |groups| - 1;
      Side(groups[..n], k) + if |groups[n]| > 1 then [UpToEmpty(Fields(groups[n][k]))] else []
  }

  function Sent(p: Pending): Request {
    match p.tx
    case NoTx => Nothing
    case UpdateTx => SendUpdate(p.sec, p.ptype, Side(p.updates, 0), Side(p.updates, 1))
    case _ => SendRules(p.tx, p.sec, p.ptype, Rows(p.operations))
  }

  /** to2DString of a rule list. */
  method RulesTo2DString(rules: seq<CliRule>) returns (out: seq<seq<Bytes>>)
    ensures out == Rows(rules)
  {
    out := [];
    var i := 0;
    while i < |rules|
      invariant i <= |rules| && out == Rows(rules[..i])
    {
      var row := ToStringArray(rules[i]);
      out := out + [row];
      i := i + 1;
    }
    assert rules[..|rules|] == rules;
  }

  /** to2DString of the groups. */
  method GroupsTo2DString(groups: seq<seq<CliRule>>) returns (olds: seq<seq<Bytes>>, news: seq<seq<Bytes>>)
    ensures olds == Side(groups, 0) && news == Side(groups, 1)
  {
    olds, news := [], [];
    var i := 0;
    while i < |groups|
      invariant i <= |groups|
      invariant olds == Side(groups[..i], 0) && news == Side(groups[..i], 1)
    {
      var rg := groups[i];
      assert groups[..i + 1][..i] == groups[..i];
      if |rg| > 1 {
        var o := ToStringArray(rg[0]);
        var n := ToStringArray(rg[1]);
        olds, news := olds + [o], news + [n];
      }
      i := i + 1;
    }
    assert groups[..|groups|] == groups;
  }

  // ---- invariants over every run ----

  /** Groups hold one or two rules, and only the last may hold one. */
  ghost predicate GroupsOk(groups: seq<seq<CliRule>>) {
    forall i | 0 <= i < |groups| :: |groups[i]| == 2 || (i == |groups| - 1 && |groups[i]| == 1)
  }

  /** Pending updates and pending adds or removes exclude each other, and go with their kind. */
  ghost predicate PendingOk(p: Pending) {
    && GroupsOk(p.updates)
    && (p.operations != [] ==> p.tx == AddTx || p.tx == RemoveTx)
    && (p.updates != [] ==> p.tx == UpdateTx)
  }

  lemma {:induction false} RunPendingOk(inputs: seq<Input>)
    ensures PendingOk(Run(inputs))
  {
    if inputs != [] {
      var k := |inputs| - 1;
      RunPendingOk(inputs[..k]);
      StepPendingOk(Run(inputs[..k]), inputs[k]);
    }
  }

  lemma StepPendingOk(p: Pending, input: Input)
    requires PendingOk(p)
    ensures PendingOk(Step(p, input))
  {}

  /** The number of complete groups: all but an open last one. */
  function CompleteCount(groups: seq<seq<CliRule>>): nat {
    if groups != [] && |groups[|groups| - 1]| == 1 then |groups| - 1 else |groups|
  }

  /** A commit loses no complete group: at most the open last one stays behind. */
  lemma {:induction false} CompleteGroups(groups: seq<seq<CliRule>>, k: nat)
    requires GroupsOk(groups) && k < 2
    ensures |Side(groups, k)| == CompleteCount(groups)
    ensures forall i | 0 <= i < CompleteCount(groups) :: |groups[i]| == 2 && Side(groups, k)[i] == UpToEmpty(Fields(groups[i][k]))
  {
    if groups != [] {
      var n := |groups| - 1;
      var front := groups[..n];
      FrontComplete(groups);
      CompleteGroups(front, k);
      assert forall i | 0 <= i < n :: front[i] == groups[i];
    }
  }

  lemma FrontComplete(groups: seq<seq<CliRule>>)
    requires GroupsOk(groups) && groups != []
    ensures GroupsOk(groups[..|groups| - 1]) && CompleteCount(groups[..|groups| - 1]) == |groups| - 1
  {
    assert forall i | 0 <= i < |groups| - 1 :: groups[..|groups| - 1][i] == groups[i];
  }

  // ---- what was typed ----

  /** The transaction a line's rule belongs to. */
  function KindOf(input: Input): Tx {
    match input
    case AddLine(_) => AddTx
    case RemoveLine(_) => RemoveTx
    case UpdateLine(_) => UpdateTx
    case _ => NoTx
  }

  predicate RuleLine(input: Input, tx: Tx) { tx != NoTx && KindOf(input) == tx && input.argv != [] }

  /** What is sent for a line: the fields after the type, up to the first empty one, at most six. */
  function SentRow(input: Input): seq<Bytes>
    requires RuleLine(input, KindOf(input))
  {
    UpToEmpty(FirstSix(input.argv[1..]))
  }

  function Flatten(groups: seq<seq<CliRule>>): seq<CliRule> {
    if groups == [] then [] else Flatten(groups[..|groups| - 1]) + groups[|groups| - 1]
  }

  /** All pending rules, in order. */
  function AllRules(p: Pending): seq<CliRule> { p.operations + Flatten(p.updates) }

  /** Line at[i] of the input is of the kind and made rule i; later rules come from later lines. */
  ghost predicate TypedAt(rules: seq<CliRule>, tx: Tx, inputs: seq<Input>, at: seq<nat>) {
    && |at| == |rules|
    && (forall i, j | 0 <= i < j < |at| :: at[i] < at[j])
    && (forall i | 0 <= i < |at| ::
          at[i] < |inputs| && RuleLine(inputs[at[i]], tx) &&
          rules[i] == RuleOf(inputs[at[i]].argv[0], inputs[at[i]].argv[1..]))
  }

  lemma TypedLater(rules: seq<CliRule>, tx: Tx, inputs: seq<Input>, at: seq<nat>, input: Input)
    requires TypedAt(rules, tx, inputs, at)
    ensures TypedAt(rules, tx, inputs + [input], at)
  {}

  lemma TypedNow(rules: seq<CliRule>, tx: Tx, inputs: seq<Input>, at: seq<nat>, input: Input)
    requires TypedAt(rules, tx, inputs, at) && RuleLine(input, tx)
    ensures TypedAt(rules + [RuleOf(input.argv[0], input.argv[1..])], tx, inputs + [input], at + [|inputs|])
  {}

  lemma TypedCut(rules: seq<CliRule>, tx: Tx, inputs: seq<Input>, at: seq<nat>, lo: nat, hi: nat)
    requires TypedAt(rules, tx, inputs, at) && lo <= hi <= |rules|
    ensures TypedAt(rules[..lo] + rules[hi..], tx, inputs, at[..lo] + at[hi..])
  {
    var left, kept := rules[..lo] + rules[hi..], at[..lo] + at[hi..];
    forall i | 0 <= i < |kept|
      ensures var j := if i < lo then i else i + hi - lo; kept[i] == at[j] && left[i] == rules[j] {}
  }

  lemma {:induction false} FlattenConcat(a: seq<seq<CliRule>>, b: seq<seq<CliRule>>)
    ensures Flatten(a + b) == Flatten(a) + Flatten(b)
  {
    if b == [] {
      assert a + b == a;
    } else {
      var n := |b| - 1;
      assert (a + b)[..|a| + n] == a + b[..n];
      FlattenConcat(a, b[..n]);
    }
  }

  lemma FlattenGrouped(groups: seq<seq<CliRule>>, r: CliRule)
    ensures Flatten(Grouped(groups, r)) == Flatten(groups) + [r]
  {
    var n, out := |groups|, Grouped(groups, r);
    if n > 0 && |groups[n - 1]| == 1 {
      assert out[..n - 1] == groups[..n - 1];
    } else {
      assert out[..n] == groups;
    }
  }

  lemma CutMiddle(a: seq<CliRule>, g: seq<CliRule>, b: seq<CliRule>)
    ensures (a + (g + b))[..|a|] == a && (a + (g + b))[|a| + |g|..] == b
  {}

  /** Deleting a group cuts its rules out of the list. */
  lemma FlattenRemoved(groups: seq<seq<CliRule>>, i: nat)
    requires i < |groups|
    ensures var lo := |Flatten(groups[..i])|;
            var hi := lo + |groups[i]|;
            && hi <= |Flatten(groups)|
            && Flatten(RemoveAt(groups, i)) == Flatten(groups)[..lo] + Flatten(groups)[hi..]
  {
    var a, g, b := groups[..i], groups[i], groups[i + 1..];
    assert groups == a + ([g] + b);
    FlattenConcat(a, [g] + b);
    FlattenConcat([g], b);
    FlattenConcat(a, b);
    assert Flatten([g]) == g by { assert [g][..0] == []; }
    CutMiddle(Flatten(a), g, Flatten(b));
  }

  // ---- the lines that are still pending ----

  /** A rule line that the pending state takes. */
  predicate LetThrough(p: Pending, input: Input) {
    && RuleLine(input, KindOf(input)) && (p.tx == NoTx || p.tx == KindOf(input)) && SecOk(input.argv[0])
    && if input.UpdateLine? then p.sec == [] || p.sec == SecOf(input.argv[0])
       else p.ptype == [] || p.ptype == input.argv[0]
  }

  /** An abort, or a commit with an effect. */
  predicate Resets(p: Pending, input: Input) {
    input.AbortLine? || (input.CommitLine? && input.effected && p.tx != NoTx)
  }

  /** A DELETE of a group there is. */
  predicate Deletes(p: Pending, input: Input) {
    input.DeleteLine? && input.argv != [] && 0 <= Atoi(input.argv[0]) < |p.updates|
  }

  /** The two places of a group, or the one of an open last group. */
  function GroupPlaces(at: seq<nat>, g: nat): seq<nat> {
    if 2 * g + 2 <= |at| then at[2 * g..2 * g + 2] else if 2 * g <= |at| then at[2 * g..] else []
  }

  function WithoutGroup(at: seq<nat>, g: nat): seq<nat> {
    if 2 * g + 2 <= |at| then at[..2 * g] + at[2 * g + 2..] else if 2 * g <= |at| then at[..2 * g] else at
  }

  /** The positions of the lines whose rules are pending, in order. */
  function Live(inputs: seq<Input>): seq<nat> {
    if inputs == [] then []
    else
      var k := |inputs| - 1;
      LiveStep(Run(inputs[..k]), Live(inputs[..k]), k, inputs[k])
  }

  function LiveStep(p: Pending, at: seq<nat>, k: nat, input: Input): seq<nat> {
    if Resets(p, input) then []
    else if LetThrough(p, input) then at + [k]
    else if Deletes(p, input) then WithoutGroup(at, Atoi(input.argv[0])) else at
  }

  lemma StepTyped(p: Pending, inputs: seq<Input>, at: seq<nat>, input: Input)
    requires PendingOk(p) && TypedAt(AllRules(p), p.tx, inputs, at)
    ensures TypedAt(AllRules(Step(p, input)), Step(p, input).tx, inputs + [input], LiveStep(p, at, |inputs|, input))
  {
    TypedLater(AllRules(p), p.tx, inputs, at, input);
    if Resets(p, input) {
      ResetEmpty(p, input);
    } else if LetThrough(p, input) {
      SnocTyped(p, input);
      TypedNow(AllRules(p), Step(p, input).tx, inputs, at, input);
    } else if Deletes(p, input) {
      DeleteTyped(p, inputs + [input], at, Atoi(input.argv[0]));
    } else {
      QuietStep(p, input);
    }
  }

  lemma ResetEmpty(p: Pending, input: Input)
    requires Resets(p, input)
    ensures AllRules(Step(p, input)) == []
  {}

  lemma QuietStep(p: Pending, input: Input)
    requires PendingOk(p) && !Resets(p, input) && !LetThrough(p, input) && !Deletes(p, input)
    ensures AllRules(Step(p, input)) == AllRules(p) && (Step(p, input).tx == p.tx || AllRules(p) == [])
  {}

  /** A line that is let through appends its own rule. */
  lemma SnocTyped(p: Pending, input: Input)
    requires PendingOk(p) && LetThrough(p, input)
    ensures RuleLine(input, Step(p, input).tx)
    ensures AllRules(Step(p, input)) == AllRules(p) + [RuleOf(input.argv[0], input.argv[1..])]
    ensures p.tx != Step(p, input).tx ==> AllRules(p) == []
  {
    match input
    case AddLine(argv) => TxSnoc(p, AddTx, argv);
    case RemoveLine(argv) => TxSnoc(p, RemoveTx, argv);
    case UpdateLine(argv) => UpdateSnoc(p, argv);
  }

  lemma TxSnoc(p: Pending, tx: Tx, argv: seq<Bytes>)
    requires PendingOk(p) && (tx == AddTx || tx == RemoveTx) && (p.tx == NoTx || p.tx == tx)
    requires argv != [] && SecOk(argv[0]) && (p.ptype == [] || p.ptype == argv[0])
    ensures TxInput(p, tx, argv).tx == tx && (p.tx == tx || AllRules(p) == [])
    ensures AllRules(TxInput(p, tx, argv)) == AllRules(p) + [RuleOf(argv[0], argv[1..])]
  {
    assert p.updates == [];
  }

  lemma UpdateSnoc(p: Pending, argv: seq<Bytes>)
    requires PendingOk(p) && (p.tx == NoTx || p.tx == UpdateTx)
    requires argv != [] && SecOk(argv[0]) && (p.sec == [] || p.sec == SecOf(argv[0]))
    ensures UpdateInput(p, argv).tx == UpdateTx && (p.tx == UpdateTx || AllRules(p) == [])
    ensures AllRules(UpdateInput(p, argv)) == AllRules(p) + [RuleOf(argv[0], argv[1..])]
  {
    var r, q := RuleOf(argv[0], argv[1..]), UpdateInput(p, argv);
    FlattenGrouped(p.updates, r);
    assert q.operations == p.operations == [] && q.updates == Grouped(p.updates, r);
    NoOperations(p);
    NoOperations(q);
  }

  lemma NoOperations(p: Pending)
    requires p.operations == []
    ensures AllRules(p) == Flatten(p.updates)
  {}

  lemma DeleteTyped(p: Pending, inputs: seq<Input>, at: seq<nat>, i: nat)
    requires PendingOk(p) && TypedAt(AllRules(p), p.tx, inputs, at) && i < |p.updates|
    ensures TypedAt(AllRules(p.(updates := RemoveAt(p.updates, i))), p.tx, inputs, WithoutGroup(at, i))
  {
    RemovedRules(p, i);
    CutTyped(AllRules(p), AllRules(p.(updates := RemoveAt(p.updates, i))), p.tx, inputs, at, i, 2 * i + |p.updates[i]|);
  }

  lemma RemovedRules(p: Pending, i: nat)
    requires PendingOk(p) && i < |p.updates|
    ensures var all, hi := AllRules(p), 2 * i + |p.updates[i]|;
            && hi <= |all| && (hi == 2 * i + 2 || hi == 2 * i + 1 == |all|)
            && AllRules(p.(updates := RemoveAt(p.updates, i))) == all[..2 * i] + all[hi..]
  {
    FlattenRemoved(p.updates, i);
    GroupAt(p.updates, i);
    assert AllRules(p) == Flatten(p.updates);
  }

  lemma CutTyped(all: seq<CliRule>, left: seq<CliRule>, tx: Tx, inputs: seq<Input>, at: seq<nat>, i: nat, hi: nat)
    requires TypedAt(all, tx, inputs, at) && hi <= |all| && (hi == 2 * i + 2 || hi == 2 * i + 1 == |all|)
    requires left == all[..2 * i] + all[hi..]
    ensures TypedAt(left, tx, inputs, WithoutGroup(at, i))
  {
    TypedCut(all, tx, inputs, at, 2 * i, hi);
    CutIsGroup(at, i, hi);
  }

  lemma CutIsGroup(at: seq<nat>, i: nat, hi: nat)
    requires hi <= |at| && (hi == 2 * i + 2 || hi == 2 * i + 1 == |at|)
    ensures WithoutGroup(at, i) == at[..2 * i] + at[hi..]
  {}

  /** Where a group's rules are among all. */
  lemma GroupAt(groups: seq<seq<CliRule>>, i: nat)
    requires GroupsOk(groups) && i < |groups|
    ensures |Flatten(groups[..i])| == 2 * i
    ensures |groups[i]| == 2 || (|groups[i]| == 1 && |Flatten(groups)| == 2 * i + 1)
  {
    assert forall j | 0 <= j < i :: groups[..i][j] == groups[j];
    FlattenPairs(groups[..i]);
    if i == |groups| - 1 { assert Flatten(groups) == Flatten(groups[..i]) + groups[i]; }
  }

  lemma {:induction false} RunTyped(inputs: seq<Input>)
    ensures TypedAt(AllRules(Run(inputs)), Run(inputs).tx, inputs, Live(inputs))
  {
    if inputs != [] {
      var u, x := inputs[..|inputs| - 1], inputs[|inputs| - 1];
      RunTyped(u);
      TypedSnoc(u, x);
      assert inputs == u + [x];
    }
  }

  lemma TypedSnoc(u: seq<Input>, x: Input)
    requires TypedAt(AllRules(Run(u)), Run(u).tx, u, Live(u))
    ensures TypedAt(AllRules(Run(u + [x])), Run(u + [x]).tx, u + [x], Live(u + [x]))
  {
    RunPendingOk(u);
    StepTyped(Run(u), u, Live(u), x);
    RunSnoc(u, x);
    LiveSnoc(u, x);
  }

  lemma RunSnoc(u: seq<Input>, x: Input)
    ensures Run(u + [x]) == Step(Run(u), x)
  {
    assert (u + [x])[..|u|] == u;
  }

  lemma LiveSnoc(u: seq<Input>, x: Input)
    ensures Live(u + [x]) == LiveStep(Run(u), Live(u), |u|, x)
  {
    assert (u + [x])[..|u|] == u;
  }

  // ---- no line is lost ----

  ghost predicate LetThroughAt(inputs: seq<Input>, i: nat)
    requires i < |inputs|
  {
    LetThrough(Run(inputs[..i]), inputs[i])
  }

  /** Line j takes line i back: it resets everything, or deletes the group that line i is in. */
  ghost predicate TakesBack(inputs: seq<Input>, j: nat, i: nat)
    requires j < |inputs|
  {
    var p, x := Run(inputs[..j]), inputs[j];
    Resets(p, x) || (Deletes(p, x) && i in GroupPlaces(Live(inputs[..j]), Atoi(x.argv[0])))
  }

  lemma WithoutGroupHas(at: seq<nat>, g: nat, i: nat)
    requires forall a, b | 0 <= a < b < |at| :: at[a] < at[b]
    ensures i in WithoutGroup(at, g) <==> i in at && i !in GroupPlaces(at, g)
  {
    if 2 * g <= |at| {
      var hi := if 2 * g + 2 <= |at| then 2 * g + 2 else |at|;
      assert at == at[..2 * g] + at[2 * g..hi] + at[hi..];
      assert forall a | 0 <= a < 2 * g :: at[a] !in at[2 * g..hi];
      assert forall a | hi <= a < |at| :: at[a] !in at[2 * g..hi];
    }
  }

  lemma LiveBefore(inputs: seq<Input>, i: nat)
    requires TypedAt(AllRules(Run(inputs)), Run(inputs).tx, inputs, Live(inputs)) && i in Live(inputs)
    ensures i < |inputs|
  {}

  /** Line i was let through and no later line took it back. */
  ghost predicate StillPending(inputs: seq<Input>, i: nat) {
    && i < |inputs| && LetThroughAt(inputs, i)
    && forall j: nat | i < j < |inputs| :: !TakesBack(inputs, j, i)
  }

  lemma StillPendingLast(inputs: seq<Input>, i: nat)
    requires inputs != []
    ensures var k := |inputs| - 1;
            StillPending(inputs, i) <==>
            (i == k && LetThroughAt(inputs, k)) || (i < k && StillPending(inputs[..k], i) && !TakesBack(inputs, k, i))
  {
    var k := |inputs| - 1;
    var u := inputs[..k];
    if i < k { assert u[..i] == inputs[..i]; }
    forall j: nat | i < j < k ensures TakesBack(u, j, i) <==> TakesBack(inputs, j, i) {
      assert u[..j] == inputs[..j];
    }
  }

  /** A line is pending exactly when it was let through and no later line took it back. */
  lemma {:induction false} LiveExactly(inputs: seq<Input>, i: nat)
    ensures i in Live(inputs) <==> StillPending(inputs, i)
  {
    if inputs != [] {
      var u := inputs[..|inputs| - 1];
      LiveExactly(u, i);
      RunTyped(u);
      LiveLast(inputs, i);
      StillPendingLast(inputs, i);
    }
  }

  lemma LiveLast(inputs: seq<Input>, i: nat)
    requires inputs != []
    requires var u := inputs[..|inputs| - 1]; TypedAt(AllRules(Run(u)), Run(u).tx, u, Live(u))
    ensures var k := |inputs| - 1;
            i in Live(inputs) <==>
            (i == k && LetThroughAt(inputs, k)) || (i < k && i in Live(inputs[..k]) && !TakesBack(inputs, k, i))
  {
    var k := |inputs| - 1;
    var at, x := Live(inputs[..k]), inputs[k];
    if i in at { LiveBefore(inputs[..k], i); }
    if x.DeleteLine? && Deletes(Run(inputs[..k]), x) { WithoutGroupHas(at, Atoi(x.argv[0]), i); }
  }

  // ---- what is sent ----

  ghost predicate RowFrom(row: seq<Bytes>, tx: Tx, inputs: seq<Input>, j: nat) {
    j < |inputs| && RuleLine(inputs[j], tx) && row == SentRow(inputs[j])
  }

  /** Row i is what line at[i] of the input sends. */
  ghost predicate RowsFrom(rows: seq<seq<Bytes>>, tx: Tx, inputs: seq<Input>, at: seq<nat>) {
    |rows| <= |at| && forall i | 0 <= i < |rows| :: RowFrom(rows[i], tx, inputs, at[i])
  }

  /** Row i is what line at[2 i + k] of the input sends. */
  ghost predicate SideFrom(rows: seq<seq<Bytes>>, inputs: seq<Input>, at: seq<nat>, k: nat) {
    forall i | 0 <= i < |rows| :: 2 * i + k < |at| && RowFrom(rows[i], UpdateTx, inputs, at[2 * i + k])
  }

  /** Row i is rule k of the complete group i. */
  ghost predicate FromGroups(rows: seq<seq<Bytes>>, groups: seq<seq<CliRule>>, k: nat) {
    && |rows| <= |groups|
    && forall i | 0 <= i < |rows| :: |groups[i]| == 2 && k < 2 && rows[i] == UpToEmpty(Fields(groups[i][k]))
  }

  lemma TypedRow(rules: seq<CliRule>, tx: Tx, inputs: seq<Input>, at: seq<nat>, i: nat)
    requires TypedAt(rules, tx, inputs, at) && i < |rules|
    ensures RuleLine(inputs[at[i]], tx) && UpToEmpty(Fields(rules[i])) == SentRow(inputs[at[i]])
  {
    SentFields(inputs[at[i]].argv[0], inputs[at[i]].argv[1..]);
  }

  /** Of complete groups, the k-th rule of group i is rule 2 i + k of all. */
  lemma {:induction false} FlattenAt(groups: seq<seq<CliRule>>, i: nat, k: nat)
    requires GroupsOk(groups) && i < CompleteCount(groups) && k < 2
    ensures |Flatten(groups)| >= 2 * CompleteCount(groups)
    ensures Flatten(groups)[2 * i + k] == groups[i][k]
  {
    var n := |groups| - 1;
    var front := groups[..n];
    assert GroupsOk(front) && CompleteCount(front) == n by {
      assert forall j | 0 <= j < n :: front[j] == groups[j];
    }
    FlattenPairs(front);
    if i < n { FlattenAt(front, i, k); }
  }

  lemma {:induction false} FlattenPairs(groups: seq<seq<CliRule>>)
    requires forall i | 0 <= i < |groups| :: |groups[i]| == 2
    ensures |Flatten(groups)| == 2 * |groups|
  {
    if groups != [] { FlattenPairs(groups[..|groups| - 1]); }
  }

  /** Of what a commit of `p` sends, row by row the typed line it comes from. */
  ghost predicate SentFrom(p: Pending, inputs: seq<Input>, at: seq<nat>) {
    match Sent(p)
    case Nothing => p.operations == [] && p.updates == []
    case SendRules(tx, _, _, rules) =>
      |rules| == |p.operations| == |at| && p.updates == [] && RowsFrom(rules, tx, inputs, at)
    case SendUpdate(_, _, olds, news) =>
      && p.operations == [] && |olds| == |news| == CompleteCount(p.updates) == |at| / 2
      && FromGroups(olds, p.updates, 0) && FromGroups(news, p.updates, 1)
      && SideFrom(olds, inputs, at, 0) && SideFrom(news, inputs, at, 1)
  }

  /** Main result: over every sequence of input lines, each rule a commit sends is the fields of a
      line of the transaction's kind, up to the first empty one and at most six, different lines
      for different rules and in the order they were typed; an update sends one old and one new
      rule for each complete group, typed one after the other. The lines are exactly those let
      through and not taken back, of which an update keeps an odd last one for later. */
  lemma CommitSends(inputs: seq<Input>)
    ensures TypedAt(AllRules(Run(inputs)), Run(inputs).tx, inputs, Live(inputs))
    ensures SentFrom(Run(inputs), inputs, Live(inputs))
    ensures forall i: nat :: i in Live(inputs) <==> StillPending(inputs, i)
  {
    RunPendingOk(inputs);
    RunTyped(inputs);
    SentTyped(Run(inputs), inputs, Live(inputs));
    forall i: nat ensures i in Live(inputs) <==> StillPending(inputs, i) { LiveExactly(inputs, i); }
  }

  ghost predicate SideOk(groups: seq<seq<CliRule>>, inputs: seq<Input>, at: seq<nat>, k: nat)
    requires k < 2
  {
    var rows := Side(groups, k);
    |rows| == CompleteCount(groups) && FromGroups(rows, groups, k) && SideFrom(rows, inputs, at, k)
  }

  lemma SidesSent(p: Pending, inputs: seq<Input>, at: seq<nat>)
    requires p.tx == UpdateTx && p.operations == [] && CompleteCount(p.updates) == |at| / 2
    requires SideOk(p.updates, inputs, at, 0) && SideOk(p.updates, inputs, at, 1)
    ensures SentFrom(p, inputs, at)
  {}

  lemma SentTyped(p: Pending, inputs: seq<Input>, at: seq<nat>)
    requires PendingOk(p) && TypedAt(AllRules(p), p.tx, inputs, at)
    ensures SentFrom(p, inputs, at)
  {
    var all := AllRules(p);
    if p.tx == UpdateTx {
      assert all == Flatten(p.updates);
      UpdateRowsFrom(all, p.updates, inputs, at, 0);
      UpdateRowsFrom(all, p.updates, inputs, at, 1);
      HalfOfAll(p.updates);
      SidesSent(p, inputs, at);
    } else if p.tx != NoTx {
      assert all == p.operations;
      RulesRowsFrom(all, p.tx, inputs, at);
    }
  }

  lemma HalfOfAll(groups: seq<seq<CliRule>>)
    requires GroupsOk(groups)
    ensures CompleteCount(groups) == |Flatten(groups)| / 2
  {
    if groups != [] {
      var n := |groups| - 1;
      GroupAt(groups, n);
      assert Flatten(groups) == Flatten(groups[..n]) + groups[n];
    }
  }

  lemma RulesRowsFrom(rules: seq<CliRule>, tx: Tx, inputs: seq<Input>, at: seq<nat>)
    requires TypedAt(rules, tx, inputs, at)
    ensures RowsFrom(Rows(rules), tx, inputs, at)
  {
    forall i | 0 <= i < |rules| ensures RowFrom(Rows(rules)[i], tx, inputs, at[i]) {
      TypedRow(rules, tx, inputs, at, i);
    }
  }

  lemma UpdateRowsFrom(all: seq<CliRule>, groups: seq<seq<CliRule>>, inputs: seq<Input>, at: seq<nat>, k: nat)
    requires GroupsOk(groups) && all == Flatten(groups) && TypedAt(all, UpdateTx, inputs, at) && k < 2
    ensures SideOk(groups, inputs, at, k)
  {
    CompleteGroups(groups, k);
    var rows := Side(groups, k);
    forall i | 0 <= i < |rows|
      ensures 2 * i + k < |at| && RowFrom(rows[i], UpdateTx, inputs, at[2 * i + k])
    {
      FlattenAt(groups, i, k);
      TypedRow(all, UpdateTx, inputs, at, 2 * i + k);
    }
  }

  /** The policy type is set by add and remove lines alone and never cleared: once set, it stays
      through every commit and abort, and later transactions are held to it. */
  lemma {:induction false} PtypeSticks(u: seq<Input>, v: seq<Input>)
    requires Run(u).ptype != []
    ensures Run(u + v).ptype == Run(u).ptype
  {
    if v == [] {
      assert u + v == u;
    } else {
      var w, x := v[..|v| - 1], v[|v| - 1];
      assert u + v == (u + w) + [x];
      PtypeSticks(u, w);
      PtypeStep(Run(u + w), x);
      RunSnoc(u + w, x);
    }
  }

  /** The line is an add or remove line with a policy type that the pending state lets through. */
  predicate TypesRule(p: Pending, input: Input) {
    && (input.AddLine? || input.RemoveLine?)
    && (p.tx == NoTx || p.tx == KindOf(input))
    && input.argv != [] && input.argv[0] != [] && SecOk(input.argv[0])
  }

  ghost predicate TypesAt(inputs: seq<Input>, j: nat)
    requires j < |inputs|
  {
    TypesRule(Run(inputs[..j]), inputs[j])
  }

  ghost predicate FirstTyped(inputs: seq<Input>, i: nat) {
    i < |inputs| && TypesAt(inputs, i) && forall j: nat | j < i :: !TypesAt(inputs, j)
  }

  lemma TypesAtSnoc(u: seq<Input>, x: Input, j: nat)
    requires j <= |u|
    ensures TypesAt(u + [x], j) <==> if j < |u| then TypesAt(u, j) else TypesRule(Run(u), x)
  {
    var all := u + [x];
    assert all[..j] == u[..j] && u[..|u|] == u;
  }

  /** The policy type a commit sends, an update's included, is that of the first add or remove line
      ever let through with one, and empty before there is such a line. */
  lemma {:induction false} PtypeIsFirstTyped(inputs: seq<Input>)
    ensures forall i: nat | FirstTyped(inputs, i) :: Run(inputs).ptype == inputs[i].argv[0]
    ensures (forall i: nat :: !FirstTyped(inputs, i)) ==>
              Run(inputs).ptype == [] && forall j: nat | j < |inputs| :: !TypesAt(inputs, j)
  {
    if inputs != [] {
      var k := |inputs| - 1;
      var u, x := inputs[..k], inputs[k];
      assert inputs == u + [x];
      PtypeIsFirstTyped(u);
      PtypeStep(Run(u), x);
      forall j: nat | j <= k ensures TypesAt(inputs, j) <==> if j < k then TypesAt(u, j) else TypesRule(Run(u), x) {
        TypesAtSnoc(u, x, j);
      }
      if i: nat :| FirstTyped(u, i) {
        assert FirstTyped(inputs, i) && u[i].argv[0] != [];
        forall j: nat | FirstTyped(inputs, j) ensures j == i {}
      } else {
        assert TypesAt(inputs, k) ==> FirstTyped(inputs, k);
      }
    }
  }

  lemma PtypeStep(p: Pending, input: Input)
    ensures p.ptype == [] ==> Step(p, input).ptype == if TypesRule(p, input) then input.argv[0] else []
    ensures p.ptype != [] ==> Step(p, input).ptype == p.ptype
  {}

  // ---- the context ----

  class Ctx {
    var tx: Tx
    var sec: Bytes
    var ptype: Bytes
    var operations: seq<CliRule>
    var updates: seq<seq<CliRule>>

    ghost function State(): Pending
      reads this
    {
      Pending(tx, sec, ptype, operations, updates)
    }

    constructor ()
      ensures State() == START
    {
      tx, sec, ptype, operations, updates := NoTx, [], [], [], [];
    }

    method HandleTxInput(name: Tx, argv: seq<Bytes>)
      modifies this
      ensures State() == TxInput(old(State()), name, argv)
    {
      if tx != name && tx != NoTx { return; }
      tx := name;
      if |argv| > 0 {
        var newSec := [];
        if argv[0] != [] {
          newSec := [argv[0][0]];
          if newSec != G && newSec != P { return; }
        }
        if ptype != [] && ptype != argv[0] { return; }
        sec, ptype := newSec, argv[0];
        var rule := ConvertRule(argv[0], argv[1..]);
        operations := operations + [rule];
      }
    }

    method HandleUpdateInput(argv: seq<Bytes>)
      modifies this
      ensures State() == UpdateInput(old(State()), argv)
    {
      if tx != UpdateTx && tx != NoTx { return; }
      tx := UpdateTx;
      if |argv| > 0 {
        var newSec := [];
        if argv[0] != [] {
          newSec := [argv[0][0]];
          if newSec != G && newSec != P { return; }
        }
        if sec != [] && sec != newSec { return; }
        sec := newSec;
        var rule := ConvertRule(argv[0], argv[1..]);
        if |updates| > 0 {
          var last := updates[|updates| - 1];
          if |last| == 1 {
            updates := updates[|updates| - 1 := last + [rule]];
          } else {
            updates := updates + [[rule]];
          }
        } else {
          updates := updates + [[rule]];
        }
      }
    }

    method InitTx()
      modifies this
      ensures State() == Reset(old(State()))
    {
      tx, sec, operations, updates := NoTx, [], [], [];
    }

    /** Executor on one line. */
    method Execute(input: Input) returns (sent: Request)
      modifies this
      ensures State() == Step(old(State()), input)
      ensures sent == if input.CommitLine? then Sent(old(State())) else Nothing
    {
      sent := Nothing;
      match input
      case AddLine(argv) => HandleTxInput(AddTx, argv);
      case RemoveLine(argv) => HandleTxInput(RemoveTx, argv);
      case UpdateLine(argv) => HandleUpdateInput(argv);
      case DeleteLine(argv) =>
        if |argv| > 0 {
          var index := Atoi(argv[0]);
          if index > -1 && index < |updates| { updates := updates[..index] + updates[index + 1..]; }
        }
      case AbortLine => InitTx();
      case CommitLine(effected) =>
        if tx == UpdateTx {
          var o, n := GroupsTo2DString(updates);
          sent := SendUpdate(sec, ptype, o, n);
        } else if tx != NoTx {
          var rules := RulesTo2DString(operations);
          sent := SendRules(tx, sec, ptype, rules);
        }
        if tx != NoTx && effected { InitTx(); }
      case OtherLine =>
    }
  }
}
