/** The life of namespaces over every run of commands from an empty node
    (server/store/fsm.go:75-86, 143-177, server/adapter/badger.go:89-106, 202-218). */
module Lifecycle {
  import opened ByteStrings
  import opened Keys
  import opened Badger
  import opened Adapter
  import opened Refinement
  import opened Fsm

  ghost predicate Registered(n: Node, ns: Bytes) { RegistryKey(ns) in n.table }

  /** SET_MODEL reaches the registry write: the name is known and not empty, and no stored key
      equals the bare name. */
  ghost predicate Registers(n: Node, c: Command, ns: Bytes) {
    c.SetModel? && c.ns == ns && ns in n.enforcers && ns != [] && ns !in n.table
  }

  lemma FilterKeepsRegistry(t: Table, ns: Bytes, ptype: Bytes, index: int, values: seq<Bytes>, m: Bytes)
    ensures RegistryKey(m) in EraseFiltered(t, ns, ptype, index, values) <==> RegistryKey(m) in t
  {
    assert RegistryKey(m)[0] == 0;
    assert WithPrefix(ns, Join([ptype] + values))[0] == 1 && WithPrefix(ns, ptype)[0] == 1;
  }

  lemma CallRegistry(t: Table, c: Call, m: Bytes)
    ensures RegistryKey(m) in Step(t, c) <==> RegistryKey(m) in t
  {
    assert RegistryKey(m)[0] == 0 && WithPrefix(c.ns, [])[0] == 1;
    StepFootprint(t, c, RegistryKey(m));
  }

  /** One command, of any kind: names are added by CREATE alone and registered by SET_MODEL
      alone; nothing is ever forgotten. */
  lemma ApplyNames(e: Engine, n: Node, c: Command, ns: Bytes)
    ensures ns in Apply(e, n, c).0.enforcers <==> ns in n.enforcers || c == CreateNamespace(ns)
    ensures Registered(Apply(e, n, c).0, ns) <==> Registered(n, ns) || Registers(n, c, ns)
  {
    match c
    case AddPolicies(m, ptype, rules) =>
      if m in n.enforcers { CallRegistry(n.table, Add(m, Missing(Convert(ptype, rules), n.enforcers[m].rules)), ns); }
    case RemovePolicies(m, ptype, rules) => CallRegistry(n.table, Remove(m, Convert(ptype, rules)), ns);
    case UpdatePolicies(m, ptype, olds, news) =>
      CallRegistry(n.table, Update(m, Convert(ptype, olds), Convert(ptype, news)), ns);
    case RemoveFiltered(m, ptype, index, values) => FilterKeepsRegistry(n.table, m, ptype, index, values, ns);
    case SetModel(m, _) => RegisterOne(n.table, m, ns);
    case _ =>
  }

  lemma RegisterOne(t: Table, m: Bytes, ns: Bytes)
    ensures RegistryKey(ns) in Register(t, m) <==> RegistryKey(ns) in t || (m == ns && m !in t)
  {
    assert RegistryKey(ns)[1..] == ns && RegistryKey(m)[1..] == m;
  }

  ghost predicate CreatedBy(log: seq<Command>, ns: Bytes) {
    exists i | 0 <= i < |log| :: log[i] == CreateNamespace(ns)
  }

  /** A name is known exactly when the log has a CREATE for it. */
  lemma {:induction false} KnownIffCreated(e: Engine, log: seq<Command>, ns: Bytes)
    ensures ns in Run(e, EMPTY, log).enforcers <==> CreatedBy(log, ns)
  {
    if log != [] {
      var k := |log| - 1;
      var front := log[..k];
      KnownIffCreated(e, front, ns);
      ApplyNames(e, Run(e, EMPTY, front), log[k], ns);
      assert CreatedBy(front, ns) ==> CreatedBy(log, ns) by {
        if CreatedBy(front, ns) {
          var i :| 0 <= i < k && front[i] == CreateNamespace(ns);
          assert log[i] == CreateNamespace(ns);
        }
      }
      if CreatedBy(log, ns) && log[k] != CreateNamespace(ns) {
        var i :| 0 <= i < |log| && log[i] == CreateNamespace(ns);
        assert front[i] == CreateNamespace(ns);
      }
    }
  }

  /** A name is created successfully at most once. */
  lemma CreatedOnce(e: Engine, log: seq<Command>, ns: Bytes, i: nat, j: nat)
    requires i < j < |log| && log[i] == CreateNamespace(ns) && log[j] == CreateNamespace(ns)
    ensures ReplyAt(e, EMPTY, log, j) == Failed(NamespaceExisted)
  {
    KnownIffCreated(e, log[..j], ns);
    assert log[..j][i] == CreateNamespace(ns);
  }

  ghost predicate RegistersAt(e: Engine, log: seq<Command>, j: nat, ns: Bytes) {
    j < |log| && Registers(Run(e, EMPTY, log[..j]), log[j], ns)
  }

  ghost predicate RegisteredBy(e: Engine, log: seq<Command>, ns: Bytes) {
    exists j | 0 <= j < |log| :: RegistersAt(e, log, j, ns)
  }

  lemma RegistersAtPrefix(e: Engine, u: seq<Command>, v: seq<Command>, j: nat, ns: Bytes)
    requires j < |u|
    ensures RegistersAt(e, u, j, ns) <==> RegistersAt(e, u + v, j, ns)
  {
    assert (u + v)[..j] == u[..j];
  }

  lemma RegisteredBySnoc(e: Engine, u: seq<Command>, c: Command, ns: Bytes)
    ensures RegisteredBy(e, u + [c], ns) <==> RegisteredBy(e, u, ns) || Registers(Run(e, EMPTY, u), c, ns)
  {
    var log, k := u + [c], |u|;
    assert log[..k] == u;
    assert RegistersAt(e, log, k, ns) <==> Registers(Run(e, EMPTY, u), c, ns);
    forall j | 0 <= j < k ensures RegistersAt(e, u, j, ns) <==> RegistersAt(e, log, j, ns) {
      RegistersAtPrefix(e, u, [c], j, ns);
    }
  }

  /** Exactly when a name is registered, for every name. */
  lemma {:induction false} RegisteredExactly(e: Engine, log: seq<Command>, ns: Bytes)
    ensures Registered(Run(e, EMPTY, log), ns) <==> RegisteredBy(e, log, ns)
  {
    if log != [] {
      var k := |log| - 1;
      var front := log[..k];
      RegisteredExactly(e, front, ns);
      ApplyNames(e, Run(e, EMPTY, front), log[k], ns);
      RegisteredBySnoc(e, front, log[k], ns);
      assert log == front + [log[k]];
    }
  }

  /** Every stored key starts with 0x00 or 0x01. */
  ghost predicate KeysMarked(t: Table) {
    forall k | k in t :: k != [] && k[0] <= 1
  }

  lemma {:induction false} RunKeysMarked(e: Engine, log: seq<Command>)
    ensures KeysMarked(Run(e, EMPTY, log).table)
  {
    if log != [] {
      var front := log[..|log| - 1];
      RunKeysMarked(e, front);
      ApplyKeysMarked(e, Run(e, EMPTY, front), log[|log| - 1]);
    }
  }

  lemma CallKeysMarked(t: Table, c: Call)
    requires KeysMarked(t)
    ensures KeysMarked(Step(t, c))
  {
    forall k | k in Step(t, c) ensures k != [] && k[0] <= 1 {
      if WithPrefix(c.ns, []) <= k {
        assert k[0] == WithPrefix(c.ns, [])[0];
      } else {
        StepFootprint(t, c, k);
      }
    }
  }

  lemma ApplyKeysMarked(e: Engine, n: Node, c: Command)
    requires KeysMarked(n.table)
    ensures KeysMarked(Apply(e, n, c).0.table)
  {
    match c
    case AddPolicies(m, ptype, rules) =>
      if m in n.enforcers { CallKeysMarked(n.table, Add(m, Missing(Convert(ptype, rules), n.enforcers[m].rules))); }
    case RemovePolicies(m, ptype, rules) => CallKeysMarked(n.table, Remove(m, Convert(ptype, rules)));
    case UpdatePolicies(m, ptype, olds, news) =>
      CallKeysMarked(n.table, Update(m, Convert(ptype, olds), Convert(ptype, news)));
    case _ =>
  }

  /** Registry rows are blank. */
  ghost predicate BlankRegistry(t: Table) {
    forall k | k in t && NAMESPACE_PREFIX <= k :: t[k] == Blank
  }

  lemma CallKeepsBlank(t: Table, c: Call)
    requires BlankRegistry(t)
    ensures BlankRegistry(Step(t, c))
  {
    forall k | k in Step(t, c) && NAMESPACE_PREFIX <= k ensures Step(t, c)[k] == Blank {
      assert k[0] == 0 && WithPrefix(c.ns, [])[0] == 1;
      StepFootprint(t, c, k);
    }
  }

  /** Registry rows are blank along every run: what Restore relies on. */
  lemma {:induction false} RunBlankRegistry(e: Engine, log: seq<Command>)
    ensures BlankRegistry(Run(e, EMPTY, log).table)
  {
    if log != [] {
      var n, c := Run(e, EMPTY, log[..|log| - 1]), log[|log| - 1];
      RunBlankRegistry(e, log[..|log| - 1]);
      match c
      case AddPolicies(m, ptype, rules) =>
        if m in n.enforcers { CallKeepsBlank(n.table, Add(m, Missing(Convert(ptype, rules), n.enforcers[m].rules))); }
      case RemovePolicies(m, ptype, rules) => CallKeepsBlank(n.table, Remove(m, Convert(ptype, rules)));
      case UpdatePolicies(m, ptype, olds, news) =>
        CallKeepsBlank(n.table, Update(m, Convert(ptype, olds), Convert(ptype, news)));
      case _ =>
    }
  }

  lemma {:induction false} BatchPolicyRows(t: Table, ns: Bytes, lines: seq<Line>)
    requires PolicyRows(t)
    ensures PolicyRows(PutLines(t, ns, lines)) && PolicyRows(EraseLines(t, ns, lines))
  {
    if lines != [] { BatchPolicyRows(t, ns, lines[..|lines| - 1]); }
  }

  lemma {:induction false} UpdatePolicyRows(t: Table, ns: Bytes, olds: seq<Line>, news: seq<Line>)
    requires PolicyRows(t) && |olds| == |news|
    ensures PolicyRows(ReplaceLines(t, ns, olds, news))
  {
    if olds != [] { UpdatePolicyRows(t, ns, olds[..|olds| - 1], news[..|olds| - 1]); }
  }

  /** Every policy row holds a line along every run: LoadPolicy has nothing else to decode. */
  lemma {:induction false} RunPolicyRows(e: Engine, log: seq<Command>)
    ensures PolicyRows(Run(e, EMPTY, log).table)
  {
    if log != [] {
      var n, c := Run(e, EMPTY, log[..|log| - 1]), log[|log| - 1];
      RunPolicyRows(e, log[..|log| - 1]);
      match c
      case AddPolicies(m, ptype, rules) =>
        if m in n.enforcers { BatchPolicyRows(n.table, m, Missing(Convert(ptype, rules), n.enforcers[m].rules)); }
      case RemovePolicies(m, ptype, rules) => BatchPolicyRows(n.table, m, Convert(ptype, rules));
      case UpdatePolicies(m, ptype, olds, news) =>
        if |olds| == |news| { UpdatePolicyRows(n.table, m, Convert(ptype, olds), Convert(ptype, news)); }
      case SetModel(m, _) => assert RegistryKey(m)[0] == 0;
      case _ =>
    }
  }

  /** Some SET_MODEL addressed the name after its creation, whatever became of the model. */
  ghost predicate Addressed(log: seq<Command>, ns: Bytes) {
    exists j | 0 <= j < |log| :: log[j].SetModel? && log[j].ns == ns && CreatedBy(log[..j], ns)
  }

  /** Main result: LIST_NAMESPACES reports, in byte order and without repeats, only known names that
      a SET_MODEL addressed after their creation, and every such name that is not empty and does
      not start with byte 0x00 or 0x01. */
  lemma ListedNames(e: Engine, log: seq<Command>)
    ensures var names := Apply(e, Run(e, EMPTY, log), ListNamespaces).1;
            && names.Names? && Ascending(names.names)
            && (forall ns | ns in names.names :: CreatedBy(log, ns) && Addressed(log, ns))
            && (forall ns | ns != [] && ns[0] > 1 :: ns in names.names <==> Addressed(log, ns))
  {
    var n := Run(e, EMPTY, log);
    RegisteredNamesComplete(n.table);
    forall ns ensures Registered(n, ns) ==> CreatedBy(log, ns) && Addressed(log, ns) {
      RegisteredExactly(e, log, ns);
      if RegisteredBy(e, log, ns) { RegisteredWasAddressed(e, log, ns); }
    }
    forall ns | ns != [] && ns[0] > 1 && Addressed(log, ns) ensures Registered(n, ns) {
      RegisteredExactly(e, log, ns);
      AddressedRegisters(e, log, ns);
    }
  }

  lemma RegisteredWasAddressed(e: Engine, log: seq<Command>, ns: Bytes)
    requires RegisteredBy(e, log, ns)
    ensures CreatedBy(log, ns) && Addressed(log, ns)
  {
    var j :| 0 <= j < |log| && RegistersAt(e, log, j, ns);
    KnownIffCreated(e, log[..j], ns);
    var i :| 0 <= i < j && log[..j][i] == CreateNamespace(ns);
    assert log[i] == CreateNamespace(ns);
  }

  lemma AddressedRegisters(e: Engine, log: seq<Command>, ns: Bytes)
    requires Addressed(log, ns) && ns != [] && ns[0] > 1
    ensures RegisteredBy(e, log, ns)
  {
    var j :| 0 <= j < |log| && log[j].SetModel? && log[j].ns == ns && CreatedBy(log[..j], ns);
    KnownIffCreated(e, log[..j], ns);
    RunKeysMarked(e, log[..j]);
    assert RegistersAt(e, log, j, ns);
  }

  /** The registry looks the bare name up: a name that spells a stored key is never registered.
      After `a` is registered, the name 0x00 a is known and addressed, yet not listed. */
  lemma ShadowedName(e: Engine, a: Bytes, text: Bytes)
    requires a != [] && a[0] > 1
    ensures var shadow := [0] + a;
            var log := [CreateNamespace(a), SetModel(a, text), CreateNamespace(shadow), SetModel(shadow, text)];
            Addressed(log, shadow) && !Registered(Run(e, EMPTY, log), shadow)
  {
    var shadow := [0] + a;
    var log := [CreateNamespace(a), SetModel(a, text), CreateNamespace(shadow), SetModel(shadow, text)];
    assert log[..3][2] == CreateNamespace(shadow);
    assert log[3].SetModel? && log[3].ns == shadow && CreatedBy(log[..3], shadow);
    var mid := log[..3];
    assert Addressed(mid, a) by {
      assert mid[..1][0] == CreateNamespace(a);
      assert mid[1].SetModel? && mid[1].ns == a && CreatedBy(mid[..1], a);
    }
    AddressedRegisters(e, mid, a);
    RegisteredExactly(e, mid, a);
    assert shadow == RegistryKey(a);
    assert shadow != a by { assert |shadow| == |a| + 1; }
    RegisteredExactly(e, log, shadow);
    forall j | 0 <= j < |log| ensures !RegistersAt(e, log, j, shadow) {
      assert j == 3 ==> log[..j] == mid;
    }
  }

  /** Known and registered names only grow, and registered names are known, along every run. */
  lemma NamesGrow(e: Engine, u: seq<Command>, v: seq<Command>, ns: Bytes)
    ensures ns in Run(e, EMPTY, u).enforcers ==> ns in Run(e, EMPTY, u + v).enforcers
    ensures Registered(Run(e, EMPTY, u), ns) ==> Registered(Run(e, EMPTY, u + v), ns)
    ensures Registered(Run(e, EMPTY, u), ns) ==> ns in Run(e, EMPTY, u).enforcers
  {
    KnownIffCreated(e, u, ns);
    KnownIffCreated(e, u + v, ns);
    RegisteredExactly(e, u, ns);
    RegisteredExactly(e, u + v, ns);
    if CreatedBy(u, ns) {
      var i :| 0 <= i < |u| && u[i] == CreateNamespace(ns);
      assert (u + v)[i] == CreateNamespace(ns);
    }
    if RegisteredBy(e, u, ns) {
      RegisteredWasAddressed(e, u, ns);
      var j :| 0 <= j < |u| && RegistersAt(e, u, j, ns);
      RegistersAtPrefix(e, u, v, j, ns);
    }
  }
}
