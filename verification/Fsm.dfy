/** The replicated state machine of one node: enforcers in memory, rows and the namespace registry
    on disk, node metadata (server/store/fsm.go). */
module Fsm {
  import opened ByteStrings
  import opened Keys
  import opened Badger
  import opened Adapter
  import opened Refinement
  import Paging

  /** What is taken from Casbin: whether a model text parses and how it prints again, what becomes
      of a stored line that is joined with commas and parsed back, how the rules in memory change
      on update and filtered removal, and the decision on a request. */
  datatype Engine = Engine(
    parse: Bytes -> Option<Bytes>,
    load: Line -> Line,
    update: (set<Line>, seq<Line>, seq<Line>) -> (set<Line>, bool),
    filter: (set<Line>, Bytes, int, seq<Bytes>) -> (set<Line>, seq<Line>),
    decide: (Option<Bytes>, set<Line>, seq<Bytes>) -> Answer)

  datatype Answer = Allow | Deny | EnforceError

  /** casbin.DistributedEnforcer: no model until SET_MODEL. */
  datatype Enforcer = Enforcer(model: Option<Bytes>, rules: set<Line>)

  type Metadata = map<Bytes, map<Bytes, Bytes>>

  datatype Node = Node(table: Table, enforcers: map<Bytes, Enforcer>, meta: Metadata)

  const EMPTY: Node := Node(map[], map[], map[])

  datatype PageRequest = PageRequest(cursor: Bytes, skip: int, limit: int, reverse: bool)

  datatype Command =
    | ListNamespaces
    | PrintModel(ns: Bytes)
    | ListPolicies(ns: Bytes, page: Option<PageRequest>)
    | EnforceRequest(ns: Bytes, params: seq<Bytes>)
    | CreateNamespace(ns: Bytes)
    | SetModel(ns: Bytes, text: Bytes)
    | AddPolicies(ns: Bytes, ptype: Bytes, rules: seq<seq<Bytes>>)
    | UpdatePolicies(ns: Bytes, ptype: Bytes, olds: seq<seq<Bytes>>, news: seq<seq<Bytes>>)
    | RemovePolicies(ns: Bytes, ptype: Bytes, rules: seq<seq<Bytes>>)
    | RemoveFiltered(ns: Bytes, ptype: Bytes, index: int, values: seq<Bytes>)
    | MetadataSet(id: Bytes, data: map<Bytes, Bytes>)
    | MetadataDelete(id: Bytes)
    | Undecodable(add: bool)
    | Unhandled

  datatype Error =
    NamespaceExisted | NamespaceNotExist | ModelUnsetYet | UnmarshalFailed | EmptyName | BadModel | EmptyFilter | UnhandledCommand | WriteRefused

  datatype Reply =
    | Ack
    | Failed(error: Error)
    | Names(names: seq<Bytes>)
    | ModelText(text: Bytes)
    | NoModel
    | Policies(listing: Paging.Listing)
    | Decision(answer: Answer)
    | Effected(lines: seq<Line>)
    | Updated(effected: bool)
    | Crashed

  // ---- helpers ----

  /** The rules a node reads back from its rows. */
  function LoadSet(e: Engine, t: Table, ns: Bytes): set<Line> {
    set l | l in Loaded(t, ns) :: e.load(l)
  }

  /** The lines of a batch that are not yet in memory: the ones that are written. */
  function Missing(lines: seq<Line>, rules: set<Line>): seq<Line> {
    if lines == [] then []
    else
      var n := |lines| - 1;
      Missing(lines[..n], rules) + if lines[n] in rules then [] else [lines[n]]
  }

  /** The lines that change memory, in order: an added line counts once, a removed one too. */
  function AddedLines(lines: seq<Line>, rules: set<Line>): seq<Line> {
    if lines == [] then []
    else
      var n := |lines| - 1;
      AddedLines(lines[..n], rules) + if lines[n] in rules || lines[n] in lines[..n] then [] else [lines[n]]
  }

  function RemovedLines(lines: seq<Line>, rules: set<Line>): seq<Line> {
    if lines == [] then []
    else
      var n := |lines| - 1;
      RemovedLines(lines[..n], rules) + if lines[n] in rules && lines[n] !in lines[..n] then [lines[n]] else []
  }

  /** The enforcers that policy commands reach. */
  predicate Modelled(n: Node, ns: Bytes) { ns in n.enforcers && n.enforcers[ns].model.Some? }

  /** s.meta[id] grown by the entries of `data`. */
  function MergeMeta(meta: Metadata, id: Bytes, data: map<Bytes, Bytes>): Metadata {
    meta[id := (if id in meta then meta[id] else map[]) + data]
  }

  function PageOf(page: Option<PageRequest>): PageRequest {
    match page
    case Some(p) => p
    case None => PageRequest([], 0, 1000, false)
  }

  // ---- Apply ----

  /** SET_MODEL registers the namespace before it looks at the text. */
  function ApplySetModel(e: Engine, n: Node, ns: Bytes, text: Bytes): (Node, Reply) {
    if ns !in n.enforcers then (n, Failed(NamespaceNotExist))
    else if ns == [] then (n, Failed(EmptyName))
    else
      var t := Register(n.table, ns);
      match e.parse(text)
      case None => (n.(table := t), Failed(BadModel))
      case Some(m) => (n.(table := t, enforcers := n.enforcers[ns := Enforcer(Some(m), LoadSet(e, t, ns))]), Ack)
  }

  function ApplyAdd(n: Node, ns: Bytes, lines: seq<Line>): (Node, Reply) {
    if ns !in n.enforcers then (n, Failed(NamespaceNotExist))
    else
      var enf := n.enforcers[ns];
      if enf.model.None? then (n, Failed(ModelUnsetYet))
      else (n.(table := PutLines(n.table, ns, Missing(lines, enf.rules)),
               enforcers := n.enforcers[ns := enf.(rules := enf.rules + ToLineSet(lines))]),
            Effected(AddedLines(lines, enf.rules)))
  }

  /** Removal, update and filtered removal do not test for a model: without one there is no
      adapter to call and the command brings the node down. */
  function ApplyRemove(n: Node, ns: Bytes, lines: seq<Line>): (Node, Reply) {
    if ns !in n.enforcers then (n, Failed(NamespaceNotExist))
    else
      var enf := n.enforcers[ns];
      if enf.model.None? then (n, Crashed)
      else (n.(table := EraseLines(n.table, ns, lines),
               enforcers := n.enforcers[ns := enf.(rules := enf.rules - ToLineSet(lines))]),
            Effected(RemovedLines(lines, enf.rules)))
  }

  function ApplyUpdate(e: Engine, n: Node, ns: Bytes, olds: seq<Line>, news: seq<Line>): (Node, Reply) {
    if ns !in n.enforcers then (n, Failed(NamespaceNotExist))
    else
      var enf := n.enforcers[ns];
      if enf.model.None? then (n, Crashed)
      else
        var t := if |olds| == |news| then ReplaceLines(n.table, ns, olds, news) else n.table;
        var (rules, effected) := e.update(enf.rules, olds, news);
        (n.(table := t, enforcers := n.enforcers[ns := enf.(rules := rules)]), Updated(effected))
  }

  function ApplyFilter(e: Engine, n: Node, ns: Bytes, ptype: Bytes, index: int, values: seq<Bytes>): (Node, Reply) {
    if ns !in n.enforcers then (n, Failed(NamespaceNotExist))
    else
      var enf := n.enforcers[ns];
      if enf.model.None? then (n, Crashed)
      else if values == [] then (n, Failed(EmptyFilter))
      else
        var (rules, removed) := e.filter(enf.rules, ptype, index, values);
        (n.(table := EraseFiltered(n.table, ns, ptype, index, values),
            enforcers := n.enforcers[ns := enf.(rules := rules)]), Effected(removed))
  }

  function ApplyRead(e: Engine, n: Node, c: Command): Reply
    requires c.ListNamespaces? || c.PrintModel? || c.ListPolicies? || c.EnforceRequest?
  {
    match c
    case ListNamespaces => Names(RegisteredNames(n.table))
    case PrintModel(ns) =>
      if ns !in n.enforcers then Failed(NamespaceNotExist)
      else if n.enforcers[ns].model.None? then NoModel else ModelText(n.enforcers[ns].model.value)
    case ListPolicies(ns, page) =>
      var p := PageOf(page);
      Policies(Paging.List(n.table, ns, p.cursor, p.skip, p.limit, p.reverse))
    case EnforceRequest(ns, params) => Decide(e, n, ns, params)
  }

  /** The decision both Apply and the local read take from a namespace's enforcer. */
  function Decide(e: Engine, n: Node, ns: Bytes, params: seq<Bytes>): Reply {
    if ns !in n.enforcers then Failed(NamespaceNotExist)
    else Decision(e.decide(n.enforcers[ns].model, n.enforcers[ns].rules, params))
  }

  /** An add payload that does not decode is reported as a missing namespace, any other as what it is. */
  function UndecodableError(add: bool): Error { if add then NamespaceNotExist else UnmarshalFailed }

  /** Store.Apply: the new node and the reply. */
  function Apply(e: Engine, n: Node, c: Command): (Node, Reply) {
    match c
    case CreateNamespace(ns) =>
      if ns in n.enforcers then (n, Failed(NamespaceExisted))
      else (n.(enforcers := n.enforcers[ns := Enforcer(None, {})]), Ack)
    case SetModel(ns, text) => ApplySetModel(e, n, ns, text)
    case AddPolicies(ns, ptype, rules) => ApplyAdd(n, ns, Convert(ptype, rules))
    case RemovePolicies(ns, ptype, rules) => ApplyRemove(n, ns, Convert(ptype, rules))
    case UpdatePolicies(ns, ptype, olds, news) => ApplyUpdate(e, n, ns, Convert(ptype, olds), Convert(ptype, news))
    case RemoveFiltered(ns, ptype, index, values) => ApplyFilter(e, n, ns, ptype, index, values)
    case MetadataSet(id, data) => (n.(meta := MergeMeta(n.meta, id, data)), Ack)
    case MetadataDelete(id) => (n.(meta := n.meta - {id}), Ack)
    case Undecodable(add) => (n, Failed(UndecodableError(add)))
    case Unhandled => (n, Failed(UnhandledCommand))
    case _ => (n, ApplyRead(e, n, c))
  }

  /** The node after a log. */
  function Run(e: Engine, n: Node, log: seq<Command>): Node {
    if log == [] then n else Apply(e, Run(e, n, log[..|log| - 1]), log[|log| - 1]).0
  }

  /** The reply to entry `i` of a log. */
  function ReplyAt(e: Engine, n: Node, log: seq<Command>, i: nat): Reply
    requires i < |log|
  {
    Apply(e, Run(e, n, log[..i]), log[i]).1
  }

  lemma {:induction false} RunConcat(e: Engine, n: Node, u: seq<Command>, v: seq<Command>)
    ensures Run(e, n, u + v) == Run(e, Run(e, n, u), v)
  {
    if v == [] {
      assert u + v == u;
    } else {
      var k := |v| - 1;
      assert (u + v)[..|u| + k] == u + v[..k] && (u + v)[|u| + k] == v[k];
      RunConcat(e, n, u, v[..k]);
    }
  }

  // ---- snapshots ----

  datatype Snap = Snap(table: Table, models: map<Bytes, Bytes>, meta: Metadata)

  /** Store.Snapshot prints every enforcer's model; printing a missing model panics. */
  function Snapshot(n: Node): Option<Snap> {
    if forall ns | ns in n.enforcers :: n.enforcers[ns].model.Some?
    then Some(Snap(n.table, map ns | ns in n.enforcers :: n.enforcers[ns].model.value, n.meta))
    else None
  }

  /** The names Restore builds an enforcer for: registered, and with a model text. */
  predicate Restorable(t: Table, s: Snap, ns: Bytes) {
    ns in s.models && RegistryKey(ns) in t
  }

  /** Store.Restore into a store that holds nothing newer than the snapshot. */
  function Restore(e: Engine, n: Node, s: Snap): Option<Node> { RestoreAt(e, n, s, n.table + s.table) }

  /** Store.Restore when loading the snapshot's rows leaves the rows `t`: the enforcers are rebuilt
      from rows and model texts, and metadata is not read back. */
  function RestoreAt(e: Engine, n: Node, s: Snap, t: Table): Option<Node> {
    if forall ns | ns in s.models && Restorable(t, s, ns) :: ns != [] && e.parse(s.models[ns]).Some?
    then Some(n.(table := t,
                 enforcers := map ns | ns in s.models && Restorable(t, s, ns) ::
                   Enforcer(e.parse(s.models[ns]), LoadSet(e, t, ns))))
    else None
  }
}
