/** How Casbin changes the rules in memory on filtered removal and on batch update: what the
    theorems about those commands ask of an engine. Casbin itself is not part of this model. */
module Casbin {
  import opened ByteStrings
  import opened Keys
  import opened Refinement
  import opened Filtering
  import opened Fsm

  // ---- filtered removal ----

  /** Of a stored rule, field i past the type as Casbin numbers it. */
  predicate HasField(l: Line, i: int, value: Bytes) { 0 <= i && i + 1 < |l| && l[i + 1] == value }

  /** Casbin's test of a rule: the type, and field by field every value that is not empty. */
  predicate MemMatch(l: Line, ptype: Bytes, index: int, values: seq<Bytes>) {
    && l != [] && l[0] == ptype
    && forall i | 0 <= i < |values| :: values[i] == [] || HasField(l, index + i, values[i])
  }

  /** Comparing the rule value by value up to the first difference never reads outside it, where
      Casbin would panic. */
  predicate Readable(l: Line, ptype: Bytes, index: int, values: seq<Bytes>) {
    l != [] && l[0] == ptype ==>
      forall i | 0 <= i < |values| && values[i] != [] && MemMatch(l, ptype, index, values[..i]) ::
        0 <= index + i < |l| - 1
  }

  predicate AllReadable(rules: set<Line>, ptype: Bytes, index: int, values: seq<Bytes>) {
    forall l | l in rules :: Readable(l, ptype, index, values)
  }

  /** Casbin removes the matching rules, an empty value matching any field. */
  ghost predicate FiltersByField(e: Engine) {
    forall rules, ptype, index, values | AllReadable(rules, ptype, index, values) ::
      e.filter(rules, ptype, index, values).0 == Keep(rules, l => MemMatch(l, ptype, index, values))
  }

  // ---- batch update ----

  /** Every old rule is found at its turn. */
  ghost predicate AllFound(rules: set<Line>, olds: seq<Line>) { Distinct(olds) && ToLineSet(olds) <= rules }

  /** New rules that are neither stored nor among the old ones, of those that have an old rule. */
  ghost predicate Separate(rules: set<Line>, olds: seq<Line>, news: seq<Line>) {
    forall i | 0 <= i < |news| && i < |olds| :: news[i] !in rules && news[i] !in olds
  }

  /** The loop over the old rules never reads past the end of the new ones, where Casbin would
      panic: there are enough, or an old rule before the end is not found. */
  ghost predicate Paired(rules: set<Line>, olds: seq<Line>, news: seq<Line>) {
    |olds| <= |news| || !AllFound(rules, olds[..|news| + 1])
  }

  ghost function AllOrNone(rules: set<Line>, olds: seq<Line>, news: seq<Line>): set<Line> {
    if |olds| <= |news| && AllFound(rules, olds) then (rules - ToLineSet(olds)) + ToLineSet(news[..|olds|]) else rules
  }

  /** Casbin replaces all the old rules or, when one is not found at its turn, none. */
  ghost predicate UpdatesAllOrNone(e: Engine) {
    forall rules, olds, news | Separate(rules, olds, news) && Paired(rules, olds, news) ::
      e.update(rules, olds, news).0 == AllOrNone(rules, olds, news)
  }
}
