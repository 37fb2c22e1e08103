/** Node metadata over runs of commands, and the check that skips the Raft write
    (server/store/enforcer.go:171-218, server/store/fsm.go:256-282, server/store/store.go:637-649). */
module NodeMetadata {
  import opened ByteStrings
  import opened Fsm

  /** Store.Metadata: a missing node or key reads as the empty string. */
  function Lookup(meta: Metadata, id: Bytes, key: Bytes): Bytes {
    if id in meta && key in meta[id] then meta[id][key] else []
  }

  /** The local check of setMetadata: the node has metadata and reads as the new data already. */
  predicate UpToDate(meta: Metadata, id: Bytes, md: map<Bytes, Bytes>) {
    id in meta && forall k | k in md :: Lookup(meta, id, k) == md[k]
  }

  ghost predicate SameLookups(m: Metadata, n: Metadata) {
    forall id, key :: Lookup(m, id, key) == Lookup(n, id, key)
  }

  /** For a node with metadata, the check passes exactly when applying the write would be
      invisible to every lookup, empty values included. */
  lemma SkipIffInvisible(meta: Metadata, id: Bytes, md: map<Bytes, Bytes>)
    requires id in meta
    ensures UpToDate(meta, id, md) <==> SameLookups(meta, MergeMeta(meta, id, md))
  {}

  lemma ApplySameLookups(e: Engine, n: Node, m: Node, c: Command)
    requires SameLookups(n.meta, m.meta)
    ensures SameLookups(Apply(e, n, c).0.meta, Apply(e, m, c).0.meta)
  {
    MetaStep(e, n, c);
    MetaStep(e, m, c);
    var n', m' := Apply(e, n, c).0.meta, Apply(e, m, c).0.meta;
    forall id, key ensures Lookup(n', id, key) == Lookup(m', id, key) {
      assert Lookup(n.meta, id, key) == Lookup(m.meta, id, key);
    }
  }

  /** What a command does to one lookup. */
  lemma MetaStep(e: Engine, n: Node, c: Command)
    ensures forall id, key :: Lookup(Apply(e, n, c).0.meta, id, key) ==
              if c == MetadataDelete(id) then []
              else if Sets(c, id, key) then c.data[key] else Lookup(n.meta, id, key)
  {}

  predicate Sets(c: Command, id: Bytes, key: Bytes) {
    c.MetadataSet? && c.id == id && key in c.data
  }

  /** Skipping the write stays invisible whatever is applied afterwards. */
  lemma {:induction false} SkipInvisibleForever(e: Engine, n: Node, id: Bytes, md: map<Bytes, Bytes>, log: seq<Command>)
    requires UpToDate(n.meta, id, md)
    ensures SameLookups(Run(e, n, log).meta, Run(e, n, [MetadataSet(id, md)] + log).meta)
  {
    var w := [MetadataSet(id, md)];
    if log == [] {
      SkipIffInvisible(n.meta, id, md);
      assert w + log == w && w[..0] == [];
      assert Run(e, n, w) == Apply(e, Run(e, n, []), w[0]).0;
    } else {
      var k := |log| - 1;
      SkipInvisibleForever(e, n, id, md, log[..k]);
      assert (w + log)[..k + 1] == w + log[..k] && (w + log)[k + 1] == log[k];
      ApplySameLookups(e, Run(e, n, log[..k]), Run(e, n, w + log[..k]), log[k]);
    }
  }

  /** Entry `i` is the last set of the key for the node, and no delete of the node follows. */
  ghost predicate Current(log: seq<Command>, id: Bytes, key: Bytes, i: int) {
    && 0 <= i < |log| && Sets(log[i], id, key)
    && forall j | i < j < |log| :: log[j] != MetadataDelete(id) && !Sets(log[j], id, key)
  }

  lemma CurrentSnoc(log: seq<Command>, c: Command, id: Bytes, key: Bytes, i: int)
    ensures Current(log + [c], id, key, i) <==>
            if i == |log| then Sets(c, id, key)
            else Current(log, id, key, i) && c != MetadataDelete(id) && !Sets(c, id, key)
  {
    var all := log + [c];
    assert all[|log|] == c && forall j | 0 <= j < |log| :: all[j] == log[j];
  }

  /** Main result: in every run a lookup reads the last set after the last delete, else nothing. */
  lemma {:induction false} MetadataIsLastSet(e: Engine, log: seq<Command>, id: Bytes, key: Bytes)
    ensures forall i | Current(log, id, key, i) :: Lookup(Run(e, EMPTY, log).meta, id, key) == log[i].data[key]
    ensures (forall i :: !Current(log, id, key, i)) ==> Lookup(Run(e, EMPTY, log).meta, id, key) == []
  {
    if log != [] {
      var k := |log| - 1;
      var front := log[..k];
      MetadataIsLastSet(e, front, id, key);
      MetaStep(e, Run(e, EMPTY, front), log[k]);
      assert log == front + [log[k]];
      forall i ensures Current(log, id, key, i) <==>
        if i == k then Sets(log[k], id, key)
        else Current(front, id, key, i) && log[k] != MetadataDelete(id) && !Sets(log[k], id, key)
      {
        CurrentSnoc(front, log[k], id, key, i);
      }
      if forall i :: !Current(log, id, key, i) {
        assert !Current(log, id, key, k);
        if log[k] != MetadataDelete(id) {
          forall i ensures !Current(front, id, key, i) { assert !Current(log, id, key, i); }
        }
      }
    }
  }
}
