/** The backwards scan for the last command in the Raft log (server/log/log.go:38-75). */
module RaftLog {
  import opened ByteStrings

  const TWO64: int := 0x1_0000_0000_0000_0000

  datatype EntryType = LogCommand | LogOther

  /** i-- on uint64. */
  function Decrement(i: nat): nat
  {
    if i == 0 then TWO64 - 1 else i - 1
  }

  /** Every entry of [from, to) is stored and is not a command. */
  ghost predicate Skipped(log: map<nat, EntryType>, from: nat, to: nat) {
    forall j | from <= j < to :: j in log && log[j] != LogCommand
  }

  /** LastCommandIndex, with the first and last index of the store (both 0 for an empty one);
      None is a failed read. For every log, contiguous or not: the greatest command index unless a
      hole lies above it, 0 when the range holds no command, a failure at the topmost hole. */
  method LastCommandIndex(log: map<nat, EntryType>, first: nat, last: nat) returns (r: Option<nat>)
    requires first < TWO64 && last < TWO64 && (last == 0 || 1 <= first)
    ensures last == 0 ==> r == Some(0)
    ensures last > 0 && r.Some? && r.value > 0 ==>
              first <= r.value <= last && r.value in log && log[r.value] == LogCommand && Skipped(log, r.value + 1, last + 1)
    ensures last > 0 && r == Some(0) ==> Skipped(log, first, last + 1)
    ensures r.None? ==> exists i | first <= i <= last :: i !in log && Skipped(log, i + 1, last + 1)
  {
    if last == 0 { return Some(0); }
    var i: nat := last;
    while i >= first
      invariant i <= last && (first <= last ==> first - 1 <= i)
      invariant Skipped(log, i + 1, last + 1)
      decreases i
    {
      if i !in log { return None; }
      if log[i] == LogCommand { return Some(i); }
      i := Decrement(i);
    }
    return Some(0);
  }
}
