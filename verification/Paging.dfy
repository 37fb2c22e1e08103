/** Bucket.List: pages of a namespace's rows, forwards or backwards from a cursor
    (server/adapter/badger.go:120-158). */
module Paging {
  import opened ByteStrings
  import opened Keys
  import opened Badger

  const TWO63: int := 0x8000_0000_0000_0000

  /** int64 arithmetic. */
  function Wrap64(x: int): int {
    (x + TWO63) % (2 * TWO63) - TWO63
  }

  datatype Entry = Entry(key: Bytes, value: Value)

  /** A visited key shorter than the bucket prefix makes the prefix cut panic. */
  datatype Listing = Listed(entries: seq<Entry>) | Panicked

  /** The keys an iterator steps over from `pos` to the end of the store. */
  function Visit(keys: seq<Bytes>, pos: int, reverse: bool): (v: seq<Bytes>)
    decreases if reverse then pos + 1 else |keys| - pos
  {
    if !(0 <= pos < |keys|) then []
    else [keys[pos]] + Visit(keys, if reverse then pos - 1 else pos + 1, reverse)
  }

  /** The keys List walks over: nothing stops it at the end of the bucket. */
  function Visited(t: Table, ns: Bytes, cursor: Bytes, reverse: bool): seq<Bytes> {
    var keys := Ordered(t.Keys);
    Visit(keys, SeekPosition(keys, WithPrefix(ns, cursor), reverse), reverse)
  }

  function Min(a: int, b: int): int { if a <= b then a else b }
  function Max(a: int, b: int): int { if a <= b then b else a }

  /** The first and one past the last visited position that List returns. */
  function PageStart(skip: int): nat { Max(skip, 0) }
  function PageEnd(skip: int, limit: int): nat
    ensures PageStart(skip) < PageEnd(skip, limit)
  {
    Max(PageStart(skip), Wrap64(limit + skip - 1)) + 1
  }

  function Page(visited: seq<Bytes>, skip: int, limit: int): seq<Bytes> {
    visited[Min(PageStart(skip), |visited|)..Min(PageEnd(skip, limit), |visited|)]
  }

  function Entries(t: Table, ns: Bytes, keys: seq<Bytes>): seq<Entry>
    requires forall i | 0 <= i < |keys| :: keys[i] in t && 1 + |ns| <= |keys[i]|
  {
    seq(|keys|, i requires 0 <= i < |keys| => Entry(keys[i][1 + |ns|..], t[keys[i]]))
  }

  function ListOf(t: Table, ns: Bytes, page: seq<Bytes>): Listing
    requires forall i | 0 <= i < |page| :: page[i] in t
  {
    if forall i | 0 <= i < |page| :: 1 + |ns| <= |page[i]| then Listed(Entries(t, ns, page)) else Panicked
  }

  lemma {:induction false} VisitHas(keys: seq<Bytes>, pos: int, reverse: bool)
    ensures forall k | k in Visit(keys, pos, reverse) :: k in keys
    decreases if reverse then pos + 1 else |keys| - pos
  {
    if 0 <= pos < |keys| { VisitHas(keys, if reverse then pos - 1 else pos + 1, reverse); }
  }

  lemma VisitedInTable(t: Table, ns: Bytes, cursor: Bytes, reverse: bool)
    ensures forall i | 0 <= i < |Visited(t, ns, cursor, reverse)| :: Visited(t, ns, cursor, reverse)[i] in t
  {
    var keys := Ordered(t.Keys);
    VisitHas(keys, SeekPosition(keys, WithPrefix(ns, cursor), reverse), reverse);
    OrderedHas(t.Keys);
    var visited := Visited(t, ns, cursor, reverse);
    forall i | 0 <= i < |visited| ensures visited[i] in t { assert visited[i] in visited; }
  }

  /** What List answers, for every cursor, skip, limit and direction. */
  function List(t: Table, ns: Bytes, cursor: Bytes, skip: int, limit: int, reverse: bool): Listing {
    VisitedInTable(t, ns, cursor, reverse);
    ListOf(t, ns, Page(Visited(t, ns, cursor, reverse), skip, limit))
  }

  /** `more` after the entries already collected. */
  function After(out: seq<Entry>, more: Listing): Listing {
    if more.Panicked? then Panicked else Listed(out + more.entries)
  }

  /** The loop over the keys still to visit, up to position `last`. */
  function Collect(t: Table, ns: Bytes, rest: seq<Bytes>, count: nat, skip: int, last: int): Listing
    requires forall i | 0 <= i < |rest| :: rest[i] in t
  {
    if rest == [] then Listed([])
    else if skip > count then Collect(t, ns, rest[1..], count + 1, skip, last)
    else if |rest[0]| < 1 + |ns| then Panicked
    else
      var e := [Entry(rest[0][1 + |ns|..], t[rest[0]])];
      if count + 1 > last then Listed(e) else After(e, Collect(t, ns, rest[1..], count + 1, skip, last))
  }

  lemma ListOfCons(t: Table, ns: Bytes, k: Bytes, rest: seq<Bytes>)
    requires k in t && forall i | 0 <= i < |rest| :: rest[i] in t
    ensures ListOf(t, ns, [k] + rest) ==
            if |k| < 1 + |ns| then Panicked else After([Entry(k[1 + |ns|..], t[k])], ListOf(t, ns, rest))
  {
    var page := [k] + rest;
    assert page[0] == k && forall i | 0 <= i < |rest| :: page[i + 1] == rest[i];
    if |k| >= 1 + |ns| && ListOf(t, ns, rest).Panicked? {
      var i :| 0 <= i < |rest| && !(1 + |ns| <= |rest[i]|);
      assert !(1 + |ns| <= |page[i + 1]|);
    }
  }

  /** The loop, from its `count`-th turn on, collects the rest of the page. */
  lemma {:induction false} CollectIsPage(t: Table, ns: Bytes, visited: seq<Bytes>, count: nat, skip: int, limit: int)
    requires count <= |visited| && count < PageEnd(skip, limit)
    requires forall i | 0 <= i < |visited| :: visited[i] in t
    ensures Collect(t, ns, visited[count..], count, skip, Wrap64(limit + skip - 1)) ==
            ListOf(t, ns, visited[Min(Max(PageStart(skip), count), |visited|)..Min(PageEnd(skip, limit), |visited|)])
    decreases |visited| - count
  {
    var rest, end := visited[count..], Min(PageEnd(skip, limit), |visited|);
    if rest != [] {
      assert rest[1..] == visited[count + 1..];
      if skip > count {
        CollectIsPage(t, ns, visited, count + 1, skip, limit);
      } else {
        assert visited[count..end] == [rest[0]] + visited[count + 1..end];
        ListOfCons(t, ns, rest[0], visited[count + 1..end]);
        if count + 1 < PageEnd(skip, limit) {
          CollectIsPage(t, ns, visited, count + 1, skip, limit);
        }
      }
    }
  }

  method ListRows(t: Table, ns: Bytes, cursor: Bytes, skip: int, limit: int, reverse: bool) returns (r: Listing)
    ensures r == List(t, ns, cursor, skip, limit, reverse)
  {
    var it := new Iterator(t, reverse);
    it.Seek(WithPrefix(ns, cursor));
    VisitedInTable(t, ns, cursor, reverse);
    ghost var visited := Visited(t, ns, cursor, reverse);
    CollectIsPage(t, ns, visited, 0, skip, limit);
    assert visited[0..] == visited;
    r := CollectRows(t, ns, it, skip, Wrap64(limit + skip - 1), visited);
  }

  method CollectRows(t: Table, ns: Bytes, it: Iterator, skip: int, last: int, ghost visited: seq<Bytes>) returns (r: Listing)
    requires visited == Visit(it.keys, it.pos, it.reverse)
    requires forall i | 0 <= i < |visited| :: visited[i] in t
    modifies it
    ensures r == Collect(t, ns, visited, 0, skip, last)
  {
    var count, out := 0, [];
    ghost var rest := visited;
    while it.Valid()
      invariant rest == Visit(it.keys, it.pos, it.reverse)
      invariant forall i | 0 <= i < |rest| :: rest[i] in t
      invariant After(out, Collect(t, ns, rest, count, skip, last)) == Collect(t, ns, visited, 0, skip, last)
      decreases if it.reverse then it.pos + 1 else |it.keys| - it.pos
    {
      var k := it.keys[it.pos];
      assert rest[0] == k;
      rest := rest[1..];
      if skip > count {
        count := count + 1;
        it.Next();
        continue;
      }
      if |k| < 1 + |ns| { return Panicked; }
      out := out + [Entry(k[1 + |ns|..], t[k])];
      count := count + 1;
      if count > last { return Listed(out); }
      it.Next();
    }
    r := Listed(out);
  }

  // ---- what a page holds ----

  lemma {:induction false} VisitForward(keys: seq<Bytes>, pos: nat)
    requires pos <= |keys|
    ensures Visit(keys, pos, false) == keys[pos..]
    decreases |keys| - pos
  {
    if pos < |keys| { VisitForward(keys, pos + 1); }
  }

  lemma {:induction false} VisitBackward(keys: seq<Bytes>, pos: int)
    requires -1 <= pos < |keys|
    ensures |Visit(keys, pos, true)| == pos + 1
    ensures forall i | 0 <= i <= pos :: Visit(keys, pos, true)[i] == keys[pos - i]
  {
    if pos >= 0 { VisitBackward(keys, pos - 1); }
  }

  ghost predicate Descending(keys: seq<Bytes>) {
    forall i, j | 0 <= i < j < |keys| :: Less(keys[j], keys[i])
  }

  lemma ForwardHas(keys: seq<Bytes>, c: Bytes, k: Bytes)
    requires Ascending(keys)
    ensures k in keys[LowerBound(keys, c)..] <==> k in keys && !Less(k, c)
  {
    var lo := LowerBound(keys, c);
    if k in keys[lo..] {
      var j :| lo <= j < |keys| && keys[j] == k;
      LowerBoundRest(keys, c, j);
    }
    if k in keys && !Less(k, c) {
      var j :| 0 <= j < |keys| && keys[j] == k;
      assert keys[lo..][j - lo] == k;
    }
  }

  /** Forwards, List walks the keys at or after the cursor in ascending order. */
  lemma VisitedForward(t: Table, ns: Bytes, cursor: Bytes)
    ensures var v := Visited(t, ns, cursor, false);
            Ascending(v) && forall k :: k in v <==> k in t && !Less(k, WithPrefix(ns, cursor))
  {
    var keys, c := Ordered(t.Keys), WithPrefix(ns, cursor);
    OrderedAscending(t.Keys);
    OrderedHas(t.Keys);
    VisitForward(keys, LowerBound(keys, c));
    forall k ensures k in keys[LowerBound(keys, c)..] <==> k in t && !Less(k, c) {
      ForwardHas(keys, c, k);
    }
  }

  lemma BackwardHas(keys: seq<Bytes>, c: Bytes, k: Bytes)
    requires Ascending(keys)
    ensures k in Visit(keys, SeekPosition(keys, c, true), true) <==> k in keys && !Less(c, k)
  {
    var pos := SeekPosition(keys, c, true);
    var v := Visit(keys, pos, true);
    VisitBackward(keys, pos);
    if k in v {
      var i :| 0 <= i < |v| && v[i] == k;
      AtOrBelow(keys, c, pos - i);
    }
    if k in keys && !Less(c, k) {
      var j :| 0 <= j < |keys| && keys[j] == k;
      AtOrBelow(keys, c, j);
      assert v[pos - j] == k;
    }
  }

  /** Backwards, it walks the keys at or before the cursor in descending order. */
  lemma VisitedBackward(t: Table, ns: Bytes, cursor: Bytes)
    ensures var v := Visited(t, ns, cursor, true);
            Descending(v) && forall k :: k in v <==> k in t && !Less(WithPrefix(ns, cursor), k)
  {
    var keys, c := Ordered(t.Keys), WithPrefix(ns, cursor);
    OrderedAscending(t.Keys);
    OrderedHas(t.Keys);
    VisitBackward(keys, SeekPosition(keys, c, true));
    forall k ensures k in Visited(t, ns, cursor, true) <==> k in t && !Less(c, k) {
      BackwardHas(keys, c, k);
    }
  }

  lemma AtOrBelow(keys: seq<Bytes>, c: Bytes, j: nat)
    requires Ascending(keys) && j < |keys|
    ensures !Less(c, keys[j]) <==> j <= SeekPosition(keys, c, true)
  {
    var lo := LowerBound(keys, c);
    if j < lo {
      LessAsymmetric(keys[j], c);
    } else {
      LessTotal(c, keys[lo]);
      LessIrreflexive(c);
      if lo < j && keys[lo] != c { LessTransitive(c, keys[lo], keys[j]); }
    }
  }

  /** Positions [i, j) as far as there are any. */
  function Slice(v: seq<Bytes>, i: nat, j: nat): seq<Bytes>
    requires i <= j
  {
    v[Min(i, |v|)..Min(j, |v|)]
  }

  /** Within int64, a page is positions [skip, skip + limit) of what is walked. A limit below one,
      or a sum past int64, makes it a single row, except that the least limit with nothing to skip
      wraps around to all of them. */
  lemma PageExact(visited: seq<Bytes>, skip: nat, limit: int)
    requires skip < TWO63 && -TWO63 <= limit < TWO63
    ensures Page(visited, skip, limit) ==
            Slice(visited, skip,
                  if limit >= 1 && skip + limit <= TWO63 then skip + limit
                  else if skip + limit == -TWO63 then TWO63
                  else skip + 1)
  {
    WrapExact(limit + skip - 1);
  }

  lemma WrapExact(x: int)
    requires -TWO63 - 1 <= x < 2 * TWO63
    ensures Wrap64(x) == if x < -TWO63 then x + 2 * TWO63 else if x >= TWO63 then x - 2 * TWO63 else x
  {}

  lemma PageIsSlice(visited: seq<Bytes>, skip: nat, limit: int)
    requires limit >= 1 && skip + limit <= TWO63
    ensures Page(visited, skip, limit) == Slice(visited, skip, skip + limit)
  {}

  lemma SliceConcat(v: seq<Bytes>, i: nat, j: nat, k: nat)
    requires i <= j <= k
    ensures Slice(v, i, k) == Slice(v, i, j) + Slice(v, j, k)
  {}

  function Both(x: Listing, y: Listing): Listing {
    if x.Panicked? then Panicked else After(x.entries, y)
  }

  lemma {:induction false} ListOfConcat(t: Table, ns: Bytes, p: seq<Bytes>, q: seq<Bytes>)
    requires forall i | 0 <= i < |p| :: p[i] in t
    requires forall i | 0 <= i < |q| :: q[i] in t
    ensures ListOf(t, ns, p + q) == Both(ListOf(t, ns, p), ListOf(t, ns, q))
  {
    if p == [] {
      assert p + q == q;
    } else {
      assert p + q == [p[0]] + (p[1..] + q) && p == [p[0]] + p[1..];
      ListOfConcat(t, ns, p[1..], q);
      ListOfCons(t, ns, p[0], p[1..] + q);
      ListOfCons(t, ns, p[0], p[1..]);
    }
  }

  lemma PageConcat(v: seq<Bytes>, skip: nat, a: int, b: int)
    requires a >= 1 && b >= 1 && skip + a + b <= TWO63
    ensures Page(v, skip, a + b) == Page(v, skip, a) + Page(v, skip + a, b)
  {
    PageIsSlice(v, skip, a);
    PageIsSlice(v, skip + a, b);
    PageIsSlice(v, skip, a + b);
    SliceConcat(v, skip, skip + a, skip + a + b);
  }

  /** Consecutive pages concatenate to the larger page: no gap, no repeat. */
  lemma PagesConcatenate(t: Table, ns: Bytes, cursor: Bytes, skip: nat, a: int, b: int, reverse: bool)
    requires a >= 1 && b >= 1 && skip + a + b <= TWO63
    ensures List(t, ns, cursor, skip, a + b, reverse)
         == Both(List(t, ns, cursor, skip, a, reverse), List(t, ns, cursor, skip + a, b, reverse))
  {
    var v := Visited(t, ns, cursor, reverse);
    VisitedInTable(t, ns, cursor, reverse);
    PageConcat(v, skip, a, b);
    ListOfConcat(t, ns, Page(v, skip, a), Page(v, skip + a, b));
  }

  // ---- pages and the bucket ----

  /** Once a walk has left the bucket it does not come back. */
  lemma LeftForGood(t: Table, ns: Bytes, cursor: Bytes, reverse: bool, i: nat, j: nat)
    requires i < j < |Visited(t, ns, cursor, reverse)|
    requires !(WithPrefix(ns, []) <= Visited(t, ns, cursor, reverse)[i])
    ensures !(WithPrefix(ns, []) <= Visited(t, ns, cursor, reverse)[j])
  {
    var v, p, c := Visited(t, ns, cursor, reverse), WithPrefix(ns, []), WithPrefix(ns, cursor);
    assert p <= c && v[i] in v && v[j] in v;
    PrefixNotAbove(p, c);
    if !reverse {
      VisitedForward(t, ns, cursor);
      if Less(v[i], p) { BelowPrefix(v[i], p, c); }
      PrefixBlockEnds(p, v[i], v[j]);
    } else if p <= v[j] {
      VisitedBackward(t, ns, cursor);
      PrefixNotAbove(p, v[j]);
      if Less(v[i], p) { LessTransitive(v[j], v[i], p); }
      LessTotal(v[i], c);
      PrefixBlockEnds(p, v[i], c);
    }
  }

  lemma BelowPrefix(a: Bytes, p: Bytes, c: Bytes)
    requires Less(a, p) && p <= c
    ensures Less(a, c)
  {}

  /** The part of a walk inside the bucket. */
  function InBucket(t: Table, ns: Bytes, cursor: Bytes, reverse: bool): seq<Bytes> {
    Scan(Visited(t, ns, cursor, reverse), WithPrefix(ns, []))
  }

  lemma {:induction false} BlockFirst(v: seq<Bytes>, p: Bytes)
    requires forall i, j | 0 <= i < j < |v| && !(p <= v[i]) :: !(p <= v[j])
    ensures Scan(v, p) == v[..|Scan(v, p)|]
    ensures forall i | 0 <= i < |v| :: p <= v[i] <==> i < |Scan(v, p)|
  {
    if v != [] {
      if p <= v[0] {
        BlockFirst(v[1..], p);
        assert v[..|Scan(v, p)|] == [v[0]] + v[1..][..|Scan(v[1..], p)|];
        assert forall i | 1 <= i < |v| :: v[i] == v[1..][i - 1];
      } else {
        ScanNone(v, p);
      }
    }
  }

  ghost predicate AllExtend(keys: seq<Bytes>, p: Bytes) {
    forall i | 0 <= i < |keys| :: p <= keys[i]
  }

  lemma SliceInBlock(v: seq<Bytes>, p: Bytes, i: nat, j: nat)
    requires i < j
    requires Scan(v, p) == v[..|Scan(v, p)|] && forall x | 0 <= x < |v| :: p <= v[x] <==> x < |Scan(v, p)|
    ensures i < |v| ==> (AllExtend(Slice(v, i, j), p) <==> Min(j, |v|) <= |Scan(v, p)|)
    ensures Min(j, |v|) <= |Scan(v, p)| ==> Slice(v, i, j) == Slice(Scan(v, p), i, j)
  {
    var s, n := Slice(v, i, j), |Scan(v, p)|;
    if i < |v| {
      assert s[|s| - 1] == v[Min(j, |v|) - 1];
      assert forall x | 0 <= x < |s| :: s[x] == v[i + x];
    }
  }

  /** List has no end-of-bucket test: a page that holds anything stays inside its bucket exactly
      when it ends within the bucket's part of the walk, and then it is a slice of that part. */
  lemma PageInBucket(t: Table, ns: Bytes, cursor: Bytes, skip: nat, limit: int, reverse: bool)
    requires limit >= 1 && skip + limit <= TWO63
    ensures var v, b := Visited(t, ns, cursor, reverse), InBucket(t, ns, cursor, reverse);
            && (skip < |v| ==>
                  (AllExtend(Page(v, skip, limit), WithPrefix(ns, [])) <==> Min(skip + limit, |v|) <= |b|))
            && (Min(skip + limit, |v|) <= |b| ==> Page(v, skip, limit) == Slice(b, skip, skip + limit))
  {
    var v, p := Visited(t, ns, cursor, reverse), WithPrefix(ns, []);
    PageIsSlice(v, skip, limit);
    forall i, j | 0 <= i < j < |v| && !(p <= v[i]) ensures !(p <= v[j]) {
      LeftForGood(t, ns, cursor, reverse, i, j);
    }
    BlockFirst(v, p);
    SliceInBlock(v, p, skip, skip + limit);
  }

  /** Listing a bucket with nothing to show, while any row lies beyond it, returns foreign rows (or
      panics on one too short to cut). */
  lemma EmptyBucketLeaks(t: Table, ns: Bytes, cursor: Bytes, limit: int, reverse: bool)
    requires 1 <= limit <= TWO63
    requires InBucket(t, ns, cursor, reverse) == [] && Visited(t, ns, cursor, reverse) != []
    ensures !AllExtend(Page(Visited(t, ns, cursor, reverse), 0, limit), WithPrefix(ns, []))
  {}
}
