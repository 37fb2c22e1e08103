/** Joining and removing servers on the leader (server/store/store.go:531-634). */
module Membership {
  import opened ByteStrings
  import opened Fsm
  import opened NodeMetadata

  datatype Server = Server(id: Bytes, addr: Bytes, voter: bool)

  datatype JoinResult = Joined | AlreadyMember | NotLeader | Rejected | RaftFailed

  /** How Raft answers a question or a call: as asked, with ErrNotLeader, or with another error, the
      entry having been applied all the same or not. */
  datatype RaftAnswer = Works | LostLead | Errs(applied: bool)

  function AnswerAt(script: seq<RaftAnswer>, i: nat): RaftAnswer { if i < |script| then script[i] else Works }

  ghost predicate AllWork(script: seq<RaftAnswer>) { forall i | 0 <= i < |script| :: script[i] == Works }

  predicate HasId(s: seq<Server>, id: Bytes) { exists i | 0 <= i < |s| :: s[i].id == id }
  predicate HasAddr(s: seq<Server>, addr: Bytes) { exists i | 0 <= i < |s| :: s[i].addr == addr }
  predicate HasPair(s: seq<Server>, id: Bytes, addr: Bytes) { exists i | 0 <= i < |s| :: s[i].id == id && s[i].addr == addr }

  predicate HasVoter(s: seq<Server>) { exists i | 0 <= i < |s| :: s[i].voter }
  predicate Named(s: seq<Server>) { forall i | 0 <= i < |s| :: s[i].id != [] && s[i].addr != [] }

  /** No id and no address occurs twice. */
  predicate Unique(s: seq<Server>) {
    s == [] || (!HasId(s[1..], s[0].id) && !HasAddr(s[1..], s[0].addr) && Unique(s[1..]))
  }

  /** What Raft accepts as a configuration. */
  predicate Acceptable(s: seq<Server>) { HasVoter(s) && Named(s) && Unique(s) }

  lemma {:induction false} UniqueAt(s: seq<Server>, i: nat, j: nat)
    requires Unique(s) && i < j < |s|
    ensures s[i].id != s[j].id && s[i].addr != s[j].addr
  {
    if i == 0 {
      assert s[1..][j - 1] == s[j];
    } else {
      UniqueAt(s[1..], i - 1, j - 1);
    }
  }

  lemma {:induction false} UniqueSnoc(s: seq<Server>, x: Server)
    ensures Unique(s + [x]) ==> !HasId(s, x.id) && !HasAddr(s, x.addr)
  {
    if Unique(s + [x]) {
      forall i | 0 <= i < |s| ensures s[i].id != x.id && s[i].addr != x.addr {
        UniqueAt(s + [x], i, |s|);
      }
    }
  }

  function Without(s: seq<Server>, id: Bytes): seq<Server> {
    if s == [] then []
    else (if s[0].id == id then [] else [s[0]]) + Without(s[1..], id)
  }

  /** Raft's configuration change for AddVoter and AddNonvoter: a known id is changed in place,
      and adding a voter as a non-voter moves it without demoting it. */
  function WithServer(s: seq<Server>, id: Bytes, addr: Bytes, voter: bool): seq<Server> {
    if s == [] then [Server(id, addr, voter)]
    else if s[0].id == id then [Server(id, addr, voter || s[0].voter)] + s[1..]
    else [s[0]] + WithServer(s[1..], id, addr, voter)
  }

  lemma {:induction false} WithoutHas(s: seq<Server>, id: Bytes)
    ensures forall x :: x in Without(s, id) <==> x in s && x.id != id
  {
    if s != [] {
      WithoutHas(s[1..], id);
      assert forall x :: x in s <==> x == s[0] || x in s[1..];
    }
  }

  lemma {:induction false} WithoutSame(s: seq<Server>, id: Bytes)
    requires !HasId(s, id)
    ensures Without(s, id) == s
  {
    if s != [] {
      assert s[0].id != id && forall i | 0 <= i < |s[1..]| :: s[1..][i] == s[i + 1];
      WithoutSame(s[1..], id);
    }
  }

  lemma WithoutNoId(s: seq<Server>, id: Bytes)
    ensures !HasId(Without(s, id), id)
    ensures Without(Without(s, id), id) == Without(s, id)
  {
    WithoutHas(s, id);
    forall i | 0 <= i < |Without(s, id)| ensures Without(s, id)[i].id != id {
      assert Without(s, id)[i] in Without(s, id);
    }
    WithoutSame(Without(s, id), id);
  }

  lemma {:induction false} WithNewServer(s: seq<Server>, id: Bytes, addr: Bytes, voter: bool)
    requires !HasId(s, id)
    ensures WithServer(s, id, addr, voter) == s + [Server(id, addr, voter)]
  {
    if s != [] {
      assert s[0].id != id && forall i | 0 <= i < |s[1..]| :: s[1..][i] == s[i + 1];
      WithNewServer(s[1..], id, addr, voter);
    }
  }

  /** What a removal comes to: its three questions to Raft are whether this node leads, the
      configuration change, and the deletion of the metadata, of which an error other than
      ErrNotLeader is dropped. */
  function RemoveResult(script: seq<RaftAnswer>, accepted: bool): JoinResult {
    if AnswerAt(script, 0) == LostLead || AnswerAt(script, 1) == LostLead then NotLeader
    else if AnswerAt(script, 1).Errs? then RaftFailed
    else if !accepted then Rejected
    else if AnswerAt(script, 2) == LostLead then NotLeader else Joined
  }

  /** What a Join comes to while Raft works: the joining id is removed when its id or
      its address is taken, whoever holds the address, and then added. */
  function JoinOutcome(s: seq<Server>, id: Bytes, addr: Bytes, voter: bool): (JoinResult, seq<Server>) {
    if HasPair(s, id, addr) then (AlreadyMember, s)
    else
      var w := Without(s, id);
      if (HasId(s, id) || HasAddr(s, addr)) && !Acceptable(w) then (Rejected, s)
      else if Acceptable(w + [Server(id, addr, voter)]) then (Joined, w + [Server(id, addr, voter)])
      else (Rejected, w)
  }

  /** A successful Join leaves exactly one server with the id, at the address, and every other
      server as it was; joining an address another id holds always fails, and then the joining
      id is out of the configuration unless Raft refused to remove it. */
  lemma JoinMeaning(s: seq<Server>, id: Bytes, addr: Bytes, voter: bool)
    requires Acceptable(s)
    ensures var (r, s') := JoinOutcome(s, id, addr, voter);
            && Acceptable(s')
            && (r == AlreadyMember <==> HasPair(s, id, addr))
            && (r == AlreadyMember ==> s' == s)
            && (forall x: Server | x.id != id :: x in s' <==> x in s)
            && (r == Joined ==> forall x | x in s' && x.id == id :: x == Server(id, addr, voter))
            && (r == Joined ==> Server(id, addr, voter) in s')
            && (HasAddr(Without(s, id), addr) && !HasPair(s, id, addr) ==> r == Rejected)
            && (r == Rejected && HasId(s, id) ==> (HasId(s', id) <==> !Acceptable(Without(s, id))))
  {
    var w, x := Without(s, id), Server(id, addr, voter);
    WithoutHas(s, id);
    WithoutNoId(s, id);
    if !HasId(s, id) { WithoutSame(s, id); }
    UniqueSnoc(w, x);
    assert (w + [x])[|w|] == x;
  }

  class Members {
    var servers: seq<Server>
    var meta: Metadata
    /** The answers Raft is still to give; it works once they are used up. */
    var script: seq<RaftAnswer>

    constructor (servers: seq<Server>, meta: Metadata, script: seq<RaftAnswer>)
      ensures this.servers == servers && this.meta == meta && this.script == script
    {
      this.servers, this.meta, this.script := servers, meta, script;
    }

    method Ask() returns (answer: RaftAnswer)
      modifies this`script
      ensures answer == AnswerAt(old(script), 0)
      ensures script == if old(script) == [] then [] else old(script)[1..]
    {
      if script == [] { return Works; }
      answer, script := script[0], script[1..];
    }

    /** A Raft configuration change: accepted by a leader when the result is acceptable. */
    method Change(next: seq<Server>) returns (r: JoinResult)
      modifies this`servers, this`script
      ensures r == match AnswerAt(old(script), 0)
                   case LostLead => NotLeader
                   case Errs(_) => RaftFailed
                   case Works => if Acceptable(next) then Joined else Rejected
      ensures servers == if Acceptable(next) && (r == Joined || AnswerAt(old(script), 0) == Errs(true)) then next else old(servers)
      ensures script == if old(script) == [] then [] else old(script)[1..]
    {
      var answer := Ask();
      if answer == LostLead { return NotLeader; }
      if Acceptable(next) && answer != Errs(false) { servers := next; }
      if answer.Errs? { return RaftFailed; }
      r := if Acceptable(next) then Joined else Rejected;
    }

    /** remove: take the id out of the configuration, then delete its metadata. */
    method Remove(id: Bytes) returns (r: JoinResult)
      modifies this
      ensures r == RemoveResult(old(script), Acceptable(Without(old(servers), id)))
      ensures r == Joined ==>
                && servers == Without(old(servers), id)
                && meta == if AnswerAt(old(script), 2) == Errs(false) then old(meta) else old(meta) - {id}
      ensures r == Rejected ==> servers == old(servers) && meta == old(meta)
      ensures servers == old(servers) || (servers == Without(old(servers), id) && Acceptable(servers))
      ensures meta == old(meta) || meta == old(meta) - {id}
      ensures AllWork(old(script)) ==> AllWork(script)
    {
      var leads := Ask();
      if leads == LostLead { return NotLeader; }
      assert AnswerAt(script, 0) == AnswerAt(old(script), 1);
      r := Change(Without(servers, id));
      if r != Joined { return; }
      assert AnswerAt(script, 0) == AnswerAt(old(script), 2);
      var answer := Ask();
      if answer == LostLead { return NotLeader; }
      if answer != Errs(false) { meta := meta - {id}; }
    }

    /** The removal inside Join, as far as the loop needs it. */
    method MakeRoom(id: Bytes) returns (r: JoinResult)
      modifies this
      ensures servers == old(servers) || (servers == Without(old(servers), id) && Acceptable(servers))
      ensures meta == old(meta) || meta == old(meta) - {id}
      ensures r == Joined ==> servers == Without(old(servers), id) && Acceptable(servers)
      ensures AllWork(old(script)) ==>
                && AllWork(script) && r == (if Acceptable(Without(old(servers), id)) then Joined else Rejected)
                && (if r == Joined then meta == old(meta) - {id} else servers == old(servers))
      ensures r != AlreadyMember
    {
      r := Remove(id);
    }

    /** The loop of Join over the configuration it was given: stop at an exact match, and remove
        the joining id for every server that holds its id or its address. */
    method ClearWay(id: Bytes, addr: Bytes) returns (r: JoinResult)
      requires Acceptable(servers)
      modifies this
      ensures Acceptable(servers) && (servers == old(servers) || servers == Without(old(servers), id))
      ensures r == AlreadyMember <==> HasPair(old(servers), id, addr)
      ensures r == AlreadyMember ==> servers == old(servers) && meta == old(meta) && script == old(script)
      ensures r == Joined ==>
                servers == if Clashes(old(servers), |old(servers)|, id, addr) then Without(old(servers), id) else old(servers)
      ensures meta == old(meta) || (Clashes(old(servers), |old(servers)|, id, addr) && meta == old(meta) - {id})
      ensures AllWork(old(script)) && r != AlreadyMember ==>
                && AllWork(script)
                && r == (if Clashes(old(servers), |old(servers)|, id, addr) && !Acceptable(Without(old(servers), id)) then Rejected else Joined)
                && (r == Joined && Clashes(old(servers), |old(servers)|, id, addr) ==> meta == old(meta) - {id})
                && (r == Rejected ==> servers == old(servers))
    {
      var config := servers;
      ghost var w := Without(config, id);
      WithoutNoId(config, id);
      ghost var hit := false;
      var i := 0;
      while i < |config|
        invariant i <= |config| && Acceptable(servers) && !PairWithin(config, i, id, addr)
        invariant !hit ==> servers == config && meta == old(meta) && script == old(script)
        invariant hit ==> servers == w && (meta == old(meta) || meta == old(meta) - {id})
        invariant AllWork(old(script)) ==> AllWork(script) && (hit ==> meta == old(meta) - {id})
        invariant hit <==> Clashes(config, i, id, addr)
      {
        var srv := config[i];
        if srv.id == id || srv.addr == addr {
          if srv.addr == addr && srv.id == id {
            PairAlone(config, id, addr, i, i);
            return AlreadyMember;
          }
          NoPair(config, id, addr, i);
          ClashesGrow(config, i + 1, id, addr);
          hit := true;
          r := MakeRoom(id);
          if r != Joined { return; }
        }
        i := i + 1;
      }
      PairWithinAll(config, id, addr);
      r := Joined;
    }

    /** The end of Join: add the server, then set its metadata. */
    method AddServer(id: Bytes, addr: Bytes, voter: bool, md: map<Bytes, Bytes>) returns (r: JoinResult)
      requires Acceptable(servers) && !HasId(servers, id)
      modifies this
      ensures var next := old(servers) + [Server(id, addr, voter)];
              && (servers == old(servers) || (servers == next && Acceptable(next)))
              && (r == Joined ==> servers == next)
              && (AllWork(old(script)) ==> r == if Acceptable(next) then Joined else Rejected)
              && (r == Rejected ==> servers == old(servers))
      ensures r == Joined ==> forall k | k in md :: Lookup(meta, id, k) == md[k]
      ensures r != AlreadyMember
    {
      WithNewServer(servers, id, addr, voter);
      r := Change(WithServer(servers, id, addr, voter));
      if r != Joined { return; }
      if !UpToDate(meta, id, md) {
        var answer := Ask();
        if answer == LostLead { return NotLeader; }
        if answer != Errs(false) { meta := MergeMeta(meta, id, md); }
        if answer.Errs? { return RaftFailed; }
      }
    }

    /** Join. */
    method Join(id: Bytes, addr: Bytes, voter: bool, md: map<Bytes, Bytes>) returns (r: JoinResult)
      requires Acceptable(servers)
      modifies this
      ensures Acceptable(servers)
      ensures var w := Without(old(servers), id);
              servers == old(servers) || servers == w || servers == w + [Server(id, addr, voter)]
      ensures forall x: Server | x.id != id :: x in servers <==> x in old(servers)
      ensures AnswerAt(old(script), 0) == LostLead ==> r == NotLeader && servers == old(servers) && meta == old(meta)
      ensures AnswerAt(old(script), 0) != LostLead && AnswerAt(old(script), 1) == Works && HasPair(old(servers), id, addr) ==>
                r == AlreadyMember && servers == old(servers) && meta == old(meta)
      ensures r == Joined || AllWork(old(script)) ==> (r, servers) == JoinOutcome(old(servers), id, addr, voter)
      ensures r == Joined ==> forall k | k in md :: Lookup(meta, id, k) == md[k]
    {
      ghost var config := servers;
      OthersStay(config, id, Server(id, addr, voter));
      ClashesAnywhere(config, id, addr);
      var leads := Ask();
      if leads == LostLead { return NotLeader; }
      assert AnswerAt(script, 0) == AnswerAt(old(script), 1);
      var listed := Ask();
      if listed != Works { return RaftFailed; }
      r := ClearWay(id, addr);
      if r != Joined { return; }
      assert servers == Without(config, id);
      WithoutNoId(config, id);
      r := AddServer(id, addr, voter, md);
    }
  }

  /** One of the first `i` servers holds the id or the address. */
  ghost predicate Clashes(s: seq<Server>, i: nat, id: Bytes, addr: Bytes)
    requires i <= |s|
  {
    i > 0 && (Clashes(s, i - 1, id, addr) || s[i - 1].id == id || s[i - 1].addr == addr)
  }

  lemma {:induction false} ClashesGrow(s: seq<Server>, i: nat, id: Bytes, addr: Bytes)
    requires i <= |s| && Clashes(s, i, id, addr)
    ensures Clashes(s, |s|, id, addr)
    decreases |s| - i
  {
    if i < |s| { ClashesGrow(s, i + 1, id, addr); }
  }

  lemma {:induction false} ClashesWithin(s: seq<Server>, i: nat, id: Bytes, addr: Bytes)
    requires i <= |s|
    ensures Clashes(s, i, id, addr) <==> exists j | 0 <= j < i :: s[j].id == id || s[j].addr == addr
  {
    if i > 0 { ClashesWithin(s, i - 1, id, addr); }
  }

  lemma ClashesAnywhere(s: seq<Server>, id: Bytes, addr: Bytes)
    ensures Clashes(s, |s|, id, addr) <==> HasId(s, id) || HasAddr(s, addr)
    ensures !Clashes(s, |s|, id, addr) ==> Without(s, id) == s
  {
    ClashesWithin(s, |s|, id, addr);
    if !HasId(s, id) { WithoutSame(s, id); }
  }

  /** One of the first `i` servers holds both. */
  ghost predicate PairWithin(s: seq<Server>, i: nat, id: Bytes, addr: Bytes)
    requires i <= |s|
  {
    i > 0 && (PairWithin(s, i - 1, id, addr) || (s[i - 1].id == id && s[i - 1].addr == addr))
  }

  lemma {:induction false} PairWithinHas(s: seq<Server>, i: nat, id: Bytes, addr: Bytes)
    requires i <= |s|
    ensures PairWithin(s, i, id, addr) <==> exists j | 0 <= j < i :: s[j].id == id && s[j].addr == addr
  {
    if i > 0 { PairWithinHas(s, i - 1, id, addr); }
  }

  lemma PairWithinAll(s: seq<Server>, id: Bytes, addr: Bytes)
    ensures PairWithin(s, |s|, id, addr) <==> HasPair(s, id, addr)
  {
    PairWithinHas(s, |s|, id, addr);
  }

  /** Taking the id out, and putting it in again, changes no other server. */
  lemma OthersStay(s: seq<Server>, id: Bytes, x: Server)
    requires x.id == id
    ensures WithServer(Without(s, id), id, x.addr, x.voter) == Without(s, id) + [x]
    ensures forall y: Server | y.id != id :: y in Without(s, id) <==> y in s
    ensures forall y: Server | y.id != id :: y in Without(s, id) + [x] <==> y in s
  {
    WithoutHas(s, id);
    WithoutNoId(s, id);
    WithNewServer(Without(s, id), id, x.addr, x.voter);
  }

  lemma NoPair(s: seq<Server>, id: Bytes, addr: Bytes, i: nat)
    requires Acceptable(s) && i < |s| && (s[i].id == id || s[i].addr == addr) && !(s[i].id == id && s[i].addr == addr)
    ensures !HasPair(s, id, addr)
  {
    if HasPair(s, id, addr) {
      var j :| 0 <= j < |s| && s[j].id == id && s[j].addr == addr;
      if i < j { UniqueAt(s, i, j); } else if j < i { UniqueAt(s, j, i); }
    }
  }

  /** In an acceptable configuration nobody else matches a member's id or address. */
  lemma {:induction false} PairAlone(s: seq<Server>, id: Bytes, addr: Bytes, i: nat, j: nat)
    requires Acceptable(s) && j <= i < |s| && s[i].id == id && s[i].addr == addr
    ensures HasPair(s, id, addr) && !Clashes(s, j, id, addr)
  {
    if j > 0 {
      PairAlone(s, id, addr, i, j - 1);
      UniqueAt(s, j - 1, i);
    }
  }

  /** A failed Join is not harmless: node 1, moving to an address node 2 still holds, is removed
      and not added. */
  lemma FailedJoinRemoves()
    ensures var s := [Server([1], [11], true), Server([2], [12], true)];
            Acceptable(s) && JoinOutcome(s, [1], [12], true) == (Rejected, [Server([2], [12], true)])
  {
    var a, b, x := Server([1], [11], true), Server([2], [12], true), Server([1], [12], true);
    var s := [a, b];
    assert s[1..] == [b] && [b][1..] == [];
    assert s[0].voter && [b][0].voter;
    assert Acceptable([b]) && Acceptable(s);
    assert s[0].id == [1];
    assert Without([b], [1]) == [b] + Without([], [1]) by { assert b.id[0] != 1; }
    assert Without(s, [1]) == [b];
    UniqueSnoc([b], x);
    assert [b][0].addr == x.addr;
  }
}
