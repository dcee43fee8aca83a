/** The replicated assignment table of a cluster, and the proxy that uses it.
    Raft is taken to deliver one agreed log; the hash of a client key is a parameter. */
module Cluster {
  import opened Wrappers
  import opened Config

  datatype Assignment = Assignment(clientKey: string, nodeID: string, peerURL: string, expiresAt: int)

  type TableImage = map<string, Assignment>

  /** A log entry: an assignment, or something the state machine does not understand. */
  datatype Entry = Assign(assignment: Assignment) | Unknown

  // ---------- Replaying the log ----------

  function Apply(t: TableImage, e: Entry): TableImage {
    match e
    case Assign(a) => t[a.clientKey := a]
    case Unknown => t
  }

  function Replay(t: TableImage, log: seq<Entry>): TableImage {
    if |log| == 0 then t else Apply(Replay(t, log[..|log| - 1]), log[|log| - 1])
  }

  predicate Writes(e: Entry, key: string) {
    e.Assign? && e.assignment.clientKey == key
  }

  /** Entry i is the last one to write the key. */
  ghost predicate LastWrite(log: seq<Entry>, key: string, i: int) {
    && 0 <= i < |log|
    && Writes(log[i], key)
    && forall j :: i < j < |log| ==> !Writes(log[j], key)
  }

  ghost predicate Unwritten(log: seq<Entry>, key: string) {
    forall i :: 0 <= i < |log| ==> !Writes(log[i], key)
  }

  lemma LastWriteSurvives(log: seq<Entry>, key: string, i: int)
    requires log != [] && !Writes(log[|log| - 1], key)
    ensures LastWrite(log, key, i) <==> LastWrite(log[..|log| - 1], key, i)
    ensures Unwritten(log, key) <==> Unwritten(log[..|log| - 1], key)
  {
  }

  lemma {:induction false} UnwrittenKey(t: TableImage, log: seq<Entry>, key: string)
    requires Unwritten(log, key)
    ensures key in Replay(t, log) <==> key in t
    ensures key in t ==> Replay(t, log)[key] == t[key]
  {
    if |log| == 0 {
    } else {
      assert !Writes(log[|log| - 1], key);
      UnwrittenKey(t, log[..|log| - 1], key);
    }
  }

  lemma {:induction false} WrittenKey(t: TableImage, log: seq<Entry>, key: string, i: int)
    requires LastWrite(log, key, i)
    ensures key in Replay(t, log) && Replay(t, log)[key] == log[i].assignment
  {
    if i < |log| - 1 {
      assert !Writes(log[|log| - 1], key);
      LastWriteSurvives(log, key, i);
      WrittenKey(t, log[..|log| - 1], key, i);
    }
  }

  lemma {:induction false} SomeLastWrite(log: seq<Entry>, key: string) returns (i: int)
    requires !Unwritten(log, key)
    ensures LastWrite(log, key, i)
  {
    i := |log| - 1;
    if !Writes(log[i], key) {
      LastWriteSurvives(log, key, i);
      i := SomeLastWrite(log[..i], key);
      LastWriteSurvives(log, key, i);
    }
  }

  /** The table is last-writer-wins: a key has the value of the last entry that writes it, or the
      value it started with; entries that are not assignments leave no trace. */
  lemma LastWriterWins(t: TableImage, log: seq<Entry>, key: string)
    ensures (exists i :: LastWrite(log, key, i)) || Unwritten(log, key)
    ensures forall i :: LastWrite(log, key, i) ==>
              key in Replay(t, log) && Replay(t, log)[key] == log[i].assignment
    ensures Unwritten(log, key) ==>
              (key in Replay(t, log) <==> key in t) && (key in t ==> Replay(t, log)[key] == t[key])
  {
    forall i | LastWrite(log, key, i)
      ensures key in Replay(t, log) && Replay(t, log)[key] == log[i].assignment
    {
      WrittenKey(t, log, key, i);
    }
    if Unwritten(log, key) {
      UnwrittenKey(t, log, key);
    } else {
      var i := SomeLastWrite(log, key);
    }
  }

  lemma KeysNameThemselves(log: seq<Entry>, key: string)
    requires key in Replay(map[], log)
    ensures Replay(map[], log)[key].clientKey == key
    ensures exists i :: LastWrite(log, key, i) && Replay(map[], log)[key] == log[i].assignment
  {
    LastWriterWins(map[], log, key);
  }

  /** Compaction keeps the meaning of the log: the table after a prefix, and then the suffix, is the
      table after the whole log. */
  lemma {:induction false} ReplaySplits(t: TableImage, first: seq<Entry>, second: seq<Entry>)
    ensures Replay(Replay(t, first), second) == Replay(t, first + second)
  {
    if |second| == 0 {
      assert first + second == first;
    } else {
      ReplaySplits(t, first, second[..|second| - 1]);
      assert (first + second)[..|first + second| - 1] == first + second[..|second| - 1];
    }
  }

  // ---------- The state machine, with its table in the heap ----------

  class Table {
    var entries: TableImage

    constructor ()
      ensures entries == map[]
    {
      entries := map[];
    }
  }

  class StateMachine {
    var assignments: Table

    constructor ()
      ensures fresh(assignments) && assignments.entries == map[]
    {
      assignments := new Table();
    }

    method ApplyEntry(e: Entry)
      modifies assignments
      ensures assignments.entries == Apply(old(assignments.entries), e)
    {
      match e
      case Assign(a) => assignments.entries := assignments.entries[a.clientKey := a];
      case Unknown =>
    }

    method Get(key: string) returns (r: Option<Assignment>)
      ensures r == if key in assignments.entries then Some(assignments.entries[key]) else None
    {
      return if key in assignments.entries then Some(assignments.entries[key]) else None;
    }

    /** A copy in storage of its own, made entry by entry. */
    method Snapshot() returns (copy: Table)
      ensures fresh(copy) && copy.entries == assignments.entries
    {
      copy := new Table();
      var rest := assignments.entries.Keys;
      while rest != {}
        invariant rest <= assignments.entries.Keys
        invariant copy.entries.Keys == assignments.entries.Keys - rest
        invariant forall k :: k in copy.entries ==> copy.entries[k] == assignments.entries[k]
        invariant fresh(copy)
        decreases rest
      {
        var key :| key in rest;
        copy.entries := copy.entries[key := assignments.entries[key]];
        rest := rest - {key};
      }
    }

    /** Replaces the table by a decoded image; an image that cannot be decoded changes nothing. */
    method Restore(image: Option<TableImage>) returns (ok: bool)
      modifies this
      ensures ok <==> image.Some?
      ensures ok ==> fresh(assignments) && assignments.entries == image.value
      ensures !ok ==> assignments == old(assignments)
    {
      if image.None? {
        return false;
      }
      var table := new Table();
      table.entries := image.value;
      assignments := table;
      return true;
    }

    method ApplyAll(log: seq<Entry>)
      modifies assignments
      ensures assignments.entries == Replay(old(assignments.entries), log)
    {
      for i := 0 to |log|
        invariant assignments.entries == Replay(old(assignments.entries), log[..i])
        invariant assignments == old(assignments)
      {
        ApplyEntry(log[i]);
        assert log[..i + 1][..i] == log[..i];
      }
      assert log[..|log|] == log;
    }
  }

  /** Two replicas of one log: one applies all of it, the other starts from a snapshot taken by the
      first on the way.  They end with the same table, and the snapshot is still what it was. */
  method CompactAndCatchUp(log: seq<Entry>, split: nat) returns (live: StateMachine, late: StateMachine, image: Table)
    requires split <= |log|
    ensures live.assignments.entries == late.assignments.entries == Replay(map[], log)
    ensures image.entries == Replay(map[], log[..split])
  {
    live := new StateMachine();
    live.ApplyAll(log[..split]);
    image := live.Snapshot();
    live.ApplyAll(log[split..]);
    late := new StateMachine();
    var ok := late.Restore(Some(image.entries));
    late.ApplyAll(log[split..]);
    ReplaySplits(map[], log[..split], log[split..]);
    assert log[..split] + log[split..] == log;
  }

  // ---------- Choosing a member ----------

  datatype Member = Member(id: string, publicURL: string)

  type Hash = string -> nat

  function Members(c: ClusterConfig): (ms: seq<Member>)
    ensures |ms| == |c.peers.Elems()| + 1
  {
    [Member(c.nodeID, "")]
    + seq(|c.peers.Elems()|, i requires 0 <= i < |c.peers.Elems()| =>
          Member(c.peers.Elems()[i].id, c.peers.Elems()[i].publicURL))
  }

  function Owner(c: ClusterConfig, hash: Hash, key: string): Member {
    Members(c)[hash(key) % |Members(c)|]
  }

  /** What a leader decides for a key without a live entry. */
  function Decided(c: ClusterConfig, hash: Hash, key: string, now: int): Assignment {
    Assignment(key, Owner(c, hash, key).id, Owner(c, hash, key).publicURL, now + c.assignmentTTL)
  }

  method AssignmentFor(c: ClusterConfig, hash: Hash, key: string, now: int) returns (a: Assignment)
    ensures a == Decided(c, hash, key, now) && a.clientKey == key && a.expiresAt - now == c.assignmentTTL
  {
    var members := [Member(c.nodeID, "")];
    var peers := c.peers.Elems();
    for i := 0 to |peers|
      invariant members == Members(c)[..i + 1]
    {
      members := members + [Member(peers[i].id, peers[i].publicURL)];
    }
    var member := members[hash(key) % |members|];
    return Assignment(key, member.id, member.publicURL, now + c.assignmentTTL);
  }

  // ---------- Runs under one leader ----------

  /** The agreed log, the clock, and the assignments that proxied requests have decided on but
      not yet committed. */
  datatype Leader = Leader(log: seq<Entry>, now: int, pending: map<nat, Assignment>)

  /** Request r finds no live entry in the leader's table, which may lag behind the log by any amount;
      a decision is committed, possibly after others for the same key, or given up. */
  datatype Step =
    | Tick(elapsed: nat)
    | Miss(r: nat, key: string, applied: nat)
    | Commit(r: nat)
    | GiveUp(r: nat)
    | Foreign

  predicate Live(t: TableImage, key: string, now: int) {
    key in t && now <= t[key].expiresAt
  }

  predicate Enabled(s: Leader, step: Step) {
    match step
    case Miss(r, key, applied) =>
      r !in s.pending && applied <= |s.log| && !Live(Replay(map[], s.log[..applied]), key, s.now)
    case Commit(r) => r in s.pending
    case GiveUp(r) => r in s.pending
    case _ => true
  }

  function Next(c: ClusterConfig, hash: Hash, s: Leader, step: Step): Leader
    requires Enabled(s, step)
  {
    match step
    case Tick(elapsed) => s.(now := s.now + elapsed)
    case Miss(r, key, _) =>
      s.(pending := s.pending[r := Decided(c, hash, key, s.now)])
    case Commit(r) => s.(log := s.log + [Assign(s.pending[r])], pending := s.pending - {r})
    case GiveUp(r) => s.(pending := s.pending - {r})
    case Foreign => s.(log := s.log + [Unknown])
  }

  ghost predicate Run(c: ClusterConfig, hash: Hash, s: Leader, steps: seq<Step>, t: Leader)
    decreases |steps|
  {
    if |steps| == 0 then s == t
    else Enabled(s, steps[0]) && Run(c, hash, Next(c, hash, s, steps[0]), steps[1..], t)
  }

  /** A request that misses decides on the owner of its key, for one lifetime from then; once it commits,
      that is what the table of the whole log holds for the key, whatever was there before. */
  lemma DecisionIsCommitted(c: ClusterConfig, hash: Hash, s: Leader, r: nat, key: string, applied: nat)
    requires Enabled(s, Miss(r, key, applied))
    ensures var t := Next(c, hash, s, Miss(r, key, applied));
            && Enabled(t, Commit(r)) && t.log == s.log
            && var u := Next(c, hash, t, Commit(r));
               key in Replay(map[], u.log)
               && Replay(map[], u.log)[key] ==
                  Assignment(key, Owner(c, hash, key).id, Owner(c, hash, key).publicURL, s.now + c.assignmentTTL)
    ensures Next(c, hash, s, Foreign).log == s.log + [Unknown]
  {
    var t := Next(c, hash, s, Miss(r, key, applied));
    var u := Next(c, hash, t, Commit(r));
    assert u.log[..|u.log| - 1] == s.log;
  }

  predicate NamesOwner(c: ClusterConfig, hash: Hash, a: Assignment) {
    var owner := Owner(c, hash, a.clientKey);
    a.nodeID == owner.id && a.peerURL == owner.publicURL
  }

  ghost predicate AllNameOwners(c: ClusterConfig, hash: Hash, s: Leader) {
    && (forall i :: 0 <= i < |s.log| && s.log[i].Assign? ==> NamesOwner(c, hash, s.log[i].assignment))
    && (forall r :: r in s.pending ==> NamesOwner(c, hash, s.pending[r]))
  }

  lemma {:induction false} RunsNameOwners(c: ClusterConfig, hash: Hash, s: Leader, steps: seq<Step>, t: Leader)
    requires AllNameOwners(c, hash, s) && Run(c, hash, s, steps, t)
    ensures AllNameOwners(c, hash, t)
    decreases |steps|
  {
    if |steps| == 0 {
    } else {
      RunsNameOwners(c, hash, Next(c, hash, s, steps[0]), steps[1..], t);
    }
  }

  lemma MemberIDsMatch(c: ClusterConfig)
    ensures |Members(c)| == |MemberIDs(c)| && forall i :: 0 <= i < |Members(c)| ==> Members(c)[i].id == MemberIDs(c)[i]
  {
  }

  /** Stickiness: at every moment of every run from an empty table, on every replica however far it
      has applied the log, an entry for a key names the same member, expired or not.  In an accepted
      configuration that name belongs to one member only. */
  lemma AssignmentsStick(c: ClusterConfig, hash: Hash, steps: seq<Step>, start: int, t: Leader, applied: nat,
                         key: string)
    requires Run(c, hash, Leader([], start, map[]), steps, t) && applied <= |t.log|
    requires key in Replay(map[], t.log[..applied])
    ensures var entry := Replay(map[], t.log[..applied])[key];
            && entry.clientKey == key
            && NamesOwner(c, hash, entry)
            && (c.nodeID != "" && PeerError(c.peers.Elems(), {c.nodeID}).None? ==>
                  forall i :: 0 <= i < |Members(c)| && Members(c)[i].id == entry.nodeID ==>
                    i == hash(key) % |Members(c)|)
  {
    RunsNameOwners(c, hash, Leader([], start, map[]), steps, t);
    KeysNameThemselves(t.log[..applied], key);
    if c.nodeID != "" && PeerError(c.peers.Elems(), {c.nodeID}).None? {
      ClusterMembersDistinct(c);
      MemberIDsMatch(c);
    }
  }

  /** The choice depends on who leads: the two nodes of a two-node cluster never choose alike. */
  lemma TwoLeadersDisagree(a: ClusterConfig, b: ClusterConfig, hash: Hash, key: string)
    requires |a.peers.Elems()| == 1 && |b.peers.Elems()| == 1 && a.nodeID != b.nodeID
    requires a.peers.Elems()[0].id == b.nodeID && b.peers.Elems()[0].id == a.nodeID
    ensures Owner(a, hash, key).id != Owner(b, hash, key).id
  {
  }

  // ---------- The proxy ----------

  /** What one node knows when a request reaches it; `assigns` is whether a commit would succeed. */
  datatype Node = Node(config: ClusterConfig, isLeader: bool, leaderKnown: bool, table: TableImage, now: int,
                       assigns: bool)

  datatype Decision = Local | Forward(url: string)

  function Decide(n: Node, hash: Hash, key: string, forwardedHeader: string): Decision {
    if forwardedHeader == "1" || (!n.isLeader && !n.leaderKnown) then Local
    else
      var live := Live(n.table, key, n.now);
      if !live && n.isLeader && !n.assigns then Local
      else if !live && !n.isLeader then Local
      else
        var (id, url) := if live then (n.table[key].nodeID, n.table[key].peerURL)
                         else (Owner(n.config, hash, key).id, Owner(n.config, hash, key).publicURL);
        if id == "" || id == n.config.nodeID || url == "" then Local else Forward(url)
  }

  /** The nodes a request passes through, when forward number i arrives at node nodes(i).  The header
      is set on every forward, which is what makes this end. */
  function Journey(nodes: nat -> Node, hash: Hash, key: string, i: nat, header: string): (visited: seq<nat>)
    decreases if header == "1" then 0 else 1
    ensures |visited| >= 1 && visited[0] == i
  {
    match Decide(nodes(i), hash, key, header)
    case Local => [i]
    case Forward(_) => [i] + Journey(nodes, hash, key, i + 1, "1")
  }

  /** Whatever the nodes believe, even in contradiction to each other, a request is forwarded at
      most once, and not at all if it says it has been. */
  lemma AtMostOneHop(nodes: nat -> Node, hash: Hash, key: string, header: string)
    ensures |Journey(nodes, hash, key, 0, header)| <= 2
    ensures header == "1" ==> |Journey(nodes, hash, key, 0, header)| == 1
  {
  }

  /** When a node that holds a live entry written under leader c forwards a new request: exactly if
      the owner is another node, is not the leader, and has a public URL.  So requests for the keys
      of the leader itself stay wherever they arrive. */
  lemma ForwardsIff(c: ClusterConfig, hash: Hash, key: string, n: Node)
    requires c.nodeID != "" && PeerError(c.peers.Elems(), {c.nodeID}).None?
    requires Live(n.table, key, n.now) && n.table[key].clientKey == key && NamesOwner(c, hash, n.table[key])
    requires n.isLeader || n.leaderKnown
    ensures var owner := Owner(c, hash, key);
            Decide(n, hash, key, "") ==
            if owner.id != n.config.nodeID && owner.id != c.nodeID && owner.publicURL != "" then
              Forward(owner.publicURL)
            else Local
  {
    ClusterMembersDistinct(c);
    MemberIDsMatch(c);
    var k := hash(key) % |Members(c)|;
    assert MemberIDs(c)[0] == c.nodeID;
    if k > 0 {
      assert Members(c)[k].id == c.peers.Elems()[k - 1].id;
    }
  }

  /** The owner of a key, number by number: the node itself first, without a URL, then its peers in order. */
  lemma OwnerExactly(c: ClusterConfig, hash: Hash, key: string)
    ensures var peers := c.peers.Elems();
            var k := hash(key) % (|peers| + 1);
            Owner(c, hash, key) ==
            if k == 0 then Member(c.nodeID, "") else Member(peers[k - 1].id, peers[k - 1].publicURL)
  {
  }

  /** An entry serves up to the very moment it expires. */
  lemma LiveExactly(t: TableImage, key: string, now: int)
    ensures Live(t, key, now) <==> key in t && !(t[key].expiresAt < now)
  {
  }

  /** What the proxy does in all the other cases: a request that was forwarded before stays, and so does any while no
      leader is known, one that misses at a follower, and one whose assignment the leader cannot commit.  A
      miss at the leader that commits goes where the new assignment says. */
  lemma MissesExactly(hash: Hash, key: string, n: Node, header: string)
    ensures header == "1" ==> Decide(n, hash, key, header) == Local
    ensures !n.isLeader && !n.leaderKnown ==> Decide(n, hash, key, header) == Local
    ensures header != "1" && !Live(n.table, key, n.now) ==>
              var owner := Owner(n.config, hash, key);
              Decide(n, hash, key, header) ==
              if n.isLeader && n.assigns && owner.id != "" && owner.id != n.config.nodeID && owner.publicURL != "" then
                Forward(owner.publicURL)
              else Local
  {
  }

  /** A live entry is followed by leaders and followers alike, whoever wrote it. */
  lemma HitsExactly(hash: Hash, key: string, n: Node, header: string)
    requires header != "1" && (n.isLeader || n.leaderKnown) && Live(n.table, key, n.now)
    ensures var entry := n.table[key];
            Decide(n, hash, key, header) ==
            if entry.nodeID != "" && entry.nodeID != n.config.nodeID && entry.peerURL != "" then Forward(entry.peerURL)
            else Local
  {
  }
}
