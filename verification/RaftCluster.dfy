/**
 * A cluster of Raft nodes with fixed membership over a network that may lose,
 * duplicate and reorder messages: a message once sent may be delivered any
 * number of times at any later time.
 */
module RaftCluster {
  import opened RaftTypes
  import opened RaftNode

  datatype Cluster = Cluster(nodes: map<Id, Node>, net: set<Message>)

  /** The bootstrap entries every node starts with: one per peer, of term 1, committed. */
  predicate IsBootstrap(boot: Log) {
    forall k | 0 <= k < |boot| :: boot[k].index == k + 1 && boot[k].term == 1
  }

  function StartedNode(id: Id, members: set<Id>, boot: Log, maxInflight: nat, maxMsgSize: nat): Node {
    Node(id, 1, NONE, boot, |boot|, 0, 0, Follower, NONE, map[],
         map v | v in members :: Progress(0, |boot| + 1, Probe, false, 0, false, []), maxInflight, maxMsgSize)
  }

  ghost predicate Init(c: Cluster, boot: Log) {
    && IsBootstrap(boot) && NONE !in c.nodes && c.nodes != map[] && c.net == {}
    && forall id | id in c.nodes ::
         && c.nodes[id].maxInflight >= 1
         && c.nodes[id] == StartedNode(id, c.nodes.Keys, boot, c.nodes[id].maxInflight, c.nodes[id].maxMsgSize)
  }

  /** Messages a node gives itself: timers, proposals and transport reports. */
  predicate IsLocalInput(m: Message) {
    m.MsgHup? || m.MsgBeat? || m.MsgCheckQuorum? || m.MsgUnreachable? || m.MsgSnapStatus? || (m.MsgProp? && m.proposals != [])
  }

  predicate IsNetworkMessage(m: Message) {
    !m.MsgHup? && !m.MsgBeat? && !m.MsgCheckQuorum? && !m.MsgUnreachable? && !m.MsgSnapStatus?
  }

  predicate IsSent(c: Cluster, id: Id, m: Message) {
    m in c.net && IsNetworkMessage(m) && m.to == id
  }

  /** Node id may be handed message m. */
  predicate Enabled(c: Cluster, id: Id, m: Message) {
    id in c.nodes && (IsLocalInput(m) || IsSent(c, id, m))
  }

  ghost predicate Steps(c: Cluster, d: Cluster, id: Id, m: Message) {
    && Enabled(c, id, m) && WellFormed(c.nodes[id])
    && var o := Step(c.nodes[id], m);
    && o.Done? && d == Cluster(c.nodes[id := o.node], c.net + o.msgs)
  }

  ghost predicate Restarts(c: Cluster, d: Cluster, id: Id, savedCommit: nat) {
    && id in c.nodes && c.nodes[id].snapped <= savedCommit <= c.nodes[id].committed
    && d == c.(nodes := c.nodes[id := Restart(c.nodes[id], savedCommit)])
  }

  /** The application only snapshots what is committed and only compacts what is in a snapshot. */
  ghost predicate Compacts(c: Cluster, d: Cluster, id: Id, s: nat, b: nat) {
    && id in c.nodes && c.nodes[id].snapped <= s <= c.nodes[id].committed && c.nodes[id].base <= b <= s
    && d == c.(nodes := c.nodes[id := Compacted(c.nodes[id], s, b)])
  }

  ghost predicate Next(c: Cluster, d: Cluster) {
    || (exists id, m :: Steps(c, d, id, m))
    || (exists id, savedCommit :: Restarts(c, d, id, savedCommit))
    || (exists id, s, b :: Compacts(c, d, id, s, b))
  }

  ghost predicate IsRun(run: seq<Cluster>, boot: Log) {
    && run != [] && Init(run[0], boot)
    && forall i | 0 <= i < |run| - 1 :: Next(run[i], run[i+1])
  }
}
