/**
 * The coordinator (coordination/coordinator.py): publishing through the replicated log, and
 * delivering committed commands through the idempotency log to the consumer groups.
 */
module CoordinatorNode {
  import opened Wrappers
  import opened MicroRaftNode
  import opened ReorderBuffer
  import opened ConsumerGroups
  import opened Coordination
  import Dedup

  /** What a commit can change: the idempotency log and the groups. */
  datatype Delivery = Delivery(table: Dedup.Table, groups: Groups)

  /**
   * The commit callback, and whether it ends in a KeyError, which leaves the id unlogged.  `check`
   * and `mark` are its two readings of the clock: before the lookup and when the entry is written.
   */
  function OnCommit(d: Delivery, command: Command, check: real, mark: real, ttl: real): (Delivery, bool)
  {
    match command
    case OtherCommand(_) => (d, false)
    case OrderedMessage(topic, seqNo, payload) =>
      var id := Dedup.MsgId(topic, seqNo);
      if Dedup.IsProcessed(d.table, id, check) then (d, false)
      else
        var (groups, keyError) := BroadcastTo(d.groups, GroupOf(topic), topic, Msg(seqNo, payload));
        (Delivery(if keyError then d.table else Dedup.Mark(d.table, id, mark, ttl), groups), keyError)
  }

  /** Numbering a published message: the next number of its topic. */
  function NextSeq(topicSeqs: map<string, nat>, topic: string): nat
  {
    Get(topicSeqs, topic, 0) + 1
  }

  class Coordinator {
    const raft: MicroRaft
    const dedup: Dedup.DedupLog
    const groups: GroupCoordinator
    var topicSeqs: map<string, nat>

    constructor (id: NodeId, peers: seq<NodeId>)
      ensures fresh(raft) && fresh(dedup) && fresh(groups)
      ensures raft.State() == Fresh(id, peers) && dedup.table == map[] && groups.Valid()
      ensures groups.State() == map[] && topicSeqs == map[]
    {
      raft := new MicroRaft(id, peers);
      dedup := new Dedup.DedupLog(7);
      groups := new GroupCoordinator();
      topicSeqs := map[];
    }

    method OrderedBroadcast(topic: string, payload: string) returns (published: Option<nat>)
      modifies this, raft
      ensures old(raft.role) != Leader ==>
        published == None && topicSeqs == old(topicSeqs) && raft.State() == old(raft.State())
      ensures old(raft.role) == Leader ==>
        && published == Some(NextSeq(old(topicSeqs), topic))
        && topicSeqs == old(topicSeqs)[topic := NextSeq(old(topicSeqs), topic)]
        && raft.State() == Propose(old(raft.State()),
                                   OrderedMessage(topic, NextSeq(old(topicSeqs), topic), payload)).0
    {
      if raft.role != Leader {
        return None;
      }
      var seqNo := Get(topicSeqs, topic, 0) + 1;
      topicSeqs := topicSeqs[topic := seqNo];
      var index, out := raft.ProposeCommand(OrderedMessage(topic, seqNo, payload));
      published := Some(seqNo);
    }

    method Commit(command: Command, check: real, mark: real) returns (keyError: bool)
      requires groups.Valid() && groups.Healthy()
      modifies dedup, groups.AllMembers()
      ensures groups.Valid() && groups.Healthy() && groups.groups == old(groups.groups)
      ensures Delivery(dedup.table, groups.State())
           == OnCommit(old(Delivery(dedup.table, groups.State())), command, check, mark, dedup.ttl).0
      ensures keyError == OnCommit(old(Delivery(dedup.table, groups.State())), command, check, mark, dedup.ttl).1
    {
      if command.OtherCommand? {
        return false;
      }
      var msgId := Dedup.MsgId(command.topic, command.seqNo);
      var processed := dedup.Check(msgId, check);
      if processed {
        return false;
      }
      keyError := groups.Broadcast(GroupOf(command.topic), command.topic, command.seqNo, command.payload);
      if keyError {
        return;
      }
      dedup.MarkProcessed(msgId, mark);
    }
  }
}
