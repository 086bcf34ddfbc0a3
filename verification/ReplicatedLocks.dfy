/** Raft and the lock table together: what two lock managers can say of one resource. */
module ReplicatedLocks {
  import opened Options
  import opened Commands
  import RaftNode
  import RaftCluster
  import RaftCommit
  import LockTable
  import LockSafety

  function Submitted(log: RaftNode.Log): seq<Command> {
    seq(|log|, i requires 0 <= i < |log| => log[i].command)
  }

  /** After any run of the cluster, two lock managers that have applied equally many commands, and
      at which no lease has run out, have the same lock table but for times; in particular they
      never name different exclusive holders of a resource. */
  lemma LockManagersAgree(
    fix: RaftNode.Fixes, ids: set<RaftNode.NodeId>, steps: seq<RaftCluster.Step>,
    m: RaftNode.NodeId, n: RaftNode.NodeId,
    leaseM: real, eventsM: seq<LockTable.Event>, leaseN: real, eventsN: seq<LockTable.Event>)
    requires RaftCluster.After(fix, ids, steps).Some?
    requires RaftCluster.RunA(fix, ids, steps) && RaftCluster.RunBC(fix, ids, steps)
    requires var nodes := RaftCluster.After(fix, ids, steps).value.nodes;
             && m in nodes && n in nodes && nodes[m].lastApplied == nodes[n].lastApplied
             && LockSafety.CommandsOf(eventsM) == Submitted(nodes[m].applied)
             && LockSafety.CommandsOf(eventsN) == Submitted(nodes[n].applied)
    requires LockSafety.NoLeaseEnds(leaseM, eventsM) && LockSafety.NoLeaseEnds(leaseN, eventsN)
    ensures var tm := LockTable.After(leaseM, LockTable.EMPTY, eventsM);
            var tn := LockTable.After(leaseN, LockTable.EMPTY, eventsN);
            && LockSafety.SameTable(tm, tn)
            && forall r :: var a, b := LockTable.LockOf(tm, r), LockTable.LockOf(tn, r);
                 LockSafety.HeldExclusively(a) && LockSafety.HeldExclusively(b) ==> a.holders == b.holders
  {
    hide RaftCluster.After, RaftCluster.RunA, RaftCluster.RunBC, LockTable.After, LockSafety.CommandsOf,
        LockSafety.NoLeaseEnds;
    RaftCommit.StateMachineSafety(fix, ids, steps);
    var nodes := RaftCluster.After(fix, ids, steps).value.nodes;
    assert RaftCommit.AppliedExactly(nodes[m]) && RaftCommit.AppliedExactly(nodes[n]);
    assert nodes[m].applied == nodes[n].applied;
    LockSafety.ReplicasAgree(leaseM, leaseN, eventsM, eventsN);
  }
}
