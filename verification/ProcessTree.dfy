/** Which live processes belong to a recorded demo process: a closure over one process snapshot. */
module ProcessTree {

  type Pid = nat

  /** Creation times are ticks; a recorded identity has the same fields. */
  datatype Process = Process(pid: Pid, parent: Pid, created: int, executable: string, command: string)

  type Snapshot = map<Pid, Process>

  predicate Keyed(snapshot: Snapshot) {
    forall pid :: pid in snapshot ==> snapshot[pid].pid == pid
  }

  /** Same pid, creation time, executable and command line; the parent may have changed. */
  predicate SameProcess(live: Process, recorded: Process) {
    live.pid == recorded.pid && live.created == recorded.created
    && live.executable == recorded.executable && live.command == recorded.command
  }

  predicate IsRoot(identities: seq<Process>, snapshot: Snapshot, pid: Pid) {
    pid in snapshot && exists i :: 0 <= i < |identities| && identities[i].pid == pid
                                   && SameProcess(snapshot[pid], identities[i])
  }

  /** A child was created by the process that now has its parent's pid only if it is not older. */
  predicate IsChild(snapshot: Snapshot, parent: Pid, child: Pid) {
    child in snapshot && parent in snapshot
    && snapshot[child].parent == parent && snapshot[child].created >= snapshot[parent].created
  }

  ghost predicate Closed(identities: seq<Process>, snapshot: Snapshot, pids: set<Pid>) {
    && (forall pid :: IsRoot(identities, snapshot, pid) ==> pid in pids)
    && (forall parent, child :: parent in pids && IsChild(snapshot, parent, child) ==> child in pids)
  }

  /** The least closed set of processes. */
  ghost predicate Least(identities: seq<Process>, snapshot: Snapshot, pids: set<Pid>) {
    && Closed(identities, snapshot, pids)
    && forall other :: Closed(identities, snapshot, other) ==> pids <= other
  }

  predicate Restricts(selected: Snapshot, snapshot: Snapshot) {
    forall pid :: pid in selected ==> pid in snapshot && selected[pid] == snapshot[pid]
  }

  /** The verified processes of a record, each exactly when some recorded identity matches it. */
  method VerifiedRoots(identities: seq<Process>, snapshot: Snapshot) returns (selected: Snapshot)
    requires Keyed(snapshot)
    ensures Restricts(selected, snapshot)
    ensures forall pid :: pid in selected <==> IsRoot(identities, snapshot, pid)
  {
    selected := map[];
    for i := 0 to |identities|
      invariant Restricts(selected, snapshot)
      invariant forall pid :: pid in selected <==> IsRoot(identities[..i], snapshot, pid)
    {
      var identity := identities[i];
      assert identities[..i + 1] == identities[..i] + [identity];
      assert forall k :: 0 <= k < i ==> identities[..i + 1][k] == identities[..i][k];
      assert forall pid :: IsRoot(identities[..i + 1], snapshot, pid) <==>
               IsRoot(identities[..i], snapshot, pid)
               || (pid == identity.pid && pid in snapshot && SameProcess(snapshot[pid], identity)) by {
        forall pid
          ensures IsRoot(identities[..i + 1], snapshot, pid) <==>
                  IsRoot(identities[..i], snapshot, pid)
                  || (pid == identity.pid && pid in snapshot && SameProcess(snapshot[pid], identity))
        {
          if pid == identity.pid && pid in snapshot && SameProcess(snapshot[pid], identity) {
            assert identities[..i + 1][i].pid == pid;
          }
        }
      }
      if identity.pid in snapshot {
        var live := snapshot[identity.pid];
        if SameProcess(live, identity) {
          selected := selected[live.pid := live];
        }
      }
    }
    assert identities[..|identities|] == identities;
  }

  /** Grows the selection by whole generations of children until nothing is added. */
  method OwnedTree(identities: seq<Process>, snapshot: Snapshot) returns (selected: Snapshot)
    requires Keyed(snapshot)
    ensures Restricts(selected, snapshot) && selected.Items <= snapshot.Items
    ensures Least(identities, snapshot, selected.Keys)
  {
    selected := VerifiedRoots(identities, snapshot);
    while true
      invariant Restricts(selected, snapshot)
      invariant forall pid :: IsRoot(identities, snapshot, pid) ==> pid in selected
      invariant forall other :: Closed(identities, snapshot, other) ==> selected.Keys <= other
      decreases snapshot.Keys - selected.Keys
    {
      var additions := map pid | pid in snapshot && snapshot[pid].parent in selected && pid !in selected
                                 && snapshot[pid].created >= selected[snapshot[pid].parent].created :: snapshot[pid];
      if additions == map[] {
        forall parent, child | parent in selected && IsChild(snapshot, parent, child)
          ensures child in selected
        {
          assert child !in additions;
        }
        break;
      }
      forall other | Closed(identities, snapshot, other)
        ensures (selected + additions).Keys <= other
      {
        forall pid | pid in additions
          ensures pid in other
        {
          assert IsChild(snapshot, snapshot[pid].parent, pid);
        }
      }
      ghost var some :| some in additions;
      assert some in snapshot.Keys - selected.Keys;
      selected := selected + additions;
    }
  }

  // ----- the same set, by paths -----------------------------------------------------------

  /**
   * From a recorded process that still has every field but its parent, down to
   * `pid`: each one was created by the one before and is not older.
   */
  ghost predicate IsPath(identities: seq<Process>, snapshot: Snapshot, path: seq<Pid>, pid: Pid) {
    && path != [] && path[|path| - 1] == pid && (forall i :: 0 <= i < |path| ==> path[i] in snapshot)
    && (exists k :: 0 <= k < |identities| && identities[k].pid == path[0]
                    && snapshot[path[0]] == identities[k].(parent := snapshot[path[0]].parent))
    && forall i :: 0 <= i < |path| - 1 ==>
         snapshot[path[i + 1]].parent == path[i] && snapshot[path[i + 1]].created >= snapshot[path[i]].created
  }

  ghost predicate Reachable(identities: seq<Process>, snapshot: Snapshot, pid: Pid) {
    exists path :: IsPath(identities, snapshot, path, pid)
  }

  lemma {:induction false} PathStaysInside(identities: seq<Process>, snapshot: Snapshot, pids: set<Pid>,
                                           path: seq<Pid>, pid: Pid)
    requires Closed(identities, snapshot, pids) && IsPath(identities, snapshot, path, pid)
    ensures pid in pids
  {
    if |path| > 1 {
      var n := |path| - 1;
      PathStaysInside(identities, snapshot, pids, path[..n], path[n - 1]);
      assert IsChild(snapshot, path[n - 1], path[n]);
    } else {
      assert IsRoot(identities, snapshot, pid);
    }
  }

  /**
   * Selected are exactly the processes that a chain of children, with creation
   * times that never decrease, connects to a verified process. A process that
   * merely reuses a pid, and its descendants, are not.
   */
  lemma SelectedIsReachable(identities: seq<Process>, snapshot: Snapshot, pids: set<Pid>, pid: Pid)
    requires Least(identities, snapshot, pids)
    ensures pid in pids <==> Reachable(identities, snapshot, pid)
  {
    var reached := set x | x in snapshot && Reachable(identities, snapshot, x);
    forall x | IsRoot(identities, snapshot, x)
      ensures x in reached
    {
      assert IsPath(identities, snapshot, [x], x);
    }
    forall parent, child | parent in reached && IsChild(snapshot, parent, child)
      ensures child in reached
    {
      var path :| IsPath(identities, snapshot, path, parent);
      assert IsPath(identities, snapshot, path + [child], child);
    }
    assert Closed(identities, snapshot, reached);
    if Reachable(identities, snapshot, pid) {
      var path :| IsPath(identities, snapshot, path, pid);
      PathStaysInside(identities, snapshot, pids, path, pid);
    }
  }
}
