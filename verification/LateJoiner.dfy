/** A run in which two nodes join through a third, and the earlier one never hears of the later one. */
module LateJoiner {
  import opened Types
  import opened Join
  import opened JoinRuns

  function LastOf(run: JoinRun): Cluster
    requires run.states != []
  {
    run.states[|run.states| - 1]
  }

  /** The run with one more step. */
  lemma Extended(run: JoinRun, e: Event) returns (longer: JoinRun)
    requires run.Valid() && Enabled(LastOf(run), e)
    ensures longer.Valid() && LastOf(longer) == Apply(LastOf(run), e)
  {
    longer := JoinRun(run.states + [Apply(LastOf(run), e)], run.events + [e]);
    forall i | 0 <= i < |longer.events|
      ensures Enabled(longer.states[i], longer.events[i])
      ensures longer.states[i + 1] == Apply(longer.states[i], longer.events[i])
    {
      if i < |run.events| {
        assert longer.states[i] == run.states[i] && longer.events[i] == run.events[i]
               && longer.states[i + 1] == run.states[i + 1];
      }
    }
  }

  /** No request is under way. */
  ghost predicate Quiet(c: Cluster) {
    forall q :: q in c.requests ==> c.requests[q].Replied?
  }

  /** A node without collections. */
  predicate Bare(c: Cluster, n: PeerId) {
    n in c.nodes && c.nodes[n].collections == map[]
  }

  function Knowing(peers: Book): Node {
    Node(peers, map[])
  }

  lemma Starts(run: JoinRun, n: PeerId) returns (longer: JoinRun)
    requires run.Valid() && n !in LastOf(run).nodes
    ensures longer.Valid()
    ensures LastOf(longer) == LastOf(run).(nodes := LastOf(run).nodes[n := Knowing(map[n := ""])])
  {
    longer := Extended(run, StartNode(n, "", map[]));
  }

  /** Node `n` answers a request of node `r` with the peers it then knows. */
  lemma Answers(run: JoinRun, n: PeerId, r: PeerId) returns (longer: JoinRun)
    requires run.Valid() && Quiet(LastOf(run)) && Bare(LastOf(run), n) && r in LastOf(run).nodes
    requires n != r && (n, r) !in LastOf(run).requests && n !in LastOf(run).joiners
    requires Get(LastOf(run).nodes[r].peers, r) == Some("")
    ensures longer.Valid()
    ensures var c, peers := LastOf(run), LastOf(run).nodes[n].peers[r := ""];
            LastOf(longer) == Cluster(c.nodes[n := Knowing(peers)], c.requests[(n, r) := Replied(peers)], c.joiners)
  {
    var c := LastOf(run);
    longer := Extended(run, Receive(n, r, ""));
    longer := Extended(longer, Lock(n, r));
    assert LastOf(longer).requests[(n, r)].todo == {};
    longer := Extended(longer, Reply(n, r));
    assert LastOf(longer).nodes == c.nodes[n := Knowing(c.nodes[n].peers[r := ""])];
    assert LastOf(longer).requests == c.requests[(n, r) := Replied(c.nodes[n].peers[r := ""])];
  }

  lemma Begins(run: JoinRun, n: PeerId, r: PeerId) returns (longer: JoinRun)
    requires run.Valid() && r in LastOf(run).nodes && r !in LastOf(run).joiners
    requires (n, r) in LastOf(run).requests && LastOf(run).requests[(n, r)].Replied?
    ensures longer.Valid()
    ensures var c := LastOf(run);
            LastOf(longer) == c.(joiners := c.joiners[r := Joiner(c.requests[(n, r)].reply - {r}, Idle)])
  {
    longer := Extended(run, StartAbsorbing(n, r));
  }

  /** Node `r` works through one peer of its reply. */
  lemma Absorbs(run: JoinRun, r: PeerId, p: PeerId) returns (longer: JoinRun)
    requires run.Valid() && Quiet(LastOf(run)) && Bare(LastOf(run), r)
    requires r in LastOf(run).joiners && LastOf(run).joiners[r].phase.Idle? && p in LastOf(run).joiners[r].todo
    ensures longer.Valid()
    ensures var c := LastOf(run);
            var todo := c.joiners[r].todo;
            LastOf(longer) == Cluster(c.nodes[r := Knowing(c.nodes[r].peers[p := todo[p]])], c.requests,
                                      c.joiners[r := Joiner(todo - {p}, Idle)])
  {
    var c := LastOf(run);
    longer := Extended(run, AbsorbPeer(r, p));
    longer := Extended(longer, AbsorbLock(r));
    assert LastOf(longer).joiners[r].phase.names == {};
    longer := Extended(longer, AbsorbNext(r));
    assert LastOf(longer).nodes == c.nodes[r := Knowing(c.nodes[r].peers[p := c.joiners[r].todo[p]])];
    assert LastOf(longer).joiners == c.joiners[r := Joiner(c.joiners[r].todo - {p}, Idle)];
  }

  lemma ThreeStart() returns (run: JoinRun)
    ensures run.Valid()
    ensures LastOf(run) ==
            Cluster(map[0 := Knowing(map[0 := ""]), 1 := Knowing(map[1 := ""]), 2 := Knowing(map[2 := ""])], map[],
                    map[])
  {
    run := JoinRun([NOBODY], []);
    run := Starts(run, 0);
    run := Starts(run, 1);
    run := Starts(run, 2);
  }

  /** Node 1 joins through node 0, and is done. */
  lemma FirstJoins() returns (run: JoinRun)
    ensures run.Valid()
    ensures LastOf(run) ==
            Cluster(map[0 := Knowing(map[0 := "", 1 := ""]), 1 := Knowing(map[1 := "", 0 := ""]),
                        2 := Knowing(map[2 := ""])],
                    map[(0, 1) := Replied(map[0 := "", 1 := ""])],
                    map[1 := Joiner(map[], Idle)])
  {
    run := ThreeStart();
    run := Answers(run, 0, 1);
    run := Begins(run, 0, 1);
    assert LastOf(run).joiners[1].todo == map[0 := ""];
    run := Absorbs(run, 1, 0);
  }

  /** Node 2 asks node 0 and is told of nodes 0 and 1. */
  lemma SecondAsks() returns (run: JoinRun)
    ensures run.Valid()
    ensures LastOf(run) ==
            Cluster(map[0 := Knowing(map[0 := "", 1 := "", 2 := ""]), 1 := Knowing(map[1 := "", 0 := ""]),
                        2 := Knowing(map[2 := ""])],
                    map[(0, 1) := Replied(map[0 := "", 1 := ""]), (0, 2) := Replied(map[0 := "", 1 := "", 2 := ""])],
                    map[1 := Joiner(map[], Idle), 2 := Joiner(map[0 := "", 1 := ""], Idle)])
  {
    run := FirstJoins();
    run := Answers(run, 0, 2);
    run := Begins(run, 0, 2);
    assert LastOf(run).joiners[2].todo == map[0 := "", 1 := ""];
  }

  /** Both joins complete; the later joiner knows the earlier one, which does not know it. */
  lemma EarlierJoinerIsNotTold() returns (run: JoinRun)
    ensures run.Valid()
    ensures var c := LastOf(run);
            && (0, 1) in c.requests && c.requests[(0, 1)].Replied?
            && (0, 2) in c.requests && c.requests[(0, 2)].Replied?
            && 1 in c.joiners && c.joiners[1] == Joiner(map[], Idle)
            && 2 in c.joiners && c.joiners[2] == Joiner(map[], Idle)
            && 1 in c.nodes && 2 in c.nodes && 1 in c.nodes[2].peers && 2 !in c.nodes[1].peers
  {
    run := SecondAsks();
    run := Absorbs(run, 2, 0);
    run := Absorbs(run, 2, 1);
  }
}
