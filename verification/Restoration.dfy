/** A rollback undoes an interrupted migration: whatever happened since a quiescent cluster,
    short of a finalization to tablets, a completed rollback of the keyspaces under way puts
    status, marks and storage back. */
module Restoration {
  import opened Options
  import opened Cluster
  import opened Rest
  import opened Convert
  import opened Finalization
  import opened Migration
  import opened Rollback

  // No migration under way and no node marked.
  ghost predicate Quiescent(c: State) {
    Coherent(c) && Migrating(c) == {} && forall h :: h in c.hosts ==> c.hosts[h].intended == Vnodes
  }

  // Everything but liveness and addresses.
  ghost predicate SameStorage(a: State, b: State) {
    && b.status == a.status
    && b.hosts.Keys == a.hosts.Keys
    && (forall h :: h in a.hosts ==>
          b.hosts[h].intended == a.hosts[h].intended && b.hosts[h].onTablets == a.hosts[h].onTablets)
  }

  // The step did not carry a keyspace over to tablets for good.
  ghost predicate Reversible(c: State, c': State) {
    forall ks :: ks in c'.status && c'.status[ks] == Tablets ==> ks in c.status && c.status[ks] == Tablets
  }

  // What a reversible run can have changed since c0: keyspaces under way, and nothing else.
  ghost predicate Since(c0: State, c: State) {
    && c.hosts.Keys == c0.hosts.Keys && c.status.Keys == c0.status.Keys
    && (forall ks :: ks in c0.status ==>
          c.status[ks] == c0.status[ks] || (c0.status[ks] == Vnodes && c.status[ks] == MigratingToTablets))
    && (forall h, ks :: h in c0.hosts && ks !in Migrating(c) ==>
          (ks in c.hosts[h].onTablets <==> ks in c0.hosts[h].onTablets))
  }

  lemma StepKeepsSince(c0: State, c: State, e: Event, c': State)
    requires Quiescent(c0) && Since(c0, c) && Step(c, e, c') && Reversible(c, c')
    ensures Since(c0, c')
  {
    if e.Finalize? && c' != c {
      assert c'.status[e.ks] == Vnodes;
      FinalizedBack(c0, c, e.ks, c');
    } else if e.Start? {
      assert Migrating(c') == Migrating(c) + {e.ks};
    } else {
      assert Migrating(c') == Migrating(c);
    }
  }

  lemma FinalizedBack(c0: State, c: State, ks: Keyspace, c': State)
    requires Quiescent(c0) && Since(c0, c) && ks in Migrating(c) && Uniform(c, ks, Vnodes)
    requires c' == c.(status := c.status[ks := Vnodes])
    ensures Since(c0, c')
  {
    assert ks !in Migrating(c0) && c0.status[ks] == Vnodes;
    assert Uniform(c0, ks, Vnodes);
    assert Migrating(c) == Migrating(c') + {ks};
  }

  lemma {:induction false} RunKeepsSince(trace: seq<State>, log: seq<Event>, from: nat, until: nat)
    requires Run(trace, log) && from <= until <= |log| && Quiescent(trace[from])
    requires forall p :: from <= p < until ==> Reversible(At(trace, p), At(trace, p + 1))
    ensures Since(trace[from], trace[until])
    decreases until
  {
    if from < until {
      var last := until - 1;
      RunKeepsSince(trace, log, from, last);
      assert Step(trace[last], log[last], trace[last + 1]);
      assert Reversible(At(trace, last), At(trace, last + 1));
      StepKeepsSince(trace[from], trace[last], log[last], trace[last + 1]);
    }
  }

  /** A run from a quiescent cluster that ends without a migration or a mark, and never made
      one final, has put the storage back. */
  lemma QuietEndRestores(trace: seq<State>, log: seq<Event>, from: nat)
    requires Run(trace, log) && from <= |log| && Quiescent(trace[from])
    requires forall p :: from <= p < |log| ==> Reversible(At(trace, p), At(trace, p + 1))
    requires Migrating(trace[|log|]) == {}
    requires forall h :: h in trace[|log|].hosts ==> trace[|log|].hosts[h].intended == Vnodes
    ensures SameStorage(trace[from], trace[|log|])
  {
    RunKeepsSince(trace, log, from, |log|);
    var a, b := trace[from], trace[|log|];
    forall ks | ks in a.status ensures b.status[ks] == a.status[ks] {
      assert ks !in Migrating(b);
    }
    forall h | h in a.hosts ensures b.hosts[h].onTablets == a.hosts[h].onTablets {
      forall ks ensures ks in b.hosts[h].onTablets <==> ks in a.hosts[h].onTablets {
        assert ks !in Migrating(b);
      }
    }
  }

  // Nothing a rollback asks for is irreversible.
  lemma RollbackMoveReversible(c: State, e: Event, c': State, nodes: seq<Node>, keyspaces: seq<Keyspace>)
    requires Step(c, e, c') && RollbackMove(c, e, nodes, keyspaces) && nodes != []
    ensures Reversible(c, c')
  {
    if e.Finalize? {
      assert e.ks in keyspaces && OnEvery(c, nodes, keyspaces, Vnodes);
      var first := nodes[0].hostId;
      assert first in c.hosts && CurrentMode(c.hosts[first], e.ks) == Vnodes;
      assert !Uniform(c, e.ks, Tablets);
    }
  }

  /** From a quiescent cluster and any history of interrupted migrations and rollbacks without a
      finalization to tablets, a completed rollback of the keyspaces under way restores the
      cluster, and an incomplete one leaves a history the next one can start from. */
  method Restore(w: World, control: Node, nodes: seq<Node>, opts: Opts, k8s: bool, ghost from: nat)
    returns (r: Reply<()>)
    requires w.Valid() && w.moving == None && Roster(w, nodes) && nodes != [] && opts.keyspaces != []
    requires from <= |w.log| && Quiescent(At(w.trace, from))
    requires forall p :: from <= p < |w.log| ==> Reversible(At(w.trace, p), At(w.trace, p + 1))
    requires forall h :: h in w.c.hosts ==> exists i :: 0 <= i < |nodes| && nodes[i].hostId == h
    requires forall ks :: ks in Migrating(w.c) ==> ks in opts.keyspaces
    modifies w, nodes
    ensures w.Longer()
    ensures forall p :: from <= p < |w.log| ==> Reversible(At(w.trace, p), At(w.trace, p + 1))
    ensures r.Answer? ==> SameStorage(old(At(w.trace, from)), w.c)
  {
    ghost var n, t0 := |w.log|, w.trace;
    r := Rollback.Rollback(w, control, nodes, opts, k8s);
    forall p | from <= p < |w.log| ensures Reversible(At(w.trace, p), At(w.trace, p + 1)) {
      if p < n {
        assert At(w.trace, p) == At(t0, p) && At(w.trace, p + 1) == At(t0, p + 1);
      } else {
        assert Step(w.trace[p], w.log[p], w.trace[p + 1]);
        RollbackMoveReversible(At(w.trace, p), At(w.log, p), At(w.trace, p + 1), nodes, opts.keyspaces);
      }
    }
    if r.Answer? {
      assert At(w.trace, from) == At(t0, from);
      assert forall ks :: ks in Migrating(w.c) ==> ks in Migrating(old(w.c));
      QuietEndRestores(w.trace, w.log, from);
    }
  }
}
