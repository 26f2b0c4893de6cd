/** The finalization loop, shared in shape by the two directions of convert_to_tablets.py. */
module Finalization {
  import opened Options
  import opened Cluster
  import opened Rest
  import opened Convert
  import opened Phases

  // What a finished phase 2 leaves behind, and what each finalization keeps.
  predicate Held(c: State, h: HostId, ks: Keyspace, mode: Word) {
    && h in c.hosts && ks in c.status
    && CurrentMode(c.hosts[h], ks) == mode
    && (c.status[ks] == MigratingToTablets ==> c.hosts[h].intended == mode)
  }

  ghost predicate AllHeld(c: State, nodes: seq<Node>, keyspaces: seq<Keyspace>, mode: Word) {
    forall j, ks :: 0 <= j < |nodes| && ks in keyspaces ==> Held(c, nodes[j].hostId, ks, mode)
  }

  // Every listed node really stores every requested keyspace this way.
  ghost predicate OnEvery(c: State, nodes: seq<Node>, keyspaces: seq<Keyspace>, mode: Word) {
    forall j, ks :: 0 <= j < |nodes| && ks in keyspaces ==>
      nodes[j].hostId in c.hosts && CurrentMode(c.hosts[nodes[j].hostId], ks) == mode
  }

  ghost predicate FinalMove(c: State, e: Event, nodes: seq<Node>, keyspaces: seq<Keyspace>, mode: Word) {
    Allowed(Idle, e) || (e.Finalize? && e.ks in keyspaces && OnEvery(c, nodes, keyspaces, mode))
  }

  lemma DoneIsHeld(c: State, nodes: seq<Node>, keyspaces: seq<Keyspace>, mode: Word)
    requires Done(c, nodes, |nodes|, keyspaces, mode)
    ensures AllHeld(c, nodes, keyspaces, mode)
  {
    forall j, ks | 0 <= j < |nodes| && ks in keyspaces ensures Held(c, nodes[j].hostId, ks, mode) {
      assert AtMode(c, nodes[j].hostId, ks, mode);
    }
  }

  lemma HeldDrifts(c: State, c': State, nodes: seq<Node>, keyspaces: seq<Keyspace>, mode: Word)
    requires Drift(c, c') && AllHeld(c, nodes, keyspaces, mode)
    ensures AllHeld(c', nodes, keyspaces, mode)
  {
    forall j, ks | 0 <= j < |nodes| && ks in keyspaces ensures Held(c', nodes[j].hostId, ks, mode) {
      assert Held(c, nodes[j].hostId, ks, mode);
      assert DriftHost(c.hosts[nodes[j].hostId], c'.hosts[nodes[j].hostId], Migrating(c));
      assert c.status[ks] == MigratingToTablets ==> ks in Migrating(c);
    }
  }

  /** A finalization meets uniform storage, changes no node, and moves its keyspace to `mode` or nowhere. */
  lemma FinalizeKeepsHeld(c: State, ks: Keyspace, c': State, nodes: seq<Node>, keyspaces: seq<Keyspace>, mode: Word)
    requires Step(c, Finalize(ks), c') && AllHeld(c, nodes, keyspaces, mode)
    requires nodes != [] && ks in keyspaces && mode != MigratingToTablets
    ensures AllHeld(c', nodes, keyspaces, mode)
    ensures c'.hosts == c.hosts
    ensures c'.status == c.status || (ks in Migrating(c) && c'.status == c.status[ks := mode])
  {
    assert Held(c, nodes[0].hostId, ks, mode);
    if c' != c {
      assert c'.status[ks] == mode;
      forall j, k | 0 <= j < |nodes| && k in keyspaces ensures Held(c', nodes[j].hostId, k, mode) {
        assert Held(c, nodes[j].hostId, k, mode);
      }
    }
  }

  method KsState(w: World, control: Node, ks: Keyspace) returns (r: Reply<Word>)
    requires w.Valid()
    modifies w
    ensures w.Only(Idle) && !r.Fatal? && Drift(old(w.c), w.c)
    ensures r.Answer? ==> ks in w.c.status && w.c.status[ks] == r.value
  {
    var report := w.Status(Url(control.apiHost), ks, None);
    w.Drifts(Idle);
    return if report.Answer? then Answer(report.value.status) else report.PropagateFailure();
  }

  // One keyspace: request the finalization, then check where it ended up.
  method FinalizeOne(w: World, control: Node, nodes: seq<Node>, keyspaces: seq<Keyspace>, ks: Keyspace, want: Word)
    returns (r: Reply<()>)
    requires w.Valid() && nodes != [] && ks in keyspaces && want != MigratingToTablets
    requires AllHeld(w.c, nodes, keyspaces, want)
    modifies w
    ensures w.Grew() && AllHeld(w.c, nodes, keyspaces, want)
    ensures forall p :: |old(w.log)| <= p < |w.log| ==>
              FinalMove(At(w.trace, p), At(w.log, p), nodes, keyspaces, want)
    ensures w.c.status == old(w.c.status) || (ks in old(w.c.status) && w.c.status == old(w.c.status)[ks := want])
    ensures r.Answer? ==> ks in w.c.status && w.c.status[ks] == want
  {
    ghost var n := |w.log|;
    var posted := w.PostFinalization(Url(control.apiHost), ks);
    if |w.log| > n && At(w.log, |w.log| - 1) == Finalize(ks) {
      FinalizationMeets(w.trace, w.log, n, nodes, keyspaces, ks, want);
    } else {
      w.Drifts(Idle);
      HeldDrifts(old(w.c), w.c, nodes, keyspaces, want);
    }
    if !posted.Answer? {
      return posted;
    }
    label Posted:
    var state := KsState(w, control, ks);
    HeldDrifts(old@Posted(w.c), w.c, nodes, keyspaces, want);
    if !state.Answer? {
      return state.PropagateFailure();
    }
    return if state.value == want then Answer(()) else Reply.Fatal;
  }

  lemma FinalizationMeets(trace: seq<State>, log: seq<Event>, from: nat, nodes: seq<Node>,
                          keyspaces: seq<Keyspace>, ks: Keyspace, mode: Word)
    requires Run(trace, log) && from < |log| && At(log, |log| - 1) == Finalize(ks)
    requires forall p :: from <= p < |log| - 1 ==> Calm(At(log, p))
    requires nodes != [] && ks in keyspaces && mode != MigratingToTablets
    requires AllHeld(At(trace, from), nodes, keyspaces, mode)
    ensures OnEvery(At(trace, |log| - 1), nodes, keyspaces, mode)
    ensures AllHeld(At(trace, |log|), nodes, keyspaces, mode)
    ensures var a, b := At(trace, from).status, At(trace, |log|).status;
            b == a || (ks in a && b == a[ks := mode])
  {
    var last := |log| - 1;
    CalmRunDrifts(trace, log, from, last);
    HeldDrifts(trace[from], trace[last], nodes, keyspaces, mode);
    forall j, k | 0 <= j < |nodes| && k in keyspaces
      ensures nodes[j].hostId in trace[last].hosts && CurrentMode(trace[last].hosts[nodes[j].hostId], k) == mode
    {
      assert Held(trace[last], nodes[j].hostId, k, mode);
    }
    assert Step(trace[last], log[last], trace[last + 1]);
    FinalizeKeepsHeld(trace[last], ks, trace[last + 1], nodes, keyspaces, mode);
  }

  /** Finalize every keyspace, once all nodes are done. */
  method FinalizeAll(w: World, control: Node, nodes: seq<Node>, keyspaces: seq<Keyspace>, want: Word)
    returns (r: Reply<()>)
    requires w.Valid() && nodes != [] && want != MigratingToTablets
    requires AllHeld(w.c, nodes, keyspaces, want)
    modifies w
    ensures w.Grew() && AllHeld(w.c, nodes, keyspaces, want)
    ensures forall p :: |old(w.log)| <= p < |w.log| ==>
              FinalMove(At(w.trace, p), At(w.log, p), nodes, keyspaces, want)
    ensures r.Answer? ==> forall ks :: ks in keyspaces ==> ks in w.c.status && w.c.status[ks] == want
    ensures r.Answer? ==> forall ks :: ks in w.c.status && ks !in keyspaces ==>
              ks in old(w.c.status) && w.c.status[ks] == old(w.c.status)[ks]
  {
    var picked := PickControl(w, nodes, None);
    w.Drifts(Idle);
    HeldDrifts(old(w.c), w.c, nodes, keyspaces, want);
    if picked.Killed? {
      return Killed;
    }
    var asked := if picked.value.Some? then picked.value.value else control;
    for i := 0 to |keyspaces|
      invariant w.Grew() && AllHeld(w.c, nodes, keyspaces, want)
      invariant forall p :: |old(w.log)| <= p < |w.log| ==>
                  FinalMove(At(w.trace, p), At(w.log, p), nodes, keyspaces, want)
      invariant Finished(old(w.c).status, w.c.status, keyspaces, i, want)
    {
      ghost var before := w.c.status;
      var _ :- FinalizeOne(w, asked, nodes, keyspaces, keyspaces[i], want);
      OneFinished(old(w.c).status, before, w.c.status, keyspaces, i, want);
    }
    return Answer(());
  }

  // The first `n` keyspaces have arrived, and no other keyspace's status has changed.
  ghost predicate Finished(before: map<Keyspace, Word>, after: map<Keyspace, Word>, keyspaces: seq<Keyspace>, n: nat, want: Word) {
    && (forall j :: 0 <= j < n && j < |keyspaces| ==> keyspaces[j] in after && after[keyspaces[j]] == want)
    && forall ks :: ks in after && ks !in keyspaces ==> ks in before && after[ks] == before[ks]
  }

  lemma OneFinished(first: map<Keyspace, Word>, before: map<Keyspace, Word>, after: map<Keyspace, Word>,
                    keyspaces: seq<Keyspace>, i: nat, want: Word)
    requires i < |keyspaces| && Finished(first, before, keyspaces, i, want)
    requires after == before || (keyspaces[i] in before && after == before[keyspaces[i] := want])
    requires keyspaces[i] in after && after[keyspaces[i]] == want
    ensures Finished(first, after, keyspaces, i + 1, want)
  {
  }
}
