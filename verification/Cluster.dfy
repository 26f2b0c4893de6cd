/** The ScyllaDB side of the vnodes-to-tablets migration, as far as
    sample_app/convert_to_tablets.py describes it, as a state machine: what a node and a
    keyspace are, and what one step of the cluster may do.  Everything here is a value;
    the controller that drives the machine is in Convert.dfy. */
module Cluster {

  // The three words the REST API uses, both for a keyspace's state and for a node's mode.
  datatype Word = Vnodes | MigratingToTablets | Tablets

  type HostId = nat  // a UUID, by the number it spells
  type Keyspace = string
  type Address = string

  // `onTablets` is the set of keyspaces this node stores as tablets; `intended` is the
  // node-wide mode that the next start of the process applies.
  datatype Host = Host(intended: Word, onTablets: set<Keyspace>, up: bool, addr: Address)

  datatype State = State(hosts: map<HostId, Host>, status: map<Keyspace, Word>)

  function Migrating(c: State): set<Keyspace> {
    set ks | ks in c.status && c.status[ks] == MigratingToTablets
  }

  // Storage of a node after a start with this intended mode.
  function Converted(onTablets: set<Keyspace>, intended: Word, migrating: set<Keyspace>): set<Keyspace> {
    if intended == Tablets then onTablets + migrating else onTablets - migrating
  }

  /** What can happen: the environment's own moves, the reads, and the controller's requests.
      A request carries the host the controller meant and the host its address reached.  Answers is
      the finding of a discovery that a node answers with its own host ID; Back is the controller's
      finding that a node it restarted has come back, and whether it really runs. */
  datatype Event =
    | Down(h: HostId)
    | Boot(h: HostId, at: Address)
    | Settle(h: HostId)
    | Look
    | Inspect(h: HostId, ks: Keyspace)
    | Answers(h: HostId)
    | Drain(target: HostId, reached: HostId)
    | Restart(h: HostId)
    | Back(h: HostId, up: bool)
    | SetMode(target: HostId, reached: HostId, mode: Word)
    | Start(ks: Keyspace)
    | Finalize(ks: Keyspace)

  predicate Uniform(c: State, ks: Keyspace, mode: Word) {
    forall h :: h in c.hosts ==> ((ks in c.hosts[h].onTablets) <==> mode == Tablets)
  }

  /** One step of the cluster.  A restart applies the intended mode to every migrating
      keyspace; a migration starts only while no node is marked; finalization takes effect
      only on uniform storage and may otherwise be refused. */
  ghost predicate Step(c: State, e: Event, c': State) {
    match e
    case Down(h) => h in c.hosts && c' == c.(hosts := c.hosts[h := c.hosts[h].(up := false)])
    case Boot(h, at) =>
      && h in c.hosts
      && c' == c.(hosts := c.hosts[h := c.hosts[h].(up := true, addr := at,
                    onTablets := Converted(c.hosts[h].onTablets, c.hosts[h].intended, Migrating(c)))])
    case Settle(h) =>
      && h in c.hosts && Migrating(c) == {}
      && c' == c.(hosts := c.hosts[h := c.hosts[h].(intended := Vnodes)])
    case Look => c' == c
    case Inspect(_, _) => c' == c
    case Answers(h) => h in c.hosts && c.hosts[h].up && c' == c
    case Drain(_, _) => c' == c
    case Restart(_) => c' == c
    case Back(h, up) => h in c.hosts && up == c.hosts[h].up && c' == c
    case SetMode(_, r, mode) =>
      && r in c.hosts && mode != MigratingToTablets
      && c' == c.(hosts := c.hosts[r := c.hosts[r].(intended := mode)])
    case Start(ks) =>
      && ks in c.status && c.status[ks] == Vnodes
      && (forall h :: h in c.hosts ==> c.hosts[h].intended == Vnodes)
      && c' == c.(status := c.status[ks := MigratingToTablets])
    case Finalize(ks) =>
      || c' == c
      || (ks in Migrating(c) && Uniform(c, ks, Tablets) && c' == c.(status := c.status[ks := Tablets]))
      || (ks in Migrating(c) && Uniform(c, ks, Vnodes) && c' == c.(status := c.status[ks := Vnodes]))
  }

  // A keyspace outside a migration is stored the same way everywhere.
  ghost predicate Coherent(c: State) {
    && (forall h :: h in c.hosts ==> c.hosts[h].intended != MigratingToTablets)
    && (forall ks :: ks in c.status && ks !in Migrating(c) ==> Uniform(c, ks, c.status[ks]))
  }

  // Element i of a sequence, under a name that quantifiers over long runs can hang on.
  function At<T>(s: seq<T>, i: int): T
    requires 0 <= i < |s|
  {
    s[i]
  }

  ghost predicate Run(trace: seq<State>, log: seq<Event>) {
    && |trace| == |log| + 1
    && (forall i {:trigger Step(trace[i], log[i], trace[i + 1])} ::
          0 <= i < |log| ==> Step(trace[i], log[i], trace[i + 1]))
  }

  lemma StepKeepsCoherent(c: State, e: Event, c': State)
    requires Coherent(c) && Step(c, e, c')
    ensures Coherent(c') && c'.hosts.Keys == c.hosts.Keys && c'.status.Keys == c.status.Keys
  {
    if e.Start? || e.Finalize? {
      assert forall ks :: ks in c'.status && ks !in Migrating(c') && ks != e.ks ==> ks !in Migrating(c);
    } else {
      assert Migrating(c') == Migrating(c);
    }
  }

  // --- Steps that leave the procedure where it is ---------------------------------------

  // The controller drains a node or has its pod replaced.
  predicate Touches(e: Event) { e.Drain? || e.Restart? }

  function Touched(e: Event): HostId
    requires Touches(e)
  {
    if e.Drain? then e.target else e.h
  }

  // Neither the environment nor a read, a drain or a pod deletion marks a node or moves a keyspace.
  predicate Calm(e: Event) {
    !e.SetMode? && !e.Start? && !e.Finalize?
  }

  ghost predicate DriftHost(a: Host, b: Host, migrating: set<Keyspace>) {
    && (migrating != {} ==> b.intended == a.intended)
    && (b.onTablets == a.onTablets || b.onTablets == Converted(a.onTablets, a.intended, migrating))
  }

  // Where calm steps can take the cluster: some nodes have restarted, nothing else.
  ghost predicate Drift(c: State, c': State) {
    && c'.hosts.Keys == c.hosts.Keys
    && c'.status == c.status
    && (forall h :: h in c.hosts ==> DriftHost(c.hosts[h], c'.hosts[h], Migrating(c)))
  }

  lemma {:induction false} CalmRunDrifts(trace: seq<State>, log: seq<Event>, from: nat, until: nat)
    requires Run(trace, log) && from <= until <= |log|
    requires forall p :: from <= p < until ==> Calm(At(log, p))
    ensures Drift(trace[from], trace[until])
    decreases until
  {
    if from < until {
      CalmRunDrifts(trace, log, from, until - 1);
      var last := until - 1;
      var a, b, c := trace[from], trace[last], trace[last + 1];
      assert Step(trace[last], log[last], trace[last + 1]) && Calm(At(log, last));
      assert Migrating(c) == Migrating(b) == Migrating(a);
      forall h | h in a.hosts ensures DriftHost(a.hosts[h], c.hosts[h], Migrating(a)) {
        assert DriftHost(a.hosts[h], b.hosts[h], Migrating(a));
      }
    }
  }
}
