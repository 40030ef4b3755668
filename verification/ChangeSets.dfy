/** Change sets: recorded measurement updates that can be replayed into a database, or into
    another change set, which is a database too. */
module ChangeSets {
  import opened Results
  import opened Sequences
  import opened Wire

  datatype EventMode = Detect | Force | Suppress | EventOnly

  /** One recorded update. Time-and-interval updates carry no event mode. */
  datatype Kind =
    | Binary | DoubleBitBinary | Analog | Counter | FrozenCounter
    | BinaryOutputStatus | AnalogOutputStatus | OctetString | TimeAndInterval
  datatype Update = Update(kind: Kind, value: int, index: uint16, mode: Option<EventMode>)

  /** A database, known by the updates made to it. */
  class Database {
    var applied: seq<Update>

    method Receive(u: Update)
      modifies this
      ensures applied == old(applied) + [u]
    {
      applied := applied + [u];
    }
  }

  datatype Target = Recorder(changes: ChangeSet) | Store(database: Database)

  datatype Outcome = Completed | InvalidOperation

  class ChangeSet {
    var updates: seq<Update>
    var version: nat  // of the list: every change raises it

    constructor ()
      ensures updates == []
    {
      updates, version := [], 0;
    }

    method Clear()
      modifies this
      ensures updates == []
    {
      updates, version := [], version + 1;
    }

    method IsEmpty() returns (r: bool)
      ensures r <==> updates == []
    {
      r := |updates| == 0;
    }

    /** All nine `Update` overloads: the update is recorded. */
    method Record(u: Update)
      modifies this
      ensures updates == old(updates) + [u] && version == old(version) + 1
    {
      updates := updates + [u];
      version := version + 1;
    }

    /** Replays the updates in order. The enumeration notices at its next step that the list was
        changed under it, so a change set applied to itself fails after one update, unless it has
        none; in every other case the target receives all of them. */
    method Apply(target: Target) returns (outcome: Outcome)
      modifies this, match target case Recorder(c) => {c as object} case Store(d) => {d as object}
      ensures outcome == if target == Recorder(this) && old(updates) != [] then InvalidOperation else Completed
      ensures target == Recorder(this) ==> updates == old(updates) + old(updates)[..if old(updates) == [] then 0 else 1]
      ensures target != Recorder(this) ==> updates == old(updates) && version == old(version)
      ensures match target
              case Recorder(c) => c != this ==> c.updates == old(c.updates) + old(updates)
              case Store(d) => d.applied == old(d.applied) + old(updates)
    {
      var seen := version;
      var i := 0;
      while true
        invariant i <= |old(updates)|
        invariant if target == Recorder(this) && i > 0
                  then i == 1 && version == seen + 1 && updates == old(updates) + old(updates)[..1]
                  else version == seen && updates == old(updates)
        invariant match target
                  case Recorder(c) => c != this ==> c.updates == old(c.updates) + old(updates)[..i]
                  case Store(d) => d.applied == old(d.applied) + old(updates)[..i]
        decreases |old(updates)| - i, seen + 2 - version
      {
        if version != seen {
          return InvalidOperation;
        }
        if i == |updates| {
          assert old(updates)[..i] == old(updates);
          return Completed;
        }
        var action := updates[i];
        assert old(updates)[..i + 1] == old(updates)[..i] + [action];
        i := i + 1;
        match target
        case Recorder(c) => c.Record(action);
        case Store(d) => d.Receive(action);
      }
    }
  }

  /** What a chain of recorders holds after its first `n` links were each applied to the next. */
  function Relayed(held: seq<seq<Update>>, n: nat): (r: seq<seq<Update>>)
    requires n < |held|
    ensures |r| == |held|
  {
    if n == 0 then held else
    var before := Relayed(held, n - 1);
    before[n := before[n] + before[n - 1]]
  }

  /** The updates of links `k` down to 0: a link's own first, then those of the links before it. */
  function Pile(held: seq<seq<Update>>, k: nat): seq<Update>
    requires k < |held|
  {
    if k == 0 then held[0] else held[k] + Pile(held, k - 1)
  }

  /** Every link reached holds its own updates followed by all that came down the chain, and the
      others are as they were. */
  lemma {:induction false} RelayPilesUp(held: seq<seq<Update>>, n: nat, k: nat)
    requires n < |held| && k < |held|
    ensures Relayed(held, n)[k] == if k <= n then Pile(held, k) else held[k]
  {
    if n > 0 {
      var before := Relayed(held, n - 1);
      RelayPilesUp(held, n - 1, k);
      if k == n {
        RelayPilesUp(held, n - 1, n - 1);
        assert Relayed(held, n)[n] == before[n] + before[n - 1];
      }
    }
  }

  /** Through empty links, the last one holds exactly the updates of the first. */
  lemma {:induction false} EmptyRelaysAreTransparent(held: seq<seq<Update>>, k: nat)
    requires k < |held| && forall i | 0 < i < |held| :: held[i] == []
    ensures Pile(held, k) == held[0]
  {
    if k > 0 {
      EmptyRelaysAreTransparent(held, k - 1);
    }
  }

  /** Distinct change sets with the given updates in them. */
  predicate Hold(chain: seq<ChangeSet>, held: seq<seq<Update>>)
    reads chain
  {
    && |held| == |chain|
    && (forall i, j | 0 <= i < j < |chain| :: chain[i] != chain[j])
    && (forall i | 0 <= i < |chain| :: chain[i].updates == held[i])
  }

  method Forward(chain: seq<ChangeSet>, i: nat, ghost held: seq<seq<Update>>)
    requires Hold(chain, held) && i + 1 < |chain|
    modifies chain
    ensures Hold(chain, held[i + 1 := held[i + 1] + held[i]])
  {
    var source, target := chain[i], chain[i + 1];
    assert source.updates == held[i] && target.updates == held[i + 1];
    var _ := source.Apply(Recorder(target));
  }

  /** Each set of a chain of distinct change sets is applied to the next, the last one to the
      database: every link then holds its own updates and all that came down the chain, and the
      database has received those of the last. */
  method Relay(chain: seq<ChangeSet>, database: Database, ghost held: seq<seq<Update>>)
    requires Hold(chain, held) && chain != []
    modifies chain, database
    ensures forall k | 0 <= k < |chain| :: chain[k].updates == Pile(held, k)
    ensures database.applied == old(database.applied) + Pile(held, |held| - 1)
  {
    var i := 0;
    while i + 1 < |chain|
      invariant i < |chain| && database.applied == old(database.applied)
      invariant Hold(chain, Relayed(held, i))
    {
      Forward(chain, i, Relayed(held, i));
      i := i + 1;
    }
    forall k | 0 <= k < |chain| ensures chain[k].updates == Pile(held, k) {
      RelayPilesUp(held, i, k);
    }
    var _ := chain[i].Apply(Store(database));
  }

  /** The updates still to come when the first `n` links are left. */
  function Below(held: seq<seq<Update>>, n: nat): seq<Update>
    requires n <= |held|
  {
    if n == 0 then [] else Pile(held, n - 1)
  }

  lemma BelowNext(held: seq<seq<Update>>, n: nat)
    requires n < |held|
    ensures Below(held, n + 1) == held[n] + Below(held, n)
  {}

  /** Applying the same sets directly, from the last to the first: the database receives exactly
      what it receives through the relay, and the sets stay as they were. */
  method ApplyLastToFirst(chain: seq<ChangeSet>, database: Database, ghost held: seq<seq<Update>>)
    requires Hold(chain, held) && chain != []
    modifies chain, database
    ensures Hold(chain, held)
    ensures database.applied == old(database.applied) + Pile(held, |held| - 1)
  {
    var n := |chain|;
    while n > 0
      invariant 0 <= n <= |chain| && Hold(chain, held)
      invariant database.applied + Below(held, n) == old(database.applied) + Pile(held, |held| - 1)
    {
      n := n - 1;
      BelowNext(held, n);
      ConcatAssociates(database.applied, held[n], Below(held, n));
      assert chain[n].updates == held[n];
      var _ := chain[n].Apply(Store(database));
    }
    assert database.applied + Below(held, n) == database.applied;
  }

  /** Records the updates of a list one after another. */
  method RecordAll(changes: ChangeSet, us: seq<Update>)
    modifies changes
    ensures changes.updates == old(changes.updates) + us
  {
    var i := 0;
    while i < |us|
      invariant i <= |us| && changes.updates == old(changes.updates) + us[..i]
    {
      changes.Record(us[i]);
      i := i + 1;
    }
    assert us[..i] == us;
  }

  /** What the updates received so far have made of a database with a state of its own. */
  ghost function StateOf<D>(database: Database, step: (D, Update) -> D, initial: D): D
    reads database
  {
    Fold(step, initial, database.applied)
  }

  /** Recording `a` and then `b` in one set and applying it once does to a database what applying
      a set with `a` and then a set with `b` does. */
  method TogetherOrApart<D>(
      a: seq<Update>, b: seq<Update>, together: Database, apart: Database,
      ghost step: (D, Update) -> D, ghost initial: D)
    requires together != apart
    modifies together, apart
    ensures together.applied == old(together.applied) + a + b && apart.applied == old(apart.applied) + a + b
    ensures StateOf(together, step, initial) == Fold(step, Fold(step, old(StateOf(together, step, initial)), a), b)
    ensures StateOf(apart, step, initial) == Fold(step, Fold(step, old(StateOf(apart, step, initial)), a), b)
  {
    forall d: Database | d == together || d == apart
      ensures Fold(step, initial, d.applied + a + b) == Fold(step, Fold(step, StateOf(d, step, initial), a), b)
    {
      FoldAppend(step, initial, d.applied, a);
      FoldAppend(step, initial, d.applied + a, b);
    }
    var both := new ChangeSet();
    RecordAll(both, a);
    RecordAll(both, b);
    var _ := both.Apply(Store(together));
    var first := new ChangeSet();
    RecordAll(first, a);
    var second := new ChangeSet();
    RecordAll(second, b);
    var _ := first.Apply(Store(apart));
    var _ := second.Apply(Store(apart));
    ConcatAssociates(old(together.applied), a, b);
  }
}
