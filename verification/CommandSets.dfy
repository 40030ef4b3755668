/** Command sets: a tree of command headers that replays itself into a builder. */
module CommandSets {
  import opened Sequences

  /** One batch of commands of one of the five kinds; what the commands are does not matter here. */
  datatype Kind = Crob | AnalogInt16 | AnalogInt32 | AnalogFloat32 | AnalogDouble64
  datatype Batch = Batch(kind: Kind, commands: seq<int>)

  /** `CommandHeader` holds one action on a builder; `CommandSet` holds further headers. */
  datatype Headers = Action(batch: Batch) | Set(headers: seq<Headers>)

  /** The batches at the leaves, from left to right. */
  function Leaves(h: Headers): seq<Batch> {
    match h
    case Action(b) => [b]
    case Set(hs) => AllLeaves(hs)
  }

  function AllLeaves(hs: seq<Headers>): seq<Batch> {
    if hs == [] then [] else Leaves(hs[0]) + AllLeaves(hs[1..])
  }

  lemma {:induction false} AllLeavesAppend(xs: seq<Headers>, ys: seq<Headers>)
    ensures AllLeaves(xs + ys) == AllLeaves(xs) + AllLeaves(ys)
  {
    if xs == [] {
      assert xs + ys == ys;
    } else {
      assert (xs + ys)[0] == xs[0] && (xs + ys)[1..] == xs[1..] + ys;
      AllLeavesAppend(xs[1..], ys);
    }
  }

  /** A builder, known by the calls made to it. */
  class CommandBuilder {
    var calls: seq<Batch>

    constructor ()
      ensures calls == []
    {
      calls := [];
    }

    method Add(batch: Batch)
      modifies this
      ensures calls == old(calls) + [batch]
    {
      calls := calls + [batch];
    }
  }

  method Build(h: Headers, builder: CommandBuilder)
    modifies builder
    ensures builder.calls == old(builder.calls) + Leaves(h)
    ensures h.Action? ==> builder.calls == old(builder.calls) + [h.batch]
    decreases h
  {
    match h
    case Action(batch) => builder.Add(batch);
    case Set(headers) =>
      var i := 0;
      while i < |headers|
        invariant i <= |headers| && builder.calls == old(builder.calls) + AllLeaves(headers[..i])
      {
        Build(headers[i], builder);
        AllLeavesAppend(headers[..i], [headers[i]]);
        assert headers[..i + 1] == headers[..i] + [headers[i]];
        assert AllLeaves([headers[i]]) == Leaves(headers[i]) + AllLeaves([]);
        ConcatAssociates(old(builder.calls), AllLeaves(headers[..i]), Leaves(headers[i]));
        i := i + 1;
      }
      assert headers[..i] == headers;
  }

  /** Replay into a builder with a state of its own, node by node. */
  function Replay<S>(add: (S, Batch) -> S, h: Headers, s: S): S {
    match h
    case Action(b) => add(s, b)
    case Set(hs) => ReplayAll(add, hs, s)
  }

  function ReplayAll<S>(add: (S, Batch) -> S, hs: seq<Headers>, s: S): S {
    if hs == [] then s else ReplayAll(add, hs[1..], Replay(add, hs[0], s))
  }

  /** Whatever the builder does with its calls, the nesting cannot be told from the outside. */
  lemma {:induction false} ReplayIsFoldOfLeaves<S>(add: (S, Batch) -> S, h: Headers, s: S)
    ensures Replay(add, h, s) == Fold(add, s, Leaves(h))
    decreases h, 1
  {
    match h
    case Action(b) => assert Fold(add, s, [b]) == Fold(add, add(s, b), []);
    case Set(hs) => ReplayAllIsFold(add, hs, s);
  }

  lemma {:induction false} ReplayAllIsFold<S>(add: (S, Batch) -> S, hs: seq<Headers>, s: S)
    ensures ReplayAll(add, hs, s) == Fold(add, s, AllLeaves(hs))
    decreases hs, 0
  {
    if hs != [] {
      ReplayIsFoldOfLeaves(add, hs[0], s);
      ReplayAllIsFold(add, hs[1..], Replay(add, hs[0], s));
      FoldAppend(add, s, Leaves(hs[0]), AllLeaves(hs[1..]));
    }
  }

  lemma SameLeavesSameOutcome<S>(add: (S, Batch) -> S, a: Headers, b: Headers, s: S)
    requires Leaves(a) == Leaves(b)
    ensures Replay(add, a, s) == Replay(add, b, s)
  {
    ReplayIsFoldOfLeaves(add, a, s);
    ReplayIsFoldOfLeaves(add, b, s);
  }

  function Record(calls: seq<Batch>, batch: Batch): seq<Batch> { calls + [batch] }

  lemma {:induction false} RecordingKeeps(base: seq<Batch>, calls: seq<Batch>)
    ensures Fold(Record, base, calls) == base + calls
    decreases calls
  {
    if calls == [] {
      assert base + calls == base;
    } else {
      RecordingKeeps(base + [calls[0]], calls[1..]);
      assert Record(base, calls[0]) == base + [calls[0]];
      assert base + [calls[0]] + calls[1..] == base + calls;
    }
  }

  /** The leaves are all there is to tell: a builder that keeps its calls tells two sets apart
      exactly when their leaves differ. */
  lemma RecorderSeesLeaves(a: Headers, b: Headers)
    ensures Replay(Record, a, []) == Replay(Record, b, []) <==> Leaves(a) == Leaves(b)
  {
    ReplayIsFoldOfLeaves(Record, a, []);
    ReplayIsFoldOfLeaves(Record, b, []);
    RecordingKeeps([], Leaves(a));
    RecordingKeeps([], Leaves(b));
    assert [] + Leaves(a) == Leaves(a) && [] + Leaves(b) == Leaves(b);
  }

  /** A set made of actions, the way an application writes it down. */
  function Listed(batches: seq<Batch>): (hs: seq<Headers>)
    ensures |hs| == |batches| && forall i | 0 <= i < |hs| :: hs[i] == Action(batches[i])
  {
    seq(|batches|, i requires 0 <= i < |batches| => Action(batches[i]))
  }

  /** Its leaves are just those batches, and replaying it adds each of them once, in order. */
  lemma {:induction false} ListedSetsAddEach<S>(add: (S, Batch) -> S, batches: seq<Batch>, s: S)
    ensures Leaves(Set(Listed(batches))) == batches
    ensures Replay(add, Set(Listed(batches)), s) == Fold(add, s, batches)
  {
    if batches != [] {
      var n := |batches| - 1;
      var rest, last := Listed(batches[..n]), Action(batches[n]);
      ListedSetsAddEach(add, batches[..n], s);
      assert Listed(batches) == rest + [last] && batches == batches[..n] + [batches[n]];
      AllLeavesAppend(rest, [last]);
      assert AllLeaves([last]) == [batches[n]] + AllLeaves([]);
    }
    ReplayIsFoldOfLeaves(add, Set(Listed(batches)), s);
  }

  /** However deep: a batch is among the leaves exactly as often as it is written in the set. */
  function Written(h: Headers, b: Batch): nat {
    match h
    case Action(c) => if b == c then 1 else 0
    case Set(hs) => AllWritten(hs, b)
  }

  function AllWritten(hs: seq<Headers>, b: Batch): nat {
    if hs == [] then 0 else Written(hs[0], b) + AllWritten(hs[1..], b)
  }

  lemma {:induction false} EachLeafIsWritten(h: Headers, b: Batch)
    ensures multiset(Leaves(h))[b] == Written(h, b)
    decreases h, 1
  {
    match h
    case Action(_) =>
    case Set(hs) => AllLeavesAreWritten(hs, b);
  }

  lemma {:induction false} AllLeavesAreWritten(hs: seq<Headers>, b: Batch)
    ensures multiset(AllLeaves(hs))[b] == AllWritten(hs, b)
    decreases hs, 0
  {
    if hs != [] {
      EachLeafIsWritten(hs[0], b);
      AllLeavesAreWritten(hs[1..], b);
    }
  }

  /** Grouping and empty sets leave no trace. */
  lemma RegroupingIsInvisible(xs: seq<Headers>, ys: seq<Headers>)
    ensures Leaves(Set([Set(xs), Set(ys)])) == Leaves(Set(xs + ys))
    ensures Leaves(Set([Set(xs)])) == Leaves(Set(xs)) && Leaves(Set([Set([])] + xs)) == Leaves(Set(xs))
  {
    AllLeavesAppend(xs, ys);
    AllLeavesAppend([Set(xs)], [Set(ys)]);
    AllLeavesAppend([Set([])], xs);
    assert [Set(xs), Set(ys)] == [Set(xs)] + [Set(ys)];
    forall zs ensures AllLeaves([Set(zs)]) == AllLeaves(zs) {
      assert AllLeaves([Set(zs)]) == Leaves(Set(zs)) + AllLeaves([]);
    }
    assert AllLeaves([Set([])]) == [];
    assert [] + AllLeaves(xs) == AllLeaves(xs);
  }
}
