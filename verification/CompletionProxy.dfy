/** A chain of completion proxies: each keeps the first result it sees and passes every callback
    on to the next. */
module CompletionProxy {
  import opened Results

  datatype Event = Started | Completed(result: int) | Destroyed

  /** The application's own callback object. */
  class UserCallback {
    var events: seq<Event>

    method Receive(e: Event)
      modifies this
      ensures events == old(events) + [e]
    {
      events := events + [e];
    }
  }

  datatype Callee = Nobody | Proxy(proxy: TaskCompletionProxy) | User(callback: UserCallback)

  /** What a completion source holds after an event: a result is set once. */
  function TrySet(held: Option<int>, e: Event): Option<int> {
    if held.None? && e.Completed? then Some(e.result) else held
  }

  /** What it holds after a run of events. */
  function Settled(held: Option<int>, events: seq<Event>): Option<int> {
    if events == [] then held else TrySet(Settled(held, events[..|events| - 1]), events[|events| - 1])
  }

  class TaskCompletionProxy {
    const next: Callee
    var result: Option<int>

    constructor (next: Callee)
      ensures this.next == next && result == None
    {
      this.next, result := next, None;
    }

    /** `OnStart`, `OnComplete` and `OnDestroyed`. */
    method Receive(e: Event, ghost chain: seq<TaskCompletionProxy>, ghost end: Callee)
      requires IsChain(chain, end) && this == chain[0]
      modifies chain, Ends(end)
      ensures forall p | p in chain :: p.result == TrySet(old(p.result), e)
      ensures end.User? ==> end.callback.events == old(end.callback.events) + [e]
      decreases |chain|
    {
      ChainIsDistinct(chain, end);
      if |chain| == 1 {
        assert next == end && chain == [this];
      } else {
        assert next == Proxy(chain[1]) && IsChain(chain[1..], end);
        assert chain == [this] + chain[1..];
      }
      if e.Completed? && result.None? {
        result := Some(e.result);
      }
      match next {
        case Nobody =>
        case User(u) => u.Receive(e);
        case Proxy(p) => p.Receive(e, chain[1..], end);
      }
    }
  }

  ghost function Ends(end: Callee): set<object> { if end.User? then {end.callback} else {} }

  /** `chain` lists the proxies from head to tail; the last one passes on to `end`. */
  ghost predicate IsChain(chain: seq<TaskCompletionProxy>, end: Callee) {
    && chain != [] && !end.Proxy?
    && (forall i | 0 <= i < |chain| - 1 :: chain[i].next == Proxy(chain[i + 1]))
    && chain[|chain| - 1].next == end
  }

  /** A chain that comes to an end never meets the same proxy twice. */
  lemma ChainIsDistinct(chain: seq<TaskCompletionProxy>, end: Callee)
    requires IsChain(chain, end)
    ensures forall i, j | 0 <= i < j < |chain| :: chain[i] != chain[j]
  {
    forall i, j | 0 <= i < j < |chain| ensures chain[i] != chain[j] {
      DistinctFrom(chain, end, i, j);
    }
  }

  lemma {:induction false} DistinctFrom(chain: seq<TaskCompletionProxy>, end: Callee, i: nat, j: nat)
    requires IsChain(chain, end) && i < j < |chain|
    ensures chain[i] != chain[j]
    decreases |chain| - j
  {
    assert chain[i].next == Proxy(chain[i + 1]);
    if j + 1 < |chain| {
      assert chain[j].next == Proxy(chain[j + 1]);
      DistinctFrom(chain, end, i + 1, j + 1);
    }
  }

  /** Delivers a run of callbacks at the head. */
  method DeliverAll(
      head: TaskCompletionProxy, events: seq<Event>, ghost chain: seq<TaskCompletionProxy>, ghost end: Callee)
    requires IsChain(chain, end) && head == chain[0]
    modifies chain, Ends(end)
    ensures forall p | p in chain :: p.result == Settled(old(p.result), events)
    ensures end.User? ==> end.callback.events == old(end.callback.events) + events
  {
    var i := 0;
    while i < |events|
      invariant i <= |events|
      invariant forall p | p in chain :: p.result == Settled(old(p.result), events[..i])
      invariant end.User? ==> end.callback.events == old(end.callback.events) + events[..i]
    {
      head.Receive(events[i], chain, end);
      assert events[..i + 1][..i] == events[..i] && events[..i + 1] == events[..i] + [events[i]];
      i := i + 1;
    }
    assert events[..i] == events;
  }

  /** From a pending start, what is held is the first result of the run: it is there once a result
      was delivered, and only then. */
  lemma {:induction false} FirstResultWins(events: seq<Event>)
    ensures Settled(None, events).None? <==> forall e | e in events :: !e.Completed?
    ensures Settled(None, events).Some? ==>
              exists k | 0 <= k < |events| :: events[k] == Completed(Settled(None, events).value)
                && forall m | 0 <= m < k :: !events[m].Completed?
  {
    if events != [] {
      var n := |events| - 1;
      var before := events[..n];
      FirstResultWins(before);
      assert events == before + [events[n]];
      if Settled(None, before).Some? {
        var k :| 0 <= k < n && before[k] == Completed(Settled(None, before).value)
          && forall m | 0 <= m < k :: !before[m].Completed?;
        assert events[k] == before[k] && forall m | 0 <= m < k :: events[m] == before[m];
      } else {
        assert forall m | 0 <= m < n :: events[m] in before;
        assert events[n] in events;
      }
    }
  }

  /** A result once held never changes. */
  lemma {:induction false} ResultIsFinal(held: Option<int>, before: seq<Event>, after: seq<Event>)
    ensures Settled(held, before + after) == Settled(Settled(held, before), after)
    ensures held.Some? ==> Settled(held, after) == held
  {
    if after == [] {
      assert before + after == before;
    } else {
      var n := |after| - 1;
      ResultIsFinal(held, before, after[..n]);
      var all := before + after;
      assert all[..|all| - 1] == before + after[..n] && all[|all| - 1] == after[n];
    }
  }
}
