/** The interactive outstation examples: `AddUpdates` turns a line of letters into measurement
    updates, stepping a small state with every letter. The TLS example is the same program without
    octet strings. */
module Updates {
  import opened Sequences
  import opened Wire

  type uint32 = n: int | 0 <= n < 0x1_0000_0000

  datatype DoubleBit = Intermediate | DeterminedOff | DeterminedOn | Indeterminate

  /** The updates a builder holds; all of them are for index 0 of their type. */
  datatype Measurement =
    | Counter(count: uint32)
    | Analog(value: nat)
    | Binary(on: bool)
    | DoubleBitBinary(dbit: DoubleBit)
    | OctetString(octet: byte)

  /** Adding one to a double is exact up to 2 to the power 53, where the sum rounds back. */
  const EXACT: nat := 0x20_0000_0000_0000
  type whole = n: nat | n <= EXACT witness 0

  function PlusOne(v: whole): whole {
    if v < EXACT then v + 1 else v
  }

  /** The value of a `State`. */
  datatype Values = Values(count: uint32, value: whole, binary: bool, dbit: DoubleBit, octet: byte)

  const INITIAL := Values(0, 0, false, DeterminedOff, 1)

  function Flip(d: DoubleBit): DoubleBit {
    if d == DeterminedOff then DeterminedOn else DeterminedOff
  }

  predicate Recognised(c: char) {
    c == 'a' || c == 'b' || c == 'c' || c == 'd' || c == 'o'
  }

  /** The update that a recognised letter makes of a state. */
  function Reading(s: Values, c: char): Measurement
    requires Recognised(c)
  {
    match c
    case 'c' => Counter(s.count)
    case 'a' => Analog(s.value)
    case 'b' => Binary(s.binary)
    case 'd' => DoubleBitBinary(s.dbit)
    case 'o' => OctetString(s.octet)
  }

  /** One letter: what it emits, and the state after it. */
  function Emitted(s: Values, c: char): seq<Measurement> {
    if Recognised(c) then [Reading(s, c)] else []
  }

  function Next(s: Values, c: char): Values {
    match c
    case 'c' => s.(count := (s.count + 1) % 0x1_0000_0000)
    case 'a' => s.(value := PlusOne(s.value))
    case 'b' => s.(binary := !s.binary)
    case 'd' => s.(dbit := Flip(s.dbit))
    case 'o' => s.(octet := (s.octet + 1) % 0x100)
    case _ => s
  }

  /** The state of the TLS example: the same without the octet string. */
  datatype TlsValues = TlsValues(count: uint32, value: whole, binary: bool, dbit: DoubleBit)

  function TlsEmitted(s: TlsValues, c: char): seq<Measurement> {
    match c
    case 'c' => [Counter(s.count)]
    case 'a' => [Analog(s.value)]
    case 'b' => [Binary(s.binary)]
    case 'd' => [DoubleBitBinary(s.dbit)]
    case _ => []
  }

  function TlsNext(s: TlsValues, c: char): TlsValues {
    match c
    case 'c' => s.(count := (s.count + 1) % 0x1_0000_0000)
    case 'a' => s.(value := PlusOne(s.value))
    case 'b' => s.(binary := !s.binary)
    case 'd' => s.(dbit := Flip(s.dbit))
    case _ => s
  }

  // ---------- whole lines ----------

  /** The state after the first `n` letters of a line, and all they emitted. */
  function After<S>(next: (S, char) -> S, s: S, line: string, n: nat): S
    requires n <= |line|
  {
    if n == 0 then s else next(After(next, s, line, n - 1), line[n - 1])
  }

  function Output<S>(next: (S, char) -> S, emit: (S, char) -> seq<Measurement>, s: S, line: string, n: nat):
      seq<Measurement>
    requires n <= |line|
  {
    if n == 0 then []
    else Output(next, emit, s, line, n - 1) + emit(After(next, s, line, n - 1), line[n - 1])
  }

  lemma {:induction false} AfterConcatenates<S>(next: (S, char) -> S, s: S, u: string, v: string, n: nat)
    requires n <= |u| + |v|
    ensures After(next, s, u + v, n)
         == if n <= |u| then After(next, s, u, n) else After(next, After(next, s, u, |u|), v, n - |u|)
  {
    if n > 0 {
      AfterConcatenates(next, s, u, v, n - 1);
      assert (u + v)[n - 1] == if n <= |u| then u[n - 1] else v[n - 1 - |u|];
    }
  }

  lemma {:induction false} OutputConcatenates<S>(
      next: (S, char) -> S, emit: (S, char) -> seq<Measurement>, s: S, u: string, v: string, n: nat)
    requires n <= |u| + |v|
    ensures Output(next, emit, s, u + v, n)
         == if n <= |u| then Output(next, emit, s, u, n)
            else Output(next, emit, s, u, |u|) + Output(next, emit, After(next, s, u, |u|), v, n - |u|)
  {
    if n > 0 {
      AfterConcatenates(next, s, u, v, n - 1);
      OutputConcatenates(next, emit, s, u, v, n - 1);
      if n <= |u| {
        assert (u + v)[n - 1] == u[n - 1];
      } else {
        var t, m := After(next, s, u, |u|), n - |u|;
        assert (u + v)[n - 1] == v[m - 1];
        ConcatAssociates(
          Output(next, emit, s, u, |u|), Output(next, emit, t, v, m - 1),
          emit(After(next, t, v, m - 1), v[m - 1]));
      }
    }
  }

  /** Two lines one after the other are as good as one line. */
  lemma LinesConcatenate<S>(
      next: (S, char) -> S, emit: (S, char) -> seq<Measurement>, s: S, u: string, v: string)
    ensures var middle := After(next, s, u, |u|);
            && After(next, s, u + v, |u + v|) == After(next, middle, v, |v|)
            && Output(next, emit, s, u + v, |u + v|)
            == Output(next, emit, s, u, |u|) + Output(next, emit, middle, v, |v|)
  {
    var n := |u| + |v|;
    AfterConcatenates(next, s, u, v, n);
    OutputConcatenates(next, emit, s, u, v, n);
    var middle := After(next, s, u, |u|);
    if v == [] {
      assert After(next, middle, v, 0) == middle && Output(next, emit, middle, v, 0) == [];
    }
    assert |u + v| == n && n - |u| == |v|;
  }

  // ---------- what a line emits ----------

  /** How many of the first `n` letters are `c`, and how many are recognised at all. */
  function Count(line: string, n: nat, c: char): nat
    requires n <= |line|
  {
    if n == 0 then 0 else Count(line, n - 1, c) + if line[n - 1] == c then 1 else 0
  }

  function Letters(line: string, n: nat): nat
    requires n <= |line|
  {
    if n == 0 then 0 else Letters(line, n - 1) + if Recognised(line[n - 1]) then 1 else 0
  }

  /** The `k`-th update of a letter's kind, by arithmetic on the starting state alone. */
  function Nth(s: Values, c: char, k: nat): Measurement
    requires Recognised(c)
  {
    match c
    case 'c' => Counter((s.count + k) % 0x1_0000_0000)
    case 'a' => Analog(if s.value + k <= EXACT then s.value + k else EXACT)
    case 'b' => Binary(s.binary != (k % 2 == 1))
    case 'd' => DoubleBitBinary(
      if k == 0 then s.dbit
      else if (s.dbit == DeterminedOff) == (k % 2 == 1) then DeterminedOn else DeterminedOff)
    case 'o' => OctetString((s.octet + k) % 0x100)
  }

  lemma OtherLetter(s: Values, c: char, d: char)
    requires Recognised(d) && c != d
    ensures Reading(Next(s, c), d) == Reading(s, d)
  {}

  lemma WrapOnce32(n: nat)
    ensures (n % 0x1_0000_0000 + 1) % 0x1_0000_0000 == (n + 1) % 0x1_0000_0000
  {}

  lemma WrapOnce8(n: nat)
    ensures (n % 0x100 + 1) % 0x100 == (n + 1) % 0x100
  {}

  lemma Parity(k: nat)
    ensures (k + 1) % 2 == 1 <==> k % 2 != 1
  {}

  lemma SameLetter(s: Values, t: Values, c: char, k: nat)
    requires Recognised(c) && Reading(t, c) == Nth(s, c, k)
    ensures Reading(Next(t, c), c) == Nth(s, c, k + 1)
  {
    if c == 'c' {
      WrapOnce32(s.count + k);
    } else if c == 'o' {
      WrapOnce8(s.octet + k);
    } else if c == 'd' || c == 'b' {
      Parity(k);
    }
  }

  /** Each kind has its own state, which only its own letter steps. */
  lemma {:induction false} KindsAreIndependent(s: Values, line: string, n: nat, c: char)
    requires n <= |line| && Recognised(c)
    ensures Reading(After(Next, s, line, n), c) == Nth(s, c, Count(line, n, c))
  {
    if n > 0 {
      KindsAreIndependent(s, line, n - 1, c);
      var before := After(Next, s, line, n - 1);
      if line[n - 1] == c {
        SameLetter(s, before, c, Count(line, n - 1, c));
      } else {
        OtherLetter(before, line[n - 1], c);
      }
    }
  }

  lemma {:induction false} OneUpdateEach(s: Values, line: string, n: nat)
    requires n <= |line|
    ensures |Output(Next, Emitted, s, line, n)| == Letters(line, n)
  {
    if n > 0 {
      OneUpdateEach(s, line, n - 1);
    }
  }

  /** Every recognised letter emits one update, in order, and its value is known from the starting
      state and the number of the same letters before it. */
  lemma {:induction false} OutputIsKnown(s: Values, line: string, n: nat, i: nat)
    requires i < n <= |line|
    ensures |Output(Next, Emitted, s, line, n)| == Letters(line, n)
    ensures Recognised(line[i]) ==>
              Letters(line, i) < Letters(line, n)
              && Output(Next, Emitted, s, line, n)[Letters(line, i)] == Nth(s, line[i], Count(line, i, line[i]))
  {
    OneUpdateEach(s, line, n);
    OneUpdateEach(s, line, n - 1);
    if i < n - 1 {
      OutputIsKnown(s, line, n - 1, i);
    } else if Recognised(line[i]) {
      KindsAreIndependent(s, line, i, line[i]);
    }
  }

  /** From the initial state, in numbers: the first counter is 0, the first octet string 1, and
      binary and double-bit values start with off. */
  lemma NthFromTheStart(k: nat)
    ensures Nth(INITIAL, 'c', k) == Counter(k % 0x1_0000_0000)
    ensures Nth(INITIAL, 'a', k) == Analog(if k <= 9007199254740992 then k else 9007199254740992)
    ensures Nth(INITIAL, 'b', k) == Binary(k % 2 == 1)
    ensures Nth(INITIAL, 'd', k) == DoubleBitBinary(if k % 2 == 1 then DeterminedOn else DeterminedOff)
    ensures Nth(INITIAL, 'o', k) == OctetString((1 + k) % 0x100)
  {}

  /** A line of one letter, from any state. */
  lemma OneLetterLine(s: Values, c: char)
    ensures Output(Next, Emitted, s, [c], 1)
         == if c == 'c' then [Counter(s.count)]
            else if c == 'a' then [Analog(s.value)]
            else if c == 'b' then [Binary(s.binary)]
            else if c == 'd' then [DoubleBitBinary(s.dbit)]
            else if c == 'o' then [OctetString(s.octet)]
            else []
  {
    assert After(Next, s, [c], 0) == s && Output(Next, Emitted, s, [c], 0) == [];
  }

  // ---------- the two programs side by side ----------

  function Forget(s: Values): TlsValues {
    TlsValues(s.count, s.value, s.binary, s.dbit)
  }

  function KeepOthers(m: Measurement): seq<Measurement> {
    if m.OctetString? then [] else [m]
  }

  lemma LetterInStep(s: Values, c: char)
    ensures TlsNext(Forget(s), c) == Forget(Next(s, c))
    ensures TlsEmitted(Forget(s), c) == ConcatMap(KeepOthers, Emitted(s, c))
    ensures c != 'o' ==> TlsEmitted(Forget(s), c) == Emitted(s, c)
  {
    var emitted := Emitted(s, c);
    if emitted != [] {
      assert emitted == [emitted[0]] + [];
      ConcatMapCons(KeepOthers, emitted[0], []);
    }
  }

  /** From matching states the TLS example stays in step with the plain one, and emits what that
      one emits, less the octet strings. */
  lemma {:induction false} LockStep(s: Values, line: string, n: nat)
    requires n <= |line|
    ensures After(TlsNext, Forget(s), line, n) == Forget(After(Next, s, line, n))
    ensures Output(TlsNext, TlsEmitted, Forget(s), line, n)
         == ConcatMap(KeepOthers, Output(Next, Emitted, s, line, n))
  {
    if n > 0 {
      LockStep(s, line, n - 1);
      var now, c := After(Next, s, line, n - 1), line[n - 1];
      ConcatMapAppend(KeepOthers, Output(Next, Emitted, s, line, n - 1), Emitted(now, c));
      LetterInStep(now, c);
    }
  }

  /** Without the letter `o` the two programs emit the same. */
  lemma {:induction false} SameWithoutOctets(s: Values, line: string, n: nat)
    requires n <= |line| && forall i | 0 <= i < n :: line[i] != 'o'
    ensures Output(TlsNext, TlsEmitted, Forget(s), line, n) == Output(Next, Emitted, s, line, n)
  {
    if n > 0 {
      SameWithoutOctets(s, line, n - 1);
      LockStep(s, line, n - 1);
      LetterInStep(After(Next, s, line, n - 1), line[n - 1]);
    }
  }

  // ---------- the programs ----------

  class UpdateBuilder {
    var updates: seq<Measurement>

    method Update(m: Measurement)
      modifies this
      ensures updates == old(updates) + [m]
    {
      updates := updates + [m];
    }
  }

  class State {
    var count: uint32
    var value: whole
    var binary: bool
    var dbit: DoubleBit
    var octetStringValue: byte

    constructor ()
      ensures Current() == INITIAL
      ensures count == 0 && value == 0 && !binary && dbit == DeterminedOff && octetStringValue == 1
    {
      count, value, binary, dbit, octetStringValue := 0, 0, false, DeterminedOff, 1;
    }

    function Current(): Values
      reads this
    {
      Values(count, value, binary, dbit, octetStringValue)
    }
  }

  /** The `switch` on one character. */
  method AddUpdate(builder: UpdateBuilder, state: State, c: char)
    modifies builder, state
    ensures state.Current() == Next(old(state.Current()), c)
    ensures builder.updates == old(builder.updates) + Emitted(old(state.Current()), c)
  {
    match c {
      case 'c' =>
        builder.Update(Counter(state.count));
        state.count := (state.count + 1) % 0x1_0000_0000;
      case 'a' =>
        builder.Update(Analog(state.value));
        state.value := PlusOne(state.value);
      case 'b' =>
        builder.Update(Binary(state.binary));
        state.binary := !state.binary;
      case 'd' =>
        builder.Update(DoubleBitBinary(state.dbit));
        state.dbit := Flip(state.dbit);
      case 'o' =>
        builder.Update(OctetString(state.octetStringValue));
        state.octetStringValue := (state.octetStringValue + 1) % 0x100;
      case _ =>
    }
  }

  /** The loop over the characters of a line. */
  method AddUpdates(builder: UpdateBuilder, state: State, arguments: string)
    modifies builder, state
    ensures state.Current() == After(Next, old(state.Current()), arguments, |arguments|)
    ensures builder.updates
         == old(builder.updates) + Output(Next, Emitted, old(state.Current()), arguments, |arguments|)
  {
    ghost var start := state.Current();
    for i := 0 to |arguments|
      invariant state.Current() == After(Next, start, arguments, i)
      invariant builder.updates == old(builder.updates) + Output(Next, Emitted, start, arguments, i)
    {
      AddUpdate(builder, state, arguments[i]);
    }
  }

  class TlsState {
    var count: uint32
    var value: whole
    var binary: bool
    var dbit: DoubleBit

    constructor ()
      ensures Current() == Forget(INITIAL)
    {
      count, value, binary, dbit := 0, 0, false, DeterminedOff;
    }

    function Current(): TlsValues
      reads this
    {
      TlsValues(count, value, binary, dbit)
    }
  }

  /** The `switch` on one character. */
  method AddTlsUpdate(builder: UpdateBuilder, state: TlsState, c: char)
    modifies builder, state
    ensures state.Current() == TlsNext(old(state.Current()), c)
    ensures builder.updates == old(builder.updates) + TlsEmitted(old(state.Current()), c)
  {
    match c {
      case 'c' =>
        builder.Update(Counter(state.count));
        state.count := (state.count + 1) % 0x1_0000_0000;
      case 'a' =>
        builder.Update(Analog(state.value));
        state.value := PlusOne(state.value);
      case 'b' =>
        builder.Update(Binary(state.binary));
        state.binary := !state.binary;
      case 'd' =>
        builder.Update(DoubleBitBinary(state.dbit));
        state.dbit := Flip(state.dbit);
      case _ =>
    }
  }

  method AddTlsUpdates(builder: UpdateBuilder, state: TlsState, arguments: string)
    modifies builder, state
    ensures state.Current() == After(TlsNext, old(state.Current()), arguments, |arguments|)
    ensures builder.updates
         == old(builder.updates) + Output(TlsNext, TlsEmitted, old(state.Current()), arguments, |arguments|)
  {
    ghost var start := state.Current();
    for i := 0 to |arguments|
      invariant state.Current() == After(TlsNext, start, arguments, i)
      invariant builder.updates == old(builder.updates) + Output(TlsNext, TlsEmitted, start, arguments, i)
    {
      AddTlsUpdate(builder, state, arguments[i]);
    }
  }
}
