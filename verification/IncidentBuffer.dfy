/** The incident service's lock-guarded buffer as atomic steps (eyenet/incidents/service.py). */
module IncidentBuffer {
  import opened Lists

  // list(dict.fromkeys(refs)): each ref once, where it first arrived.
  function FirstArrivals(refs: seq<string>): (r: seq<string>)
    ensures forall x :: x in r <==> x in refs
  {
    if refs == [] then []
    else
      var n := |refs| - 1;
      var r := FirstArrivals(refs[..n]);
      assert refs == refs[..n] + [refs[n]];
      if refs[n] in r then r else r + [refs[n]]
  }

  function FirstIndex(refs: seq<string>, x: string): (i: nat)
    requires x in refs
    ensures i < |refs| && refs[i] == x && x !in refs[..i]
  {
    if refs[0] == x then 0
    else
      assert refs == [refs[0]] + refs[1..];
      var i := FirstIndex(refs[1..], x);
      assert refs[..i + 1] == [refs[0]] + refs[1..][..i];
      i + 1
  }

  lemma {:induction false} FirstIndexOfPrefix(refs: seq<string>, more: seq<string>, x: string)
    requires x in refs
    ensures x in refs + more && FirstIndex(refs + more, x) == FirstIndex(refs, x)
  {
    assert (refs + more)[0] == refs[0];
    assert forall y :: y in refs + more <==> y in refs || y in more;
    if refs[0] != x {
      assert refs == [refs[0]] + refs[1..];
      assert (refs + more)[1..] == refs[1..] + more;
      FirstIndexOfPrefix(refs[1..], more, x);
    }
  }

  lemma PrefixHolds(refs: seq<string>, k: nat, n: nat)
    requires k < n <= |refs|
    ensures refs[k] in refs[..n]
  {
    assert refs[..n][k] == refs[k];
  }

  /** The batch is in strict order of first arrival, so it also has no duplicates. */
  lemma {:induction false} BatchOrder(refs: seq<string>, i: nat, j: nat)
    requires i < j < |FirstArrivals(refs)|
    ensures var r := FirstArrivals(refs); r[i] in refs && r[j] in refs && FirstIndex(refs, r[i]) < FirstIndex(refs, r[j])
  {
    var n := |refs| - 1;
    var before, r := FirstArrivals(refs[..n]), FirstArrivals(refs);
    assert refs == refs[..n] + [refs[n]];
    assert before[i] in before;
    FirstIndexOfPrefix(refs[..n], [refs[n]], before[i]);
    if j < |before| {
      BatchOrder(refs[..n], i, j);
      FirstIndexOfPrefix(refs[..n], [refs[n]], before[j]);
    } else {
      assert r[j] == refs[n] && r[j] !in refs[..n];
      var k := FirstIndex(refs, r[j]);
      if k < n { PrefixHolds(refs, k, n); }
    }
  }

  // ----- The step system -----

  // waiting counts handlers that left the lock with ready set and have yet to flush; accepted,
  // taken and batches are the history: what arrived, what each flush took and what it passed on.
  datatype State = State(buffer: seq<string>, waiting: nat, accepted: seq<string>, taken: seq<seq<string>>, batches: seq<seq<string>>)

  const START := State([], 0, [], [], [])

  datatype Step = Arrive(ref: string) | HandlerFlush | TickFlush

  function TakeBuffer(s: State): State {
    if s.buffer == [] then s
    else s.(buffer := [], taken := s.taken + [s.buffer], batches := s.batches + [FirstArrivals(s.buffer)])
  }

  function Next(s: State, step: Step, batchSize: int): State {
    match step
    case Arrive(ref) =>
      var buffer := s.buffer + [ref];
      s.(buffer := buffer, accepted := s.accepted + [ref], waiting := s.waiting + if |buffer| >= batchSize then 1 else 0)
    case HandlerFlush =>
      if s.waiting == 0 then s else TakeBuffer(s).(waiting := s.waiting - 1)
    case TickFlush => TakeBuffer(s)
  }

  function Run(steps: seq<Step>, batchSize: int): State {
    if steps == [] then START else Next(Run(steps[..|steps| - 1], batchSize), steps[|steps| - 1], batchSize)
  }

  ghost predicate Inv(s: State, batchSize: int) {
    // nothing lost, nothing taken twice
    && s.accepted == Flatten(s.taken) + s.buffer
    // each batch is what its flush took, once each in order of arrival
    && |s.batches| == |s.taken|
    && (forall i :: 0 <= i < |s.taken| ==> s.taken[i] != [] && s.batches[i] == FirstArrivals(s.taken[i]))
    // a full buffer has a handler on its way to flush it
    && (s.buffer != [] && |s.buffer| >= batchSize ==> s.waiting > 0)
  }

  lemma NextKeepsInv(s: State, step: Step, batchSize: int)
    requires Inv(s, batchSize)
    ensures Inv(Next(s, step, batchSize), batchSize)
  {
    var t := Next(s, step, batchSize);
    if step.Arrive? {
      assert t.accepted == Flatten(s.taken) + (s.buffer + [step.ref]);
    } else if t.taken != s.taken {
      FlattenAppend(s.taken, s.buffer);
      assert t.accepted == Flatten(t.taken) + [];
    }
  }

  /** In every interleaving of arrivals, handler flushes and ticks. */
  lemma {:induction false} RunKeepsInv(steps: seq<Step>, batchSize: int)
    ensures Inv(Run(steps, batchSize), batchSize)
  {
    if steps != [] {
      RunKeepsInv(steps[..|steps| - 1], batchSize);
      NextKeepsInv(Run(steps[..|steps| - 1], batchSize), steps[|steps| - 1], batchSize);
    }
  }

  ghost predicate InSomeBatch(s: State, ref: string) {
    exists i :: 0 <= i < |s.batches| && ref in s.batches[i]
  }

  lemma EmptyBufferMeansBatched(s: State, batchSize: int, ref: string)
    requires Inv(s, batchSize) && s.buffer == [] && ref in s.accepted
    ensures InSomeBatch(s, ref)
  {
    assert s.accepted == Flatten(s.taken);
    FlattenMembers(s.taken, ref);
    var i :| 0 <= i < |s.taken| && ref in s.taken[i];
    assert ref in FirstArrivals(s.taken[i]);
    assert ref in s.batches[i];
  }

  /** Once a tick has run, every ref accepted before it is in some batch. */
  lemma TickLeavesNothing(steps: seq<Step>, batchSize: int, ref: string)
    requires ref in Run(steps, batchSize).accepted
    ensures InSomeBatch(Next(Run(steps, batchSize), TickFlush, batchSize), ref)
  {
    var s := Run(steps, batchSize);
    RunKeepsInv(steps, batchSize);
    NextKeepsInv(s, TickFlush, batchSize);
    EmptyBufferMeansBatched(Next(s, TickFlush, batchSize), batchSize, ref);
  }

  // ----- The service -----

  class Service {
    const batchSize: int
    var buffer: seq<string>
    ghost var history: State

    ghost predicate Valid()
      reads this
    {
      history.buffer == buffer && Inv(history, batchSize)
    }

    constructor (batchSize: int)
      ensures Valid() && history == START && this.batchSize == batchSize
    {
      this.batchSize := batchSize;
      buffer := [];
      history := START;
    }

    // The handler's critical section.
    method Accept(ref: string) returns (ready: bool)
      requires Valid()
      modifies this
      ensures Valid() && history == Next(old(history), Arrive(ref), batchSize)
      ensures ready <==> |buffer| >= batchSize
    {
      NextKeepsInv(history, Arrive(ref), batchSize);
      buffer := buffer + [ref];
      ready := |buffer| >= batchSize;
      history := Next(history, Arrive(ref), batchSize);
    }

    // The critical section of _flush, as a handler or as tick enters it.
    method Flush(ghost step: Step) returns (refs: seq<string>)
      requires Valid() && (step == TickFlush || (step == HandlerFlush && history.waiting > 0))
      modifies this
      ensures Valid() && history == Next(old(history), step, batchSize)
      ensures refs == FirstArrivals(old(buffer)) && buffer == []
    {
      NextKeepsInv(history, step, batchSize);
      history := Next(history, step, batchSize);
      if buffer == [] { return []; }
      refs := Dedup(buffer);
      buffer := [];
    }
  }

  method Dedup(refs: seq<string>) returns (r: seq<string>)
    ensures r == FirstArrivals(refs)
  {
    r := [];
    for i := 0 to |refs|
      invariant r == FirstArrivals(refs[..i])
    {
      assert refs[..i + 1][..i] == refs[..i];
      if refs[i] !in r { r := r + [refs[i]]; }
    }
    assert refs[..|refs|] == refs;
  }
}
