/** The buffered channel of sagas/node/test.ts: a queue of buffered inputs and a queue of
    pending takers, with the two forbidden states checked on entry to every operation.
    A taker callback is identified by a number; calling it is recorded as a delivery. */
module Channel {
  import opened Wrappers
  import Seqs

  type TakerId = nat

  /** What a taker callback receives: one input, the whole flushed buffer, or `END`. */
  datatype Message<T> = Item(value: T) | Batch(items: seq<T>) | End

  datatype Delivery<T> = Delivery(taker: TakerId, message: Message<T>)

  /** The two `internalErr`s of `checkForbiddenStates`. */
  datatype ChannelError = ClosedWithPendingTakers | PendingTakersWithNonEmptyBuffer

  /** The channel's closure variables; the expanding buffer as the sequence of its items,
      oldest first. */
  datatype ChannelState<T> = ChannelState(closed: bool, takers: seq<TakerId>, buffer: seq<T>)

  /** The effect of one operation: thrown or not, the new state, the callbacks called. */
  datatype Effect<T> = Effect(outcome: Outcome<ChannelError>, next: ChannelState<T>, out: seq<Delivery<T>>)

  function InitialState<T>(): ChannelState<T> {
    ChannelState(false, [], [])
  }

  /** Neither forbidden state holds. */
  predicate Allowed<T>(s: ChannelState<T>) {
    !(s.closed && |s.takers| > 0) && !(|s.takers| > 0 && |s.buffer| > 0)
  }

  function CheckForbiddenStates<T>(s: ChannelState<T>): (r: Outcome<ChannelError>)
    ensures r.Pass? <==> Allowed(s)
    ensures r == Fail(ClosedWithPendingTakers) <==> s.closed && |s.takers| > 0
  {
    if s.closed && |s.takers| > 0 then Fail(ClosedWithPendingTakers)
    else if |s.takers| > 0 && |s.buffer| > 0 then Fail(PendingTakersWithNonEmptyBuffer)
    else Pass
  }

  /** A throw on entry leaves everything as it was. */
  function Thrown<T>(s: ChannelState<T>): Effect<T>
    requires !Allowed(s)
  {
    Effect(CheckForbiddenStates(s), s, [])
  }

  function PutStep<T>(s: ChannelState<T>, input: T): Effect<T> {
    if !Allowed(s) then Thrown(s)
    else if s.closed then Effect(Pass, s, [])
    else if |s.takers| == 0 then Effect(Pass, s.(buffer := s.buffer + [input]), [])
    else Effect(Pass, s.(takers := s.takers[1..]), [Delivery(s.takers[0], Item(input))])
  }

  function TakeStep<T>(s: ChannelState<T>, cb: TakerId): Effect<T> {
    if !Allowed(s) then Thrown(s)
    else if s.closed && |s.buffer| == 0 then Effect(Pass, s, [Delivery(cb, End)])
    else if |s.buffer| > 0 then Effect(Pass, s.(buffer := s.buffer[1..]), [Delivery(cb, Item(s.buffer[0]))])
    else Effect(Pass, s.(takers := s.takers + [cb]), [])
  }

  function FlushStep<T>(s: ChannelState<T>, cb: TakerId): Effect<T> {
    if !Allowed(s) then Thrown(s)
    else if s.closed && |s.buffer| == 0 then Effect(Pass, s, [Delivery(cb, End)])
    else Effect(Pass, s.(buffer := []), [Delivery(cb, Batch(s.buffer))])
  }

  /** `END` to each of `takers`, in order. */
  function Ends<T>(takers: seq<TakerId>): (r: seq<Delivery<T>>)
    ensures |r| == |takers|
    ensures forall i :: 0 <= i < |r| ==> r[i] == Delivery(takers[i], End)
  {
    if takers == [] then [] else [Delivery(takers[0], End)] + Ends(takers[1..])
  }

  function CloseStep<T>(s: ChannelState<T>): Effect<T> {
    if !Allowed(s) then Thrown(s)
    else if s.closed then Effect(Pass, s, [])
    else Effect(Pass, ChannelState(true, [], s.buffer), Ends(s.takers))
  }

  /** `remove(takers, cb)`: drops the first occurrence of `cb`, if any. */
  function CancelStep<T>(s: ChannelState<T>, cb: TakerId): ChannelState<T> {
    var i := Seqs.IndexOf(s.takers, cb);
    if i < 0 then s else s.(takers := s.takers[..i] + s.takers[i + 1..])
  }

  // ---- properties of the operations ----

  /** The initial channel is in an allowed state, and each operation keeps a channel in an
      allowed state, so from a fresh channel the checks never throw. */
  lemma OperationsPreserveAllowed<T>(s: ChannelState<T>, input: T, cb: TakerId)
    requires Allowed(s)
    ensures Allowed(InitialState<T>())
    ensures PutStep(s, input).outcome == Pass && Allowed(PutStep(s, input).next)
    ensures TakeStep(s, cb).outcome == Pass && Allowed(TakeStep(s, cb).next)
    ensures FlushStep(s, cb).outcome == Pass && Allowed(FlushStep(s, cb).next)
    ensures CloseStep(s).outcome == Pass && Allowed(CloseStep(s).next)
    ensures Allowed(CancelStep(s, cb))
  {
  }

  /** In a forbidden state every checked operation throws and changes nothing. */
  lemma ForbiddenStateThrows<T>(s: ChannelState<T>, input: T, cb: TakerId)
    requires !Allowed(s)
    ensures PutStep(s, input) == TakeStep(s, cb) == FlushStep(s, cb) == CloseStep(s)
    ensures CloseStep(s).outcome.Fail? && CloseStep(s).next == s && CloseStep(s).out == []
  {
  }

  /** `put` on a closed channel calls nothing and changes nothing. */
  lemma PutOnClosedIsNoop<T>(s: ChannelState<T>, input: T)
    requires Allowed(s) && s.closed
    ensures PutStep(s, input) == Effect(Pass, s, [])
  {
  }

  /** `close` hands `END` to every pending taker in order and leaves none; closing again
      changes nothing and calls nothing. */
  lemma CloseEndsTakers<T>(s: ChannelState<T>)
    requires Allowed(s) && !s.closed
    ensures var e := CloseStep(s);
      && e.next == ChannelState(true, [], s.buffer)
      && |e.out| == |s.takers|
      && (forall i :: 0 <= i < |e.out| ==> e.out[i] == Delivery(s.takers[i], End))
      && CloseStep(e.next) == Effect(Pass, e.next, [])
  {
  }

  /** A flush empties the buffer and hands all of it over at once, oldest first. */
  lemma FlushDrains<T>(s: ChannelState<T>, cb: TakerId)
    requires Allowed(s) && !(s.closed && s.buffer == [])
    ensures FlushStep(s, cb).next.buffer == []
    ensures FlushStep(s, cb).out == [Delivery(cb, Batch(s.buffer))]
  {
  }

  /** On a closed channel with an empty buffer, a take and a flush each hand `END` to their
      callback and change nothing. */
  lemma ClosedEmptyDeliversEnd<T>(s: ChannelState<T>, cb: TakerId)
    requires Allowed(s) && s.closed && s.buffer == []
    ensures TakeStep(s, cb) == Effect(Pass, s, [Delivery(cb, End)])
    ensures FlushStep(s, cb) == Effect(Pass, s, [Delivery(cb, End)])
  {
  }

  /** Cancelling removes exactly one occurrence of the taker and keeps the others in order. */
  lemma CancelRemovesTaker<T>(s: ChannelState<T>, cb: TakerId)
    ensures cb !in s.takers ==> CancelStep(s, cb) == s
    ensures cb in s.takers ==> exists i ::
      && 0 <= i < |s.takers|
      && s.takers[i] == cb
      && cb !in s.takers[..i]
      && CancelStep(s, cb).takers == s.takers[..i] + s.takers[i + 1..]
    ensures CancelStep(s, cb).closed == s.closed && CancelStep(s, cb).buffer == s.buffer
  {
    if cb in s.takers {
      var i := Seqs.IndexOf(s.takers, cb);
      assert s.takers[i] == cb && cb !in s.takers[..i];
    }
  }

  /** Several puts in a row, with the deliveries they cause. */
  function PutAll<T>(s: ChannelState<T>, inputs: seq<T>): Effect<T>
    decreases |inputs|
  {
    if inputs == [] then Effect(Pass, s, [])
    else
      var first := PutStep(s, inputs[0]);
      var rest := PutAll(first.next, inputs[1..]);
      Effect(rest.outcome, rest.next, first.out + rest.out)
  }

  /** Several takes in a row. */
  function TakeAll<T>(s: ChannelState<T>, cbs: seq<TakerId>): Effect<T>
    decreases |cbs|
  {
    if cbs == [] then Effect(Pass, s, [])
    else
      var first := TakeStep(s, cbs[0]);
      var rest := TakeAll(first.next, cbs[1..]);
      Effect(rest.outcome, rest.next, first.out + rest.out)
  }

  /** One put with nobody waiting goes to the buffer. */
  lemma PutBuffers<T>(s: ChannelState<T>, input: T)
    requires Allowed(s) && !s.closed && s.takers == []
    ensures PutStep(s, input) == Effect(Pass, ChannelState(false, [], s.buffer + [input]), [])
  {
  }

  /** One take on an open, empty channel joins the takers. */
  lemma TakeQueues<T>(s: ChannelState<T>, cb: TakerId)
    requires Allowed(s) && !s.closed && s.buffer == []
    ensures TakeStep(s, cb) == Effect(Pass, ChannelState(false, s.takers + [cb], []), [])
  {
  }

  /** With nobody waiting, puts to an open channel queue up in the buffer in order. */
  lemma {:induction false} PutAllBuffers<T>(s: ChannelState<T>, inputs: seq<T>)
    requires Allowed(s) && !s.closed && s.takers == []
    ensures PutAll(s, inputs) == Effect(Pass, ChannelState(false, [], s.buffer + inputs), [])
    decreases |inputs|
  {
    if inputs == [] {
      assert s.buffer + inputs == s.buffer;
    } else {
      var first := PutStep(s, inputs[0]);
      PutBuffers(s, inputs[0]);
      PutAllBuffers(first.next, inputs[1..]);
      calc {
        first.next.buffer + inputs[1..];
        s.buffer + [inputs[0]] + inputs[1..];
        { assert [inputs[0]] + inputs[1..] == inputs; }
        s.buffer + inputs;
      }
    }
  }

  /** Takes served from the buffer get its items oldest first, one each. */
  lemma {:induction false} TakeAllDrainsBuffer<T>(s: ChannelState<T>, cbs: seq<TakerId>)
    requires Allowed(s) && |cbs| <= |s.buffer|
    ensures var e := TakeAll(s, cbs);
      && e.outcome == Pass
      && e.next == s.(buffer := s.buffer[|cbs|..])
      && |e.out| == |cbs|
      && forall i :: 0 <= i < |cbs| ==> e.out[i] == Delivery(cbs[i], Item(s.buffer[i]))
    decreases |cbs|
  {
    if cbs != [] {
      var s' := s.(buffer := s.buffer[1..]);
      TakeAllDrainsBuffer(s', cbs[1..]);
      assert s'.buffer[|cbs| - 1..] == s.buffer[|cbs|..];
    }
  }

  /** On an open, empty channel, takes queue up as pending takers in order. */
  lemma {:induction false} TakeAllQueues<T>(s: ChannelState<T>, cbs: seq<TakerId>)
    requires Allowed(s) && !s.closed && s.buffer == []
    ensures TakeAll(s, cbs) == Effect(Pass, ChannelState(false, s.takers + cbs, []), [])
    decreases |cbs|
  {
    if cbs == [] {
      assert s.takers + cbs == s.takers;
    } else {
      TakeQueues(s, cbs[0]);
      TakeAllQueues<T>(ChannelState(false, s.takers + [cbs[0]], []), cbs[1..]);
      assert s.takers + [cbs[0]] + cbs[1..] == s.takers + cbs;
    }
  }

  /** Puts serve the pending takers oldest first, one input each. */
  lemma {:induction false} PutAllServesTakers<T>(s: ChannelState<T>, inputs: seq<T>)
    requires Allowed(s) && !s.closed && |inputs| <= |s.takers|
    ensures var e := PutAll(s, inputs);
      && e.outcome == Pass
      && e.next == s.(takers := s.takers[|inputs|..])
      && |e.out| == |inputs|
      && forall i :: 0 <= i < |inputs| ==> e.out[i] == Delivery(s.takers[i], Item(inputs[i]))
    decreases |inputs|
  {
    if inputs != [] {
      var s' := s.(takers := s.takers[1..]);
      PutAllServesTakers(s', inputs[1..]);
      assert s'.takers[|inputs| - 1..] == s.takers[|inputs|..];
    }
  }

  // ---- the channel object ----

  class Chan<T> {
    var closed: bool
    var takers: seq<TakerId>
    var buffer: seq<T>
    /** Every callback call so far, in order. */
    var delivered: seq<Delivery<T>>

    function State(): ChannelState<T>
      reads this
    {
      ChannelState(closed, takers, buffer)
    }

    /** `channel()` with a fresh expanding buffer. */
    constructor ()
      ensures State() == InitialState() && delivered == []
    {
      closed, takers, buffer := false, [], [];
      delivered := [];
    }

    method Put(input: T) returns (o: Outcome<ChannelError>)
      modifies this
      ensures var e := PutStep(old(State()), input);
        o == e.outcome && State() == e.next && delivered == old(delivered) + e.out
    {
      o := CheckForbiddenStates(State());
      if o.Fail? {
        return;
      }
      if closed {
        return;
      }
      if |takers| == 0 {
        buffer := buffer + [input];
        return;
      }
      var cb := takers[0];
      takers := takers[1..];
      delivered := delivered + [Delivery(cb, Item(input))];
    }

    method Take(cb: TakerId) returns (o: Outcome<ChannelError>)
      modifies this
      ensures var e := TakeStep(old(State()), cb);
        o == e.outcome && State() == e.next && delivered == old(delivered) + e.out
    {
      o := CheckForbiddenStates(State());
      if o.Fail? {
        return;
      }
      if closed && |buffer| == 0 {
        delivered := delivered + [Delivery(cb, End)];
      } else if |buffer| > 0 {
        var item := buffer[0];
        buffer := buffer[1..];
        delivered := delivered + [Delivery(cb, Item(item))];
      } else {
        takers := takers + [cb];
      }
    }

    method Flush(cb: TakerId) returns (o: Outcome<ChannelError>)
      modifies this
      ensures var e := FlushStep(old(State()), cb);
        o == e.outcome && State() == e.next && delivered == old(delivered) + e.out
    {
      o := CheckForbiddenStates(State());
      if o.Fail? {
        return;
      }
      if closed && |buffer| == 0 {
        delivered := delivered + [Delivery(cb, End)];
        return;
      }
      var items := buffer;
      buffer := [];
      delivered := delivered + [Delivery(cb, Batch(items))];
    }

    method Close() returns (o: Outcome<ChannelError>)
      modifies this
      ensures var e := CloseStep(old(State()));
        o == e.outcome && State() == e.next && delivered == old(delivered) + e.out
    {
      o := CheckForbiddenStates(State());
      if o.Fail? {
        return;
      }
      if !closed {
        closed := true;
        var arr := takers;
        takers := [];
        for i := 0 to |arr|
          invariant delivered == old(delivered) + Ends(arr[..i])
          invariant closed && takers == [] && buffer == old(buffer)
        {
          assert arr[..i + 1] == arr[..i] + [arr[i]];
          EndsConcat<T>(arr[..i], [arr[i]]);
          delivered := delivered + [Delivery(arr[i], End)];
        }
        assert arr[..|arr|] == arr;
      }
    }

    /** The `cancel` attached to a pending taker. */
    method Cancel(cb: TakerId)
      modifies this
      ensures State() == CancelStep(old(State()), cb) && delivered == old(delivered)
    {
      var i := Seqs.IndexOf(takers, cb);
      if i >= 0 {
        takers := takers[..i] + takers[i + 1..];
      }
    }
  }

  lemma EndsConcat<T>(a: seq<TakerId>, b: seq<TakerId>)
    ensures Ends<T>(a + b) == Ends<T>(a) + Ends<T>(b)
  {
  }

  /** A fresh channel hands buffered inputs to later takers first in, first out, and
      inputs to earlier takers in the order the takers arrived. */
  method FifoScenario<T>(x: T, y: T) returns (buffered: seq<Delivery<T>>, queued: seq<Delivery<T>>)
    ensures buffered == [Delivery(0, Item(x)), Delivery(1, Item(y))]
    ensures queued == [Delivery(2, Item(x)), Delivery(3, Item(y))]
  {
    var c := new Chan<T>();
    var _ := c.Put(x);
    var _ := c.Put(y);
    var _ := c.Take(0);
    var _ := c.Take(1);
    buffered := c.delivered;
    var d := new Chan<T>();
    var _ := d.Take(2);
    var _ := d.Take(3);
    var _ := d.Put(x);
    var _ := d.Put(y);
    queued := d.delivered;
  }
}
