/** packages/core/lib/AsyncProcessingQueue.ts: a queue whose items are handled one at a time by an
    asynchronous function, as a state machine over the turns of the event loop. */
module AsyncProcessingQueue {
  import opened Wrappers
  import opened Queue

  /** Where `_flush` is. The flush handle is set in all phases but `Idle`. In `Broken` an error that
      nobody listens to has ended the flush with the handle still set. */
  datatype Phase = Idle | Scheduled | Handling | Broken

  /** The queue with the items ever enqueued, those whose handler was started and the number of
      handlers that have settled. */
  datatype State<T> = State(items: seq<T>, phase: Phase, enqueued: seq<T>, started: seq<T>, settled: nat)

  function New<T>(): State<T> {
    State([], Idle, [], [], 0)
  }

  /** The turns of the event loop. The listeners of the events that a turn emits may enqueue;
      what they enqueue is part of the turn. `heard` tells whether 'error' has a listener. */
  datatype Turn<T> =
    | Call(value: T)
    | Immediate(onFlushing: seq<T>, onFlushed: seq<T>)
    | Settled(ok: bool, heard: bool, onError: seq<T>, onFlushed: seq<T>)

  /** The loop runs `_flush` only when it was scheduled, and a handler settles only when one runs. */
  predicate Enabled<T>(s: State<T>, t: Turn<T>) {
    match t
    case Call(_) => true
    case Immediate(_, _) => s.phase == Scheduled
    case Settled(_, _, _, _) => s.phase == Handling
  }

  /** `enqueue` */
  function Enqueue<T>(s: State<T>, v: T): State<T> {
    s.(items := s.items + [v], enqueued := s.enqueued + [v], phase := if s.phase == Idle then Scheduled else s.phase)
  }

  function EnqueueAll<T>(s: State<T>, vs: seq<T>): State<T>
    decreases |vs|
  {
    if vs == [] then s else EnqueueAll(Enqueue(s, vs[0]), vs[1..])
  }

  /** The head of the loop of `_flush`: the next handler starts, or 'flushed' is emitted and the
      handle is cleared. */
  function Continue<T>(s: State<T>, onFlushed: seq<T>): State<T> {
    if s.items != [] then s.(items := s.items[1..], phase := Handling, started := s.started + [s.items[0]])
    else EnqueueAll(s, onFlushed).(phase := Idle)
  }

  function Step<T>(s: State<T>, t: Turn<T>): State<T>
    requires Enabled(s, t)
  {
    match t
    case Call(v) => Enqueue(s, v)
    case Immediate(onFlushing, onFlushed) => Continue(EnqueueAll(s, onFlushing), onFlushed)
    case Settled(ok, heard, onError, onFlushed) =>
      var s1 := s.(settled := s.settled + 1);
      if ok then Continue(s1, onFlushed)
      else if !heard then s1.(phase := Broken)
      else Continue(EnqueueAll(s1, onError), onFlushed)
  }

  // ---------------------------------------------------------------- once, in order, one at a time

  /** Handlers start on the items in the order of enqueueing, each once, and one after another. */
  predicate Inv<T(==)>(s: State<T>) {
    s.enqueued == s.started + s.items && |s.started| == s.settled + if s.phase == Handling then 1 else 0
  }

  lemma {:induction false} EnqueueAllIs<T>(s: State<T>, vs: seq<T>)
    ensures EnqueueAll(s, vs) ==
      s.(items := s.items + vs, enqueued := s.enqueued + vs,
           phase := if s.phase == Idle && vs != [] then Scheduled else s.phase)
    decreases |vs|
  {
    if vs == [] {
      assert s.items + vs == s.items && s.enqueued + vs == s.enqueued;
    } else {
      EnqueueAllIs(Enqueue(s, vs[0]), vs[1..]);
      assert vs == [vs[0]] + vs[1..];
      assert s.items + [vs[0]] + vs[1..] == s.items + vs && s.enqueued + [vs[0]] + vs[1..] == s.enqueued + vs;
    }
  }

  lemma ContinueKeeps<T>(s: State<T>, onFlushed: seq<T>)
    requires s.enqueued == s.started + s.items && |s.started| == s.settled
    ensures Inv(Continue(s, onFlushed))
  {
    EnqueueAllIs(s, onFlushed);
    if s.items != [] {
      assert s.items == [s.items[0]] + s.items[1..];
      assert s.started + [s.items[0]] + s.items[1..] == s.started + s.items;
    }
  }

  lemma StepKeepsInv<T>(s: State<T>, t: Turn<T>)
    requires Inv(s) && Enabled(s, t)
    ensures Inv(Step(s, t))
  {
    match t
    case Call(v) =>
      assert s.started + (s.items + [v]) == s.started + s.items + [v];
    case Immediate(onFlushing, onFlushed) =>
      EnqueueAllIs(s, onFlushing);
      assert s.started + (s.items + onFlushing) == s.started + s.items + onFlushing;
      ContinueKeeps(EnqueueAll(s, onFlushing), onFlushed);
    case Settled(ok, heard, onError, onFlushed) =>
      var s1 := s.(settled := s.settled + 1);
      EnqueueAllIs(s1, onError);
      assert s.started + (s.items + onError) == s.started + s.items + onError;
      if ok { ContinueKeeps(s1, onFlushed); } else if heard { ContinueKeeps(EnqueueAll(s1, onError), onFlushed); }
  }

  /** The states that some sequence of turns leads to. */
  datatype Run<T> = Start | After(before: Run<T>, turn: Turn<T>)

  predicate Possible<T>(r: Run<T>)
    decreases r, 0
  {
    r.After? ==> Possible(r.before) && Enabled(End(r.before), r.turn)
  }

  function End<T>(r: Run<T>): State<T>
    requires Possible(r)
    decreases r, 1
  {
    match r
    case Start => New()
    case After(before, t) => Step(End(before), t)
  }

  /** In every run each enqueued item is handed to the handler at most once and in the order of
      enqueueing, no item is lost from the queue, and at most one handler runs at a time. */
  lemma {:induction false} HandledInOrder<T>(r: Run<T>)
    requires Possible(r)
    ensures Inv(End(r)) && End(r).started <= End(r).enqueued
    ensures End(r).settled <= |End(r).started| <= End(r).settled + 1
  {
    match r
    case Start =>
    case After(before, t) =>
      HandledInOrder(before);
      StepKeepsInv(End(before), t);
  }

  // ---------------------------------------------------------------- lost wakeups

  /** What is queued will be handled: a flush is scheduled or running. */
  predicate Awake<T>(s: State<T>) {
    s.items != [] ==> s.phase == Scheduled || s.phase == Handling
  }

  /** The turns that leave items queued with nothing to handle them: a listener of 'flushed' enqueues,
      an error ends the flush unheard with items queued, or something is enqueued after such an error. */
  predicate Loses<T>(s: State<T>, t: Turn<T>) {
    match t
    case Call(_) => s.phase == Broken
    case Immediate(onFlushing, onFlushed) => s.items == [] && onFlushing == [] && onFlushed != []
    case Settled(ok, heard, onError, onFlushed) =>
      if !ok && !heard then s.items != []
      else s.items == [] && (ok || onError == []) && onFlushed != []
  }

  /** A turn puts the queue to sleep over its items exactly when it is one of these. */
  lemma StaysAwakeIff<T>(s: State<T>, t: Turn<T>)
    requires Enabled(s, t)
    ensures Awake(Step(s, t)) <==> !Loses(s, t)
  {
    match t
    case Call(v) =>
    case Immediate(onFlushing, onFlushed) =>
      EnqueueAllIs(s, onFlushing);
      EnqueueAllIs(EnqueueAll(s, onFlushing), onFlushed);
    case Settled(ok, heard, onError, onFlushed) =>
      var s1 := s.(settled := s.settled + 1);
      EnqueueAllIs(s1, onError);
      EnqueueAllIs(s1, onFlushed);
      EnqueueAllIs(EnqueueAll(s1, onError), onFlushed);
  }

  predicate NeverLoses<T>(r: Run<T>)
    requires Possible(r)
  {
    r.After? ==> NeverLoses(r.before) && !Loses(End(r.before), r.turn)
  }

  predicate AlwaysAwake<T>(r: Run<T>)
    requires Possible(r)
  {
    Awake(End(r)) && (r.After? ==> AlwaysAwake(r.before))
  }

  /** A queue that is not empty has a flush scheduled or running at every point of a run exactly when
      no turn of the run is one of those that lose. */
  lemma {:induction false} AwakeIff<T>(r: Run<T>)
    requires Possible(r)
    ensures AlwaysAwake(r) <==> NeverLoses(r)
  {
    match r
    case Start =>
    case After(before, t) =>
      AwakeIff(before);
      StaysAwakeIff(End(before), t);
  }

  /** No listener of 'flushed' enqueues and no error goes unheard. */
  predicate Tame<T>(t: Turn<T>) {
    match t
    case Call(_) => true
    case Immediate(_, onFlushed) => onFlushed == []
    case Settled(ok, heard, _, onFlushed) => onFlushed == [] && (ok || heard)
  }

  predicate AllTame<T>(r: Run<T>) {
    r.After? ==> AllTame(r.before) && Tame(r.turn)
  }

  /** In particular nothing is lost if no listener of 'flushed' enqueues and every error is heard. */
  lemma {:induction false} TameStaysAwake<T>(r: Run<T>)
    requires Possible(r) && AllTame(r)
    ensures AlwaysAwake(r) && End(r).phase != Broken
  {
    match r
    case Start =>
    case After(before, t) =>
      TameStaysAwake(before);
      StaysAwakeIff(End(before), t);
      TameNotBroken(End(before), t);
  }

  lemma TameNotBroken<T>(s: State<T>, t: Turn<T>)
    requires Enabled(s, t) && Tame(t) && s.phase != Broken
    ensures Step(s, t).phase != Broken && (Awake(s) ==> !Loses(s, t))
  {
    match t
    case Call(v) =>
    case Immediate(onFlushing, onFlushed) =>
      EnqueueAllIs(s, onFlushing);
      EnqueueAllIs(EnqueueAll(s, onFlushing), onFlushed);
    case Settled(ok, heard, onError, onFlushed) =>
      var s1 := s.(settled := s.settled + 1);
      EnqueueAllIs(s1, onError);
      EnqueueAllIs(s1, onFlushed);
      EnqueueAllIs(EnqueueAll(s1, onError), onFlushed);
  }

  /** The next turn while nothing enqueues and every error is heard; `ok` tells which handlers succeed. */
  function NextTurn<T>(s: State<T>, ok: nat -> bool): Turn<T> {
    if s.phase == Scheduled then Immediate([], []) else Settled(ok(s.settled), true, [], [])
  }

  /** The state when these turns have come to an end. */
  function Drain<T>(s: State<T>, ok: nat -> bool): State<T>
    requires s.phase == Scheduled || s.phase == Handling
    decreases |s.items|
  {
    var s' := Step(s, NextTurn(s, ok));
    if s.items == [] then s' else Drain(s', ok)
  }

  /** Once a flush is scheduled or running, while handlers succeed or fail with a listener and nothing
      is enqueued, every queued item gets its handler and the queue becomes idle. */
  lemma {:induction false} Drains<T>(s: State<T>, ok: nat -> bool)
    requires Inv(s) && (s.phase == Scheduled || s.phase == Handling)
    ensures var d := Drain(s, ok);
      Inv(d) && d.phase == Idle && d.items == [] && d.started == d.enqueued == s.enqueued && d.settled == |d.enqueued|
    decreases |s.items|
  {
    StepKeepsInv(s, NextTurn(s, ok));
    if s.items != [] { Drains(Step(s, NextTurn(s, ok)), ok); }
  }

  // ---------------------------------------------------------------- the class

  class AsyncProcessingQueue<T(==)> {
    const queue: Queue<T>
    /** Whether `_flushHandle` is set. */
    var flushHandle: bool
    ghost var state: State<T>

    ghost predicate Valid()
      reads this, queue.list, queue.list.spine
    {
      Shows() && Inv(state)
    }

    /** The fields are those of `state`. */
    ghost predicate Shows()
      reads this, queue.list, queue.list.spine
    {
      queue.Valid() && queue.Items() == state.items && (flushHandle <==> state.phase != Idle)
    }

    constructor ()
      ensures Valid() && state == New() && fresh(queue.list) && queue.list.spine == []
    {
      queue := new Queue<T>();
      flushHandle := false;
      state := New();
    }

    /** Schedules a flush unless the handle is set. */
    method EnqueueItem(value: T)
      requires Valid()
      modifies this, queue.list, queue.list.spine
      ensures Valid()
      ensures queue.OnlyFresh(old(queue.list.spine)) && state == Step(old(state), Call(value))
    {
      StepKeepsInv(state, Call(value));
      Add(value);
    }

    method Add(value: T)
      requires Shows()
      modifies this, queue.list, queue.list.spine
      ensures Shows() && queue.OnlyFresh(old(queue.list.spine)) && state == Enqueue(old(state), value)
    {
      queue.Enqueue(value);
      if !flushHandle { flushHandle := true; }
      state := Enqueue(state, value);
    }

    /** What the listeners of an event enqueue. */
    method Listeners(values: seq<T>)
      requires Shows()
      modifies this, queue.list, queue.list.spine
      ensures Shows()
      ensures queue.OnlyFresh(old(queue.list.spine)) && state == EnqueueAll(old(state), values)
    {
      hide Enqueue, Shows;
      for i := 0 to |values|
        invariant Shows()
        invariant queue.OnlyFresh(old(queue.list.spine))
        invariant EnqueueAll(state, values[i..]) == EnqueueAll(old(state), values)
      {
        assert values[i..][1..] == values[i + 1..];
        Add(values[i]);
      }
    }

    /** `_flush` up to its first await; `next` is what the handler is called with, if there is anything. */
    method OnImmediate(onFlushing: seq<T>, onFlushed: seq<T>) returns (next: Option<T>)
      requires Valid() && state.phase == Scheduled
      modifies this, queue.list, queue.list.spine
      ensures Valid()
      ensures queue.OnlyFresh(old(queue.list.spine))
      ensures state == Step(old(state), Immediate(onFlushing, onFlushed)) && Started(old(state).started, next)
    {
      StepKeepsInv(state, Immediate(onFlushing, onFlushed));
      EnqueueAllIs(state, onFlushing);
      Listeners(onFlushing);
      next := Resume(onFlushed);
    }

    /** What `_flush` does from the settling of a handler to its next await or its end. */
    method OnSettled(ok: bool, heard: bool, onError: seq<T>, onFlushed: seq<T>) returns (next: Option<T>)
      requires Valid() && state.phase == Handling
      modifies this, queue.list, queue.list.spine
      ensures Valid()
      ensures queue.OnlyFresh(old(queue.list.spine))
      ensures state == Step(old(state), Settled(ok, heard, onError, onFlushed)) && Started(old(state).started, next)
    {
      hide Continue;
      StepKeepsInv(state, Settled(ok, heard, onError, onFlushed));
      EnqueueAllIs(state.(settled := state.settled + 1), onError);
      state := state.(settled := state.settled + 1);
      if !ok {
        if !heard {
          state := state.(phase := Broken);
          return None;
        }
        Listeners(onError);
      }
      next := Resume(onFlushed);
    }

    /** The head of the loop and, on an empty queue, what follows the loop. */
    method Resume(onFlushed: seq<T>) returns (next: Option<T>)
      requires Shows() && state.phase != Idle
      modifies this, queue.list, queue.list.spine
      ensures Shows()
      ensures queue.OnlyFresh(old(queue.list.spine))
      ensures state == Continue(old(state), onFlushed) && Started(old(state).started, next)
    {
      var length := queue.Length();
      if length > 0 {
        var value := queue.Dequeue();
        state := Continue(state, onFlushed);
        return Some(value.value);
      }
      EnqueueAllIs(state, onFlushed);
      Listeners(onFlushed);
      flushHandle := false;
      state := state.(phase := Idle);
      return None;
    }

    ghost predicate Started(before: seq<T>, next: Option<T>)
      reads this
    {
      state.started == before + if next.Some? then [next.value] else []
    }
  }
}
