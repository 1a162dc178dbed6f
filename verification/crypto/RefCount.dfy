/**
  Reference counts: the form under a lock (refcount_lock.c), and the lock-free form with
  compare-and-swap loops (refcount_c11.c) as steps of any number of threads, with
  compare-and-swaps that may fail for no reason.  The two agree, operation by operation.
 */
module RefCount {
  import opened Wrappers

  /** The greatest count; a count that gets there stays there. */
  const MAX: nat := 0xffff_ffff

  datatype Op = Inc | Dec

  // ----- Under the lock

  /** What an operation under the lock makes of the count, and what it returns; it aborts on a decrement of zero. */
  function Locked(op: Op, count: nat): Option<(nat, bool)> {
    match op
    case Inc => Some((if count < MAX then count + 1 else count, false))
    case Dec =>
      if count == 0 then None
      else
        var count' := if count < MAX then count - 1 else count;
        Some((count', count' == 0))
  }

  class LockedCount {
    var count: nat

    method IncRef()
      requires count <= MAX
      modifies this
      ensures Locked(Inc, old(count)) == Some((count, false)) && count <= MAX
    {
      if count < MAX {
        count := count + 1;
      }
    }

    /** Where the original aborts, nothing is returned. */
    method DecAndTestZero() returns (zero: Option<bool>)
      requires count <= MAX
      modifies this
      ensures zero.None? <==> Locked(Dec, old(count)).None?
      ensures zero.Some? ==> Locked(Dec, old(count)) == Some((count, zero.value))
      ensures count <= MAX && (zero.None? ==> count == old(count))
    {
      if count == 0 {
        return None;
      }
      if count < MAX {
        count := count - 1;
      }
      return Some(count == 0);
    }
  }

  // ----- Without a lock

  /** A thread: between operations, about to load the count, or about to swap what it last saw. */
  datatype Thread = Idle | Loading(op: Op) | Swapping(op: Op, expected: nat)

  /** A finished operation: an abort is one that returned nothing. */
  datatype Event = Event(thread: nat, op: Op, result: Option<bool>)

  datatype World = World(count: nat, threads: seq<Thread>, log: seq<Event>)

  predicate Aborted(w: World) { exists e :: e in w.log && e.result.None? }

  function Finish(w: World, t: nat, op: Op, result: Option<bool>): World
    requires t < |w.threads|
  {
    w.(threads := w.threads[t := Idle], log := w.log + [Event(t, op, result)])
  }

  /** A thread has seen a value: some end the loop, with the others it tries to swap. */
  function See(w: World, t: nat, op: Op, seen: nat): World
    requires t < |w.threads|
  {
    if op == Inc && seen == MAX then Finish(w, t, op, Some(false))
    else if op == Dec && seen == 0 then Finish(w, t, op, None)
    else if op == Dec && seen == MAX then Finish(w, t, op, Some(false))
    else w.(threads := w.threads[t := Swapping(op, seen)])
  }

  datatype Step = Call(t: nat, call: Op) | Load(t: nat) | Swap(t: nat, spurious: bool)

  predicate Enabled(w: World, s: Step) {
    && s.t < |w.threads| && !Aborted(w)
    && match s
       case Call(_, _) => w.threads[s.t].Idle?
       case Load(_) => w.threads[s.t].Loading?
       case Swap(_, _) => w.threads[s.t].Swapping?
  }

  function Next(w: World, s: Step): World
    requires Enabled(w, s)
  {
    match s
    case Call(t, op) => w.(threads := w.threads[t := Loading(op)])
    case Load(t) => See(w, t, w.threads[t].op, w.count)
    case Swap(t, spurious) =>
      var op, expected := w.threads[t].op, w.threads[t].expected;
      if spurious || w.count != expected then See(w, t, op, w.count)
      else
        var count' := if op == Inc then expected + 1 else if expected > 0 then expected - 1 else 0;
        Finish(w.(count := count'), t, op, Some(op == Dec && count' == 0))
  }

  // ----- It behaves as if locked

  /** The finished operations one after the other under the lock, as long as they return what they did. */
  function Replay(initial: nat, log: seq<Event>): Option<nat> {
    if log == [] then Some(initial)
    else
      var before := Replay(initial, log[..|log| - 1]);
      if before.None? then None else ReplayOne(before.value, log[|log| - 1])
  }

  function ReplayOne(before: nat, e: Event): Option<nat> {
    match Locked(e.op, before)
    case Some((after, result)) => if e.result == Some(result) then Some(after) else None
    case None => if e.result.None? then Some(before) else None
  }

  /** What a thread holds on to in its loop is never a value that would have ended it. */
  predicate ThreadsSane(w: World) {
    forall t :: 0 <= t < |w.threads| && w.threads[t].Swapping? ==>
      && w.threads[t].expected < MAX
      && (w.threads[t].op == Dec ==> w.threads[t].expected > 0)
  }

  ghost predicate Linear(initial: nat, w: World) {
    w.count <= MAX && ThreadsSane(w) && Replay(initial, w.log) == Some(w.count)
  }

  lemma ReplayMore(initial: nat, log: seq<Event>, e: Event)
    requires Replay(initial, log).Some?
    ensures Replay(initial, log + [e]) == ReplayOne(Replay(initial, log).value, e)
  {
    assert (log + [e])[..|log|] == log;
  }

  lemma SeeKeeps(initial: nat, w: World, t: nat, op: Op)
    requires Linear(initial, w) && t < |w.threads|
    ensures Linear(initial, See(w, t, op, w.count))
  {
    hide Replay;
    var w' := See(w, t, op, w.count);
    if w'.log != w.log {
      ReplayMore(initial, w.log, w'.log[|w.log|]);
    }
  }

  /** No step of any thread, whatever the others do, can be told from a step under the lock. */
  lemma StepKeeps(initial: nat, w: World, s: Step)
    requires Linear(initial, w) && Enabled(w, s)
    ensures Linear(initial, Next(w, s))
  {
    hide Replay;
    match s {
      case Call(t, op) =>
      case Load(t) => SeeKeeps(initial, w, t, w.threads[t].op);
      case Swap(t, spurious) =>
        if spurious || w.count != w.threads[t].expected {
          SeeKeeps(initial, w, t, w.threads[t].op);
        } else {
          var w' := Next(w, s);
          ReplayMore(initial, w.log, w'.log[|w.log|]);
        }
    }
  }

  // ----- Whole runs

  /** Steps one after the other, in any interleaving. */
  ghost predicate IsRun(initial: nat, run: seq<World>) {
    && run != [] && run[0].log == [] && run[0].count == initial
    && (forall t :: 0 <= t < |run[0].threads| ==> run[0].threads[t].Idle?)
    && forall i :: 0 < i < |run| ==> Follows(run[i - 1], run[i])
  }

  ghost predicate Follows(w: World, w': World) { exists s :: Enabled(w, s) && w' == Next(w, s) }

  /** For any number of threads and any interleaving, the operations are those of the locked form in some order. */
  lemma {:induction false} Linearizable(initial: nat, run: seq<World>)
    requires initial <= MAX && IsRun(initial, run)
    ensures Linear(initial, run[|run| - 1])
    decreases |run|
  {
    if |run| > 1 {
      Linearizable(initial, run[..|run| - 1]);
      assert Follows(run[|run| - 2], run[|run| - 1]);
      var s :| Enabled(run[|run| - 2], s) && run[|run| - 1] == Next(run[|run| - 2], s);
      StepKeeps(initial, run[|run| - 2], s);
    }
  }

  /** A thread's operation enters the log once: when the thread, and no other, comes out of it. */
  lemma LoggedWhenFinished(w: World, s: Step)
    requires Enabled(w, s)
    ensures var w' := Next(w, s);
            && |w'.threads| == |w.threads|
            && (forall u :: 0 <= u < |w.threads| && u != s.t ==> w'.threads[u] == w.threads[u])
            && if !w.threads[s.t].Idle? && w'.threads[s.t].Idle?
               then exists r :: w'.log == w.log + [Event(s.t, w.threads[s.t].op, r)]
               else w'.log == w.log && w'.count == w.count
  {
  }

  // ----- What the count is

  /** How many operations of a kind have returned. */
  function Number(log: seq<Event>, op: Op): nat {
    if log == [] then 0
    else
      var e := log[|log| - 1];
      Number(log[..|log| - 1], op) + if e.op == op && e.result.Some? then 1 else 0
  }

  /** Below its greatest value the count is exact. */
  lemma {:induction false} CountIsExact(initial: nat, log: seq<Event>)
    requires Replay(initial, log).Some? && Replay(initial, log).value < MAX
    ensures Replay(initial, log).value == initial + Number(log, Inc) - Number(log, Dec)
    decreases |log|
  {
    if log != [] {
      CountIsExact(initial, log[..|log| - 1]);
    }
  }

  /** At its greatest value it stays. */
  lemma {:induction false} SaturatedForGood(initial: nat, run: seq<World>, i: nat, j: nat)
    requires initial <= MAX && IsRun(initial, run) && i <= j < |run| && run[i].count == MAX
    ensures run[j].count == MAX
    decreases j - i
  {
    if i < j {
      SaturatedForGood(initial, run, i, j - 1);
      assert Follows(run[j - 1], run[j]);
      Linearizable(initial, run[..j]);
    }
  }

  /** In any run, up to saturation, the count is what increments and decrements come to. */
  lemma RunCountIsExact(initial: nat, run: seq<World>)
    requires initial <= MAX && IsRun(initial, run)
    ensures var w := run[|run| - 1];
            w.count < MAX ==> w.count == initial + Number(w.log, Inc) - Number(w.log, Dec)
  {
    Linearizable(initial, run);
    if run[|run| - 1].count < MAX {
      CountIsExact(initial, run[|run| - 1].log);
    }
  }

  // ----- Holders

  /** The references each thread holds: only a holder may count up or down, and counting down gives one up. */
  datatype Holders = Holders(w: World, held: seq<nat>)

  datatype Move = Do(s: Step) | Give(giver: nat, taker: nat)

  predicate Allowed(h: Holders, m: Move) {
    |h.held| == |h.w.threads|
    && match m
       case Do(s) => Enabled(h.w, s) && (s.Call? ==> h.held[s.t] > 0)
       case Give(giver, taker) =>
         giver < |h.held| && taker < |h.held| && h.w.threads[giver].Idle? && h.held[giver] > 0
  }

  function After(h: Holders, m: Move): Holders
    requires Allowed(h, m)
  {
    match m
    case Do(s) =>
      var w' := Next(h.w, s);
      if s.Call? && s.call == Dec then Holders(w', h.held[s.t := h.held[s.t] - 1])
      else if !s.Call? && h.w.threads[s.t].op == Inc && w'.threads[s.t].Idle? then
        Holders(w', h.held[s.t := h.held[s.t] + 1])
      else Holders(w', h.held)
    case Give(giver, taker) =>
      var less := h.held[giver := h.held[giver] - 1];
      Holders(h.w, less[taker := less[taker] + 1])
  }

  predicate Dropping(t: Thread) { !t.Idle? && t.op == Dec }

  /** A thread's share of the count: what it holds, and what it is giving up. */
  function Share(t: Thread, held: nat): nat { held + if Dropping(t) then 1 else 0 }

  function Shares(threads: seq<Thread>, held: seq<nat>): nat
    requires |threads| == |held|
  {
    if threads == [] then 0 else Share(threads[0], held[0]) + Shares(threads[1..], held[1..])
  }

  lemma {:induction false} SharesUpdated(threads: seq<Thread>, held: seq<nat>, t: nat, thread: Thread, now: nat)
    requires |threads| == |held| && t < |threads|
    ensures Shares(threads, held) >= Share(threads[t], held[t])
    ensures Shares(threads[t := thread], held[t := now])
            == Shares(threads, held) - Share(threads[t], held[t]) + Share(thread, now)
  {
    if t == 0 {
      assert threads[t := thread][1..] == threads[1..] && held[t := now][1..] == held[1..];
    } else {
      SharesUpdated(threads[1..], held[1..], t - 1, thread, now);
      assert threads[t := thread][1..] == threads[1..][t - 1 := thread];
      assert held[t := now][1..] == held[1..][t - 1 := now];
    }
  }

  /** How many decrements have returned one. */
  function Ones(log: seq<Event>): nat {
    if log == [] then 0
    else Ones(log[..|log| - 1]) + if log[|log| - 1].result == Some(true) then 1 else 0
  }

  /** The count is everyone's share of it; nobody aborts; a decrement that returned one was the last. */
  ghost predicate Held(h: Holders) {
    && |h.held| == |h.w.threads| && ThreadsSane(h.w) && h.w.count <= MAX && !Aborted(h.w)
    && (forall t :: 0 <= t < |h.held| && !h.w.threads[t].Idle? && h.w.threads[t].op == Inc ==> h.held[t] > 0)
    && (h.w.count < MAX ==> h.w.count == Shares(h.w.threads, h.held))
    && (if h.w.count == 0 then Ones(h.w.log) <= 1 else Ones(h.w.log) == 0)
  }

  lemma OnesMore(log: seq<Event>, e: Event)
    ensures Ones(log + [e]) == Ones(log) + if e.result == Some(true) then 1 else 0
  {
    assert (log + [e])[..|log|] == log;
  }

  lemma AbortedMore(w: World, w': World, e: Event)
    requires w'.log == w.log + [e]
    ensures Aborted(w') <==> Aborted(w) || e.result.None?
  {
    assert e in w'.log && forall e' :: e' in w.log ==> e' in w'.log;
  }

  lemma StepHeld(h: Holders, s: Step)
    requires Held(h) && Allowed(h, Do(s))
    ensures Held(After(h, Do(s)))
  {
    hide Shares, Ones, Aborted;
    var w, h' := h.w, After(h, Do(s));
    SharesUpdated(w.threads, h.held, s.t, h'.w.threads[s.t], h'.held[s.t]);
    assert h.held[s.t := h.held[s.t]] == h.held;
    LoggedWhenFinished(w, s);
    if h'.w.log == w.log {
      SameLog(w, h'.w);
    } else {
      var e := h'.w.log[|w.log|];
      OnesMore(w.log, e);
      AbortedMore(w, h'.w, e);
    }
  }

  lemma SameLog(w: World, w': World)
    requires w.log == w'.log
    ensures Aborted(w) == Aborted(w')
  {
  }

  lemma GiveHeld(h: Holders, giver: nat, taker: nat)
    requires Held(h) && Allowed(h, Give(giver, taker))
    ensures Held(After(h, Give(giver, taker)))
  {
    hide Shares, Ones, Aborted;
    var threads := h.w.threads;
    var less := h.held[giver := h.held[giver] - 1];
    SharesUpdated(threads, h.held, giver, threads[giver], h.held[giver] - 1);
    SharesUpdated(threads, less, taker, threads[taker], less[taker] + 1);
    assert threads[giver := threads[giver]] == threads && threads[taker := threads[taker]] == threads;
  }

  ghost predicate IsHeldRun(run: seq<Holders>) {
    && run != [] && run[0].w.log == [] && 0 < run[0].w.count <= MAX && |run[0].held| == |run[0].w.threads|
    && (forall t :: 0 <= t < |run[0].held| ==> run[0].w.threads[t].Idle?)
    && run[0].w.count == Shares(run[0].w.threads, run[0].held)
    && forall i :: 0 < i < |run| ==> Moved(run[i - 1], run[i])
  }

  ghost predicate Moved(h: Holders, h': Holders) { exists m :: Allowed(h, m) && h' == After(h, m) }

  lemma {:induction false} RunHeld(run: seq<Holders>)
    requires IsHeldRun(run)
    ensures Held(run[|run| - 1])
    decreases |run|
  {
    if |run| > 1 {
      RunHeld(run[..|run| - 1]);
      var h, h' := run[|run| - 2], run[|run| - 1];
      assert Moved(h, h');
      var m :| Allowed(h, m) && h' == After(h, m);
      match m {
        case Do(s) => StepHeld(h, s);
        case Give(giver, taker) => GiveHeld(h, giver, taker);
      }
    }
  }

  /**
    Where only holders count, no decrement ever aborts, at most one returns one, and after
    it nobody holds a reference or is in the middle of an operation.
   */
  lemma OnlyLastHolderReleases(run: seq<Holders>)
    requires IsHeldRun(run)
    ensures var h := run[|run| - 1];
            && !Aborted(h.w) && Ones(h.w.log) <= 1 && |h.held| == |h.w.threads|
            && (Ones(h.w.log) == 1 ==>
                  h.w.count == 0 && forall t :: 0 <= t < |h.held| ==> h.held[t] == 0 && h.w.threads[t].Idle?)
  {
    RunHeld(run);
    var h := run[|run| - 1];
    if Ones(h.w.log) == 1 {
      forall t | 0 <= t < |h.held|
        ensures h.held[t] == 0 && h.w.threads[t].Idle?
      {
        SharesUpdated(h.w.threads, h.held, t, Idle, 0);
      }
    }
  }
}
