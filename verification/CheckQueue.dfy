/**
 * The check queue: a master and any number of workers share a queue of checks
 * under one lock and two condition variables.  Each critical section and each
 * evaluation of a check is one atomic step; steps of different threads
 * interleave arbitrarily, and waits may end spuriously.
 */
module CheckQueue {

  /** Where a thread is in Loop. */
  datatype Thread<T> =
    | Outside
    | Waiting(notified: bool)
    | Running(batch: seq<T>, next: nat, ok: bool, okAtGrab: bool)

  /**
   * Thread 0 is the master.  The fields added and done only record history:
   * the checks added since the last Wait returned, and those among them whose
   * batch has been accounted for.
   */
  datatype State<T> = State(
    queue: seq<T>, nIdle: int, nTotal: int, allOk: bool, nTodo: int,
    threads: seq<Thread<T>>, added: multiset<T>, done: multiset<T>)

  const MASTER: nat := 0

  /** One atomic step. */
  datatype Step<T> =
    | Add(checks: seq<T>, wake: nat)
    | Enter(t: nat)
    | Wake(t: nat)
    | Spurious(t: nat)
    | Evaluate(t: nat)
    | Finish(t: nat)

  // ----- the code ---------------------------------------------------------------

  function Reversed<T>(s: seq<T>): seq<T> {
    if s == [] then [] else [s[|s| - 1]] + Reversed(s[..|s| - 1])
  }

  function BatchSize(limit: nat, queued: nat, workers: int): nat
    requires workers >= 0
  {
    var share := queued / (workers + 1);
    var n := if limit < share then limit else share;
    if n < 1 then 1 else n
  }

  function Grab<T>(limit: nat, s: State<T>, t: nat): State<T>
    requires s.queue != [] && t < |s.threads| && s.nTotal + s.nIdle >= 0
  {
    var n := BatchSize(limit, |s.queue|, s.nTotal + s.nIdle);
    if n > |s.queue| then s
    else
      var rest := |s.queue| - n;
      s.(queue := s.queue[..rest],
         threads := s.threads[t := Running(Reversed(s.queue[rest..]), 0, s.allOk, s.allOk)])
  }

  /** From the inner while loop to the end of the critical section, or into the wait. */
  predicate Returns<T>(s: State<T>, t: nat) {
    s.queue == [] && t == MASTER && s.nTodo == 0
  }

  ghost function Section<T>(limit: nat, s: State<T>, t: nat): State<T>
    requires t < |s.threads| && s.nTotal + s.nIdle >= 0
  {
    if Returns(s, t) then
      s.(nTotal := s.nTotal - 1, allOk := true, threads := s.threads[t := Outside], added := multiset{}, done := multiset{})
    else if s.queue == [] then
      s.(nIdle := s.nIdle + 1, threads := s.threads[t := Waiting(false)])
    else
      Grab(limit, s, t)
  }

  function NotifyMaster<T>(ts: seq<Thread<T>>): seq<Thread<T>> {
    if |ts| > 0 && ts[MASTER].Waiting? then ts[MASTER := Waiting(true)] else ts
  }

  /** The clean-up of the previous batch at the start of the critical section. */
  ghost function Account<T>(s: State<T>, t: nat): State<T>
    requires t < |s.threads| && s.threads[t].Running?
  {
    var th := s.threads[t];
    var todo := s.nTodo - |th.batch|;
    s.(allOk := s.allOk && th.ok, nTodo := todo, done := s.done + multiset(th.batch),
       threads := if todo == 0 && t != MASTER then NotifyMaster(s.threads) else s.threads)
  }

  function NotifyAll<T>(ts: seq<Thread<T>>): seq<Thread<T>> {
    seq(|ts|, i requires 0 <= i < |ts| => if i != MASTER && ts[i].Waiting? then Waiting(true) else ts[i])
  }

  function NotifyOne<T>(ts: seq<Thread<T>>, i: nat): seq<Thread<T>> {
    if i != MASTER && i < |ts| && ts[i].Waiting? then ts[i := Waiting(true)] else ts
  }

  /** A worker in a wait that nothing has ended yet. */
  predicate Asleep<T>(ts: seq<Thread<T>>, w: nat) {
    MASTER < w < |ts| && ts[w] == Waiting(false)
  }

  /** notify_one picks a sleeping worker whenever there is one. */
  ghost predicate Pickable<T>(ts: seq<Thread<T>>, wake: nat) {
    (exists w: nat :: Asleep(ts, w)) ==> Asleep(ts, wake)
  }

  ghost predicate Enabled<T>(s: State<T>, step: Step<T>) {
    match step
    case Add(checks, wake) =>
      |s.threads| > 0 && s.threads[MASTER].Outside? && (|checks| == 1 ==> Pickable(s.threads, wake))
    case Enter(t) => t < |s.threads| && s.threads[t].Outside?
    case Wake(t) => t < |s.threads| && s.threads[t] == Waiting(true)
    case Spurious(t) => t < |s.threads| && s.threads[t] == Waiting(false)
    case Evaluate(t) => t < |s.threads| && s.threads[t].Running? && s.threads[t].next < |s.threads[t].batch|
    case Finish(t) => t < |s.threads| && s.threads[t].Running? && s.threads[t].next == |s.threads[t].batch|
  }

  ghost function Next<T>(eval: T -> bool, limit: nat, s: State<T>, step: Step<T>): State<T>
    requires Enabled(s, step) && s.nTotal >= 0 && s.nIdle >= 0
    requires step.Wake? ==> s.nIdle > 0
  {
    match step
    case Add(checks, wake) =>
      s.(queue := s.queue + checks, nTodo := s.nTodo + |checks|, added := s.added + multiset(checks),
         threads := if |checks| == 1 then NotifyOne(s.threads, wake)
                    else if |checks| > 1 then NotifyAll(s.threads) else s.threads)
    case Enter(t) => Section(limit, s.(nTotal := s.nTotal + 1), t)
    case Wake(t) => Section(limit, s.(nIdle := s.nIdle - 1), t)
    case Spurious(t) => s.(threads := s.threads[t := Waiting(true)])
    case Evaluate(t) =>
      var th := s.threads[t];
      s.(threads := s.threads[t := th.(next := th.next + 1, ok := th.ok && eval(th.batch[th.next]))])
    case Finish(t) => Section(limit, Account(s, t), t)
  }

  // ----- sums over threads ----------------------------------------------------------

  ghost function Batch<T>(th: Thread<T>): seq<T> {
    if th.Running? then th.batch else []
  }

  ghost function InFlight<T>(ts: seq<Thread<T>>): multiset<T> {
    if ts == [] then multiset{} else multiset(Batch(ts[0])) + InFlight(ts[1..])
  }

  ghost function Sum<T>(ts: seq<Thread<T>>, f: Thread<T> -> nat): nat {
    if ts == [] then 0 else f(ts[0]) + Sum(ts[1..], f)
  }

  lemma {:induction false} InFlightUpdate<T>(ts: seq<Thread<T>>, i: nat, x: Thread<T>)
    requires i < |ts|
    ensures InFlight(ts[i := x]) + multiset(Batch(ts[i])) == InFlight(ts) + multiset(Batch(x))
    ensures |InFlight(ts[i := x])| + |Batch(ts[i])| == |InFlight(ts)| + |Batch(x)|
  {
    hide InFlight, Batch;
    InFlightFirst(ts);
    InFlightFirst(ts[i := x]);
    if i > 0 {
      assert ts[i := x][1..] == ts[1..][i - 1 := x];
      InFlightUpdate(ts[1..], i - 1, x);
      SwapLast(multiset(Batch(ts[0])), InFlight(ts[1..]), InFlight(ts[1..][i - 1 := x]), multiset(Batch(ts[i])), multiset(Batch(x)));
    } else {
      assert ts[i := x][1..] == ts[1..];
      SwapFirst(InFlight(ts[1..]), multiset(Batch(ts[i])), multiset(Batch(x)));
    }
  }

  lemma InFlightFirst<T>(ts: seq<Thread<T>>)
    requires ts != []
    ensures InFlight(ts) == multiset(Batch(ts[0])) + InFlight(ts[1..])
    ensures |InFlight(ts)| == |Batch(ts[0])| + |InFlight(ts[1..])|
  {
  }

  lemma SwapLast<T>(first: multiset<T>, rest: multiset<T>, rest': multiset<T>, a: multiset<T>, b: multiset<T>)
    requires rest' + a == rest + b
    ensures (first + rest') + a == (first + rest) + b
  {
    assert (first + rest') + a == first + (rest' + a);
    assert (first + rest) + b == first + (rest + b);
  }

  lemma SwapFirst<T>(rest: multiset<T>, a: multiset<T>, b: multiset<T>)
    ensures (b + rest) + a == (a + rest) + b
  {
  }

  lemma {:induction false} SumUpdate<T>(ts: seq<Thread<T>>, i: nat, x: Thread<T>, f: Thread<T> -> nat)
    requires i < |ts|
    ensures Sum(ts[i := x], f) + f(ts[i]) == Sum(ts, f) + f(x)
  {
    if i > 0 {
      assert ts[i := x][1..] == ts[1..][i - 1 := x];
      SumUpdate(ts[1..], i - 1, x, f);
    } else {
      assert ts[i := x][1..] == ts[1..];
    }
  }

  lemma {:induction false} InFlightNotifyAll<T>(ts: seq<Thread<T>>, us: seq<Thread<T>>)
    requires |us| == |ts| && forall i :: 0 <= i < |ts| ==> Batch(us[i]) == Batch(ts[i])
    ensures InFlight(us) == InFlight(ts)
  {
    if ts != [] { InFlightNotifyAll(ts[1..], us[1..]); }
  }

  lemma {:induction false} SumSame<T>(ts: seq<Thread<T>>, us: seq<Thread<T>>, f: Thread<T> -> nat)
    requires |us| == |ts| && forall i :: 0 <= i < |ts| ==> f(us[i]) == f(ts[i])
    ensures Sum(us, f) == Sum(ts, f)
  {
    if ts != [] { SumSame(ts[1..], us[1..], f); }
  }

  lemma {:induction false} InFlightContains<T>(ts: seq<Thread<T>>, i: nat)
    requires i < |ts|
    ensures multiset(Batch(ts[i])) <= InFlight(ts)
  {
    if i > 0 { InFlightContains(ts[1..], i - 1); }
  }

  lemma {:induction false} SomeoneHolds<T>(ts: seq<Thread<T>>) returns (i: nat)
    requires |InFlight(ts)| > 0
    ensures i < |ts| && ts[i].Running?
  {
    if |multiset(Batch(ts[0]))| > 0 {
      i := 0;
    } else {
      var j := SomeoneHolds(ts[1..]);
      i := j + 1;
    }
  }

  lemma {:induction false} ReversedSame<T>(s: seq<T>)
    ensures multiset(Reversed(s)) == multiset(s) && |Reversed(s)| == |s|
  {
    if s != [] {
      ReversedSame(s[..|s| - 1]);
      assert s == s[..|s| - 1] + [s[|s| - 1]];
    }
  }

  // ----- the invariant -----------------------------------------------------------------

  ghost function IdleOne<T>(th: Thread<T>): nat { if th.Waiting? then 1 else 0 }
  ghost function InLoopOne<T>(th: Thread<T>): nat { if th.Outside? then 0 else 1 }

  ghost predicate AllTrue<T(!new)>(eval: T -> bool, m: multiset<T>) {
    forall c :: c in m ==> eval(c)
  }

  /** A thread's flag says whether its batch was worth evaluating and has held so far. */
  ghost predicate ThreadOk<T>(eval: T -> bool, th: Thread<T>, allOk: bool) {
    th.Running? ==>
      && 0 < |th.batch| && th.next <= |th.batch|
      && (th.ok <==> th.okAtGrab && forall j :: 0 <= j < th.next ==> eval(th.batch[j]))
      && (!th.okAtGrab ==> !allOk)
  }

  ghost predicate Inv<T(!new)>(eval: T -> bool, s: State<T>) {
    && |s.threads| > 0
    && s.nIdle == Sum(s.threads, IdleOne)
    && s.nTotal == Sum(s.threads, InLoopOne)
    && s.nTodo == |s.queue| + |InFlight(s.threads)|
    && s.added == multiset(s.queue) + InFlight(s.threads) + s.done
    && (s.allOk <==> AllTrue(eval, s.done))
    && (forall i :: 0 <= i < |s.threads| ==> ThreadOk(eval, s.threads[i], s.allOk))
    && (s.threads[MASTER] == Waiting(false) ==> s.queue == [] && s.nTodo > 0)
  }

  /** Between the start of a critical section and its end, thread t is counted as neither idle nor busy. */
  ghost predicate MidInv<T(!new)>(eval: T -> bool, s: State<T>, t: nat) {
    && |s.threads| > 0 && t < |s.threads|
    && s.nIdle + IdleOne(s.threads[t]) == Sum(s.threads, IdleOne)
    && s.nTotal + InLoopOne(s.threads[t]) == Sum(s.threads, InLoopOne) + 1
    && s.nTodo + |Batch(s.threads[t])| == |s.queue| + |InFlight(s.threads)|
    && s.added + multiset(Batch(s.threads[t])) == multiset(s.queue) + InFlight(s.threads) + s.done
    && (s.allOk <==> AllTrue(eval, s.done))
    && (forall i :: 0 <= i < |s.threads| && i != t ==> ThreadOk(eval, s.threads[i], s.allOk))
    && (t != MASTER && s.threads[MASTER] == Waiting(false) ==> s.queue == [] && s.nTodo > 0)
  }

  lemma MidShape<T(!new)>(eval: T -> bool, s: State<T>, t: nat)
    requires MidInv(eval, s, t)
    ensures t < |s.threads|
  {
  }

  lemma MidCounts<T(!new)>(eval: T -> bool, s: State<T>, t: nat)
    requires MidInv(eval, s, t)
    ensures s.nIdle >= 0 && s.nTotal >= 1 && s.nTodo >= |s.queue|
  {
    SumAtLeast(s.threads, t, IdleOne);
    SumAtLeast(s.threads, t, InLoopOne);
    InFlightContains(s.threads, t);
    MultisetSize(multiset(Batch(s.threads[t])), InFlight(s.threads));
  }

  lemma {:induction false} SumAtLeast<T>(ts: seq<Thread<T>>, i: nat, f: Thread<T> -> nat)
    requires i < |ts|
    ensures f(ts[i]) <= Sum(ts, f)
  {
    if i > 0 { SumAtLeast(ts[1..], i - 1, f); }
  }

  lemma MultisetSize<T>(a: multiset<T>, b: multiset<T>)
    requires a <= b
    ensures |a| <= |b|
  {
    assert b == a + (b - a);
  }

  lemma GrabInv<T(!new)>(eval: T -> bool, limit: nat, s: State<T>, t: nat)
    requires MidInv(eval, s, t) && s.queue != []
    ensures s.nTotal + s.nIdle >= 0 && Inv(eval, Grab(limit, s, t))
    ensures Grab(limit, s, t).threads[t].Running? && |Grab(limit, s, t).queue| < |s.queue|
  {
    MidCounts(eval, s, t);
    ShareFits(limit, |s.queue|, s.nTotal + s.nIdle);
    var rest := |s.queue| - BatchSize(limit, |s.queue|, s.nTotal + s.nIdle);
    GrabKeeps(eval, s, t, rest);
  }

  lemma GrabKeeps<T(!new)>(eval: T -> bool, s: State<T>, t: nat, rest: nat)
    requires MidInv(eval, s, t) && rest < |s.queue|
    ensures Inv(eval, s.(queue := s.queue[..rest],
                         threads := s.threads[t := Running(Reversed(s.queue[rest..]), 0, s.allOk, s.allOk)]))
  {
    hide InFlight, Sum, AllTrue, ThreadOk, Reversed;
    var b := s.queue[rest..];
    ReversedSame(b);
    var th := Running(Reversed(b), 0, s.allOk, s.allOk);
    SumUpdate(s.threads, t, th, IdleOne);
    SumUpdate(s.threads, t, th, InLoopOne);
    GrabInFlight(s, t, rest, th);
    FreshBatchOk(eval, Reversed(b), s.allOk);
  }

  lemma FreshBatchOk<T>(eval: T -> bool, batch: seq<T>, allOk: bool)
    requires batch != []
    ensures ThreadOk(eval, Running(batch, 0, allOk, allOk), allOk)
  {
  }

  lemma GrabInFlight<T>(s: State<T>, t: nat, rest: nat, th: Thread<T>)
    requires t < |s.threads| && rest <= |s.queue| && multiset(Batch(th)) == multiset(s.queue[rest..])
    requires s.nTodo + |Batch(s.threads[t])| == |s.queue| + |InFlight(s.threads)|
    requires s.added + multiset(Batch(s.threads[t])) == multiset(s.queue) + InFlight(s.threads) + s.done
    ensures s.nTodo == rest + |InFlight(s.threads[t := th])|
    ensures s.added == multiset(s.queue[..rest]) + InFlight(s.threads[t := th]) + s.done
  {
    InFlightUpdate(s.threads, t, th);
    assert s.queue == s.queue[..rest] + s.queue[rest..];
    assert |Batch(th)| == |multiset(Batch(th))| == |multiset(s.queue[rest..])| == |s.queue| - rest;
    GrabConserves(s.queue, s.queue[..rest], s.queue[rest..], InFlight(s.threads), InFlight(s.threads[t := th]),
                  multiset(Batch(s.threads[t])), s.added, s.done);
  }

  lemma GrabConserves<T>(q: seq<T>, q': seq<T>, b: seq<T>, f: multiset<T>, f': multiset<T>, mine: multiset<T>, added: multiset<T>, done: multiset<T>)
    requires multiset(q) == multiset(q') + multiset(b) && f' + mine == f + multiset(b)
    requires added + mine == multiset(q) + f + done
    ensures added == multiset(q') + f' + done
  {
    assert added + mine == multiset(q') + (f + multiset(b)) + done;
    assert added + mine == (multiset(q') + f' + done) + mine;
    MultisetCancel(added, multiset(q') + f' + done, mine);
  }

  lemma MultisetCancel<T>(a: multiset<T>, b: multiset<T>, c: multiset<T>)
    requires a + c == b + c
    ensures a == b
  {
    assert a == (a + c) - c && b == (b + c) - c;
  }

  lemma ShareFits(limit: nat, queued: nat, workers: int)
    requires queued > 0 && workers >= 0
    ensures 1 <= BatchSize(limit, queued, workers) <= queued
  {
    assert queued / (workers + 1) <= queued;
  }

  /** The critical section ends well whichever way it ends, and a return has the right answer. */
  lemma SectionInv<T(!new)>(eval: T -> bool, limit: nat, s: State<T>, t: nat)
    requires MidInv(eval, s, t)
    ensures s.nTotal + s.nIdle >= 0 && Inv(eval, Section(limit, s, t))
    ensures Returns(s, t) ==> (s.allOk <==> AllTrue(eval, s.added))
  {
    MidCounts(eval, s, t);
    if s.queue != [] {
      GrabInv(eval, limit, s, t);
    } else {
      var x := if Returns(s, t) then Outside else Waiting(false);
      SumUpdate(s.threads, t, x, IdleOne);
      SumUpdate(s.threads, t, x, InLoopOne);
      GrabInFlight(s, t, 0, x);
      if Returns(s, t) {
        assert InFlight(s.threads[t := x]) == multiset{};
        assert s.added == s.done;
        forall i | 0 <= i < |s.threads| && i != t ensures !s.threads[i].Running? {
          NoneHolds(s.threads[t := x], i);
          assert s.threads[t := x][i] == s.threads[i];
        }
      }
    }
  }

  lemma NoneHolds<T>(ts: seq<Thread<T>>, i: nat)
    requires InFlight(ts) == multiset{} && i < |ts|
    ensures Batch(ts[i]) == []
  {
    InFlightContains(ts, i);
    assert |multiset(Batch(ts[i]))| == 0;
  }

  // ----- every step -----------------------------------------------------------------

  /** The state a critical section works on, once the thread's entry, wake-up or batch is accounted for. */
  ghost function Mid<T>(s: State<T>, step: Step<T>): State<T>
    requires Enabled(s, step) && (step.Enter? || step.Wake? || step.Finish?)
  {
    match step
    case Enter(_) => s.(nTotal := s.nTotal + 1)
    case Wake(_) => s.(nIdle := s.nIdle - 1)
    case Finish(t) => Account(s, t)
  }

  lemma AccountResult<T(!new)>(eval: T -> bool, s: State<T>, t: nat)
    requires Inv(eval, s) && Enabled(s, Finish(t))
    ensures Account(s, t).allOk <==> AllTrue(eval, Account(s, t).done)
  {
    var th := s.threads[t];
    assert ThreadOk(eval, th, s.allOk);
    forall c ensures c in multiset(th.batch) <==> c in th.batch { }
    if Account(s, t).allOk {
      assert forall c :: c in th.batch ==> eval(c);
    } else if s.allOk {
      var j :| 0 <= j < |th.batch| && !eval(th.batch[j]);
      assert th.batch[j] in Account(s, t).done;
    } else {
      var c :| c in s.done && !eval(c);
      assert c in Account(s, t).done;
    }
  }

  lemma NotifyMasterSame<T>(ts: seq<Thread<T>>)
    requires |ts| > 0
    ensures InFlight(NotifyMaster(ts)) == InFlight(ts) && |NotifyMaster(ts)| == |ts|
    ensures Sum(NotifyMaster(ts), IdleOne) == Sum(ts, IdleOne)
    ensures Sum(NotifyMaster(ts), InLoopOne) == Sum(ts, InLoopOne)
  {
    InFlightNotifyAll(ts, NotifyMaster(ts));
    SumSame(ts, NotifyMaster(ts), IdleOne);
    SumSame(ts, NotifyMaster(ts), InLoopOne);
  }

  lemma ThreadOkWeaker<T>(eval: T -> bool, th: Thread<T>, allOk: bool, still: bool)
    requires ThreadOk(eval, th, allOk) && (still ==> allOk)
    ensures ThreadOk(eval, th, still)
  {
  }

  lemma FinishMid<T(!new)>(eval: T -> bool, s: State<T>, t: nat)
    requires Inv(eval, s) && Enabled(s, Finish(t))
    ensures MidInv(eval, Account(s, t), t)
  {
    hide ThreadOk, AllTrue, Sum, InFlight;
    AccountResult(eval, s, t);
    NotifyMasterSame(s.threads);
    InFlightContains(s.threads, t);
    MultisetSize(multiset(Batch(s.threads[t])), InFlight(s.threads));
    var u := Account(s, t);
    forall i | 0 <= i < |u.threads| && i != t ensures ThreadOk(eval, u.threads[i], u.allOk) {
      if u.threads[i] == s.threads[i] {
        ThreadOkWeaker(eval, s.threads[i], s.allOk, u.allOk);
      } else {
        WaitingOk(eval, u.threads[i], u.allOk);
      }
    }
    assert u.threads[t] == s.threads[t];
    assert multiset(s.queue) + InFlight(s.threads) + (s.done + multiset(Batch(s.threads[t])))
        == (multiset(s.queue) + InFlight(s.threads) + s.done) + multiset(Batch(s.threads[t]));
  }

  lemma WaitingOk<T>(eval: T -> bool, th: Thread<T>, allOk: bool)
    requires th.Waiting?
    ensures ThreadOk(eval, th, allOk)
  {
  }

  lemma MidOk<T(!new)>(eval: T -> bool, s: State<T>, step: Step<T>)
    requires Inv(eval, s) && Enabled(s, step) && (step.Enter? || step.Wake? || step.Finish?)
    ensures MidInv(eval, Mid(s, step), step.t)
  {
    if step.Finish? { FinishMid(eval, s, step.t); }
  }

  lemma CountsOk<T(!new)>(eval: T -> bool, s: State<T>, step: Step<T>)
    requires Inv(eval, s) && Enabled(s, step)
    ensures s.nTotal >= 0 && s.nIdle >= 0 && (step.Wake? ==> s.nIdle > 0)
  {
    if step.Wake? { SumAtLeast(s.threads, step.t, IdleOne); }
  }

  lemma RelabelInv<T(!new)>(eval: T -> bool, s: State<T>, us: seq<Thread<T>>)
    requires Inv(eval, s) && |us| == |s.threads|
    requires forall i :: 0 <= i < |us| ==> us[i] == s.threads[i] || (us[i].Waiting? && s.threads[i].Waiting?)
    requires us[MASTER] == s.threads[MASTER] || us[MASTER] == Waiting(true)
    ensures Inv(eval, s.(threads := us))
  {
    InFlightNotifyAll(s.threads, us);
    SumSame(s.threads, us, IdleOne);
    SumSame(s.threads, us, InLoopOne);
  }

  lemma AddInv<T(!new)>(eval: T -> bool, s: State<T>, checks: seq<T>)
    requires Inv(eval, s) && s.threads[MASTER].Outside?
    ensures Inv(eval, s.(queue := s.queue + checks, nTodo := s.nTodo + |checks|, added := s.added + multiset(checks)))
  {
    assert multiset(s.queue + checks) == multiset(s.queue) + multiset(checks);
  }

  lemma EvaluateInv<T(!new)>(eval: T -> bool, s: State<T>, t: nat, x: Thread<T>)
    requires Inv(eval, s) && Enabled(s, Evaluate(t))
    requires var th := s.threads[t]; x == th.(next := th.next + 1, ok := th.ok && eval(th.batch[th.next]))
    ensures Inv(eval, s.(threads := s.threads[t := x]))
  {
    hide InFlight, Sum, AllTrue;
    var us := s.threads[t := x];
    InFlightNotifyAll(s.threads, us);
    SumSame(s.threads, us, IdleOne);
    SumSame(s.threads, us, InLoopOne);
    forall i | 0 <= i < |us| ensures ThreadOk(eval, us[i], s.allOk) {
      assert ThreadOk(eval, s.threads[i], s.allOk);
    }
  }

  /** Every step of every thread keeps the invariant. */
  lemma StepInv<T(!new)>(eval: T -> bool, limit: nat, s: State<T>, step: Step<T>)
    requires Inv(eval, s) && Enabled(s, step)
    ensures s.nTotal >= 0 && s.nIdle >= 0 && (step.Wake? ==> s.nIdle > 0)
    ensures Inv(eval, Next(eval, limit, s, step))
  {
    hide Inv, Sum, InFlight, MidInv, NotifyAll, NotifyOne, Account, Section;
    CountsOk(eval, s, step);
    match step
    case Add(checks, wake) =>
      StepAdd(eval, s, checks, wake);
    case Enter(t) =>
      MidOk(eval, s, step);
      SectionInv(eval, limit, Mid(s, step), t);
    case Wake(t) =>
      MidOk(eval, s, step);
      SectionInv(eval, limit, Mid(s, step), t);
    case Finish(t) =>
      MidOk(eval, s, step);
      SectionInv(eval, limit, Mid(s, step), t);
    case Spurious(t) =>
      StepSpurious(eval, s, t);
    case Evaluate(t) =>
      var th := s.threads[t];
      EvaluateInv(eval, s, t, th.(next := th.next + 1, ok := th.ok && eval(th.batch[th.next])));
  }

  lemma StepSpurious<T(!new)>(eval: T -> bool, s: State<T>, t: nat)
    requires Inv(eval, s) && t < |s.threads| && s.threads[t] == Waiting(false)
    ensures Inv(eval, s.(threads := s.threads[t := Waiting(true)]))
  {
    RelabelInv(eval, s, s.threads[t := Waiting(true)]);
  }

  lemma StepAdd<T(!new)>(eval: T -> bool, s: State<T>, checks: seq<T>, wake: nat)
    requires Inv(eval, s) && s.threads[MASTER].Outside?
    ensures Inv(eval, s.(queue := s.queue + checks, nTodo := s.nTodo + |checks|, added := s.added + multiset(checks),
                         threads := if |checks| == 1 then NotifyOne(s.threads, wake)
                                    else if |checks| > 1 then NotifyAll(s.threads) else s.threads))
  {
    var u := s.(queue := s.queue + checks, nTodo := s.nTodo + |checks|, added := s.added + multiset(checks));
    AddInv(eval, s, checks);
    RelabelInv(eval, u, NotifyOne(s.threads, wake));
    RelabelInv(eval, u, NotifyAll(s.threads));
  }

  // ----- whole runs ---------------------------------------------------------------------

  ghost predicate IsInit<T>(s: State<T>) {
    && |s.threads| > 0 && (forall i :: 0 <= i < |s.threads| ==> s.threads[i].Outside?)
    && s == State([], 0, 0, true, 0, s.threads, multiset{}, multiset{})
  }

  lemma {:induction false} OutsideSums<T>(ts: seq<Thread<T>>)
    requires forall i :: 0 <= i < |ts| ==> ts[i].Outside?
    ensures Sum(ts, IdleOne) == 0 && Sum(ts, InLoopOne) == 0 && InFlight(ts) == multiset{}
  {
    if ts != [] { OutsideSums(ts[1..]); }
  }

  lemma InitInv<T(!new)>(eval: T -> bool, s: State<T>)
    requires IsInit(s)
    ensures Inv(eval, s)
  {
    OutsideSums(s.threads);
  }

  /** A sequence of states joined by steps. */
  ghost predicate IsRun<T(!new)>(eval: T -> bool, limit: nat, states: seq<State<T>>, steps: seq<Step<T>>) {
    && |states| == |steps| + 1 && IsInit(states[0])
    && forall i :: 0 <= i < |steps| ==>
         && Enabled(states[i], steps[i])
         && states[i].nTotal >= 0 && states[i].nIdle >= 0 && (steps[i].Wake? ==> states[i].nIdle > 0)
         && states[i + 1] == Next(eval, limit, states[i], steps[i])
  }

  lemma {:induction false} RunInv<T(!new)>(eval: T -> bool, limit: nat, states: seq<State<T>>, steps: seq<Step<T>>, n: nat)
    requires IsRun(eval, limit, states, steps) && n < |states|
    ensures Inv(eval, states[n])
  {
    if n == 0 {
      InitInv(eval, states[0]);
    } else {
      RunInv(eval, limit, states, steps, n - 1);
      StepInv(eval, limit, states[n - 1], steps[n - 1]);
    }
  }

  /** The master's Wait returns in this step, with this result. */
  ghost predicate WaitReturns<T>(s: State<T>, step: Step<T>) {
    && Enabled(s, step) && (step.Enter? || step.Wake? || step.Finish?)
    && step.t == MASTER && Returns(Mid(s, step), MASTER)
  }

  ghost function WaitResult<T>(s: State<T>, step: Step<T>): bool
    requires WaitReturns(s, step)
  {
    Mid(s, step).allOk
  }

  /**
   * In every run, whenever Wait returns it returns true exactly when every check
   * added since the last return evaluates to true; nothing is then left over.
   */
  lemma WaitIsRight<T(!new)>(eval: T -> bool, limit: nat, states: seq<State<T>>, steps: seq<Step<T>>, n: nat)
    requires IsRun(eval, limit, states, steps) && n < |steps| && WaitReturns(states[n], steps[n])
    ensures WaitResult(states[n], steps[n]) <==> AllTrue(eval, states[n].added)
    ensures var after := states[n + 1]; after.queue == [] && after.nTodo == 0 && after.allOk && InFlight(after.threads) == multiset{}
  {
    RunInv(eval, limit, states, steps, n);
    RunInv(eval, limit, states, steps, n + 1);
    MidOk(eval, states[n], steps[n]);
    SectionInv(eval, limit, Mid(states[n], steps[n]), MASTER);
  }

  /** In every reachable state nTodo is queued plus in-flight, and a blocked master has a worker to wait for. */
  lemma NeverStuck<T(!new)>(eval: T -> bool, limit: nat, states: seq<State<T>>, steps: seq<Step<T>>, n: nat)
    requires IsRun(eval, limit, states, steps) && n < |states|
    ensures states[n].nTodo == |states[n].queue| + |InFlight(states[n].threads)|
    ensures states[n].threads != [] && (states[n].threads[MASTER] == Waiting(false) ==>
              exists w :: MASTER < w < |states[n].threads| && states[n].threads[w].Running?)
    ensures !states[n].threads[MASTER].Outside? ==> exists step: Step<T> :: !step.Spurious? && !step.Add? && Enabled(states[n], step)
  {
    var s := states[n];
    RunInv(eval, limit, states, steps, n);
    var m := s.threads[MASTER];
    if m == Waiting(false) {
      var w := SomeoneHolds(s.threads);
      WorkerCanMove(eval, s, w);
    } else if m.Running? {
      WorkerCanMove(eval, s, MASTER);
    } else if m.Waiting? {
      assert Enabled(s, Wake(MASTER));
    }
  }

  lemma WorkerCanMove<T(!new)>(eval: T -> bool, s: State<T>, w: nat)
    requires Inv(eval, s) && w < |s.threads| && s.threads[w].Running?
    ensures Enabled(s, Evaluate(w)) || Enabled(s, Finish(w))
  {
    assert ThreadOk(eval, s.threads[w], s.allOk);
  }

  // ----- workers are woken ----------------------------------------------------------------

  /**
   * In every run: adding two or more checks leaves no worker asleep, and adding
   * one wakes exactly one sleeping worker if there is any.  Nobody else changes.
   */
  lemma AddWakes<T(!new)>(eval: T -> bool, limit: nat, states: seq<State<T>>, steps: seq<Step<T>>, n: nat)
    requires IsRun(eval, limit, states, steps) && n < |steps| && steps[n].Add?
    ensures var ts, us := states[n].threads, states[n + 1].threads;
            && |us| == |ts|
            && (forall i :: 0 <= i < |ts| && !Asleep(ts, i) ==> us[i] == ts[i])
            && (forall w: nat :: Asleep(ts, w) ==> us[w] == Waiting(false) || us[w] == Waiting(true))
            && (|steps[n].checks| >= 2 ==> forall w: nat :: !Asleep(us, w))
            && (|steps[n].checks| == 1 && (exists w: nat :: Asleep(ts, w)) ==>
                  exists w: nat :: Asleep(ts, w) && us[w] == Waiting(true) && forall v: nat :: Asleep(ts, v) && v != w ==> Asleep(us, v))
            && (steps[n].checks == [] ==> us == ts)
  {
    var ts, us, checks, wake := states[n].threads, states[n + 1].threads, steps[n].checks, steps[n].wake;
    assert Enabled(states[n], steps[n]);
    assert states[n + 1] == Next(eval, limit, states[n], steps[n]);
    if |checks| == 1 && exists w: nat :: Asleep(ts, w) {
      assert Asleep(ts, wake) && us[wake] == Waiting(true);
      forall v: nat | Asleep(ts, v) && v != wake ensures Asleep(us, v) { }
    }
  }

  ghost predicate Awake<T>(ts: seq<Thread<T>>, w: nat) {
    MASTER < w < |ts| && ts[w] != Waiting(false)
  }

  /** With checks in the queue some worker, if there are any, is not asleep. */
  ghost predicate Attended<T>(s: State<T>) {
    s.queue != [] && |s.threads| > 1 ==> exists w: nat :: Awake(s.threads, w)
  }

  lemma SectionAttended<T>(limit: nat, s: State<T>, t: nat)
    requires t < |s.threads| && s.nTotal + s.nIdle >= 0 && Attended(s)
    ensures Attended(Section(limit, s, t)) && |Section(limit, s, t).threads| == |s.threads|
  {
    if s.queue != [] && |s.threads| > 1 {
      var w: nat :| Awake(s.threads, w);
      assert Awake(Section(limit, s, t).threads, w);
    }
  }

  lemma StepAttended<T(!new)>(eval: T -> bool, limit: nat, s: State<T>, step: Step<T>)
    requires Inv(eval, s) && Enabled(s, step) && Attended(s)
    ensures s.nTotal >= 0 && s.nIdle >= 0 && (step.Wake? ==> s.nIdle > 0)
    ensures Attended(Next(eval, limit, s, step))
  {
    hide Inv, Section, NotifyAll, NotifyOne, Attended, Account, MidInv, Sum, InFlight, Pickable;
    CountsOk(eval, s, step);
    match step
    case Add(checks, wake) => AddAttended(eval, limit, s, step);
    case Enter(t) =>
      SameAttended(s, s.(nTotal := s.nTotal + 1));
      SectionAttended(limit, s.(nTotal := s.nTotal + 1), t);
    case Wake(t) =>
      SameAttended(s, s.(nIdle := s.nIdle - 1));
      SectionAttended(limit, s.(nIdle := s.nIdle - 1), t);
    case Spurious(t) => RelabelAttended(s, s.threads[t := Waiting(true)]);
    case Evaluate(t) =>
      var th := s.threads[t];
      RelabelAttended(s, s.threads[t := th.(next := th.next + 1, ok := th.ok && eval(th.batch[th.next]))]);
    case Finish(t) =>
      AccountAttended(s, t);
      MidOk(eval, s, step);
      MidCounts(eval, Account(s, t), t);
      SectionAttended(limit, Account(s, t), t);
  }

  lemma AccountAttended<T>(s: State<T>, t: nat)
    requires t < |s.threads| && s.threads[t].Running? && Attended(s)
    ensures Attended(Account(s, t)) && |Account(s, t).threads| == |s.threads|
  {
    var u := Account(s, t);
    if u.queue != [] && |u.threads| > 1 {
      var w: nat :| Awake(s.threads, w);
      assert Awake(u.threads, w);
    }
  }

  lemma SameAttended<T>(s: State<T>, u: State<T>)
    requires Attended(s) && u.queue == s.queue && u.threads == s.threads
    ensures Attended(u)
  {
  }

  /** Steps that put nobody to sleep. */
  lemma RelabelAttended<T>(s: State<T>, us: seq<Thread<T>>)
    requires Attended(s) && |us| == |s.threads| && forall i :: 0 < i < |us| ==> us[i] == s.threads[i] || us[i] != Waiting(false)
    ensures Attended(s.(threads := us))
  {
    if s.queue != [] && |us| > 1 {
      var w: nat :| Awake(s.threads, w);
      assert Awake(us, w);
    }
  }

  lemma AddAttended<T(!new)>(eval: T -> bool, limit: nat, s: State<T>, step: Step<T>)
    requires step.Add? && Enabled(s, step) && Attended(s) && s.nTotal >= 0 && s.nIdle >= 0
    ensures Attended(Next(eval, limit, s, step))
  {
    var ts, us := s.threads, Next(eval, limit, s, step).threads;
    if |ts| > 1 {
      if w: nat :| Awake(ts, w) {
        assert Awake(us, w);
      } else {
        assert !Awake(ts, 1);
        assert Asleep(ts, 1);
        if |step.checks| == 1 { assert Awake(us, step.wake); }
        if |step.checks| > 1 { assert Awake(us, 1); }
      }
    }
  }

  /** No wake-up is lost: in every state of every run with checks in the queue, not all workers are asleep. */
  lemma {:induction false} NeverAllAsleep<T(!new)>(eval: T -> bool, limit: nat, states: seq<State<T>>, steps: seq<Step<T>>, n: nat)
    requires IsRun(eval, limit, states, steps) && n < |states|
    ensures Attended(states[n])
  {
    hide Inv, Next, Attended;
    if n == 0 {
      EmptyAttended(states[0]);
    } else {
      NeverAllAsleep(eval, limit, states, steps, n - 1);
      RunInv(eval, limit, states, steps, n - 1);
      StepAttended(eval, limit, states[n - 1], steps[n - 1]);
    }
  }

  lemma EmptyAttended<T>(s: State<T>)
    requires s.queue == []
    ensures Attended(s)
  {
  }

  // ----- what a batch is -------------------------------------------------------------------

  lemma {:induction false} ReversedAt<T>(s: seq<T>, i: nat)
    requires i < |s|
    ensures |Reversed(s)| == |s| && Reversed(s)[i] == s[|s| - 1 - i]
  {
    ReversedSame(s);
    if i > 0 {
      ReversedAt(s[..|s| - 1], i - 1);
      assert Reversed(s)[i] == Reversed(s[..|s| - 1])[i - 1];
    }
  }

  /**
   * A thread takes checks from the back, last first: the largest number that is
   * at most the batch limit and an even share of the queue, but at least one.
   */
  lemma GrabTakes<T(!new)>(limit: nat, s: State<T>, t: nat)
    requires s.queue != [] && t < |s.threads| && s.nTotal + s.nIdle >= 0
    ensures var u := Grab(limit, s, t);
            && u.threads[t].Running? && u.threads[t].next == 0 && u.threads[t].ok == s.allOk
            && var batch := u.threads[t].batch;
            && u.queue == s.queue[..|u.queue|] && |u.queue| + |batch| == |s.queue|
            && (forall i :: 0 <= i < |batch| ==> batch[i] == s.queue[|s.queue| - 1 - i])
            && |batch| >= 1
            && (|batch| > 1 ==> |batch| <= limit && |batch| * (s.nTotal + s.nIdle + 1) <= |s.queue|)
            && (|batch| >= limit || (|batch| + 1) * (s.nTotal + s.nIdle + 1) > |s.queue|)
  {
    hide Reversed;
    var k := s.nTotal + s.nIdle + 1;
    ShareFits(limit, |s.queue|, k - 1);
    var m := BatchSize(limit, |s.queue|, k - 1);
    ShareIs(|s.queue|, k, m);
    var taken := s.queue[|s.queue| - m..];
    ReversedSame(taken);
    forall i | 0 <= i < m ensures Reversed(taken)[i] == s.queue[|s.queue| - 1 - i] { ReversedAt(taken, i); }
  }

  lemma ShareIs(queued: nat, k: nat, m: nat)
    requires k > 0
    ensures m <= queued / k ==> m * k <= queued
    ensures m >= queued / k ==> (m + 1) * k > queued
  {
    var q := queued / k;
    assert q * k <= queued < q * k + k;
    if m <= q { assert m * k <= q * k by { assert (q - m) * k >= 0; } }
    if m >= q { assert (m + 1) * k >= (q + 1) * k by { assert (m - q) * k >= 0; } }
  }

  // ----- Wait terminates ----------------------------------------------------------------

  ghost function UnevaluatedOne<T>(th: Thread<T>): nat {
    if th.Running? && th.next <= |th.batch| then |th.batch| - th.next else 0
  }

  ghost function PendingOne<T>(th: Thread<T>): nat {
    if th.Outside? || th == Waiting(true) then 1 else 0
  }

  /** Checks not accounted for, checks not evaluated, checks queued, threads about to look. */
  datatype Rank = Rank(todo: int, unevaluated: int, queued: int, pending: int)

  ghost function RankOf<T>(s: State<T>): Rank {
    Rank(s.nTodo, |s.queue| + Sum(s.threads, UnevaluatedOne), |s.queue|, Sum(s.threads, PendingOne))
  }

  ghost predicate Below(a: Rank, b: Rank) {
    && a.todo >= 0 && a.unevaluated >= 0 && a.queued >= 0 && a.pending >= 0
    && (a.todo < b.todo || (a.todo == b.todo &&
        (a.unevaluated < b.unevaluated || (a.unevaluated == b.unevaluated &&
         (a.queued < b.queued || (a.queued == b.queued && a.pending < b.pending))))))
  }

  /** A section entered from outside or from a wake-up either grabs work or goes quiet. */
  lemma SectionRank<T(!new)>(eval: T -> bool, limit: nat, s: State<T>, t: nat)
    requires MidInv(eval, s, t) && !Returns(s, t) && PendingOne(s.threads[t]) == 1
    ensures s.nTotal + s.nIdle >= 0 && Below(RankOf(Section(limit, s, t)), RankOf(s))
  {
    hide MidInv, InFlight, Sum, BatchSize, Grab;
    MidCounts(eval, s, t);
    MidShape(eval, s, t);
    if s.queue == [] {
      SumUpdate(s.threads, t, Waiting(false), UnevaluatedOne);
      SumUpdate(s.threads, t, Waiting(false), PendingOne);
    } else {
      GrabRank(limit, s, t);
    }
  }

  /** A batch moves from the queue to a thread: as much to evaluate, less in the queue. */
  lemma GrabRank<T(!new)>(limit: nat, s: State<T>, t: nat)
    requires s.queue != [] && t < |s.threads| && s.nTotal + s.nIdle >= 0 && s.nTodo >= 0 && PendingOne(s.threads[t]) == 1
    ensures Below(RankOf(Grab(limit, s, t)), RankOf(s))
  {
    hide Sum, BatchSize;
    ShareFits(limit, |s.queue|, s.nTotal + s.nIdle);
    var rest := |s.queue| - BatchSize(limit, |s.queue|, s.nTotal + s.nIdle);
    ReversedSame(s.queue[rest..]);
    SumUpdate(s.threads, t, Running(Reversed(s.queue[rest..]), 0, s.allOk, s.allOk), UnevaluatedOne);
  }

  /**
   * While Wait is in progress every step other than a spurious wake-up either
   * returns or brings the state down in a well-founded order, so without
   * endless spurious wake-ups Wait returns.
   */
  lemma WaitProgresses<T(!new)>(eval: T -> bool, limit: nat, s: State<T>, step: Step<T>)
    requires Inv(eval, s) && Enabled(s, step) && !s.threads[MASTER].Outside?
    requires !step.Spurious? && !WaitReturns(s, step)
    ensures s.nTotal >= 0 && s.nIdle >= 0 && (step.Wake? ==> s.nIdle > 0)
    ensures Below(RankOf(Next(eval, limit, s, step)), RankOf(s))
  {
    CountsOk(eval, s, step);
    match step
    case Enter(t) =>
      MidOk(eval, s, step);
      SectionRank(eval, limit, Mid(s, step), t);
    case Wake(t) =>
      MidOk(eval, s, step);
      SectionRank(eval, limit, Mid(s, step), t);
    case Finish(t) =>
      FinishRank(eval, limit, s, t);
    case Evaluate(t) =>
      var th := s.threads[t];
      SumUpdate(s.threads, t, th.(next := th.next + 1, ok := th.ok && eval(th.batch[th.next])), UnevaluatedOne);
  }

  lemma FinishRank<T(!new)>(eval: T -> bool, limit: nat, s: State<T>, t: nat)
    requires Inv(eval, s) && Enabled(s, Finish(t))
    ensures var u := Account(s, t); u.nTotal + u.nIdle >= 0 && 0 <= Section(limit, u, t).nTodo < s.nTodo
  {
    assert ThreadOk(eval, s.threads[t], s.allOk);
    FinishMid(eval, s, t);
    MidCounts(eval, Account(s, t), t);
  }
}
