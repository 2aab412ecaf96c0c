/** The parallel check queue (src/checkqueue.h:72-189) as a transition system. Every critical
    section is one step, and so is every single check. Thread 0 is the master; the others are
    workers. */
module CheckQueue {
  import opened Options
  import LimbNumbers

  type Error = nat

  /** A check, with what running it gives. */
  datatype Check = Check(id: nat, outcome: Option<Error>)

  /** Where a thread is in Loop, with its local variables. */
  datatype Thread =
    | Outside
      /** about to take the lock; batch are the checks it went through since it last held it */
    | Entering(batch: seq<Check>, local: Option<Error>)
    | Waiting(local: Option<Error>)
    | Woken(local: Option<Error>)
      /** next is the check to run, unless there is no work to do */
    | Working(batch: seq<Check>, next: nat, doWork: bool, local: Option<Error>)
  {
    function InFlight(): seq<Check> {
      if Entering? || Working? then batch else []
    }
    predicate Awake() { !Outside? && !Waiting? }
    predicate Asleep() { Waiting? || Woken? }
    /** Past its first critical section. */
    predicate Counted() { Waiting? || Woken? || Working? || (Entering? && batch != []) }
  }

  datatype Round = Round(result: Option<Error>, checks: seq<Check>)

  datatype State = State(
    batchSize: nat,
    queue: seq<Check>,
    nIdle: nat,
    nTotal: nat,
    result: Option<Error>,
    nTodo: nat,
    threads: seq<Thread>,
    added: seq<Check>,      // all checks added in this round
    rounds: seq<Round>      // what earlier calls of Complete returned
  )

  // ---------------------------------------------------------------------------------------
  // Steps

  function Clamp(batchSize: nat, n: nat): (r: nat)
    ensures 1 <= r && (r == 1 || r <= n)
  {
    var m := if batchSize < n then batchSize else n;
    if m < 1 then 1 else m
  }

  /** A worker that completes the last check wakes the master. */
  function NotifyMaster(threads: seq<Thread>): (r: seq<Thread>)
    ensures |r| == |threads|
  {
    if threads != [] && threads[0].Waiting? then threads[0 := Woken(threads[0].local)] else threads
  }

  /** The first part of the critical section: hand in the result of the last batch. */
  function HandIn(s: State, i: nat): State
    requires i < |s.threads| && (s.threads[i].Entering? || s.threads[i].Woken?)
    requires s.threads[i].Entering? ==> |s.threads[i].batch| <= s.nTodo
    requires s.threads[i].Woken? ==> s.nIdle > 0
  {
    var t := s.threads[i];
    if t.Woken? then s.(nIdle := s.nIdle - 1, threads := s.threads[i := Entering([], t.local)])
    else if t.batch == [] then s.(nTotal := s.nTotal + 1)
    else
      var swap := t.local.Some? && s.result.None?;
      var todo := s.nTodo - |t.batch|;
      var threads := s.threads[i := Entering([], if swap then s.result else t.local)];
      s.(result := if swap then t.local else s.result, nTodo := todo,
         threads := if todo == 0 && i != 0 then NotifyMaster(threads) else threads)
  }

  /** The second part: take a batch, wait, or return. */
  function Decide(s: State, i: nat): State
    requires i < |s.threads| && s.threads[i].Entering?
  {
    var local := s.threads[i].local;
    if s.queue == [] then
      if i == 0 && s.nTodo == 0 then
        s.(nTotal := if s.nTotal == 0 then 0 else s.nTotal - 1, result := None, threads := s.threads[0 := Outside],
           added := [], rounds := s.rounds + [Round(s.result, s.added)])
      else
        s.(nIdle := s.nIdle + 1, threads := s.threads[i := Waiting(local)])
    else
      var n := Clamp(s.batchSize, |s.queue| / (s.nTotal + s.nIdle + 1));
      var k := if n <= |s.queue| then |s.queue| - n else 0;
      s.(queue := s.queue[..k], threads := s.threads[i := Working(s.queue[k..], 0, s.result.None?, local)])
  }

  /** A thread that holds the lock from entry to its next wait, batch or return. */
  ghost predicate LockStep(s: State, s2: State, i: nat) {
    && i < |s.threads| && (s.threads[i].Entering? || s.threads[i].Woken?)
    && (s.threads[i].Entering? ==> |s.threads[i].batch| <= s.nTodo)
    && (s.threads[i].Woken? ==> s.nIdle > 0)
    && HandIn(s, i).threads[i].Entering?
    && s2 == Decide(HandIn(s, i), i)
  }

  /** A thread runs the next check of its batch, or is done with the batch. */
  function Run(t: Thread): Thread
    requires t.Working?
  {
    if t.doWork && t.next < |t.batch| && (t.next == 0 || t.local.None?) then
      t.(local := t.batch[t.next].outcome, next := t.next + 1)
    else
      Entering(t.batch, t.local)
  }

  ghost predicate RunStep(s: State, s2: State, i: nat) {
    && i < |s.threads| && s.threads[i].Working?
    && s2 == s.(threads := s.threads[i := Run(s.threads[i])])
  }

  /** The master, outside of Complete, adds checks and wakes workers: one of those that wait if
      it adds a single check, and else all. */
  ghost predicate AddStep(s: State, s2: State, checks: seq<Check>) {
    && s.threads != [] && s.threads[0].Outside? && checks != []
    && s2 == s.(queue := s.queue + checks, nTodo := s.nTodo + |checks|, added := s.added + checks,
        threads := s2.threads)
    && Notified(s.threads, s2.threads)
    && (if |checks| == 1 then AtMostOneWoken(s.threads, s2.threads)
        else forall i :: 0 <= i < |s2.threads| ==> !s2.threads[i].Waiting?)
  }

  ghost predicate Notified(ts: seq<Thread>, us: seq<Thread>) {
    |us| == |ts| && forall i :: 0 <= i < |ts| ==> us[i] == ts[i] || (ts[i].Waiting? && us[i] == Woken(ts[i].local))
  }

  ghost predicate AtMostOneWoken(ts: seq<Thread>, us: seq<Thread>)
    requires |us| == |ts|
  {
    && (forall i, j :: 0 <= i < |ts| && 0 <= j < |ts| && us[i] != ts[i] && us[j] != ts[j] ==> i == j)
    && (us == ts ==> forall i :: 0 <= i < |ts| ==> !ts[i].Waiting?)
  }

  /** The master calls Complete. */
  ghost predicate CompleteStep(s: State, s2: State) {
    && s.threads != [] && s.threads[0].Outside?
    && s2 == s.(threads := s.threads[0 := Entering([], None)])
  }

  /** A thread wakes up without having been notified. */
  ghost predicate SpuriousStep(s: State, s2: State, i: nat) {
    && i < |s.threads| && s.threads[i].Waiting?
    && s2 == s.(threads := s.threads[i := Woken(s.threads[i].local)])
  }

  ghost predicate Next(s: State, s2: State) {
    || (exists i :: LockStep(s, s2, i))
    || (exists i :: RunStep(s, s2, i))
    || (exists checks :: AddStep(s, s2, checks))
    || CompleteStep(s, s2)
    || (exists i :: SpuriousStep(s, s2, i))
  }

  /** The master is outside and the workers start. */
  ghost predicate Init(s: State) {
    && s.queue == [] && s.nIdle == 0 && s.nTotal == 0 && s.result == None && s.nTodo == 0 && s.added == []
        && s.rounds == []
    && |s.threads| >= 1 && s.threads[0] == Outside
    && forall i :: 1 <= i < |s.threads| ==> s.threads[i] == Entering([], None)
  }

  ghost predicate IsRun(b: seq<State>) {
    && b != [] && Init(b[0])
    && forall k :: 0 <= k < |b| - 1 ==> Next(b[k], b[k + 1])
  }

  // ---------------------------------------------------------------------------------------
  // Sums over threads

  function FlightOf(t: Thread): nat { |t.InFlight()| }
  function AsleepOf(t: Thread): nat { if t.Asleep() then 1 else 0 }
  function CountedOf(t: Thread): nat { if t.Counted() then 1 else 0 }

  ghost function Sum(ts: seq<Thread>, f: Thread -> nat): nat {
    if ts == [] then 0 else Sum(ts[..|ts| - 1], f) + f(ts[|ts| - 1])
  }

  /** How often c is in a batch in flight. */
  ghost function Flying(ts: seq<Thread>, c: Check): nat {
    if ts == [] then 0 else Flying(ts[..|ts| - 1], c) + Times(ts[|ts| - 1].InFlight(), c)
  }

  ghost function Times(checks: seq<Check>, c: Check): nat {
    multiset(checks)[c]
  }

  lemma {:induction false} SumUpdate(ts: seq<Thread>, f: Thread -> nat, i: nat, t: Thread)
    requires i < |ts|
    ensures Sum(ts[i := t], f) + f(ts[i]) == Sum(ts, f) + f(t)
  {
    var n := |ts| - 1;
    if i < n {
      SumUpdate(ts[..n], f, i, t);
      assert ts[i := t][..n] == ts[..n][i := t];
    } else {
      assert ts[i := t][..n] == ts[..n];
    }
  }

  lemma {:induction false} SumAt(ts: seq<Thread>, f: Thread -> nat, i: nat)
    requires i < |ts|
    ensures f(ts[i]) <= Sum(ts, f)
  {
    if i < |ts| - 1 {
      SumAt(ts[..|ts| - 1], f, i);
    }
  }

  lemma {:induction false} SomeInFlight(ts: seq<Thread>, f: Thread -> nat) returns (i: nat)
    requires Sum(ts, f) > 0
    ensures i < |ts| && f(ts[i]) > 0
  {
    if f(ts[|ts| - 1]) > 0 {
      i := |ts| - 1;
    } else {
      i := SomeInFlight(ts[..|ts| - 1], f);
    }
  }

  lemma {:induction false} FlyingUpdate(ts: seq<Thread>, i: nat, t: Thread, c: Check)
    requires i < |ts|
    ensures Flying(ts[i := t], c) + Times(ts[i].InFlight(), c) == Flying(ts, c) + Times(t.InFlight(), c)
  {
    hide Times;
    var n := |ts| - 1;
    if i < n {
      FlyingUpdate(ts[..n], i, t, c);
      assert ts[i := t][..n] == ts[..n][i := t];
    } else {
      assert ts[i := t][..n] == ts[..n];
    }
  }

  lemma {:induction false} NothingInFlight(ts: seq<Thread>, c: Check)
    requires Sum(ts, FlightOf) == 0
    ensures Flying(ts, c) == 0
  {
    if ts != [] {
      NothingInFlight(ts[..|ts| - 1], c);
      assert ts[|ts| - 1].InFlight() == [];
    }
  }

  /** Waking threads up changes only who is waiting. */
  lemma {:induction false} NotifiedSums(ts: seq<Thread>, us: seq<Thread>)
    requires Notified(ts, us)
    ensures Sum(us, FlightOf) == Sum(ts, FlightOf) && Sum(us, AsleepOf) == Sum(ts, AsleepOf)
    ensures Sum(us, CountedOf) == Sum(ts, CountedOf)
  {
    if ts != [] {
      var n := |ts| - 1;
      assert us[n] == ts[n] || (ts[n].Waiting? && us[n] == Woken(ts[n].local));
      NotifiedSums(ts[..n], us[..n]);
    }
  }

  lemma {:induction false} NotifiedFlying(ts: seq<Thread>, us: seq<Thread>, c: Check)
    requires Notified(ts, us)
    ensures Flying(us, c) == Flying(ts, c)
  {
    if ts != [] {
      var n := |ts| - 1;
      assert us[n] == ts[n] || (ts[n].Waiting? && us[n] == Woken(ts[n].local));
      NotifiedFlying(ts[..n], us[..n], c);
    }
  }

  // ---------------------------------------------------------------------------------------
  // The invariant

  ghost predicate AllPassed(checks: seq<Check>) {
    forall c :: c in checks ==> c.outcome.None?
  }

  ghost predicate FailsIn(checks: seq<Check>, e: Error) {
    exists c :: c in checks && c.outcome == Some(e)
  }

  /** local is what running the checks in order until the first error gives. */
  ghost predicate Tells(checks: seq<Check>, local: Option<Error>) {
    match local
    case None => AllPassed(checks)
    case Some(e) => FailsIn(checks, e)
  }

  /** What a thread knows about its batch, given the shared result. Where it skips its batch, its
      local result may be left over from before, but then there is a shared result already. */
  ghost predicate ThreadOk(t: Thread, result: Option<Error>) {
    match t
    case Entering(batch, local) => batch == [] || result.Some? || Tells(batch, local)
    case Working(batch, next, doWork, local) =>
      && batch != [] && next <= |batch|
      && (if doWork then next == 0 || Tells(batch[..next], local) else next == 0 && result.Some?)
    case _ => true
  }

  ghost function Pending(s: State, c: Check): nat {
    Times(s.queue, c) + Flying(s.threads, c)
  }

  /** c is pending no more often than it was added, and unless there is a result, it passed if it
      is pending less often. */
  ghost predicate CheckOk(s: State, c: Check) {
    && Pending(s, c) <= Times(s.added, c)
    && (s.result.None? && Pending(s, c) < Times(s.added, c) ==> c.outcome.None?)
  }

  ghost predicate Counts(s: State, extra: nat) {
    && s.nTodo == |s.queue| + Sum(s.threads, FlightOf)
    && s.nIdle == Sum(s.threads, AsleepOf)
    && s.nTotal == Sum(s.threads, CountedOf) + extra
  }

  ghost predicate Results(s: State) {
    && (forall c :: CheckOk(s, c))
    && (s.result.Some? ==> FailsIn(s.added, s.result.value))
    && (forall i :: 0 <= i < |s.threads| ==> ThreadOk(s.threads[i], s.result))
  }

  /** What Complete promises about a round. */
  ghost predicate RightResult(r: Round) {
    && (r.result.None? <==> AllPassed(r.checks))
    && (r.result.Some? ==> FailsIn(r.checks, r.result.value))
  }

  ghost predicate RoundsRight(rounds: seq<Round>) {
    forall r :: r in rounds ==> RightResult(r)
  }

  /** Where the master waits, there are checks in flight, and none left to take. */
  ghost predicate MasterOk(s: State) {
    && s.threads != []
    && (s.threads[0].Waiting? ==> s.queue == [] && s.nTodo > 0)
  }

  ghost predicate Inv(s: State) {
    Counts(s, 0) && Results(s) && RoundsRight(s.rounds) && MasterOk(s)
  }

  // ---------------------------------------------------------------------------------------
  // Every step keeps it

  lemma {:induction false} InitInv(s: State)
    requires Init(s)
    ensures Inv(s)
  {
    StartSums(s.threads);
    forall c
      ensures CheckOk(s, c)
    {
      NothingInFlight(s.threads, c);
    }
  }

  lemma {:induction false} StartSums(ts: seq<Thread>)
    requires forall i :: 0 <= i < |ts| ==> ts[i] == Outside || ts[i] == Entering([], None)
    ensures Sum(ts, FlightOf) == Sum(ts, AsleepOf) == Sum(ts, CountedOf) == 0
  {
    if ts != [] {
      StartSums(ts[..|ts| - 1]);
      assert ts[|ts| - 1] == Outside || ts[|ts| - 1] == Entering([], None);
    }
  }

  /** A step of one thread that leaves its batch and the shared state alone. */
  lemma {:induction false} ThreadStep(s: State, i: nat, u: Thread)
    requires Inv(s) && i < |s.threads| && u.InFlight() == s.threads[i].InFlight() && ThreadOk(u, s.result)
    requires u.Asleep() == s.threads[i].Asleep() && u.Counted() == s.threads[i].Counted() && !u.Waiting?
    ensures Inv(s.(threads := s.threads[i := u]))
  {
    hide Flying, Times, Sum, RoundsRight, ThreadOk, FailsIn;
    SumUpdate(s.threads, FlightOf, i, u);
    SumUpdate(s.threads, AsleepOf, i, u);
    SumUpdate(s.threads, CountedOf, i, u);
    var s2 := s.(threads := s.threads[i := u]);
    forall c
      ensures CheckOk(s2, c)
    {
      assert CheckOk(s, c);
      FlyingUpdate(s.threads, i, u, c);
    }
  }

  lemma {:induction false} RunInv(s: State, s2: State, i: nat)
    requires Inv(s) && RunStep(s, s2, i)
    ensures Inv(s2)
  {
    assert ThreadOk(s.threads[i], s.result);
    hide Inv, ThreadOk, Run;
    RunOk(s.threads[i], s.result);
    ThreadStep(s, i, Run(s.threads[i]));
  }

  lemma {:induction false} RunOk(t: Thread, result: Option<Error>)
    requires t.Working? && ThreadOk(t, result)
    ensures ThreadOk(Run(t), result) && Run(t).InFlight() == t.InFlight() && Run(t).Counted() && !Run(t).Asleep()
  {
    var n := t.next;
    if t.doWork && n < |t.batch| && (n == 0 || t.local.None?) {
      assert t.batch[..n + 1] == t.batch[..n] + [t.batch[n]];
      assert t.batch[n] in t.batch[..n + 1];
    } else if t.doWork {
      if t.local.Some? {
        var c :| c in t.batch[..n] && c.outcome == t.local;
        assert c in t.batch;
      } else {
        assert t.batch[..n] == t.batch;
      }
    }
  }

  lemma {:induction false} AddInv(s: State, s2: State, checks: seq<Check>)
    requires Inv(s) && AddStep(s, s2, checks)
    ensures Inv(s2)
  {
    hide Flying, Sum, RoundsRight, Tells, AtMostOneWoken;
    NotifiedSums(s.threads, s2.threads);
    forall c
      ensures CheckOk(s2, c)
    {
      assert CheckOk(s, c);
      NotifiedFlying(s.threads, s2.threads, c);
    }
    forall i | 0 <= i < |s2.threads|
      ensures ThreadOk(s2.threads[i], s2.result)
    {
      assert ThreadOk(s.threads[i], s.result);
    }
  }

  lemma {:induction false} CompleteInv(s: State, s2: State)
    requires Inv(s) && CompleteStep(s, s2)
    ensures Inv(s2)
  {
    hide Inv;
    ThreadStep(s, 0, Entering([], None));
  }

  lemma {:induction false} SpuriousInv(s: State, s2: State, i: nat)
    requires Inv(s) && SpuriousStep(s, s2, i)
    ensures Inv(s2)
  {
    hide Inv;
    ThreadStep(s, i, Woken(s.threads[i].local));
  }

  // ---------------------------------------------------------------------------------------
  // Inside the critical section

  /** The state between the two parts of the critical section of thread i. */
  ghost predicate Mid(s: State, i: nat) {
    && i < |s.threads| && s.threads[i].Entering? && s.threads[i].batch == []
    && Counts(s, 1) && Results(s) && RoundsRight(s.rounds) && MasterOk(s)
  }

  /** Thread i becomes Entering([], local), and nothing is said yet about its old batch. */
  lemma {:induction false} Released(ts: seq<Thread>, i: nat, local: Option<Error>)
    requires i < |ts| && (ts[i].Entering? || ts[i].Woken?)
    ensures var us := ts[i := Entering([], local)];
            && Sum(us, FlightOf) == Sum(ts, FlightOf) - FlightOf(ts[i])
            && Sum(us, AsleepOf) == Sum(ts, AsleepOf) - AsleepOf(ts[i])
            && Sum(us, CountedOf) == Sum(ts, CountedOf) - CountedOf(ts[i])
  {
    hide Sum;
    var u := Entering([], local);
    SumUpdate(ts, FlightOf, i, u);
    SumUpdate(ts, AsleepOf, i, u);
    SumUpdate(ts, CountedOf, i, u);
  }

  lemma {:induction false} ReleasedFlying(ts: seq<Thread>, i: nat, local: Option<Error>, c: Check)
    requires i < |ts|
    ensures Flying(ts[i := Entering([], local)], c) + Times(ts[i].InFlight(), c) == Flying(ts, c)
  {
    hide Flying;
    FlyingUpdate(ts, i, Entering([], local), c);
  }

  lemma {:induction false} WokenMid(s: State, i: nat)
    requires Inv(s) && i < |s.threads| && s.threads[i].Woken? && s.nIdle > 0
    ensures Mid(HandIn(s, i), i)
  {
    hide Flying, Times, Sum, RoundsRight, FailsIn;
    var t := s.threads[i];
    Released(s.threads, i, t.local);
    var s2 := HandIn(s, i);
    forall c
      ensures CheckOk(s2, c)
    {
      assert CheckOk(s, c);
      ReleasedFlying(s.threads, i, t.local, c);
      NoTimes(c);
    }
  }

  lemma NoTimes(c: Check)
    ensures Times([], c) == 0
  {
  }

  lemma {:induction false} FirstMid(s: State, i: nat)
    requires Inv(s) && i < |s.threads| && s.threads[i].Entering? && s.threads[i].batch == []
    ensures Mid(HandIn(s, i), i)
  {
    hide Sum, RoundsRight, FailsIn, ThreadOk;
    var s2 := HandIn(s, i);
    forall c
      ensures CheckOk(s2, c)
    {
      assert CheckOk(s, c);
    }
  }

  /** The state after handing in a batch, before anyone is notified. */
  function Handed(s: State, i: nat): State
    requires i < |s.threads| && s.threads[i].Entering? && |s.threads[i].batch| <= s.nTodo
  {
    var t := s.threads[i];
    var swap := t.local.Some? && s.result.None?;
    s.(result := if swap then t.local else s.result, nTodo := s.nTodo - |t.batch|,
       threads := s.threads[i := Entering([], if swap then s.result else t.local)])
  }

  lemma {:induction false} HandedCheck(s: State, i: nat, c: Check)
    requires Inv(s) && i < |s.threads| && s.threads[i].Entering? && |s.threads[i].batch| <= s.nTodo
    requires s.threads[i].batch != []
    ensures CheckOk(Handed(s, i), c)
  {
    hide Flying, Sum, RoundsRight, FailsIn;
    var t := s.threads[i];
    assert CheckOk(s, c) && ThreadOk(t, s.result);
    ReleasedFlying(s.threads, i, Handed(s, i).threads[i].local, c);
    assert Times(t.batch, c) > 0 ==> c in t.batch;
  }

  lemma {:induction false} HandedResult(s: State, i: nat)
    requires Inv(s) && i < |s.threads| && s.threads[i].Entering? && |s.threads[i].batch| <= s.nTodo
    requires s.threads[i].batch != []
    ensures Handed(s, i).result.Some? ==> FailsIn(s.added, Handed(s, i).result.value)
  {
    hide Flying, Sum, RoundsRight;
    var t := s.threads[i];
    if t.local.Some? && s.result.None? {
      assert ThreadOk(t, s.result);
      var c :| c in t.batch && c.outcome == t.local;
      assert CheckOk(s, c);
      ReleasedFlying(s.threads, i, None, c);
      assert Times(t.batch, c) > 0;
      assert c in s.added;
    }
  }

  lemma {:induction false} HandedMid(s: State, i: nat)
    requires Inv(s) && i < |s.threads| && s.threads[i].Entering? && |s.threads[i].batch| <= s.nTodo
    requires s.threads[i].batch != []
    ensures Counts(Handed(s, i), 1) && Results(Handed(s, i))
  {
    hide Flying, Times, Sum, RoundsRight, FailsIn, CheckOk;
    var s2 := Handed(s, i);
    Released(s.threads, i, s2.threads[i].local);
    HandedResult(s, i);
    forall c
      ensures CheckOk(s2, c)
    {
      HandedCheck(s, i, c);
    }
    forall j | 0 <= j < |s2.threads|
      ensures ThreadOk(s2.threads[j], s2.result)
    {
      assert ThreadOk(s.threads[j], s.result);
    }
  }

  lemma NotifyIsNotified(ts: seq<Thread>)
    ensures Notified(ts, NotifyMaster(ts))
    ensures ts != [] ==> !NotifyMaster(ts)[0].Waiting?
  {
  }

  lemma {:induction false} WakeKeeps(s: State, us: seq<Thread>, extra: nat)
    requires Counts(s, extra) && Results(s) && Notified(s.threads, us)
    ensures Counts(s.(threads := us), extra) && Results(s.(threads := us))
  {
    hide Flying, Times, Sum, FailsIn, Tells;
    NotifiedSums(s.threads, us);
    var s2 := s.(threads := us);
    forall c
      ensures CheckOk(s2, c)
    {
      assert CheckOk(s, c);
      NotifiedFlying(s.threads, us, c);
    }
    forall j | 0 <= j < |us|
      ensures ThreadOk(us[j], s.result)
    {
      assert ThreadOk(s.threads[j], s.result);
    }
  }

  lemma {:induction false} BatchMid(s: State, i: nat)
    requires Inv(s) && i < |s.threads| && s.threads[i].Entering? && |s.threads[i].batch| <= s.nTodo
    requires s.threads[i].batch != []
    ensures Mid(HandIn(s, i), i)
  {
    HandedMid(s, i);
    hide Counts, Results, RoundsRight;
    var h := Handed(s, i);
    if h.nTodo == 0 && i != 0 {
      NotifyIsNotified(h.threads);
      WakeKeeps(h, NotifyMaster(h.threads), 1);
      assert HandIn(s, i) == h.(threads := NotifyMaster(h.threads));
    } else {
      assert HandIn(s, i) == h;
    }
  }

  lemma {:induction false} ReturnInv(s: State)
    requires Mid(s, 0) && s.queue == [] && s.nTodo == 0
    ensures Inv(Decide(s, 0))
  {
    hide Flying, Sum, FailsIn, RoundsRight;
    var s2 := Decide(s, 0);
    var ts := s.threads;
    SumUpdate(ts, FlightOf, 0, Outside);
    SumUpdate(ts, AsleepOf, 0, Outside);
    SumUpdate(ts, CountedOf, 0, Outside);
    forall c
      ensures CheckOk(s2, c)
    {
      NothingInFlight(s2.threads, c);
    }
    forall j | 0 <= j < |s2.threads|
      ensures ThreadOk(s2.threads[j], s2.result)
    {
      SumAt(ts, FlightOf, j);
      assert ThreadOk(ts[j], s.result);
    }
    RoundRight(s);
    assert s2.rounds == s.rounds + [Round(s.result, s.added)];
    RoundsMore(s.rounds, Round(s.result, s.added));
  }

  /** When nothing is left, the shared result is the result of the round. */
  lemma {:induction false} RoundRight(s: State)
    requires Results(s) && s.queue == [] && Sum(s.threads, FlightOf) == 0
    ensures RightResult(Round(s.result, s.added))
  {
    hide Flying, Sum;
    if s.result.None? {
      forall c | c in s.added
        ensures c.outcome.None?
      {
        assert CheckOk(s, c);
        NothingInFlight(s.threads, c);
        NoTimes(c);
      }
    }
  }

  lemma RoundsMore(rounds: seq<Round>, r: Round)
    requires RoundsRight(rounds) && RightResult(r)
    ensures RoundsRight(rounds + [r])
  {
    hide RightResult;
  }

  lemma {:induction false} WaitInv(s: State, i: nat)
    requires Mid(s, i) && s.queue == [] && !(i == 0 && s.nTodo == 0)
    ensures Inv(Decide(s, i))
  {
    hide Flying, Times, Sum, FailsIn, RoundsRight;
    var s2, u := Decide(s, i), Waiting(s.threads[i].local);
    SumUpdate(s.threads, FlightOf, i, u);
    SumUpdate(s.threads, AsleepOf, i, u);
    SumUpdate(s.threads, CountedOf, i, u);
    forall c
      ensures CheckOk(s2, c)
    {
      assert CheckOk(s, c);
      FlyingUpdate(s.threads, i, u, c);
    }
  }

  /** The size of a batch never exceeds the queue. */
  lemma BatchFits(s: State)
    requires s.queue != []
    ensures Clamp(s.batchSize, |s.queue| / (s.nTotal + s.nIdle + 1)) <= |s.queue|
  {
    hide Clamp;
    QuotientFits(|s.queue|, s.nTotal + s.nIdle + 1);
  }

  lemma {:induction false} QuotientFits(q: nat, k: nat)
    requires k >= 1
    ensures q / k <= q
  {
    var d, r := q / k, q % k;
    assert q == d * k + r;
    assert 1 * d <= k * d by {
      LimbNumbers.MulMono(1, k, d);
    }
  }

  lemma {:induction false} TakeInv(s: State, i: nat)
    requires Mid(s, i) && s.queue != []
    ensures Inv(Decide(s, i))
  {
    hide Flying, Sum, FailsIn, RoundsRight, Times;
    BatchFits(s);
    var k := |s.queue| - Clamp(s.batchSize, |s.queue| / (s.nTotal + s.nIdle + 1));
    var s2, u := Decide(s, i), Working(s.queue[k..], 0, s.result.None?, s.threads[i].local);
    assert s2.threads == s.threads[i := u] && s2.queue == s.queue[..k];
    SumUpdate(s.threads, FlightOf, i, u);
    SumUpdate(s.threads, AsleepOf, i, u);
    SumUpdate(s.threads, CountedOf, i, u);
    forall c
      ensures CheckOk(s2, c)
    {
      assert CheckOk(s, c);
      FlyingUpdate(s.threads, i, u, c);
      TimesSplit(s.queue, k, c);
      NoTimes(c);
    }
  }

  lemma TimesSplit(q: seq<Check>, k: nat, c: Check)
    requires k <= |q|
    ensures Times(q, c) == Times(q[..k], c) + Times(q[k..], c)
  {
    assert q == q[..k] + q[k..];
  }

  lemma {:induction false} LockInv(s: State, s2: State, i: nat)
    requires Inv(s) && LockStep(s, s2, i)
    ensures Inv(s2)
  {
    hide Inv, Mid, Decide, HandIn;
    var t := s.threads[i];
    if t.Woken? {
      WokenMid(s, i);
    } else if t.batch == [] {
      FirstMid(s, i);
    } else {
      BatchMid(s, i);
    }
    var m := HandIn(s, i);
    if m.queue != [] {
      TakeInv(m, i);
    } else if i == 0 && m.nTodo == 0 {
      ReturnInv(m);
    } else {
      WaitInv(m, i);
    }
  }

  // ---------------------------------------------------------------------------------------
  // Runs

  lemma {:induction false} NextInv(s: State, s2: State)
    requires Inv(s) && Next(s, s2)
    ensures Inv(s2)
  {
    hide Inv, LockStep, RunStep, AddStep, CompleteStep, SpuriousStep;
    if i :| LockStep(s, s2, i) {
      LockInv(s, s2, i);
    } else if i :| RunStep(s, s2, i) {
      RunInv(s, s2, i);
    } else if checks :| AddStep(s, s2, checks) {
      AddInv(s, s2, checks);
    } else if CompleteStep(s, s2) {
      CompleteInv(s, s2);
    } else {
      var i :| SpuriousStep(s, s2, i);
      SpuriousInv(s, s2, i);
    }
  }

  /** In every state of every run, nTodo counts the checks that are queued or in flight, and
      every call of Complete so far returned nothing exactly when all checks of its round passed,
      and else the error of one of them. */
  lemma {:induction false} RunSafe(b: seq<State>, k: nat)
    requires IsRun(b) && k < |b|
    ensures Inv(b[k])
    ensures b[k].nTodo == |b[k].queue| + Sum(b[k].threads, FlightOf)
    ensures forall r :: r in b[k].rounds ==> RightResult(r)
  {
    if k == 0 {
      InitInv(b[0]);
    } else {
      RunSafe(b, k - 1);
      assert Next(b[k - 1], b[k - 1 + 1]);
      NextInv(b[k - 1], b[k]);
    }
  }

  // ---------------------------------------------------------------------------------------
  // Complete returns

  /** A step of a thread that is awake. */
  ghost predicate Works(s: State, s2: State) {
    exists i :: LockStep(s, s2, i) || RunStep(s, s2, i)
  }

  ghost predicate CanWork(s: State) {
    exists s2 :: Works(s, s2)
  }

  lemma {:induction false} AwakeCanStep(s: State, i: nat) returns (s2: State)
    requires Inv(s) && i < |s.threads| && s.threads[i].Awake()
    ensures Works(s, s2)
  {
    hide Sum, Results, RoundsRight, Decide, Run;
    var t := s.threads[i];
    if t.Working? {
      s2 := s.(threads := s.threads[i := Run(t)]);
      assert RunStep(s, s2, i);
    } else {
      SumAt(s.threads, FlightOf, i);
      SumAt(s.threads, AsleepOf, i);
      s2 := Decide(HandIn(s, i), i);
      assert LockStep(s, s2, i);
    }
  }

  /** While the master is in Complete, some thread is awake and can go on: even a master that
      waits is not left alone. */
  lemma {:induction false} NoDeadlock(s: State) returns (s2: State)
    requires Inv(s) && !s.threads[0].Outside?
    ensures Works(s, s2)
  {
    hide Results, RoundsRight, Works;
    if s.threads[0].Awake() {
      s2 := AwakeCanStep(s, 0);
    } else {
      var i := SomeInFlight(s.threads, FlightOf);
      s2 := AwakeCanStep(s, i);
    }
  }

  function Weight(t: Thread): nat {
    match t
    case Outside => 0
    case Entering(batch, _) => 1 + 3 * |batch|
    case Waiting(_) => 0
    case Woken(_) => 1
    case Working(batch, next, _, _) => 2 + 4 * |batch| - (if next <= |batch| then next else |batch|)
  }

  /** How much work is left at most. */
  ghost function Measure(s: State): nat {
    6 * |s.queue| + Sum(s.threads, Weight)
  }

  lemma {:induction false} WorkShrinks(s: State, s2: State, i: nat)
    requires Inv(s) && (LockStep(s, s2, i) || RunStep(s, s2, i))
    ensures Measure(s2) < Measure(s)
  {
    hide Sum, Results, RoundsRight, Counts;
    if RunStep(s, s2, i) {
      assert ThreadOk(s.threads[i], s.result) by { ThreadIsOk(s, i); }
      SumUpdate(s.threads, Weight, i, s2.threads[i]);
    } else {
      var h := HandIn(s, i);
      HandInWeight(s, i);
      DecideWeight(h, i);
    }
  }

  lemma ThreadIsOk(s: State, i: nat)
    requires Results(s) && i < |s.threads|
    ensures ThreadOk(s.threads[i], s.result)
  {
  }

  /** Handing in costs at least one unit for a batch, which pays for waking the master. */
  lemma {:induction false} HandInWeight(s: State, i: nat)
    requires i < |s.threads| && (s.threads[i].Entering? || s.threads[i].Woken?)
    requires s.threads[i].Entering? ==> |s.threads[i].batch| <= s.nTodo
    requires s.threads[i].Woken? ==> s.nIdle > 0
    ensures Measure(HandIn(s, i)) <= Measure(s) && |HandIn(s, i).threads| == |s.threads|
  {
    hide Sum;
    var t := s.threads[i];
    var h := HandIn(s, i);
    if t.Woken? || t.batch != [] {
      var u := Entering([], if t.Woken? then t.local else if t.local.Some? && s.result.None? then s.result
          else t.local);
      var ts := s.threads[i := u];
      SumUpdate(s.threads, Weight, i, u);
      if h.threads != ts {
        SumUpdate(ts, Weight, 0, h.threads[0]);
      }
    }
  }

  lemma {:induction false} DecideWeight(s: State, i: nat)
    requires i < |s.threads| && s.threads[i].Entering?
    ensures Measure(Decide(s, i)) < Measure(s)
  {
    hide Sum;
    var d := Decide(s, i);
    SumUpdate(s.threads, Weight, i, d.threads[i]);
    if s.queue != [] {
      BatchFits(s);
    }
  }

  /** Whatever the threads do, Complete returns: there is a bound on the number of their steps,
      and they cannot all stop before the master has returned. */
  lemma {:induction false} CompleteReturns(b: seq<State>)
    requires b != [] && Inv(b[0]) && forall k :: 0 <= k < |b| - 1 ==> Works(b[k], b[k + 1])
    ensures |b| - 1 <= Measure(b[0])
    ensures Inv(b[|b| - 1])
    ensures !b[|b| - 1].threads[0].Outside? ==> CanWork(b[|b| - 1])
    decreases |b|
  {
    hide Inv, Measure;
    if |b| > 1 {
      assert Works(b[0], b[0 + 1]);
      WorkStep(b[0], b[1]);
      var r := b[1..];
      forall k | 0 <= k < |r| - 1
        ensures Works(r[k], r[k + 1])
      {
        assert Works(b[k + 1], b[k + 1 + 1]);
      }
      CompleteReturns(r);
    } else {
      LastStep(b[0]);
    }
  }

  lemma {:induction false} WorkStep(s: State, s2: State)
    requires Inv(s) && Works(s, s2)
    ensures Inv(s2) && Measure(s2) < Measure(s)
  {
    hide Inv, Measure, LockStep, RunStep;
    var i :| LockStep(s, s2, i) || RunStep(s, s2, i);
    WorkShrinks(s, s2, i);
    assert Next(s, s2);
    NextInv(s, s2);
  }

  lemma {:induction false} LastStep(s: State)
    requires Inv(s)
    ensures s.threads != []
    ensures !s.threads[0].Outside? ==> CanWork(s)
  {
    if !s.threads[0].Outside? {
      hide Works;
      var s2 := NoDeadlock(s);
    }
  }
}
