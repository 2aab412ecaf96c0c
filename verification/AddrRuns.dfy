/** Runs of the address manager: after every operation the consistency check finds nothing
    (src/addrman.cpp:404-1060). */
module AddrRuns {
  import opened Sequences
  import opened AddrTables
  import opened AddrManager
  import opened AddrCheck
  import opened AddrRoundTrip
  import opened AddrFile

  datatype Op =
    | OpAdd(addrs: seq<Announcement>, source: nat, timePenalty: int, now: int, lucky: nat -> bool)
    | OpGood(service: nat, testBeforeEvict: bool, time: int)
    | OpAttempt(service: nat, countFailure: bool, time: int)
    | OpConnected(service: nat, time: int)
    | OpSetServices(service: nat, services: set<nat>)
    | OpResolve(now: int)
    | OpSelectCollision(pick: set<nat> -> nat)
    | OpRestart

  /** Clocks are past the epoch. */
  predicate OnTime(op: Op) {
    match op
    case OpGood(_, _, time) => time > 0
    case OpAttempt(_, _, time) => time >= 0
    case _ => true
  }

  /** A choice is one of what there is to choose from. */
  ghost predicate Chooses(op: Op) {
    op.OpSelectCollision? ==> forall s: set<nat> :: s != {} ==> op.pick(s) in s
  }

  method Enumerate(s: set<nat>) returns (order: seq<nat>)
    ensures Lists(order, s)
  {
    order := [];
    var todo := s;
    while todo != {}
      invariant todo <= s && Lists(order, s - todo)
      decreases |todo|
    {
      var x :| x in todo;
      DistinctAppend(order, [x]);
      order, todo := order + [x], todo - {x};
    }
    assert s - todo == s;
  }

  method Step(a: AddrMan, op: Op) returns (b: AddrMan)
    requires a.Valid() && RoutableIsValid(a.p) && Chooses(op)
    modifies a
    ensures b.Agree() && (OnTime(op) ==> b.Valid()) && b.p == a.p && (b == a || fresh(b))
    ensures b == a ==> old(a.vvTried.Keys) <= b.vvTried.Keys
    ensures b != a ==> b.vvTried.Keys == old(a.vvTried.Keys)
  {
    hide Indexed, NewOk, TriedOk, Counted, Sane, PendingOk, Timed, Visited, Announced;
    b := a;
    match op
    case OpAdd(addrs, source, timePenalty, now, lucky) =>
      var any;
      ghost var trace, results;
      any, trace, results := a.Add(addrs, source, timePenalty, now, lucky);
    case OpGood(service, test, time) => var _ := a.Good(service, test, time);
    case OpAttempt(service, countFailure, time) => a.Attempt(service, countFailure, time);
    case OpConnected(service, time) => a.Connected(service, time);
    case OpSetServices(service, services) => a.SetServices(service, services);
    case OpResolve(now) =>
      ghost var visited, visits;
      visited, visits := a.ResolveCollisions(now);
    case OpSelectCollision(pick) => var _ := a.SelectTriedCollision(pick(a.triedCollisions));
    case OpRestart =>
      var order := Enumerate(a.mapInfo.Keys);
      ghost var ids;
      b, ids := Reload(a, order);
  }

  /** From an empty manager, every run passes the check after every operation, until the first one
      with a clock that is not past the epoch; a run ends where the check fails. */
  method Run(p: Params, ops: seq<Op>) returns (a: AddrMan, codes: seq<int>)
    requires RoutableIsValid(p) && forall i :: 0 <= i < |ops| ==> Chooses(ops[i])
    ensures fresh(a) && a.Agree() && |codes| <= |ops|
    ensures forall i :: 0 <= i < |codes| && codes[i] != 0 ==> i == |codes| - 1 && !OnTime(ops[i])
    ensures a.Valid() <==> forall i :: 0 <= i < |codes| ==> codes[i] == 0
    ensures |codes| < |ops| ==> !a.Valid()
  {
    hide Indexed, NewOk, TriedOk, Counted, Sane, PendingOk, Timed, OnTime;
    a := new AddrMan(p);
    codes := [];
    for i := 0 to |ops|
      invariant fresh(a) && a.Valid() && a.p == p
      invariant |codes| == i && forall k :: 0 <= k < |codes| ==> codes[k] == 0
    {
      a := Step(a, ops[i]);
      var code := Check(a);
      codes := codes + [code];
      if code != 0 {
        assert codes[i] != 0;
        return;
      }
    }
  }
}
