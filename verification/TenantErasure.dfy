/** Erasing an account: new work is refused, the deletion waits for the operations in flight, and
    only a failed deletion lets work in again. */
module TenantErasure {
  import opened Basics

  // An erasure between its steps: the account is blocked, then the files are being deleted.
  datatype Phase = Waiting | Deleting

  datatype Eraser = Eraser(account: string, phase: Phase)

  // What the condition's lock protects, the operations in flight and the erasures under way.
  datatype Registry = Registry(active: map<string, nat>, blocked: set<string>, running: seq<string>,
                               erasers: seq<Eraser>)

  function ActiveOf(active: map<string, nat>, account: string): nat {
    if account in active then active[account] else 0
  }

  datatype Step =
    | Enter(account: string)      // _account_operation begins
    | Leave(index: nat)           // and ends
    | Block(account: string)      // erase_account blocks the account
    | Proceed(index: nat)         // nothing is active any more, the files are deleted
    | Finish(index: nat)          // the deletion succeeded
    | Fail(index: nat)            // or failed, and the account is unblocked

  function Count(active: map<string, nat>, account: string): map<string, nat> {
    active[account := ActiveOf(active, account) + 1]
  }

  function Uncount(active: map<string, nat>, account: string): map<string, nat> {
    if ActiveOf(active, account) <= 1 then active - {account} else active[account := ActiveOf(active, account) - 1]
  }

  // A step that is not possible, or is refused, changes nothing.
  function Take(st: Registry, step: Step): Registry {
    match step
    case Enter(account) =>
      if account in st.blocked then st
      else st.(active := Count(st.active, account), running := st.running + [account])
    case Leave(i) =>
      if i >= |st.running| then st
      else st.(active := Uncount(st.active, st.running[i]), running := Without(st.running, i))
    case Block(account) =>
      st.(blocked := st.blocked + {account}, erasers := st.erasers + [Eraser(account, Waiting)])
    case Proceed(i) =>
      if i >= |st.erasers| || !st.erasers[i].phase.Waiting? || ActiveOf(st.active, st.erasers[i].account) != 0 then st
      else st.(erasers := st.erasers[i := st.erasers[i].(phase := Deleting)])
    case Finish(i) =>
      if i >= |st.erasers| || !st.erasers[i].phase.Deleting? then st
      else st.(erasers := Without(st.erasers, i))
    case Fail(i) =>
      if i >= |st.erasers| || !st.erasers[i].phase.Deleting? then st
      else st.(blocked := st.blocked - {st.erasers[i].account}, erasers := Without(st.erasers, i))
  }

  function TakeAll(st: Registry, steps: seq<Step>): Registry {
    if steps == [] then st else Take(TakeAll(st, steps[..|steps| - 1]), steps[|steps| - 1])
  }

  const EMPTY: Registry := Registry(map[], {}, [], [])

  // ---------- Counting ----------

  function InFlight(running: seq<string>, account: string): nat {
    if running == [] then 0
    else InFlight(running[..|running| - 1], account) + if running[|running| - 1] == account then 1 else 0
  }

  lemma {:induction false} InFlightOfConcat(a: seq<string>, b: seq<string>, account: string)
    ensures InFlight(a + b, account) == InFlight(a, account) + InFlight(b, account)
  {
    if b == [] {
      assert a + b == a;
    } else {
      InFlightOfConcat(a, b[..|b| - 1], account);
      assert (a + b)[..|a + b| - 1] == a + b[..|b| - 1];
    }
  }

  lemma InFlightOfOne(one: string, account: string)
    ensures InFlight([one], account) == if one == account then 1 else 0
  {
    assert [one][..0] == [];
  }

  lemma InFlightWithout(running: seq<string>, i: nat, account: string)
    requires i < |running|
    ensures InFlight(running, account) == InFlight(Without(running, i), account) + if running[i] == account then 1 else 0
  {
    assert running == running[..i] + ([running[i]] + running[i + 1..]);
    InFlightOfConcat(running[..i], [running[i]] + running[i + 1..], account);
    InFlightOfConcat([running[i]], running[i + 1..], account);
    InFlightOfConcat(running[..i], running[i + 1..], account);
    InFlightOfOne(running[i], account);
  }

  lemma {:induction false} NoneInFlight(running: seq<string>, account: string)
    requires InFlight(running, account) == 0
    ensures account !in running
  {
    if running != [] {
      NoneInFlight(running[..|running| - 1], account);
      assert running == running[..|running| - 1] + [running[|running| - 1]];
    }
  }

  // The count of active operations is the number in flight; an idle account has no entry.
  ghost predicate Counted(st: Registry) {
    && (forall a :: ActiveOf(st.active, a) == InFlight(st.running, a))
    && forall a :: a in st.active ==> st.active[a] > 0
  }

  lemma TakeCounts(st: Registry, step: Step)
    requires Counted(st)
    ensures Counted(Take(st, step))
  {
    hide InFlight, Without;
    var after := Take(st, step);
    forall a
      ensures ActiveOf(after.active, a) == InFlight(after.running, a) && (a in after.active ==> after.active[a] > 0)
    {
      assert ActiveOf(st.active, a) == InFlight(st.running, a);
      match step {
        case Enter(account) =>
          InFlightOfConcat(st.running, [account], a);
          InFlightOfOne(account, a);
        case Leave(i) =>
          if i < |st.running| {
            InFlightWithout(st.running, i, a);
          }
        case _ =>
      }
    }
  }

  // ---------- Exclusion ----------

  // Whoever erases has the account blocked, and nothing is in flight while files are deleted.
  ghost predicate Excluded(st: Registry) {
    forall i :: 0 <= i < |st.erasers| ==>
      && st.erasers[i].account in st.blocked
      && (st.erasers[i].phase.Deleting? ==> InFlight(st.running, st.erasers[i].account) == 0)
  }

  ghost predicate OneEraserEach(st: Registry) {
    forall i, j :: 0 <= i < j < |st.erasers| ==> st.erasers[i].account != st.erasers[j].account
  }

  // An account is not erased again while its erasure is under way.
  predicate StartsAlone(st: Registry, step: Step) {
    step.Block? ==> forall i :: 0 <= i < |st.erasers| ==> st.erasers[i].account != step.account
  }

  ghost predicate EachAlone(st: Registry, steps: seq<Step>) {
    steps == [] || (EachAlone(st, steps[..|steps| - 1]) && StartsAlone(TakeAll(st, steps[..|steps| - 1]), steps[|steps| - 1]))
  }

  lemma WithoutElements<T>(q: seq<T>, i: nat)
    requires i < |q|
    ensures |Without(q, i)| == |q| - 1
    ensures forall j :: 0 <= j < |q| - 1 ==> Without(q, i)[j] == q[if j < i then j else j + 1]
  {
  }

  lemma TakeKeepsAlone(st: Registry, step: Step)
    requires OneEraserEach(st) && StartsAlone(st, step)
    ensures OneEraserEach(Take(st, step))
  {
    if (step.Finish? || step.Fail?) && step.index < |st.erasers| {
      WithoutElements(st.erasers, step.index);
      hide Without;
    }
  }

  // Every step keeps the exclusion, except an unblocking that leaves another eraser of the account.
  lemma TakeExcludes(st: Registry, step: Step)
    requires Counted(st) && Excluded(st) && OneEraserEach(st)
    ensures Excluded(Take(st, step))
  {
    var after := Take(st, step);
    match step {
      case Enter(account) => EnterExcludes(st, account);
      case Leave(i) => LeaveExcludes(st, i);
      case Block(account) =>
      case Proceed(i) =>
      case Finish(i) =>
        if i < |st.erasers| {
          WithoutElements(st.erasers, i);
        }
      case Fail(i) =>
        if i < |st.erasers| {
          WithoutElements(st.erasers, i);
        }
    }
  }

  lemma EnterExcludes(st: Registry, account: string)
    requires Excluded(st)
    ensures Excluded(Take(st, Enter(account)))
  {
    forall i | 0 <= i < |st.erasers| && account !in st.blocked
      ensures InFlight(st.running + [account], st.erasers[i].account) == InFlight(st.running, st.erasers[i].account)
    {
      InFlightOfConcat(st.running, [account], st.erasers[i].account);
      InFlightOfOne(account, st.erasers[i].account);
    }
  }

  lemma LeaveExcludes(st: Registry, i: nat)
    requires Excluded(st)
    ensures Excluded(Take(st, Leave(i)))
  {
    if i < |st.running| {
      forall j | 0 <= j < |st.erasers|
        ensures InFlight(Without(st.running, i), st.erasers[j].account) <= InFlight(st.running, st.erasers[j].account)
      {
        InFlightWithout(st.running, i, st.erasers[j].account);
      }
    }
  }

  lemma {:induction false} TakeAllExcludes(st: Registry, steps: seq<Step>)
    requires Counted(st) && Excluded(st) && OneEraserEach(st) && EachAlone(st, steps)
    ensures var after := TakeAll(st, steps); Counted(after) && Excluded(after) && OneEraserEach(after)
  {
    hide Take, Counted, Excluded, OneEraserEach, StartsAlone;
    if steps != [] {
      var init, last := steps[..|steps| - 1], steps[|steps| - 1];
      TakeAllExcludes(st, init);
      TakeCounts(TakeAll(st, init), last);
      TakeExcludes(TakeAll(st, init), last);
      TakeKeepsAlone(TakeAll(st, init), last);
    }
  }

  // With one erasure of an account at a time, in every interleaving the active counts are the
  // operations in flight, nothing of the account is in flight while its files are deleted, and
  // nothing is admitted while it is being erased.
  lemma ErasureExcludesWork(steps: seq<Step>, i: nat, account: string)
    requires EachAlone(EMPTY, steps)
    ensures var st := TakeAll(EMPTY, steps);
            && ActiveOf(st.active, account) == InFlight(st.running, account)
            && (i < |st.erasers| && st.erasers[i].phase.Deleting? ==> st.erasers[i].account !in st.running)
            && (i < |st.erasers| ==> Take(st, Enter(st.erasers[i].account)) == st)
  {
    assert Counted(EMPTY);
    TakeAllExcludes(EMPTY, steps);
    var st := TakeAll(EMPTY, steps);
    if i < |st.erasers| && st.erasers[i].phase.Deleting? {
      NoneInFlight(st.running, st.erasers[i].account);
    }
  }

  // ---------- Blocking ends only with a failure ----------

  lemma BlockedUntilFailure(st: Registry, step: Step, account: string)
    requires account in st.blocked
    ensures account !in Take(st, step).blocked <==>
              step.Fail? && step.index < |st.erasers| && st.erasers[step.index] == Eraser(account, Deleting)
  {
  }

  // ---------- Two erasures of one account ----------

  // A failure keeps the exclusion exactly when no other erasure of the account is under way.
  lemma FailureKeepsExclusionIff(st: Registry, i: nat)
    requires Excluded(st) && i < |st.erasers| && st.erasers[i].phase.Deleting?
    ensures Excluded(Take(st, Fail(i))) <==>
              forall j :: 0 <= j < |st.erasers| && j != i ==> st.erasers[j].account != st.erasers[i].account
  {
    var after := Take(st, Fail(i));
    WithoutElements(st.erasers, i);
    if j :| 0 <= j < |st.erasers| && j != i && st.erasers[j].account == st.erasers[i].account {
      assert after.erasers[if j < i then j else j - 1] == st.erasers[j];
    }
  }

  lemma TakeNext(st: Registry, steps: seq<Step>, step: Step)
    ensures TakeAll(st, steps + [step]) == Take(TakeAll(st, steps), step)
  {
    assert (steps + [step])[..|steps|] == steps;
  }

  // Two erasures of one account, the first of which fails, let an operation in while the second
  // deletes the files.
  lemma TwoErasuresCollide(account: string)
    ensures var steps := [Block(account)] + [Block(account)] + [Proceed(0)] + [Proceed(1)] + [Fail(0)] + [Enter(account)];
            var st := TakeAll(EMPTY, steps);
            st.erasers == [Eraser(account, Deleting)] && st.running == [account]
  {
    hide TakeAll;
    NoSteps(EMPTY);
    var s1 := [Block(account)];
    TakeNext(EMPTY, [], Block(account));
    assert [] + s1 == s1;
    var s2 := s1 + [Block(account)];
    TakeNext(EMPTY, s1, Block(account));
    var s3 := s2 + [Proceed(0)];
    TakeNext(EMPTY, s2, Proceed(0));
    var s4 := s3 + [Proceed(1)];
    TakeNext(EMPTY, s3, Proceed(1));
    var s5 := s4 + [Fail(0)];
    TakeNext(EMPTY, s4, Fail(0));
    TakeNext(EMPTY, s5, Enter(account));
    assert TakeAll(EMPTY, s4).erasers == [Eraser(account, Deleting), Eraser(account, Deleting)];
    assert TakeAll(EMPTY, s5).erasers == [Eraser(account, Deleting)];
  }

  lemma NoSteps(st: Registry)
    ensures TakeAll(st, []) == st
  {
  }
}
