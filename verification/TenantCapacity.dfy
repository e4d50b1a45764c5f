/** Capacity reservations of tenants: what is reserved is conserved over every interleaving, and
    neither a tenant's limit nor the server's free reserve is passed by what was admitted. */
module TenantCapacity {
  import opened Basics

  // An operation in flight: what it reserved and what it has written so far.
  datatype Operation = Operation(tenant: string, reserved: nat, written: nat)

  // The bookkeeping under the capacity lock, the operations in flight, the reservation being
  // decided while the lock is held, and the disk, which writers change at any time.
  datatype Tenants = Tenants(reservations: map<string, nat>, total: nat, running: seq<Operation>,
                             deciding: Option<Operation>, stored: map<string, nat>, free: int)

  datatype Limits = Limits(tenantBytes: nat, freeBytes: nat)

  function ReservedOf(reservations: map<string, nat>, tenant: string): nat {
    if tenant in reservations then reservations[tenant] else 0
  }

  function StoredOf(stored: map<string, nat>, tenant: string): nat {
    if tenant in stored then stored[tenant] else 0
  }

  // ---------- The steps ----------

  datatype Step =
    | Measure(tenant: string, amount: nat)  // lock taken, the tenant's files measured
    | Admit                                 // the free space measured, the reservation made
    | Write(index: nat, bytes: nat)
    | Shrink(tenant: string, bytes: nat)
    | Release(index: nat)

  function Reserve(reservations: map<string, nat>, tenant: string, amount: nat): map<string, nat> {
    reservations[tenant := ReservedOf(reservations, tenant) + amount]
  }

  function Unreserve(reservations: map<string, nat>, tenant: string, amount: nat): map<string, nat> {
    var held := ReservedOf(reservations, tenant);
    if held <= amount then reservations - {tenant} else reservations[tenant := held - amount]
  }

  // A step that is not possible, or is refused, changes nothing but the lock.
  function Take(limits: Limits, st: Tenants, step: Step): Tenants {
    match step
    case Measure(tenant, amount) =>
      if st.deciding.Some? || amount == 0 then st
      else if StoredOf(st.stored, tenant) + ReservedOf(st.reservations, tenant) + amount > limits.tenantBytes then st
      else st.(deciding := Some(Operation(tenant, amount, 0)))
    case Admit =>
      if st.deciding.None? then st
      else
        var op := st.deciding.value;
        if st.free - st.total - op.reserved < limits.freeBytes then st.(deciding := None)
        else st.(deciding := None, reservations := Reserve(st.reservations, op.tenant, op.reserved),
                 total := st.total + op.reserved, running := st.running + [op])
    case Write(i, bytes) =>
      if i >= |st.running| || st.running[i].written + bytes > st.running[i].reserved then st
      else
        var op := st.running[i];
        st.(running := st.running[i := op.(written := op.written + bytes)],
            stored := st.stored[op.tenant := StoredOf(st.stored, op.tenant) + bytes],
            free := st.free - bytes)
    case Shrink(tenant, bytes) =>
      if bytes > StoredOf(st.stored, tenant) then st
      else st.(stored := st.stored[tenant := StoredOf(st.stored, tenant) - bytes], free := st.free + bytes)
    case Release(i) =>
      if st.deciding.Some? || i >= |st.running| then st
      else
        var op := st.running[i];
        st.(reservations := Unreserve(st.reservations, op.tenant, op.reserved),
            total := if st.total < op.reserved then 0 else st.total - op.reserved,
            running := Without(st.running, i))
  }

  function TakeAll(limits: Limits, st: Tenants, steps: seq<Step>): Tenants {
    if steps == [] then st else Take(limits, TakeAll(limits, st, steps[..|steps| - 1]), steps[|steps| - 1])
  }

  // ---------- Sums ----------

  function ReservedBy(ops: seq<Operation>, tenant: string): nat {
    if ops == [] then 0
    else
      ReservedBy(ops[..|ops| - 1], tenant)
      + if ops[|ops| - 1].tenant == tenant then ops[|ops| - 1].reserved else 0
  }

  function WrittenBy(ops: seq<Operation>, tenant: string): nat {
    if ops == [] then 0
    else
      WrittenBy(ops[..|ops| - 1], tenant)
      + if ops[|ops| - 1].tenant == tenant then ops[|ops| - 1].written else 0
  }

  function ReservedByAll(ops: seq<Operation>): nat {
    if ops == [] then 0 else ReservedByAll(ops[..|ops| - 1]) + ops[|ops| - 1].reserved
  }

  function WrittenByAll(ops: seq<Operation>): nat {
    if ops == [] then 0 else WrittenByAll(ops[..|ops| - 1]) + ops[|ops| - 1].written
  }

  lemma {:induction false} SumsOfConcat(a: seq<Operation>, b: seq<Operation>, tenant: string)
    ensures ReservedBy(a + b, tenant) == ReservedBy(a, tenant) + ReservedBy(b, tenant)
    ensures WrittenBy(a + b, tenant) == WrittenBy(a, tenant) + WrittenBy(b, tenant)
    ensures ReservedByAll(a + b) == ReservedByAll(a) + ReservedByAll(b)
    ensures WrittenByAll(a + b) == WrittenByAll(a) + WrittenByAll(b)
  {
    if b == [] {
      assert a + b == a;
    } else {
      SumsOfConcat(a, b[..|b| - 1], tenant);
      assert (a + b)[..|a + b| - 1] == a + b[..|b| - 1];
    }
  }

  lemma SumsOfOne(op: Operation, tenant: string)
    ensures ReservedBy([op], tenant) == if op.tenant == tenant then op.reserved else 0
    ensures WrittenBy([op], tenant) == if op.tenant == tenant then op.written else 0
    ensures ReservedByAll([op]) == op.reserved && WrittenByAll([op]) == op.written
  {
    assert [op][..0] == [];
  }

  // One operation and the others.
  lemma SumsAround(ops: seq<Operation>, i: nat, tenant: string)
    requires i < |ops|
    ensures ReservedBy(ops, tenant) == ReservedBy(Without(ops, i),
                                                  tenant) + if ops[i].tenant == tenant then ops[i].reserved else 0
    ensures WrittenBy(ops, tenant) == WrittenBy(Without(ops, i),
                                                tenant) + if ops[i].tenant == tenant then ops[i].written else 0
    ensures ReservedByAll(ops) == ReservedByAll(Without(ops, i)) + ops[i].reserved
    ensures WrittenByAll(ops) == WrittenByAll(Without(ops, i)) + ops[i].written
  {
    assert ops == ops[..i] + ([ops[i]] + ops[i + 1..]);
    SumsOfConcat(ops[..i], [ops[i]] + ops[i + 1..], tenant);
    SumsOfConcat([ops[i]], ops[i + 1..], tenant);
    SumsOfConcat(ops[..i], ops[i + 1..], tenant);
    SumsOfOne(ops[i], tenant);
  }

  lemma {:induction false} WrittenIsReserved(ops: seq<Operation>, tenant: string)
    requires forall i :: 0 <= i < |ops| ==> ops[i].written <= ops[i].reserved
    ensures WrittenBy(ops, tenant) <= ReservedBy(ops, tenant) && WrittenByAll(ops) <= ReservedByAll(ops)
  {
    if ops != [] {
      WrittenIsReserved(ops[..|ops| - 1], tenant);
    }
  }

  // ---------- The invariant ----------

  // The map and the counter are the sums over the operations in flight; a tenant without any has
  // no entry.
  ghost predicate Conserved(st: Tenants) {
    && (forall t :: ReservedOf(st.reservations, t) == ReservedBy(st.running, t))
    && (forall t :: t in st.reservations ==> st.reservations[t] > 0)
    && st.total == ReservedByAll(st.running)
  }

  ghost predicate WithinReservations(st: Tenants) {
    && (forall i :: 0 <= i < |st.running| ==> st.running[i].written <= st.running[i].reserved && st.running[i].reserved > 0)
    && (st.deciding.Some? ==> st.deciding.value.written == 0 && st.deciding.value.reserved > 0)
  }

  function DecidingBytes(st: Tenants, tenant: string): nat {
    if st.deciding.Some? && st.deciding.value.tenant == tenant then st.deciding.value.reserved else 0
  }

  // What a tenant holds and may still write stays under its limit, as long as it is writing.
  ghost predicate UnderLimit(limits: Limits, st: Tenants, tenant: string) {
    ReservedBy(st.running, tenant) + DecidingBytes(st, tenant) > 0 ==>
      StoredOf(st.stored, tenant) + ReservedBy(st.running, tenant) - WrittenBy(st.running, tenant)
        + DecidingBytes(st, tenant) <= limits.tenantBytes
  }

  // What may still be written leaves the reserve free.
  ghost predicate LeavesReserve(limits: Limits, st: Tenants) {
    st.running != [] ==> st.free - (ReservedByAll(st.running) - WrittenByAll(st.running)) >= limits.freeBytes
  }

  ghost predicate Safe(limits: Limits, st: Tenants) {
    Conserved(st) && WithinReservations(st) && LeavesReserve(limits, st) && forall t :: UnderLimit(limits, st, t)
  }

  // ---------- Every step keeps it ----------

  lemma MeasureKeeps(limits: Limits, st: Tenants, tenant: string, amount: nat)
    requires Safe(limits, st)
    ensures Safe(limits, Take(limits, st, Measure(tenant, amount)))
  {
    var after := Take(limits, st, Measure(tenant, amount));
    forall t ensures UnderLimit(limits, after, t) {
      assert UnderLimit(limits, st, t);
      WrittenIsReserved(st.running, t);
      assert ReservedOf(st.reservations, t) == ReservedBy(st.running, t);
    }
  }

  lemma AdmitConserves(limits: Limits, st: Tenants)
    requires Conserved(st) && WithinReservations(st)
    ensures Conserved(Take(limits, st, Admit)) && WithinReservations(Take(limits, st, Admit))
  {
    var after := Take(limits, st, Admit);
    if after.running != st.running {
      var op := st.deciding.value;
      SumsOfConcat(st.running, [op], op.tenant);
      SumsOfOne(op, op.tenant);
      forall t ensures ReservedOf(after.reservations, t) == ReservedBy(after.running, t) {
        SumsOfConcat(st.running, [op], t);
        SumsOfOne(op, t);
        assert ReservedOf(st.reservations, t) == ReservedBy(st.running, t);
      }
    }
  }

  lemma AdmitUnderLimit(limits: Limits, st: Tenants, t: string)
    requires Safe(limits, st)
    ensures UnderLimit(limits, Take(limits, st, Admit), t)
  {
    assert UnderLimit(limits, st, t);
    WrittenIsReserved(st.running, t);
    if st.deciding.Some? {
      SumsOfConcat(st.running, [st.deciding.value], t);
      SumsOfOne(st.deciding.value, t);
    }
    hide ReservedBy, WrittenBy, Conserved;
  }

  lemma AdmitLeavesReserve(limits: Limits, st: Tenants)
    requires Safe(limits, st)
    ensures LeavesReserve(limits, Take(limits, st, Admit))
  {
    hide ReservedByAll, WrittenByAll, ReservedBy, WrittenBy, UnderLimit;
    if st.deciding.Some? {
      var op := st.deciding.value;
      SumsOfConcat(st.running, [op], op.tenant);
      SumsOfOne(op, op.tenant);
      WrittenIsReserved(st.running, op.tenant);
    }
  }

  lemma AdmitKeeps(limits: Limits, st: Tenants)
    requires Safe(limits, st)
    ensures Safe(limits, Take(limits, st, Admit))
  {
    AdmitConserves(limits, st);
    AdmitLeavesReserve(limits, st);
    hide Take, UnderLimit, Conserved, WithinReservations, LeavesReserve;
    var after := Take(limits, st, Admit);
    forall t ensures UnderLimit(limits, after, t) {
      AdmitUnderLimit(limits, st, t);
    }
  }

  lemma WriteSums(st: Tenants, after: Tenants, i: nat, bytes: nat, t: string)
    requires i < |st.running| && after.running == st.running[i := st.running[i].(written := st.running[i].written + bytes)]
    ensures ReservedBy(after.running, t) == ReservedBy(st.running, t)
    ensures WrittenBy(after.running, t) == WrittenBy(st.running, t) + (if st.running[i].tenant == t then bytes else 0)
    ensures ReservedByAll(after.running) == ReservedByAll(st.running)
    ensures WrittenByAll(after.running) == WrittenByAll(st.running) + bytes
  {
    SumsAround(st.running, i, t);
    SumsAround(after.running, i, t);
    assert Without(after.running, i) == Without(st.running, i);
  }

  lemma WriterIsUnderLimit(limits: Limits, st: Tenants, i: nat, t: string)
    requires Safe(limits, st) && i < |st.running|
    ensures st.running[i].tenant == t ==> ReservedBy(st.running, t) > 0
  {
    SumsAround(st.running, i, t);
  }

  lemma WriteUnderLimit(limits: Limits, st: Tenants, i: nat, bytes: nat, t: string)
    requires Safe(limits, st)
    ensures UnderLimit(limits, Take(limits, st, Write(i, bytes)), t)
    ensures ReservedBy(Take(limits, st, Write(i, bytes)).running, t) == ReservedBy(st.running, t)
  {
    var after := Take(limits, st, Write(i, bytes));
    assert UnderLimit(limits, st, t);
    if after != st {
      WriteSums(st, after, i, bytes, t);
      WriterIsUnderLimit(limits, st, i, t);
    }
    hide ReservedBy, WrittenBy, Conserved;
  }

  lemma WriteKeepsRest(limits: Limits, st: Tenants, i: nat, bytes: nat)
    requires Safe(limits, st)
    ensures var after := Take(limits, st, Write(i, bytes));
            WithinReservations(after) && LeavesReserve(limits, after) && after.total == ReservedByAll(after.running)
            && after.reservations == st.reservations
  {
    hide ReservedByAll, WrittenByAll, ReservedBy, WrittenBy, UnderLimit;
    var after := Take(limits, st, Write(i, bytes));
    if after != st {
      WriteSums(st, after, i, bytes, st.running[i].tenant);
    }
  }

  lemma WriteKeeps(limits: Limits, st: Tenants, i: nat, bytes: nat)
    requires Safe(limits, st)
    ensures Safe(limits, Take(limits, st, Write(i, bytes)))
  {
    WriteKeepsRest(limits, st, i, bytes);
    hide Take, UnderLimit, ReservedBy, ReservedOf, WithinReservations, LeavesReserve;
    var after := Take(limits, st, Write(i, bytes));
    forall t ensures UnderLimit(limits, after, t) && ReservedOf(after.reservations, t) == ReservedBy(after.running, t) {
      WriteUnderLimit(limits, st, i, bytes, t);
    }
  }

  lemma ShrinkKeeps(limits: Limits, st: Tenants, tenant: string, bytes: nat)
    requires Safe(limits, st)
    ensures Safe(limits, Take(limits, st, Shrink(tenant, bytes)))
  {
    var after := Take(limits, st, Shrink(tenant, bytes));
    forall t ensures UnderLimit(limits, after, t) {
      assert UnderLimit(limits, st, t);
    }
  }

  lemma ReleaseTenant(limits: Limits, st: Tenants, i: nat, t: string)
    requires Safe(limits, st)
    ensures var after := Take(limits, st, Release(i));
            ReservedOf(after.reservations, t) == ReservedBy(after.running, t) && UnderLimit(limits, after, t)
            && (t in after.reservations ==> after.reservations[t] > 0)
  {
    assert ReservedOf(st.reservations, t) == ReservedBy(st.running, t);
    assert UnderLimit(limits, st, t);
    if i < |st.running| {
      SumsAround(st.running, i, t);
      ReleasedWasReserved(st, i);
    }
    hide ReservedBy, WrittenBy, Without;
  }

  lemma ReleasedWasReserved(st: Tenants, i: nat)
    requires Conserved(st) && WithinReservations(st) && i < |st.running|
    ensures var op := st.running[i]; op.written <= op.reserved <= ReservedOf(st.reservations, op.tenant)
  {
    var op := st.running[i];
    assert ReservedOf(st.reservations, op.tenant) == ReservedBy(st.running, op.tenant);
    SumsAround(st.running, i, op.tenant);
  }

  lemma ReleaseKeepsRest(limits: Limits, st: Tenants, i: nat)
    requires Safe(limits, st)
    ensures var after := Take(limits, st, Release(i));
            WithinReservations(after) && LeavesReserve(limits, after) && after.total == ReservedByAll(after.running)
  {
    hide ReservedByAll, WrittenByAll, ReservedBy, WrittenBy, UnderLimit;
    var after := Take(limits, st, Release(i));
    if after != st {
      SumsAround(st.running, i, st.running[i].tenant);
      assert forall j :: 0 <= j < |after.running| ==> after.running[j] == st.running[if j < i then j else j + 1];
    }
  }

  lemma ReleaseKeeps(limits: Limits, st: Tenants, i: nat)
    requires Safe(limits, st)
    ensures Safe(limits, Take(limits, st, Release(i)))
  {
    ReleaseKeepsRest(limits, st, i);
    hide Take, UnderLimit, ReservedBy, ReservedOf, WithinReservations, LeavesReserve;
    var after := Take(limits, st, Release(i));
    forall t ensures UnderLimit(limits, after, t) && ReservedOf(after.reservations, t) == ReservedBy(after.running, t)
             ensures t in after.reservations ==> after.reservations[t] > 0 {
      ReleaseTenant(limits, st, i, t);
    }
  }

  lemma TakeKeeps(limits: Limits, st: Tenants, step: Step)
    requires Safe(limits, st)
    ensures Safe(limits, Take(limits, st, step))
  {
    hide Safe, Take;
    match step
    case Measure(tenant, amount) => MeasureKeeps(limits, st, tenant, amount);
    case Admit => AdmitKeeps(limits, st);
    case Write(i, bytes) => WriteKeeps(limits, st, i, bytes);
    case Shrink(tenant, bytes) => ShrinkKeeps(limits, st, tenant, bytes);
    case Release(i) => ReleaseKeeps(limits, st, i);
  }

  lemma {:induction false} TakeAllKeeps(limits: Limits, st: Tenants, steps: seq<Step>)
    requires Safe(limits, st)
    ensures Safe(limits, TakeAll(limits, st, steps))
  {
    hide Safe, Take;
    if steps != [] {
      TakeAllKeeps(limits, st, steps[..|steps| - 1]);
      TakeKeeps(limits, TakeAll(limits, st, steps[..|steps| - 1]), steps[|steps| - 1]);
    }
  }

  // ---------- What it means ----------

  function Idle(stored: map<string, nat>, free: int): Tenants {
    Tenants(map[], 0, [], None, stored, free)
  }

  lemma IdleIsSafe(limits: Limits, stored: map<string, nat>, free: int)
    ensures Safe(limits, Idle(stored, free))
  {
  }

  // A write never takes the free space below the reserve, nor a tenant above its limit.
  lemma WriteIsSafe(limits: Limits, st: Tenants, i: nat, bytes: nat)
    requires Safe(limits, st) && Take(limits, st, Write(i, bytes)) != st
    ensures var after := Take(limits, st, Write(i, bytes));
            && after.free >= limits.freeBytes
            && StoredOf(after.stored, st.running[i].tenant) <= limits.tenantBytes
  {
    var after, t := Take(limits, st, Write(i, bytes)), st.running[i].tenant;
    WriteKeeps(limits, st, i, bytes);
    SumsAround(after.running, i, t);
    WrittenIsReserved(after.running, t);
    assert UnderLimit(limits, after, t);
  }

  ghost predicate Below(limits: Limits, st: Tenants, free: int, stored: map<string, nat>) {
    && st.free >= Min(free, limits.freeBytes)
    && forall t :: StoredOf(st.stored, t) <= Max(StoredOf(stored, t), limits.tenantBytes)
  }

  lemma TakeStaysBelow(limits: Limits, st: Tenants, step: Step, free: int, stored: map<string, nat>)
    requires Safe(limits, st) && Below(limits, st, free, stored)
    ensures Below(limits, Take(limits, st, step), free, stored)
  {
    if step.Write? && Take(limits, st, step) != st {
      WriteIsSafe(limits, st, step.index, step.bytes);
    }
    hide Safe;
  }

  lemma {:induction false} TakeAllStaysBelow(limits: Limits, st: Tenants, steps: seq<Step>, free: int,
                                             stored: map<string, nat>)
    requires Safe(limits, st) && Below(limits, st, free, stored)
    ensures Below(limits, TakeAll(limits, st, steps), free, stored)
  {
    hide Safe, Take, Below;
    if steps != [] {
      TakeAllStaysBelow(limits, st, steps[..|steps| - 1], free, stored);
      TakeAllKeeps(limits, st, steps[..|steps| - 1]);
      TakeStaysBelow(limits, TakeAll(limits, st, steps[..|steps| - 1]), steps[|steps| - 1], free, stored);
    }
  }

  // In every interleaving of admissions, writes and releases, the map and the counter are the
  // sums of what is reserved; no tenant that was under its limit passes it, and the free space
  // never falls below the reserve if it was not below it from the start.
  lemma CapacityIsKept(limits: Limits, stored: map<string, nat>, free: int, steps: seq<Step>, tenant: string)
    ensures var st := TakeAll(limits, Idle(stored, free), steps);
            && ReservedOf(st.reservations, tenant) == ReservedBy(st.running, tenant)
            && st.total == ReservedByAll(st.running)
            && (st.running == [] ==> st.reservations == map[])
            && (free >= limits.freeBytes ==> st.free >= limits.freeBytes)
            && (StoredOf(stored, tenant) <= limits.tenantBytes ==> StoredOf(st.stored, tenant) <= limits.tenantBytes)
  {
    var st := TakeAll(limits, Idle(stored, free), steps);
    IdleIsSafe(limits, stored, free);
    TakeAllKeeps(limits, Idle(stored, free), steps);
    TakeAllStaysBelow(limits, Idle(stored, free), steps, free, stored);
    if st.running == [] {
      forall t ensures t !in st.reservations {
        assert ReservedOf(st.reservations, t) == ReservedBy(st.running, t);
      }
    }
  }
}
