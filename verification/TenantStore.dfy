/** The registry of tenant stores: its critical sections, each proved to be one step of the
    erasure protocol or of the capacity protocol. */
module TenantStore {
  import opened Basics
  import TenantErasure
  import TenantCapacity

  datatype Admission = Admitted | TenantLimit | ServerReserve

  class Registry {
    const limits: TenantCapacity.Limits
    var activeOperations: map<string, nat>
    var blockedAccounts: set<string>
    var tenantReservations: map<string, nat>
    var globalReservation: nat
    // What the threads are doing, which no field records.
    ghost var inFlight: seq<string>
    ghost var erasers: seq<TenantErasure.Eraser>
    ghost var writing: seq<TenantCapacity.Operation>

    ghost function Work(): TenantErasure.Registry
      reads this
    {
      TenantErasure.Registry(activeOperations, blockedAccounts, inFlight, erasers)
    }

    // The bookkeeping of the capacity with a disk as measured.
    ghost function Book(stored: map<string, nat>, free: int): TenantCapacity.Tenants
      reads this
    {
      TenantCapacity.Tenants(tenantReservations, globalReservation, writing, None, stored, free)
    }

    ghost predicate Valid()
      reads this
    {
      && TenantErasure.Counted(Work())
      && TenantCapacity.Conserved(Book(map[], 0)) && TenantCapacity.WithinReservations(Book(map[], 0))
    }

    constructor (limits: TenantCapacity.Limits)
      ensures Valid() && this.limits == limits && Work() == TenantErasure.EMPTY
      ensures tenantReservations == map[] && globalReservation == 0 && writing == []
    {
      this.limits := limits;
      activeOperations, blockedAccounts, tenantReservations, globalReservation := map[], {}, map[], 0;
      inFlight, erasers, writing := [], [], [];
    }

    // ---------- _account_operation ----------

    method BeginOperation(account: string) returns (admitted: bool)
      requires Valid()
      modifies `activeOperations, `inFlight
      ensures Valid()
      ensures Work() == TenantErasure.Take(old(Work()), TenantErasure.Enter(account))
      ensures admitted <==> account !in blockedAccounts
    {
      TenantErasure.TakeCounts(Work(), TenantErasure.Enter(account));
      if account in blockedAccounts {
        return false;
      }
      activeOperations := activeOperations[account := (if account in activeOperations then activeOperations[account] else 0) + 1];
      inFlight := inFlight + [account];
      return true;
    }

    method EndOperation(account: string, ghost index: nat)
      requires Valid() && index < |inFlight| && inFlight[index] == account
      modifies `activeOperations, `inFlight
      ensures Valid()
      ensures Work() == TenantErasure.Take(old(Work()), TenantErasure.Leave(index))
    {
      TenantErasure.TakeCounts(Work(), TenantErasure.Leave(index));
      TenantErasure.InFlightWithout(inFlight, index, account);
      assert TenantErasure.ActiveOf(activeOperations, account) == TenantErasure.InFlight(inFlight, account);
      var remaining := activeOperations[account] - 1;
      if remaining != 0 {
        activeOperations := activeOperations[account := remaining];
      } else {
        activeOperations := activeOperations - {account};
      }
      inFlight := Without(inFlight, index);
    }

    // ---------- erase_account ----------

    method BlockAccount(account: string)
      requires Valid()
      modifies `blockedAccounts, `erasers
      ensures Valid()
      ensures Work() == TenantErasure.Take(old(Work()), TenantErasure.Block(account))
      // No operation of the account enters, and only the failure of an erasure changes that.
      ensures TenantErasure.Take(Work(), TenantErasure.Enter(account)) == Work()
      ensures forall step :: account !in TenantErasure.Take(Work(), step).blocked ==> step.Fail?
      ensures old(TenantErasure.Excluded(Work())) ==> TenantErasure.Excluded(Work())
    {
      blockedAccounts := blockedAccounts + {account};
      erasers := erasers + [TenantErasure.Eraser(account, TenantErasure.Waiting)];
    }

    // One look at the condition of the wait loop.
    method TryToDelete(account: string, ghost index: nat) returns (ready: bool)
      requires Valid() && index < |erasers| && erasers[index] == TenantErasure.Eraser(account, TenantErasure.Waiting)
      modifies `erasers
      ensures Valid()
      ensures Work() == TenantErasure.Take(old(Work()), TenantErasure.Proceed(index))
      ensures ready <==> account !in inFlight
    {
      ready := account !in activeOperations || activeOperations[account] == 0;
      assert TenantErasure.ActiveOf(activeOperations, account) == TenantErasure.InFlight(inFlight, account);
      if ready {
        TenantErasure.NoneInFlight(inFlight, account);
        erasers := erasers[index := TenantErasure.Eraser(account, TenantErasure.Deleting)];
      } else {
        SomeInFlight(inFlight, account);
      }
    }

    lemma {:induction false} SomeInFlight(running: seq<string>, account: string)
      requires TenantErasure.InFlight(running, account) > 0
      ensures account in running
    {
      if running[|running| - 1] != account {
        SomeInFlight(running[..|running| - 1], account);
      }
    }

    method DeletionSucceeded(account: string, ghost index: nat)
      requires Valid() && index < |erasers| && erasers[index] == TenantErasure.Eraser(account, TenantErasure.Deleting)
      modifies `erasers
      ensures Valid()
      ensures Work() == TenantErasure.Take(old(Work()), TenantErasure.Finish(index))
    {
      erasers := Without(erasers, index);
    }

    method DeletionFailed(account: string, ghost index: nat)
      requires Valid() && index < |erasers| && erasers[index] == TenantErasure.Eraser(account, TenantErasure.Deleting)
      modifies `blockedAccounts, `erasers
      ensures Valid()
      ensures Work() == TenantErasure.Take(old(Work()), TenantErasure.Fail(index))
      // Operations of the account enter again, and that is safe exactly when no other erasure of
      // the account is under way.
      ensures TenantErasure.Take(Work(), TenantErasure.Enter(account)).running == inFlight + [account]
      ensures old(TenantErasure.Excluded(Work())) ==>
                (TenantErasure.Excluded(Work()) <==> forall j :: 0 <= j < |erasers| ==> erasers[j].account != account)
    {
      ghost var others := Without(erasers, index);
      TenantErasure.WithoutElements(erasers, index);
      if TenantErasure.Excluded(Work()) {
        TenantErasure.FailureKeepsExclusionIff(Work(), index);
      }
      blockedAccounts := blockedAccounts - {account};
      erasers := Without(erasers, index);
    }

    // ---------- _reserve_capacity ----------

    // The disk is measured twice, first the tenant's files and then the free space; writers may
    // have been at work in between.
    method ReserveCapacity(account: string, reservation: nat, stored: nat, free: int) returns (r: Admission)
      requires Valid() && reservation > 0
      modifies `tenantReservations, `globalReservation, `writing
      ensures Valid()
      ensures r.TenantLimit? <==>
                stored + TenantCapacity.ReservedOf(old(tenantReservations), account) + reservation > limits.tenantBytes
      ensures r.ServerReserve? <==> !r.TenantLimit? && free - old(globalReservation) - reservation < limits.freeBytes
      ensures forall disk: map<string, nat> :: TenantCapacity.StoredOf(disk, account) == stored ==>
                Book(disk, free) == TenantCapacity.Take(limits, TenantCapacity.Take(limits, old(Book(disk, free)),
                                      TenantCapacity.Measure(account, reservation)), TenantCapacity.Admit)
    {
      hide TenantCapacity.ReservedBy, TenantCapacity.ReservedByAll, TenantCapacity.StoredOf, TenantErasure.Counted;
      var tenantReserved := if account in tenantReservations then tenantReservations[account] else 0;
      if stored + tenantReserved + reservation > limits.tenantBytes {
        return TenantLimit;
      }
      if free - globalReservation - reservation < limits.freeBytes {
        return ServerReserve;
      }
      ghost var deciding := Book(map[], free).(deciding := Some(TenantCapacity.Operation(account, reservation, 0)));
      TenantCapacity.AdmitConserves(limits, deciding);
      tenantReservations := tenantReservations[account := tenantReserved + reservation];
      globalReservation := globalReservation + reservation;
      writing := writing + [TenantCapacity.Operation(account, reservation, 0)];
      assert Book(map[], free) == TenantCapacity.Take(limits, deciding, TenantCapacity.Admit);
      return Admitted;
    }

    method ReleaseCapacity(account: string, reservation: nat, ghost index: nat)
      requires Valid() && index < |writing| && writing[index].tenant == account
      requires writing[index].reserved == reservation
      modifies `tenantReservations, `globalReservation, `writing
      ensures Valid()
      ensures forall disk: map<string, nat>, free: int ::
                Book(disk, free) == TenantCapacity.Take(limits, old(Book(disk, free)), TenantCapacity.Release(index))
    {
      ReleaseConserves(Book(map[], 0), index);
      assert account in tenantReservations && tenantReservations[account] >= reservation && globalReservation >= reservation;
      var remaining := tenantReservations[account] - reservation;
      if remaining != 0 {
        tenantReservations := tenantReservations[account := remaining];
      } else {
        tenantReservations := tenantReservations - {account};
      }
      globalReservation := globalReservation - reservation;
      writing := Without(writing, index);
      assert Book(map[], 0) == TenantCapacity.Take(limits, old(Book(map[], 0)), TenantCapacity.Release(index));
    }

    lemma ReleaseConserves(st: TenantCapacity.Tenants, i: nat)
      requires TenantCapacity.Conserved(st) && TenantCapacity.WithinReservations(st) && st.deciding.None?
      requires i < |st.running|
      ensures var after := TenantCapacity.Take(limits, st, TenantCapacity.Release(i));
              TenantCapacity.Conserved(after) && TenantCapacity.WithinReservations(after)
      ensures var op := st.running[i];
              op.tenant in st.reservations && st.reservations[op.tenant] >= op.reserved && st.total >= op.reserved
    {
      var after, op := TenantCapacity.Take(limits, st, TenantCapacity.Release(i)), st.running[i];
      TenantCapacity.ReleasedWasReserved(st, i);
      TenantCapacity.SumsAround(st.running, i, op.tenant);
      forall t ensures TenantCapacity.ReservedOf(after.reservations, t) == TenantCapacity.ReservedBy(after.running, t)
               ensures t in after.reservations ==> after.reservations[t] > 0 {
        assert TenantCapacity.ReservedOf(st.reservations, t) == TenantCapacity.ReservedBy(st.running, t);
        TenantCapacity.SumsAround(st.running, i, t);
      }
    }
  }
}
