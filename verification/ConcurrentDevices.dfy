/** What devices that did not see each other's changes can rely on: copy changes commute, and a
    deletion of an entry never discards a copy it did not observe. */
module ConcurrentDevices {
  import opened Basics
  import opened SyncTypes
  import opened Canonical
  import opened Authority

  // The entity table after an accepted mutation.
  ghost function After(es: Entities, cs: seq<Change>, revision: nat): Entities
    requires Canonicalize(es, cs).Ok?
  {
    Record(es, Canonicalize(es, cs).value, revision)
  }

  ghost predicate CopyOnly(cs: seq<Change>) {
    forall i :: 0 <= i < |cs| ==> cs[i].data.Copy?
  }

  ghost predicate DisjointIds(a: seq<Change>, b: seq<Change>) {
    forall x, y :: x in a && y in b ==> x.id != y.id
  }

  predicate SameState(x: Entity, y: Entity) {
    x.op == y.op && x.data == y.data
  }

  // The aggregate state a device sees: liveness and the flags, not the texts.
  predicate SameAggregate(x: Entity, y: Entity)
    requires x.data.Entry? && y.data.Entry?
  {
    && x.op == y.op && x.data.entry.deleted == y.data.entry.deleted
    && x.data.entry.owned == y.data.entry.owned
    && x.data.entry.isDuplicate == y.data.entry.isDuplicate
    && x.data.entry.isWanted == y.data.entry.isWanted
  }

  // ---------- One copy-only mutation ----------

  lemma {:induction false} CopyOnlyIsOrdered(cs: seq<Change>)
    requires CopyOnly(cs)
    ensures Ordered(cs) == cs
    ensures IssueChanges(cs) == []
  {
    if cs != [] {
      CopyOnlyIsOrdered(cs[..|cs| - 1]);
    }
  }

  lemma AfterCopiesElsewhere(es: Entities, cs: seq<Change>, revision: nat, k: Key)
    requires WellKeyed(es) && CopyOnly(cs) && Canonicalize(es, cs).Ok?
    requires k.kind == CollectionEntry ==> k.id !in MissingEntries(cs)
    requires forall c :: c in cs ==> KeyOf(c) != k
    ensures k in After(es, cs, revision) <==> k in es
    ensures k in es ==> After(es, cs, revision)[k] == es[k]
  {
    hide Record, Normalized, NormalizeOne, NormalizeEntry, ImpliedEntry, MergedActive, Acceptable;
    CopyOnlyIsOrdered(cs);
    var canonical := Canonicalize(es, cs).value;
    RecordAt(es, canonical, revision);
    forall d | d in canonical ensures KeyOf(d) != k {
      NormalizedOrigin(es, cs, d);
      if c :| c in cs && NormalizeOne(es, cs, c) == d {
        NormalizeKeepsKey(es, cs, c);
      }
    }
  }

  lemma AfterCopiesCopy(es: Entities, cs: seq<Change>, revision: nat, c: Change)
    requires CopyOnly(cs) && Canonicalize(es, cs).Ok? && c in cs
    ensures KeyOf(c) in After(es, cs, revision)
    ensures After(es, cs, revision)[KeyOf(c)] == Entity(c.op, c.data, revision)
  {
    CopyOnlyIsOrdered(cs);
    RecordAt(es, Canonicalize(es, cs).value, revision);
    NormalizedMembers(es, cs);
    NormalizeKeepsKey(es, cs, c);
    assert c in Canonicalize(es, cs).value;
  }

  lemma AfterCopiesEntry(es: Entities, cs: seq<Change>, revision: nat, issue: string)
    requires CopyOnly(cs) && Canonicalize(es, cs).Ok? && issue in MissingEntries(cs)
    ensures var d := AddedEntry(es, cs, issue); var k := Key(CollectionEntry, issue);
            k in After(es, cs, revision) && After(es, cs, revision)[k] == Entity(d.op, d.data, revision)
  {
    CopyOnlyIsOrdered(cs);
    RecordAt(es, Canonicalize(es, cs).value, revision);
    NormalizedMembers(es, cs);
    assert AddedEntry(es, cs, issue) in Canonicalize(es, cs).value;
  }

  lemma ActiveAfterCopies(es: Entities, cs: seq<Change>, revision: nat, issue: string)
    requires WellKeyed(es) && CopyOnly(cs) && Canonicalize(es, cs).Ok?
    ensures StoredActive(After(es, cs, revision), issue) == MergedActive(es, cs, issue)
  {
    ActiveAfterGroup(es, cs, revision, issue);
    CopyOnlyIsOrdered(cs);
  }

  // ---------- Two of them, in both orders ----------

  ghost predicate BothOrders(es: Entities, a: seq<Change>, b: seq<Change>, r: nat) {
    && CopyAuthority(es) && AllValidBodies(a) && AllValidBodies(b)
    && CopyOnly(a) && CopyOnly(b) && DisjointIds(a, b)
    && Canonicalize(es, a).Ok? && Canonicalize(After(es, a, r), b).Ok?
    && Canonicalize(es, b).Ok? && Canonicalize(After(es, b, r), a).Ok?
  }

  lemma CopiesCommute(es: Entities, a: seq<Change>, b: seq<Change>, r: nat, k: Key)
    requires BothOrders(es, a, b, r) && k.kind != CollectionEntry
    ensures var ab := After(After(es, a, r), b, r + 1); var ba := After(After(es, b, r), a, r + 1);
            (k in ab <==> k in ba) && (k in ab ==> SameState(ab[k], ba[k]))
  {
    GroupKeepsCopyAuthority(es, a, r);
    GroupKeepsCopyAuthority(es, b, r);
    if x :| x in a && KeyOf(x) == k {
      AfterCopiesCopy(es, a, r, x);
      AfterCopiesElsewhere(After(es, a, r), b, r + 1, k);
      AfterCopiesCopy(After(es, b, r), a, r + 1, x);
    } else if y :| y in b && KeyOf(y) == k {
      AfterCopiesCopy(es, b, r, y);
      AfterCopiesElsewhere(After(es, b, r), a, r + 1, k);
      AfterCopiesCopy(After(es, a, r), b, r + 1, y);
    } else {
      AfterCopiesElsewhere(es, a, r, k);
      AfterCopiesElsewhere(After(es, a, r), b, r + 1, k);
      AfterCopiesElsewhere(es, b, r, k);
      AfterCopiesElsewhere(After(es, b, r), a, r + 1, k);
    }
  }

  lemma ActiveCommutes(es: Entities, a: seq<Change>, b: seq<Change>, r: nat, issue: string)
    requires BothOrders(es, a, b, r)
    ensures StoredActive(After(After(es, a, r), b, r + 1), issue)
            == StoredActive(After(After(es, b, r), a, r + 1), issue)
    ensures ActivatedCopies(a, issue) <= StoredActive(After(After(es, a, r), b, r + 1), issue)
  {
    var ab, ba := After(After(es, a, r), b, r + 1), After(After(es, b, r), a, r + 1);
    GroupKeepsCopyAuthority(es, a, r);
    GroupKeepsCopyAuthority(es, b, r);
    GroupKeepsCopyAuthority(After(es, a, r), b, r + 1);
    GroupKeepsCopyAuthority(After(es, b, r), a, r + 1);
    forall k ensures k in StoredActive(ab, issue) <==> k in StoredActive(ba, issue) {
      if k.kind != CollectionEntry {
        CopiesCommute(es, a, b, r, k);
      }
    }
    ActiveAfterCopies(es, a, r, issue);
    ActiveAfterCopies(After(es, a, r), b, r + 1, issue);
    assert ActivatedCopies(a, issue) !! ChangedCopies(b, issue);
  }

  // What a copy-only mutation makes of a stored entry.
  function Recounted(e: Entity, active: nat): Entity
    requires e.data.Entry?
  {
    if IsLive(e.op, e.data) then e.(data := Entry(Derived(e.data.entry, active)))
    else if active == 0 then
      e.(data := Entry(e.data.entry.(owned := false, isDuplicate := false, isWanted := false)))
    else e.(op := Upsert, data := Entry(Derived(e.data.entry.(deleted := false), active)))
  }

  lemma AddedToStored(es: Entities, cs: seq<Change>, issue: string)
    requires WellKeyed(es) && Key(CollectionEntry, issue) in es
    ensures var d, e := AddedEntry(es, cs, issue), es[Key(CollectionEntry, issue)];
            e.data.Entry? &&
            Entity(d.op, d.data, e.revision) == Recounted(e, |MergedActive(es, cs, issue)|)
  {
  }

  lemma RecountedTwice(e: Entity, first: nat, last: nat)
    requires e.data.Entry? && (!IsLive(e.op, e.data) && first > 0 ==> last > 0)
    ensures Recounted(Recounted(e, first), last) == Recounted(e, last)
  {
  }

  lemma RecountedUnchanged(e: Entity, active: nat)
    requires e.data.Entry? && EntryAgrees(e.op, e.data.entry, active)
    ensures Recounted(e, active) == e
  {
  }

  // One copy-only mutation recounts the stored entry of every issue, touched or not.
  lemma StoredEntryAfterOne(es: Entities, cs: seq<Change>, r: nat, issue: string)
    requires CopyAuthority(es) && AllValidBodies(cs) && CopyOnly(cs) && Canonicalize(es, cs).Ok?
    requires Key(CollectionEntry, issue) in es
    ensures var k, after := Key(CollectionEntry, issue), After(es, cs, r);
            k in after && es[k].data.Entry?
            && SameState(after[k], Recounted(es[k], |StoredActive(after, issue)|))
  {
    var k := Key(CollectionEntry, issue);
    ActiveAfterCopies(es, cs, r, issue);
    if issue in MissingEntries(cs) {
      AfterCopiesEntry(es, cs, r, issue);
      AddedToStored(es, cs, issue);
    } else {
      AfterCopiesElsewhere(es, cs, r, k);
      GroupKeepsCopyAuthority(es, cs, r);
      RecountedUnchanged(es[k], |StoredActive(After(es, cs, r), issue)|);
    }
  }

  // The entry after both mutations, when the server already stored one: the stored entry
  // recounted once against the final copies, whatever came first.
  lemma StoredEntryAfterBoth(es: Entities, a: seq<Change>, b: seq<Change>, r: nat, issue: string)
    requires BothOrders(es, a, b, r) && Key(CollectionEntry, issue) in es
    ensures var k, ab := Key(CollectionEntry, issue), After(After(es, a, r), b, r + 1);
            k in ab && es[k].data.Entry?
            && SameState(ab[k], Recounted(es[k], |StoredActive(ab, issue)|))
  {
    var k, mid := Key(CollectionEntry, issue), After(es, a, r);
    var ab := After(mid, b, r + 1);
    GroupKeepsCopyAuthority(es, a, r);
    StoredEntryAfterOne(es, a, r, issue);
    StoredEntryAfterOne(mid, b, r + 1, issue);
    var first, last := |StoredActive(mid, issue)|, |StoredActive(ab, issue)|;
    if !IsLive(es[k].op, es[k].data) && first > 0 {
      TombstoneRevived(es, a, b, r, issue);
    }
    RecountedTwice(es[k].(revision := mid[k].revision), first, last);
  }

  lemma TombstoneRevived(es: Entities, a: seq<Change>, b: seq<Change>, r: nat, issue: string)
    requires BothOrders(es, a, b, r)
    requires StoredActive(es, issue) == {} && StoredActive(After(es, a, r), issue) != {}
    ensures StoredActive(After(After(es, a, r), b, r + 1), issue) != {}
  {
    ActiveAfterCopies(es, a, r, issue);
    ActiveCommutes(es, a, b, r, issue);
    var x :| x in MergedActive(es, a, issue);
    assert x in ActivatedCopies(a, issue);
  }

  lemma NewEntryAfterOne(es: Entities, cs: seq<Change>, r: nat, issue: string)
    requires CopyAuthority(es) && AllValidBodies(cs) && CopyOnly(cs) && Canonicalize(es, cs).Ok?
    requires Key(CollectionEntry, issue) !in es
    ensures var k, after := Key(CollectionEntry, issue), After(es, cs, r);
            && (k in after <==> issue in MissingEntries(cs))
            && (k in after ==> after[k].data.Entry? && IsLive(after[k].op, after[k].data))
  {
    if issue in MissingEntries(cs) {
      AfterCopiesEntry(es, cs, r, issue);
    } else {
      AfterCopiesElsewhere(es, cs, r, Key(CollectionEntry, issue));
    }
  }

  lemma NewEntryAfterBoth(es: Entities, a: seq<Change>, b: seq<Change>, r: nat, issue: string)
    requires BothOrders(es, a, b, r) && Key(CollectionEntry, issue) !in es
    ensures var k, ab := Key(CollectionEntry, issue), After(After(es, a, r), b, r + 1);
            && (k in ab <==> issue in MissingEntries(a) || issue in MissingEntries(b))
            && (k in ab ==> ab[k].data.Entry? && IsLive(ab[k].op, ab[k].data)
                            && EntryAgrees(ab[k].op, ab[k].data.entry, |StoredActive(ab, issue)|))
  {
    var k, mid := Key(CollectionEntry, issue), After(es, a, r);
    GroupKeepsCopyAuthority(es, a, r);
    GroupKeepsCopyAuthority(mid, b, r + 1);
    NewEntryAfterOne(es, a, r, issue);
    if k in mid {
      StoredEntryAfterOne(mid, b, r + 1, issue);
    } else {
      NewEntryAfterOne(mid, b, r + 1, issue);
    }
  }

  // Two copy-only mutations on disjoint copies, accepted in either order, leave the same copies,
  // the same aggregates, and the same whole entries wherever an entry was already stored.
  lemma CopyMutationsCommute(es: Entities, a: seq<Change>, b: seq<Change>, r: nat, k: Key)
    requires BothOrders(es, a, b, r)
    ensures var ab := After(After(es, a, r), b, r + 1); var ba := After(After(es, b, r), a, r + 1);
            && (k in ab <==> k in ba)
            && (k in ab && k.kind == CollectionEntry ==>
                  ab[k].data.Entry? && ba[k].data.Entry? && SameAggregate(ab[k], ba[k]))
            && (k in ab && (k.kind != CollectionEntry || k in es) ==> SameState(ab[k], ba[k]))
  {
    if k.kind != CollectionEntry {
      CopiesCommute(es, a, b, r, k);
    } else {
      assert k == Key(CollectionEntry, k.id);
      ActiveCommutes(es, a, b, r, k.id);
      if k in es {
        StoredEntryAfterBoth(es, a, b, r, k.id);
        StoredEntryAfterBoth(es, b, a, r, k.id);
      } else {
        NewEntryAfterBoth(es, a, b, r, k.id);
        NewEntryAfterBoth(es, b, a, r, k.id);
      }
    }
  }

  // ---------- Observed remove ----------

  lemma EntryOfMutation(es: Entities, cs: seq<Change>, revision: nat, e: Change)
    requires Canonicalize(es, cs).Ok? && e in cs && e.data.Entry?
    ensures var d := NormalizeEntry(es, e, |MergedActive(es, Ordered(cs), e.id)|);
            KeyOf(e) in After(es, cs, revision)
            && After(es, cs, revision)[KeyOf(e)] == Entity(d.op, d.data, revision)
  {
    var base := Ordered(cs);
    OrderedKeepsOthers(cs, e);
    NormalizedMembers(es, base);
    assert NormalizeOne(es, base, e) in Canonicalize(es, cs).value;
    RecordAt(es, Canonicalize(es, cs).value, revision);
  }

  // A deletion of an entry takes effect exactly when no copy of the issue stays active. When one
  // does, the entry the server stored lives on: only its flags are recounted, and a hint it did
  // not have is taken from the deletion.
  lemma DeletionObservesCopies(es: Entities, cs: seq<Change>, revision: nat, e: Change)
    requires CopyAuthority(es) && AllValidBodies(cs) && Canonicalize(es, cs).Ok?
    requires e in cs && e.data.Entry? && e.op.Delete?
    ensures var after, k := After(es, cs, revision), KeyOf(e);
            var active := |StoredActive(after, e.id)|;
            && k in after && after[k].data.Entry?
            && (after[k].op.Delete? <==> active == 0)
            && (after[k].data.entry.deleted <==> active == 0)
            && (active > 0 && k in es && es[k].op.Upsert? ==>
                  es[k].data.Entry? &&
                  after[k].data.entry ==
                    Derived(es[k].data.entry.(hint := if es[k].data.entry.hint.Some?
                                                      then es[k].data.entry.hint
                                                      else e.data.entry.hint), active))
  {
    hide Canonicalize, Record, StoredActive, MergedActive, Ordered, ValidData;
    EntryOfMutation(es, cs, revision, e);
    ActiveAfterGroup(es, cs, revision, e.id);
    assert ValidBody(e);
  }
}
