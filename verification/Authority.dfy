/** The physical copies decide the aggregate entry: an invariant of the entity table that every
    recorded group keeps, and what it means for concurrent devices. */
module Authority {
  import opened Basics
  import opened SyncTypes
  import opened Canonical

  // ---------- The invariant ----------

  ghost predicate WellKeyed(es: Entities) {
    forall k :: k in es ==>
      && KindOf(es[k].data) == k.kind
      && (k.kind.CollectionEntry? ==> es[k].data.entry.issueId == k.id)
  }

  ghost predicate CopiesHaveEntries(es: Entities) {
    forall k :: k in es && es[k].data.Copy? ==> Key(CollectionEntry, es[k].data.copy.issueId) in es
  }

  // A live entry's flags are those of its active copies; a tombstone has none of either.
  ghost predicate EntryAgrees(op: Operation, data: EntryData, active: nat) {
    if IsLive(op, Entry(data)) then
      data.owned == (active > 0) && data.isDuplicate == (active > 1) && data.isWanted == (active == 0)
    else
      active == 0 && !data.owned && !data.isDuplicate && !data.isWanted
  }

  ghost predicate EntriesFollowCopies(es: Entities)
    requires WellKeyed(es)
  {
    forall k :: k in es && k.kind.CollectionEntry? ==>
      EntryAgrees(es[k].op, es[k].data.entry, |StoredActive(es, k.id)|)
  }

  ghost predicate OperationsAgree(es: Entities) {
    forall k :: k in es ==> (IsDeleted(es[k].data) <==> es[k].op.Delete?)
  }

  ghost predicate Described(es: Entities, id: string, data: Data) {
    Key(CustomIssue, IssueOf(id, data)) in es || HintOf(data).Some?
  }

  ghost predicate IssuesDescribed(es: Entities) {
    forall k :: k in es && !es[k].data.Issue? ==> Described(es, k.id, es[k].data)
  }

  ghost predicate CopyAuthority(es: Entities) {
    && WellKeyed(es) && CopiesHaveEntries(es) && EntriesFollowCopies(es)
    && OperationsAgree(es) && IssuesDescribed(es)
  }

  ghost predicate AllValidBodies(cs: seq<Change>) {
    forall c :: c in cs ==> ValidBody(c)
  }

  // ---------- The members of a canonical group ----------

  ghost predicate OpAgrees(c: Change) {
    IsDeleted(c.data) <==> c.op.Delete?
  }

  ghost predicate GoodEntry(e: Change) {
    e.data.Entry? && e.data.entry.issueId == e.id && OpAgrees(e)
  }

  lemma ImpliedEntryIsGood(es: Entities, cs: seq<Change>, issue: string)
    requires WellKeyed(es) && OperationsAgree(es)
    ensures GoodEntry(ImpliedEntry(es, cs, issue))
  {
  }

  lemma OrderedMemberIsGood(cs: seq<Change>, c: Change)
    requires AllValidBodies(cs) && c in Ordered(cs)
    ensures OpAgrees(c) && (c.data.Entry? ==> GoodEntry(c))
    ensures !c.data.Issue? ==> c in cs
  {
    OrderedMembers(cs);
    var o :| o in cs && CanonicalChange(o) == c;
    assert ValidBody(o);
  }

  lemma OrderedKeepsOthers(cs: seq<Change>, c: Change)
    requires c in cs && !c.data.Issue?
    ensures c in Ordered(cs)
  {
    OrderedMembers(cs);
    assert CanonicalChange(c) == c;
  }

  // Where an entry of the canonical group comes from: an entry of the mutation, or the implied
  // one, normalised against the merged number of active copies.
  lemma CanonicalEntry(es: Entities, cs: seq<Change>, d: Change) returns (e: Change)
    requires WellKeyed(es) && OperationsAgree(es) && AllValidBodies(cs)
    requires d in Normalized(es, Ordered(cs)) && d.data.Entry?
    ensures GoodEntry(e) && e.id == d.id
    ensures d == NormalizeEntry(es, e, |MergedActive(es, Ordered(cs), d.id)|)
    ensures e in cs || (e == ImpliedEntry(es, Ordered(cs), d.id) && d.id in MissingEntries(Ordered(cs)))
  {
    var base := Ordered(cs);
    NormalizedOrigin(es, base, d);
    if c :| c in base && NormalizeOne(es, base, c) == d {
      e := c;
      NormalizeKeepsKey(es, base, c);
      OrderedMemberIsGood(cs, c);
    } else {
      var issue :| issue in MissingEntries(base) && AddedEntry(es, base, issue) == d;
      e := ImpliedEntry(es, base, issue);
      ImpliedEntryIsGood(es, base, issue);
    }
  }

  lemma CanonicalOther(es: Entities, cs: seq<Change>, d: Change)
    requires d in Normalized(es, cs) && !d.data.Entry?
    ensures d in cs
  {
    hide Normalized, NormalizeOne, MissingEntries, MergedActive, ImpliedEntry, NormalizeEntry;
    NormalizedOrigin(es, cs, d);
    if c :| c in cs && NormalizeOne(es, cs, c) == d {
      NormalizeKeepsKey(es, cs, c);
    }
  }

  // ---------- The active copies after a group ----------

  // No stored copy moves to another issue.
  ghost predicate NoMoves(es: Entities, cs: seq<Change>) {
    forall c :: c in cs && c.data.Copy? && KeyOf(c) in es ==> IsCopyOf(es[KeyOf(c)].data, ChangeIssue(c))
  }

  lemma CanonicalNoMoves(es: Entities, cs: seq<Change>)
    requires Canonicalize(es, cs).Ok?
    ensures NoMoves(es, Canonicalize(es, cs).value)
    ensures forall c :: c in Canonicalize(es, cs).value && c.data.Copy? <==> c in Ordered(cs) && c.data.Copy?
  {
    var base, canonical := Ordered(cs), Canonicalize(es, cs).value;
    forall c | c in canonical && c.data.Copy?
      ensures c in base
      ensures KeyOf(c) in es ==> IsCopyOf(es[KeyOf(c)].data, ChangeIssue(c))
    {
      CanonicalOther(es, base, c);
      OrderedMembers(cs);
      assert c in cs;
      assert Acceptable(es, cs, c);
    }
    forall c | c in base && c.data.Copy? ensures c in canonical {
      NormalizedMembers(es, base);
      NormalizeKeepsKey(es, base, c);
    }
  }

  lemma StoredCopyStays(es: Entities, cs: seq<Change>, c: Change, issue: string)
    requires WellKeyed(es) && NoMoves(es, cs) && c in cs && KeyOf(c) in StoredActive(es, issue)
    ensures KeyOf(c) in ChangedCopies(cs, issue)
  {
    assert KindOf(c.data) == KindOf(es[KeyOf(c)].data);
  }

  // Storing distinct changes that move no copy leaves exactly the merged copies active.
  lemma ActiveAfterRecord(es: Entities, cs: seq<Change>, revision: nat, issue: string)
    requires WellKeyed(es) && DistinctKeys(cs) && NoMoves(es, cs)
    ensures StoredActive(Record(es, cs, revision), issue) == MergedActive(es, cs, issue)
  {
    var after := Record(es, cs, revision);
    RecordAt(es, cs, revision);
    forall k ensures k in StoredActive(after, issue) <==> k in MergedActive(es, cs, issue) {
      if c :| c in cs && KeyOf(c) == k {
        assert after[k] == Entity(c.op, c.data, revision);
        if k in StoredActive(es, issue) {
          StoredCopyStays(es, cs, c, issue);
        }
        if d :| d in cs && IsCopyOf(d.data, issue) && IsActiveCopy(d.op, d.data) && KeyOf(d) == k {
          OnlyOneChange(cs, c, d);
        }
      }
    }
  }

  lemma MergedSameCopies(es: Entities, cs: seq<Change>, ds: seq<Change>, issue: string)
    requires forall c :: c in cs && c.data.Copy? <==> c in ds && c.data.Copy?
    ensures MergedActive(es, cs, issue) == MergedActive(es, ds, issue)
  {
    assert ChangedCopies(cs, issue) == ChangedCopies(ds, issue);
    assert ActivatedCopies(cs, issue) == ActivatedCopies(ds, issue);
  }

  // After the group is stored, the active copies of an issue are the merged ones.
  lemma ActiveAfterGroup(es: Entities, cs: seq<Change>, revision: nat, issue: string)
    requires WellKeyed(es) && Canonicalize(es, cs).Ok?
    ensures StoredActive(Record(es, Canonicalize(es, cs).value, revision), issue)
            == MergedActive(es, Ordered(cs), issue)
  {
    CanonicalNoMoves(es, cs);
    ActiveAfterRecord(es, Canonicalize(es, cs).value, revision, issue);
    MergedSameCopies(es, Canonicalize(es, cs).value, Ordered(cs), issue);
  }

  lemma OnlyOneChange(cs: seq<Change>, c: Change, d: Change)
    requires DistinctKeys(cs) && c in cs && d in cs && KeyOf(c) == KeyOf(d)
    ensures c == d
  {
    var i :| 0 <= i < |cs| && cs[i] == c;
    var j :| 0 <= j < |cs| && cs[j] == d;
    assert i == j;
  }

  lemma NormalizedEntryAgrees(es: Entities, e: Change, active: nat)
    requires WellKeyed(es) && GoodEntry(e)
    ensures var d := NormalizeEntry(es, e, active);
            GoodEntry(d) && EntryAgrees(d.op, d.data.entry, active)
  {
  }

  // ---------- Every recorded group keeps the invariant ----------

  lemma KnownIssueStored(es: Entities, cs: seq<Change>, revision: nat, issue: string)
    requires Canonicalize(es, cs).Ok? && KnownIssue(es, cs, issue)
    ensures Key(CustomIssue, issue) in Record(es, Canonicalize(es, cs).value, revision)
  {
    var base, canonical := Ordered(cs), Canonicalize(es, cs).value;
    RecordAt(es, canonical, revision);
    if c :| c in cs && c.data.Issue? && c.id == issue {
      OrderedMembers(cs);
      NormalizedMembers(es, base);
      var o := CanonicalChange(c);
      assert o in base && NormalizeOne(es, base, o) == o && KeyOf(o) == Key(CustomIssue, issue);
    }
  }

  lemma GroupDescribed(es: Entities, cs: seq<Change>, revision: nat, d: Change)
    requires WellKeyed(es) && OperationsAgree(es) && IssuesDescribed(es)
    requires AllValidBodies(cs) && Canonicalize(es, cs).Ok?
    requires d in Canonicalize(es, cs).value && !d.data.Issue?
    ensures Described(Record(es, Canonicalize(es, cs).value, revision), d.id, d.data)
  {
    hide Record, Normalized, MergedActive, ValidBody, NormalizeEntry, Ordered;
    var issue := ChangeIssue(d);
    if KnownIssue(es, cs, issue) {
      KnownIssueStored(es, cs, revision, issue);
    } else if d.data.Entry? {
      var e := CanonicalEntry(es, cs, d);
      NormalizedEntryAgrees(es, e, |MergedActive(es, Ordered(cs), d.id)|);
      if e in cs {
        assert Acceptable(es, cs, e);
      } else if Find(es, CollectionEntry, d.id).None? {
        HintOfNewCopies(es, cs, d.id);
      }
      NormalizeKeepsHint(es, e, |MergedActive(es, Ordered(cs), d.id)|);
    } else {
      CanonicalOther(es, Ordered(cs), d);
      OrderedMemberIsGood(cs, d);
      assert Acceptable(es, cs, d);
    }
  }

  lemma NormalizeKeepsHint(es: Entities, e: Change, active: nat)
    requires GoodEntry(e) && e.data.entry.hint.Some?
    ensures HintOf(NormalizeEntry(es, e, active).data).Some?
  {
  }

  // Copies of an unknown issue all describe it, so the first hint is there.
  lemma HintOfNewCopies(es: Entities, cs: seq<Change>, issue: string)
    requires forall c :: c in cs ==> Acceptable(es, cs, c)
    requires !KnownIssue(es, cs, issue) && issue in MissingEntries(Ordered(cs))
    ensures FirstHint(CopyChanges(Ordered(cs), issue)).Some?
  {
    var copies := CopyChanges(Ordered(cs), issue);
    CopyChangesAreCopies(Ordered(cs), issue);
    var c :| c in Ordered(cs) && c.data.Copy? && c.data.copy.issueId == issue;
    OrderedMembers(cs);
    assert c in cs;
    assert c in copies && Acceptable(es, cs, c) && c.data.copy.hint.Some?;
    FirstHintExists(copies, c);
  }

  lemma {:induction false} FirstHintExists(cs: seq<Change>, c: Change)
    requires c in cs && HintOf(c.data).Some?
    ensures FirstHint(cs).Some?
  {
    if HintOf(cs[0].data).None? {
      FirstHintExists(cs[1..], c);
    }
  }

  lemma GroupMemberGood(es: Entities, cs: seq<Change>, revision: nat, d: Change)
    requires WellKeyed(es) && OperationsAgree(es) && AllValidBodies(cs) && Canonicalize(es, cs).Ok?
    requires d in Canonicalize(es, cs).value
    ensures OpAgrees(d)
    ensures d.data.Entry? ==>
              && d.data.entry.issueId == d.id
              && EntryAgrees(d.op, d.data.entry, |MergedActive(es, Ordered(cs), d.id)|)
  {
    if d.data.Entry? {
      var e := CanonicalEntry(es, cs, d);
      NormalizedEntryAgrees(es, e, |MergedActive(es, Ordered(cs), d.id)|);
    } else {
      CanonicalOther(es, Ordered(cs), d);
      OrderedMemberIsGood(cs, d);
    }
  }

  lemma GroupKeepsCopyAuthority(es: Entities, cs: seq<Change>, revision: nat)
    requires CopyAuthority(es) && AllValidBodies(cs) && Canonicalize(es, cs).Ok?
    ensures CopyAuthority(Record(es, Canonicalize(es, cs).value, revision))
  {
    var canonical := Canonicalize(es, cs).value;
    var after := Record(es, canonical, revision);
    RecordAt(es, canonical, revision);
    forall k | k in after
      ensures KindOf(after[k].data) == k.kind
      ensures k.kind.CollectionEntry? ==>
                && after[k].data.entry.issueId == k.id
                && EntryAgrees(after[k].op, after[k].data.entry, |StoredActive(after, k.id)|)
      ensures IsDeleted(after[k].data) <==> after[k].op.Delete?
      ensures after[k].data.Copy? ==> Key(CollectionEntry, after[k].data.copy.issueId) in after
      ensures !after[k].data.Issue? ==> Described(after, k.id, after[k].data)
    {
      if d :| d in canonical && KeyOf(d) == k {
        assert after[k] == Entity(d.op, d.data, revision);
        GroupMemberGood(es, cs, revision, d);
        if d.data.Entry? {
          ActiveAfterGroup(es, cs, revision, d.id);
        }
        if d.data.Copy? {
          CanonicalOther(es, Ordered(cs), d);
          EntryOfChangedCopy(es, cs, d);
        }
        if !d.data.Issue? {
          GroupDescribed(es, cs, revision, d);
        }
      } else {
        assert after[k] == es[k];
        if k.kind.CollectionEntry? {
          UntouchedIssue(es, cs, k.id);
          ActiveAfterGroup(es, cs, revision, k.id);
        }
      }
    }
  }

  lemma EntryOfChangedCopy(es: Entities, cs: seq<Change>, d: Change)
    requires Canonicalize(es, cs).Ok? && d in Ordered(cs) && d.data.Copy?
    ensures exists e :: e in Canonicalize(es, cs).value && KeyOf(e) == Key(CollectionEntry, d.data.copy.issueId)
  {
    hide Normalized, NormalizeEntry, ImpliedEntry, MergedActive, Ordered, Acceptable, DistinctKeys;
    var base := Ordered(cs);
    NormalizedMembers(es, base);
    if e :| e in base && e.data.Entry? && e.id == d.data.copy.issueId {
      assert KeyOf(NormalizeOne(es, base, e)) == KeyOf(e);
    } else {
      assert d.data.copy.issueId in MissingEntries(base);
      assert KeyOf(AddedEntry(es, base, d.data.copy.issueId)) == Key(CollectionEntry, d.data.copy.issueId);
    }
  }

  // A group that holds no entry of an issue changes none of its copies.
  lemma UntouchedIssue(es: Entities, cs: seq<Change>, issue: string)
    requires Canonicalize(es, cs).Ok?
    requires forall d :: d in Canonicalize(es, cs).value ==> KeyOf(d) != Key(CollectionEntry, issue)
    ensures ChangedCopies(Ordered(cs), issue) == {}
    ensures MergedActive(es, Ordered(cs), issue) == StoredActive(es, issue)
  {
    var base := Ordered(cs);
    forall c | c in base && IsCopyOf(c.data, issue) ensures false {
      EntryOfChangedCopy(es, cs, c);
    }
  }
}
