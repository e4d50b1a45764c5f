/** What an accepted mutation leaves in the entity table, key by key: what was sent, what the
    server makes of entries, and the entries it adds for copies that have none. */
module GroupContents {
  import opened Basics
  import opened SyncTypes
  import opened Canonical
  import opened Authority
  import opened ConcurrentDevices

  predicate IsSent(cs: seq<Change>, kind: Kind, id: string) {
    exists c :: c in cs && KeyOf(c) == Key(kind, id)
  }

  predicate ChangesCopies(cs: seq<Change>, issue: string) {
    exists c :: c in cs && IsCopyOf(c.data, issue)
  }

  // ---------- The copies of one issue, in the order they were sent ----------

  lemma {:induction false} CopiesOfConcat(a: seq<Change>, b: seq<Change>, issue: string)
    ensures CopyChanges(a + b, issue) == CopyChanges(a, issue) + CopyChanges(b, issue)
  {
    if b == [] {
      assert a + b == a;
    } else {
      CopiesOfConcat(a, b[..|b| - 1], issue);
      assert (a + b)[..|a + b| - 1] == a + b[..|b| - 1];
    }
  }

  lemma CopiesNext(cs: seq<Change>, c: Change, issue: string)
    ensures CopyChanges(cs + [c], issue) == CopyChanges(cs, issue) + if IsCopyOf(c.data, issue) then [c] else []
  {
    assert (cs + [c])[..|cs|] == cs;
  }

  lemma {:induction false} CopiesStayInOrder(cs: seq<Change>, issue: string)
    ensures CopyChanges(IssueChanges(cs), issue) == []
    ensures CopyChanges(OtherChanges(cs), issue) == CopyChanges(cs, issue)
  {
    if cs != [] {
      var init, last := cs[..|cs| - 1], cs[|cs| - 1];
      CopiesStayInOrder(init, issue);
      if last.data.Issue? {
        CopiesNext(IssueChanges(init), CanonicalChange(last), issue);
        assert OtherChanges(cs) == OtherChanges(init);
      } else {
        CopiesNext(OtherChanges(init), last, issue);
        assert IssueChanges(cs) == IssueChanges(init);
      }
    }
  }

  lemma CopiesOfOrdered(cs: seq<Change>, issue: string)
    ensures CopyChanges(Ordered(cs), issue) == CopyChanges(cs, issue)
  {
    CopiesStayInOrder(cs, issue);
    CopiesOfConcat(IssueChanges(cs), OtherChanges(cs), issue);
    hide IssueChanges, OtherChanges, CopyChanges;
  }

  // The first of the issue's copies that has a hint.
  predicate IsFirstHinted(cs: seq<Change>, issue: string, i: int) {
    && 0 <= i < |cs| && IsCopyOf(cs[i].data, issue) && HintOf(cs[i].data).Some?
    && forall j :: 0 <= j < i && IsCopyOf(cs[j].data, issue) ==> HintOf(cs[j].data).None?
  }

  ghost predicate IsHintOfCopies(cs: seq<Change>, issue: string, hint: Option<Hint>) {
    if hint.Some? then exists i :: IsFirstHinted(cs, issue, i) && hint == HintOf(cs[i].data)
    else forall c :: c in cs && IsCopyOf(c.data, issue) ==> HintOf(c.data).None?
  }

  lemma {:induction false} FirstHintNext(q: seq<Change>, c: Change)
    ensures FirstHint(q + [c]) == if FirstHint(q).Some? then FirstHint(q) else HintOf(c.data)
  {
    if q != [] {
      FirstHintNext(q[1..], c);
      assert (q + [c])[1..] == q[1..] + [c];
    }
  }

  lemma {:induction false} FirstHintIsFirst(cs: seq<Change>, issue: string)
    ensures IsHintOfCopies(cs, issue, FirstHint(CopyChanges(cs, issue)))
  {
    hide FirstHint;
    if cs == [] {
      NoHint();
    } else {
      var init, last := cs[..|cs| - 1], cs[|cs| - 1];
      FirstHintIsFirst(init, issue);
      var found := FirstHint(CopyChanges(init, issue));
      FirstHintNext(CopyChanges(init, issue), last);
      assert cs == init + [last];
      if found.Some? {
        var i :| IsFirstHinted(init, issue, i) && found == HintOf(init[i].data);
        assert IsFirstHinted(cs, issue, i) && cs[i] == init[i];
        assert CopyChanges(init, issue) + [] == CopyChanges(init, issue);
      } else if IsCopyOf(last.data, issue) {
        assert forall j :: 0 <= j < |init| ==> init[j] in init;
        assert HintOf(last.data).Some? ==> IsFirstHinted(cs, issue, |init|);
      } else {
        assert CopyChanges(init, issue) + [] == CopyChanges(init, issue);
      }
    }
  }

  lemma NoHint()
    ensures FirstHint([]) == None
  {
  }

  // The time of the latest of the issue's copies.
  ghost predicate IsLatestOfCopies(cs: seq<Change>, issue: string, time: int) {
    && (exists c :: c in cs && IsCopyOf(c.data, issue) && c.data.copy.updatedAt == time)
    && forall c :: c in cs && IsCopyOf(c.data, issue) ==> c.data.copy.updatedAt <= time
  }

  lemma {:induction false} LatestIsLatest(q: seq<Change>)
    requires q != [] && forall c :: c in q ==> c.data.Copy?
    ensures exists c :: c in q && c.data.copy.updatedAt == LatestUpdate(q)
    ensures forall c :: c in q ==> c.data.copy.updatedAt <= LatestUpdate(q)
  {
    if |q| > 1 {
      LatestIsLatest(q[1..]);
      assert q == [q[0]] + q[1..];
    } else {
      assert q[0] in q;
    }
  }

  lemma LatestOfCopies(cs: seq<Change>, issue: string)
    requires ChangesCopies(cs, issue)
    ensures IsLatestOfCopies(cs, issue, LatestUpdate(CopyChanges(cs, issue)))
  {
    hide CopyChanges, LatestUpdate;
    CopyChangesAreCopies(cs, issue);
    var c :| c in cs && IsCopyOf(c.data, issue);
    assert c in CopyChanges(cs, issue);
    LatestIsLatest(CopyChanges(cs, issue));
  }

  // ---------- What is accepted ----------

  // No entity is changed twice.
  predicate ChangesOnce(cs: seq<Change>) {
    forall i, j :: 0 <= i < j < |cs| ==> cs[i].id != cs[j].id || KindOf(cs[i].data) != KindOf(cs[j].data)
  }

  // A stored copy is not moved to another issue.
  ghost predicate MovesNoCopy(es: Entities, cs: seq<Change>) {
    forall c :: c in cs && c.data.Copy? && Key(PhysicalCopy, c.id) in es ==>
      es[Key(PhysicalCopy, c.id)].data.Copy?
      && es[Key(PhysicalCopy, c.id)].data.copy.issueId == c.data.copy.issueId
  }

  // Whatever refers to an issue describes it, unless a custom issue of that id is stored or sent.
  ghost predicate DescribesUnknown(es: Entities, cs: seq<Change>) {
    forall c :: c in cs && !c.data.Issue? ==>
      Key(CustomIssue, ChangeIssue(c)) in es || IsSent(cs, CustomIssue, ChangeIssue(c)) || HintOf(c.data) != None
  }

  lemma AcceptableIff(es: Entities, cs: seq<Change>)
    ensures (forall c :: c in cs ==> Acceptable(es, cs, c)) <==> MovesNoCopy(es, cs) && DescribesUnknown(es, cs)
  {
    forall c | c in cs ensures KnownIssue(es, cs, ChangeIssue(c))
                               <==> Key(CustomIssue, ChangeIssue(c)) in es || IsSent(cs, CustomIssue, ChangeIssue(c)) {
    }
    if forall c :: c in cs ==> Acceptable(es, cs, c) {
      assert MovesNoCopy(es, cs) && DescribesUnknown(es, cs);
    }
  }

  // The changes of a mutation are accepted exactly when they change no entity twice, move no copy
  // and describe every issue the server would not know; any refusal is "invalid request".
  lemma AcceptedIff(es: Entities, cs: seq<Change>)
    ensures Canonicalize(es, cs) == Err(InvalidRequest)
            <==> !(ChangesOnce(cs) && MovesNoCopy(es, cs) && DescribesUnknown(es, cs))
    ensures Canonicalize(es, cs).Err? ==> Canonicalize(es, cs).error == InvalidRequest
  {
    hide Normalized, Ordered, Acceptable, MovesNoCopy, DescribesUnknown;
    AcceptableIff(es, cs);
    OrderedKeys(cs);
    assert ChangesOnce(cs) <==> DistinctKeys(cs);
    if DistinctKeys(cs) {
      NormalizedIsDistinct(es, Ordered(cs));
    }
    NormalizedKeepsKeys(es, Ordered(cs));
    if DistinctKeys(Normalized(es, Ordered(cs))) {
      KeptDuplicates(Ordered(cs), Normalized(es, Ordered(cs)));
    }
  }

  // ---------- What is stored ----------

  lemma StoredMember(es: Entities, cs: seq<Change>, revision: nat, d: Change)
    requires Canonicalize(es, cs).Ok? && d in Normalized(es, Ordered(cs))
    ensures KeyOf(d) in After(es, cs, revision)
    ensures After(es, cs, revision)[KeyOf(d)] == Entity(d.op, d.data, revision)
  {
    hide Record, Normalized, Ordered, Acceptable;
    RecordAt(es, Canonicalize(es, cs).value, revision);
  }

  lemma SentIsNormalized(es: Entities, cs: seq<Change>, revision: nat, c: Change)
    requires Canonicalize(es, cs).Ok? && c in Ordered(cs)
    ensures var d := NormalizeOne(es, Ordered(cs), c);
            KeyOf(c) in After(es, cs, revision)
            && After(es, cs, revision)[KeyOf(c)] == Entity(d.op, d.data, revision)
  {
    hide Canonicalize, Normalized, Ordered, NormalizeOne, Record;
    NormalizedMembers(es, Ordered(cs));
    CanonicalIsNormalized(es, cs);
    StoredMember(es, cs, revision, NormalizeOne(es, Ordered(cs), c));
    NormalizeKeepsKey(es, Ordered(cs), c);
  }

  lemma CanonicalIsNormalized(es: Entities, cs: seq<Change>)
    requires Canonicalize(es, cs).Ok?
    ensures Canonicalize(es, cs).value == Normalized(es, Ordered(cs))
  {
    hide Normalized, Ordered, Acceptable;
  }

  // Copies, barcodes and custom issues are stored as sent; a custom issue is marked deleted
  // exactly when it was.
  lemma SentIsStored(es: Entities, cs: seq<Change>, revision: nat, c: Change)
    requires Canonicalize(es, cs).Ok? && c in cs && !c.data.Entry?
    ensures KeyOf(c) in After(es, cs, revision)
    ensures After(es, cs, revision)[KeyOf(c)] ==
            Entity(c.op, if c.data.Issue? then Issue(c.data.issue.(deleted := c.op == Delete)) else c.data, revision)
  {
    hide Canonicalize, Ordered, Record, Normalized;
    OrderedMembers(cs);
    var d := CanonicalChange(c);
    SentIsNormalized(es, cs, revision, d);
    NormalizeKeepsKey(es, Ordered(cs), d);
  }

  // A live entry is stored with every field as sent but those its active copies decide.
  lemma SentEntryIsStored(es: Entities, cs: seq<Change>, revision: nat, c: Change)
    requires WellKeyed(es) && AllValidBodies(cs) && Canonicalize(es, cs).Ok?
    requires c in cs && c.data.Entry? && c.op.Upsert?
    ensures var after := After(es, cs, revision); var active := |StoredActive(after, c.id)|;
            KeyOf(c) in after
            && after[KeyOf(c)] == Entity(Upsert, Entry(c.data.entry.(owned := active >= 1, isDuplicate := active >= 2,
                                                                    isWanted := active == 0)), revision)
  {
    hide Canonicalize, Record, Normalized, MergedActive, StoredActive;
    assert ValidBody(c);
    OrderedKeepsOthers(cs, c);
    SentIsNormalized(es, cs, revision, c);
    ActiveAfterGroup(es, cs, revision, c.id);
  }

  // A deleted entry is stored as a tombstone with every other field as sent, if none of the
  // issue's copies is active.
  lemma SentTombstoneIsStored(es: Entities, cs: seq<Change>, revision: nat, c: Change)
    requires WellKeyed(es) && AllValidBodies(cs) && Canonicalize(es, cs).Ok?
    requires c in cs && c.data.Entry? && c.op.Delete? && StoredActive(After(es, cs, revision), c.id) == {}
    ensures var after := After(es, cs, revision);
            KeyOf(c) in after
            && after[KeyOf(c)] == Entity(Delete, Entry(c.data.entry.(owned := false, isDuplicate := false, isWanted := false)),
                                         revision)
  {
    hide Canonicalize, Record, Normalized, MergedActive, StoredActive;
    assert ValidBody(c);
    OrderedKeepsOthers(cs, c);
    SentIsNormalized(es, cs, revision, c);
    ActiveAfterGroup(es, cs, revision, c.id);
  }

  // With an active copy and no live entry stored, a deletion is stored as the live entry it describes.
  lemma SentTombstoneIsRevived(es: Entities, cs: seq<Change>, revision: nat, c: Change)
    requires WellKeyed(es) && OperationsAgree(es) && AllValidBodies(cs) && Canonicalize(es, cs).Ok?
    requires c in cs && c.data.Entry? && c.op.Delete? && StoredActive(After(es, cs, revision), c.id) != {}
    requires KeyOf(c) in es ==> es[KeyOf(c)].op.Delete?
    ensures var after := After(es, cs, revision); var active := |StoredActive(after, c.id)|;
            KeyOf(c) in after
            && after[KeyOf(c)] == Entity(Upsert, Entry(c.data.entry.(owned := true, isDuplicate := active >= 2,
                                                                    isWanted := false, deleted := false)), revision)
  {
    hide Canonicalize, Record, Normalized, MergedActive, StoredActive;
    assert ValidBody(c);
    OrderedKeepsOthers(cs, c);
    SentIsNormalized(es, cs, revision, c);
    ActiveAfterGroup(es, cs, revision, c.id);
    SizeOfNone(StoredActive(After(es, cs, revision), c.id));
  }

  lemma OrderedKinds(cs: seq<Change>, issue: string)
    ensures ChangesCopies(cs, issue) && !IsSent(cs, CollectionEntry, issue) ==> issue in MissingEntries(Ordered(cs))
  {
    hide Ordered;
    OrderedMembers(cs);
    if ChangesCopies(cs, issue) && !IsSent(cs, CollectionEntry, issue) {
      var c :| c in cs && IsCopyOf(c.data, issue);
      assert CanonicalChange(c) == c && c in Ordered(cs);
      forall e | e in Ordered(cs) && e.data.Entry? ensures e.id != issue {
        var o :| o in cs && CanonicalChange(o) == e;
        assert KeyOf(o) == Key(CollectionEntry, e.id);
      }
    }
  }

  lemma AddedIsStored(es: Entities, cs: seq<Change>, revision: nat, issue: string)
    requires Canonicalize(es, cs).Ok? && ChangesCopies(cs, issue) && !IsSent(cs, CollectionEntry, issue)
    ensures var d := AddedEntry(es, Ordered(cs), issue); var k := Key(CollectionEntry, issue);
            k in After(es, cs, revision) && After(es, cs, revision)[k] == Entity(d.op, d.data, revision)
  {
    hide Canonicalize, Record, Normalized, Ordered, MergedActive, NormalizeEntry, ImpliedEntry, MissingEntries;
    OrderedKinds(cs, issue);
    NormalizedMembers(es, Ordered(cs));
    StoredMember(es, cs, revision, AddedEntry(es, Ordered(cs), issue));
  }

  // Copies of an issue that has no entry, neither stored nor sent, bring one: it is live, unread,
  // not rated and without notes, as old as the latest of the copies, and has the hint of the first
  // copy that has one.
  lemma NewEntryIsStored(es: Entities, cs: seq<Change>, revision: nat, issue: string)
    requires WellKeyed(es) && Canonicalize(es, cs).Ok? && ChangesCopies(cs, issue)
    requires Key(CollectionEntry, issue) !in es && !IsSent(cs, CollectionEntry, issue)
    ensures var after, k := After(es, cs, revision), Key(CollectionEntry, issue);
            && k in after && after[k].op == Upsert && after[k].revision == revision && after[k].data.Entry?
            && var d := after[k].data.entry; var active := |StoredActive(after, issue)|;
               && d.issueId == issue && !d.deleted && !d.isRead && d.rating == 0 && d.notes == ""
               && d.owned == (active >= 1) && d.isDuplicate == (active >= 2) && d.isWanted == (active == 0)
               && IsLatestOfCopies(cs, issue, d.updatedAt) && IsHintOfCopies(cs, issue, d.hint)
  {
    hide Canonicalize, Record, Normalized, Ordered, MergedActive, StoredActive, CopyChanges, LatestUpdate, FirstHint;
    AddedIsStored(es, cs, revision, issue);
    CopiesOfOrdered(cs, issue);
    LatestOfCopies(cs, issue);
    FirstHintIsFirst(cs, issue);
    ActiveAfterGroup(es, cs, revision, issue);
  }

  // An entry that is stored but not sent keeps every field that its copies do not decide; a
  // tombstone becomes live exactly when a copy of the issue is active.
  lemma KeptEntryIsStored(es: Entities, cs: seq<Change>, revision: nat, issue: string)
    requires WellKeyed(es) && OperationsAgree(es) && Canonicalize(es, cs).Ok? && ChangesCopies(cs, issue)
    requires Key(CollectionEntry, issue) in es && !IsSent(cs, CollectionEntry, issue)
    ensures var after, k := After(es, cs, revision), Key(CollectionEntry, issue);
            var live := es[k].op.Upsert? || StoredActive(after, issue) != {};
            && k in after && after[k].revision == revision && after[k].data.Entry?
            && after[k].op == (if live then Upsert else Delete)
            && var d, was := after[k].data.entry, es[k].data.entry;
               d == was.(owned := d.owned, isDuplicate := d.isDuplicate, isWanted := d.isWanted, deleted := !live)
  {
    hide Canonicalize, Record, Normalized, Ordered, MergedActive, StoredActive, CopyChanges, LatestUpdate, FirstHint;
    AddedIsStored(es, cs, revision, issue);
    ActiveAfterGroup(es, cs, revision, issue);
    SizeOfNone(StoredActive(After(es, cs, revision), issue));
  }

  lemma SizeOfNone(s: set<Key>)
    ensures |s| == 0 <==> s == {}
  {
  }

  // Nothing else changes: the keys are the old ones, those sent, and the entries of the issues
  // whose copies were.
  lemma NothingElseIsStored(es: Entities, cs: seq<Change>, revision: nat, k: Key)
    requires WellKeyed(es) && Canonicalize(es, cs).Ok?
    requires !IsSent(cs, k.kind, k.id) && !(k.kind == CollectionEntry && ChangesCopies(cs, k.id))
    ensures k in After(es, cs, revision) <==> k in es
    ensures k in es ==> After(es, cs, revision)[k] == es[k]
  {
    hide Record, Normalized, Ordered, NormalizeOne, NormalizeEntry, ImpliedEntry, MergedActive, Acceptable, DistinctKeys,
         IsSent, ChangesCopies;
    var canonical := Canonicalize(es, cs).value;
    RecordAt(es, canonical, revision);
    forall d | d in canonical ensures KeyOf(d) != k {
      CanonicalIsNamed(es, cs, d);
    }
  }

  lemma CanonicalIsNamed(es: Entities, cs: seq<Change>, d: Change)
    requires d in Normalized(es, Ordered(cs))
    ensures IsSent(cs, KeyOf(d).kind, d.id) || (KeyOf(d).kind == CollectionEntry && ChangesCopies(cs, d.id))
  {
    hide Normalized, Ordered, NormalizeOne, NormalizeEntry, ImpliedEntry, MergedActive;
    var base := Ordered(cs);
    OrderedMembers(cs);
    NormalizedOrigin(es, base, d);
    if c :| c in base && NormalizeOne(es, base, c) == d {
      NormalizeKeepsKey(es, base, c);
      var o :| o in cs && CanonicalChange(o) == c;
      assert KeyOf(o) == KeyOf(c);
    } else {
      var issue :| issue in MissingEntries(base) && AddedEntry(es, base, issue) == d;
      var c :| c in base && c.data.Copy? && c.data.copy.issueId == issue;
      var o :| o in cs && CanonicalChange(o) == c;
      assert IsCopyOf(o.data, issue);
    }
  }
}
