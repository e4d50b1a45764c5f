/** From a flat v1 comic to v2 entities and back to the flat row. */
module RoundTrip {
  import opened Basics
  import opened SyncTypes
  import opened Canonical
  import opened Authority
  import opened Projection
  import opened V1Bridge

  lemma RecordedComic(es: Entities, c: Comic, revision: nat)
    ensures var after := Record(es, CanonicalOf(c), revision);
            && (forall d :: d in CanonicalOf(c) ==>
                  KeyOf(d) in after && after[KeyOf(d)] == Entity(d.op, d.data, revision))
            && (forall k :: k in after <==> k in es || exists d :: d in CanonicalOf(c) && KeyOf(d) == k)
            && (forall k :: k in es && (forall d :: d in CanonicalOf(c) ==> KeyOf(d) != k) ==> after[k] == es[k])
  {
    CanonicalOfIsDistinct(c);
    RecordAt(es, CanonicalOf(c), revision);
  }

  // ---------- What a bridged comic leaves in the entity table ----------

  predicate IsIssueOf(e: Entity, c: Comic) {
    && e.op == Upsert && e.data.Issue? && !e.data.issue.deleted
    && var i := e.data.issue;
       && (i.series, i.edition, i.number, i.title, i.publisher) == (c.series, c.edition, c.number, c.title, c.publisher)
       && (i.year, i.pageCount, i.writer, i.artist) == (c.year, c.pageCount, c.writer, c.artist)
  }

  predicate IsEntryOf(e: Entity, c: Comic) {
    && e.op == (if c.deleted then Delete else Upsert) && e.data.Entry?
    && var d := e.data.entry;
       && (d.issueId, d.isRead, d.rating, d.notes) == (c.id, c.isRead, c.rating, c.notes)
       && (d.deleted, d.updatedAt, d.hint) == (c.deleted, c.updatedAt, None)
       && d.owned == (c.owned && !c.deleted) && d.isWanted == (!c.owned && !c.deleted)
       && d.isDuplicate == (c.owned && c.isDuplicate && !c.deleted)
  }

  // The copy that carries condition, prices and loan.
  predicate IsPrimaryOf(e: Entity, c: Comic) {
    && e.op == (if c.deleted then Delete else Upsert) && e.data.Copy?
    && var d := e.data.copy;
       && (d.issueId, d.ordinal, d.active) == (c.id, 0, c.owned && !c.deleted)
       && (d.conditionGrade, d.purchasePrice, d.estimatedValue, d.loanedTo)
          == (c.conditionGrade, c.purchasePrice, c.estimatedValue, c.loanedTo)
       && (d.deleted, d.updatedAt, d.hint) == (c.deleted, c.updatedAt, None)
  }

  // A blank second copy, there only for a duplicate.
  predicate IsSecondaryOf(e: Entity, c: Comic) {
    var there := c.isDuplicate && !c.deleted;
    && e.op == (if there then Upsert else Delete) && e.data.Copy?
    && var d := e.data.copy;
       && (d.issueId, d.ordinal, d.active) == (c.id, 1, c.owned && there)
       && (d.conditionGrade, d.purchasePrice, d.estimatedValue, d.loanedTo) == ("", None, None, "")
       && (d.deleted, d.updatedAt, d.hint) == (!there, c.updatedAt, None)
  }

  // A bridged comic leaves exactly its issue, its entry and its two copies, with every field of
  // the sanitised comic; deleted, it leaves them as tombstones beside the issue.
  lemma BridgedEntities(env: Env, es: Entities, comic: Comic, revision: nat, k: Key)
    requires WellKeyed(es) && V1Shaped(es)
    ensures Canonicalize(es, V1Changes(env, comic)).Ok?
    ensures var after := Record(es, Canonicalize(es, V1Changes(env, comic)).value, revision);
            var c := Sanitize(env, comic);
            if k == Key(CustomIssue, c.id) then k in after && after[k].revision == revision && IsIssueOf(after[k], c)
            else if k == Key(CollectionEntry, c.id) then k in after && after[k].revision == revision && IsEntryOf(after[k], c)
            else if k == Key(PhysicalCopy, c.id + ":copy:0") then
              k in after && after[k].revision == revision && IsPrimaryOf(after[k], c)
            else if k == Key(PhysicalCopy, c.id + ":copy:1") then
              k in after && after[k].revision == revision && IsSecondaryOf(after[k], c)
            else (k in after <==> k in es) && (k in es ==> after[k] == es[k])
  {
    hide Sanitize, Record, Canonicalize, WellKeyed, V1Shaped, CanonicalOf, IsIssueOf, IsEntryOf, IsPrimaryOf, IsSecondaryOf;
    var c := Sanitize(env, comic);
    CanonicalizeComic(es, c);
    RecordedComic(es, c, revision);
    BridgedShapes(c, revision);
    BridgedKeys(c);
  }

  lemma BridgedShapes(c: Comic, revision: nat)
    ensures var canonical := CanonicalOf(c);
            && |canonical| == 4 && canonical[0] in canonical && canonical[1] in canonical && canonical[2] in canonical
            && canonical[3] in canonical
            && IsIssueOf(Entity(canonical[0].op, canonical[0].data, revision), c)
            && IsEntryOf(Entity(canonical[1].op, canonical[1].data, revision), c)
            && IsPrimaryOf(Entity(canonical[2].op, canonical[2].data, revision), c)
            && IsSecondaryOf(Entity(canonical[3].op, canonical[3].data, revision), c)
  {
  }

  lemma BridgedKeys(c: Comic)
    ensures var canonical := CanonicalOf(c);
            && |canonical| == 4 && c.id + ":copy:0" != c.id + ":copy:1"
            && KeyOf(canonical[0]) == Key(CustomIssue, c.id) && KeyOf(canonical[1]) == Key(CollectionEntry, c.id)
            && KeyOf(canonical[2]) == Key(PhysicalCopy, c.id + ":copy:0")
            && KeyOf(canonical[3]) == Key(PhysicalCopy, c.id + ":copy:1")
  {
    CopyKeysDiffer(c);
  }

  function CopiesLeft(c: Comic): map<Key, CopyData> {
    var p, s := PrimaryOfComic(c), SecondaryOfComic(c);
    if c.isDuplicate then map[KeyOf(p) := p.data.copy, KeyOf(s) := s.data.copy]
    else map[KeyOf(p) := p.data.copy]
  }

  lemma CopiesOfCanonical(c: Comic, d: Change)
    requires d in CanonicalOf(c) && d.data.Copy?
    ensures KeyOf(d) == KeyOf(PrimaryOfComic(c)) || KeyOf(d) == KeyOf(SecondaryOfComic(c))
  {
  }

  lemma OtherCopiesLeft(es: Entities, c: Comic, revision: nat, k: Key)
    requires WellKeyed(es) && V1Shaped(es)
    requires k in ViewOf(Record(es, CanonicalOf(c), revision), c.id).copies
    ensures k == KeyOf(PrimaryOfComic(c)) || k == KeyOf(SecondaryOfComic(c))
  {
    hide Record, WellKeyed, V1Shaped, CanonicalOf, PrimaryOfComic, SecondaryOfComic;
    var after := Record(es, CanonicalOf(c), revision);
    RecordedComic(es, c, revision);
    if d :| d in CanonicalOf(c) && KeyOf(d) == k {
      assert after[k] == Entity(d.op, d.data, revision);
      CopiesOfCanonical(c, d);
    } else {
      assert after[k] == es[k];
      StoredIsBridged(es, c, k);
    }
  }

  // The copies a recorded comic leaves: its primary copy, and a second one if it is a duplicate.
  lemma CopiesOfComic(es: Entities, c: Comic, revision: nat)
    requires WellKeyed(es) && V1Shaped(es) && !c.deleted
    ensures ViewOf(Record(es, CanonicalOf(c), revision), c.id).copies == CopiesLeft(c)
  {
    var after := Record(es, CanonicalOf(c), revision);
    var copies, p, s := ViewOf(after, c.id).copies, PrimaryOfComic(c), SecondaryOfComic(c);
    RecordedComic(es, c, revision);
    CopyKeysDiffer(c);
    assert p == CanonicalOf(c)[2] && s == CanonicalOf(c)[3];
    assert after[KeyOf(p)] == Entity(p.op, p.data, revision);
    assert after[KeyOf(s)] == Entity(s.op, s.data, revision);
    forall k | k in copies ensures k in CopiesLeft(c) {
      OtherCopiesLeft(es, c, revision, k);
    }
  }

  lemma PrimaryIsFirst(c: Comic, copies: map<Key, CopyData>)
    requires copies == CopiesLeft(c)
    requires !c.deleted
    ensures Primary(copies) == Some(PrimaryOfComic(c).data.copy)
    ensures ActiveKeys(copies) != {} <==> c.owned
    ensures |ActiveKeys(copies)| > 1 <==> c.isDuplicate && c.owned
    ensures HintedKeys(copies) == {}
  {
    var p, s := KeyOf(PrimaryOfComic(c)), KeyOf(SecondaryOfComic(c));
    CopyKeysDiffer(c);
    TextLeqTotal(p.id, p.id);
    assert ActiveKeys(copies) == (if !c.owned then {} else if c.isDuplicate then {p, s} else {p});
    if c.owned {
      assert IsFirst(copies, ActiveKeys(copies), p);
      FirstIsUnique(copies, ActiveKeys(copies), p);
    } else {
      assert IsFirst(copies, copies.Keys, p);
      FirstIsUnique(copies, copies.Keys, p);
    }
  }

  lemma ViewOfComic(es: Entities, c: Comic, revision: nat)
    requires WellKeyed(es) && V1Shaped(es) && !c.deleted
    ensures var v := ViewOf(Record(es, CanonicalOf(c), revision), c.id);
            && v.issue == Some(IssueOfComic(c).data.issue) && !v.issueDeleted && !v.entryDeleted
            && v.entry == Some(Derived(EntryOfComic(c).data.entry, V1Copies(c)))
  {
    RecordedComic(es, c, revision);
    assert CanonicalOf(c)[0] in CanonicalOf(c) && CanonicalOf(c)[1] in CanonicalOf(c);
  }

  lemma RowOfComic(es: Entities, c: Comic, revision: nat, cover: string, updatedAt: int)
    requires WellKeyed(es) && V1Shaped(es) && !c.deleted
    ensures var v := ViewOf(Record(es, CanonicalOf(c), revision), c.id);
            ViewIssue(v).Some? && v.entry.Some?
            && Row(v, c.id, cover, updatedAt)
               == c.(isDuplicate := c.isDuplicate && c.owned, coverAsset := cover, updatedAt := updatedAt)
  {
    ViewOfComic(es, c, revision);
    CopiesOfComic(es, c, revision);
    PrimaryIsFirst(c, ViewOf(Record(es, CanonicalOf(c), revision), c.id).copies);
  }

  function Returned(c: Comic, existing: Option<Comic>, now: int): Comic {
    c.(isDuplicate := c.isDuplicate && c.owned,
       coverAsset := if existing.Some? then existing.value.coverAsset else "",
       updatedAt := NextUpdate(existing, now))
  }

  lemma ReturnedIsValid(c: Comic, existing: Option<Comic>, now: int)
    requires ValidComic(c) && IsSanitized(c) && (existing.Some? ==> ValidComic(existing.value))
    requires NextUpdate(existing, now) <= MAX_INT64
    ensures ValidComic(Returned(c, existing, now))
    ensures StoredComic(Returned(c, existing, now)) == Returned(c, existing, now)
  {
  }

  // A live comic within the v2 limits survives the trip: recording its changes and projecting
  // them writes back the same row, except that a duplicate is one only when owned.
  lemma V1RoundTrip(env: Env, es: Entities, comics: Comics, comic: Comic, revision: nat, now: int)
    requires WellKeyed(es) && V1Shaped(es) && ValidComics(comics)
    requires ValidEnv(env) && ValidComic(comic) && WithinV2Limits(comic) && !comic.deleted
    requires NextUpdate(ExistingRow(comics, comic.id), now) <= MAX_INT64
    ensures Canonicalize(es, V1Changes(env, comic)).Ok?
    ensures var after := Record(es, Canonicalize(es, V1Changes(env, comic)).value, revision);
            var existing := ExistingRow(comics, comic.id);
            var r := Refresh(after, comics, comic.id, now);
            && r.Ok? && comic.id in r.value
            && r.value[comic.id] ==
                 comic.(isDuplicate := comic.isDuplicate && comic.owned,
                        coverAsset := if existing.Some? then existing.value.coverAsset else "",
                        updatedAt := NextUpdate(existing, now))
  {
    WithinLimitsIsKept(env, comic);
    CanonicalizeComic(es, comic);
    SanitizedIsSanitized(env, comic);
    var existing := ExistingRow(comics, comic.id);
    var row := Returned(comic, existing, now);
    RowOfComic(es, comic, revision, row.coverAsset, row.updatedAt);
    ReturnedIsValid(comic, existing, now);
    UpsertEffect(comics, row);
  }
}
