/** The flat v1 row of an issue, projected from its custom issue, entry and ordered copies. */
module Projection {
  import opened Basics
  import opened Utf8
  import opened SyncTypes
  import opened Canonical
  import opened Authority

  // What the projection of one issue reads.
  datatype View = View(issue: Option<IssueData>, issueDeleted: bool, entry: Option<EntryData>,
                       entryDeleted: bool, copies: map<Key, CopyData>)

  function ViewOf(es: Entities, issue: string): View {
    var i, e := Find(es, CustomIssue, issue), Find(es, CollectionEntry, issue);
    View(if i.Some? && i.value.data.Issue? then Some(i.value.data.issue) else None,
         i.Some? && i.value.op.Delete?,
         if e.Some? && e.value.data.Entry? then Some(e.value.data.entry) else None,
         e.Some? && e.value.op.Delete?,
         map k | k in es && IsCopyOf(es[k].data, issue) && es[k].op.Upsert? :: es[k].data.copy)
  }

  // copies.sort(key=(ordinal, id))
  predicate Before(copies: map<Key, CopyData>, a: Key, b: Key)
    requires a in copies && b in copies
  {
    || copies[a].ordinal < copies[b].ordinal
    || (copies[a].ordinal == copies[b].ordinal && TextLeq(a.id, b.id))
  }

  lemma BeforeOrders(copies: map<Key, CopyData>, a: Key, b: Key, c: Key)
    requires a in copies && b in copies && c in copies
    ensures Before(copies, a, a) && (Before(copies, a, b) || Before(copies, b, a))
    ensures Before(copies, a, b) && Before(copies, b, c) ==> Before(copies, a, c)
  {
    TextLeqTotal(a.id, b.id);
    if TextLeq(a.id, b.id) && TextLeq(b.id, c.id) {
      TextLeqTransitive(a.id, b.id, c.id);
    }
  }

  lemma {:induction false} FirstExists(copies: map<Key, CopyData>, s: set<Key>) returns (first: Key)
    requires s != {} && s <= copies.Keys
    ensures first in s && forall k :: k in s ==> Before(copies, first, k)
  {
    var x :| x in s;
    BeforeOrders(copies, x, x, x);
    first := x;
    if s != {x} {
      var candidate := FirstExists(copies, s - {x});
      BeforeOrders(copies, x, candidate, x);
      if !Before(copies, x, candidate) {
        first := candidate;
      }
      forall k | k in s ensures Before(copies, first, k) {
        if k != x {
          BeforeOrders(copies, x, candidate, k);
        }
      }
    }
  }

  ghost predicate IsFirst(copies: map<Key, CopyData>, s: set<Key>, k: Key) {
    s <= copies.Keys && k in s && forall j :: j in s ==> Before(copies, k, j)
  }

  ghost function First(copies: map<Key, CopyData>, s: set<Key>): (k: Key)
    requires s != {} && s <= copies.Keys
    ensures IsFirst(copies, s, k)
  {
    assert exists k :: IsFirst(copies, s, k) by {
      var k := FirstExists(copies, s);
      assert IsFirst(copies, s, k);
    }
    var k :| IsFirst(copies, s, k); k
  }

  lemma FirstIsUnique(copies: map<Key, CopyData>, s: set<Key>, k: Key)
    requires IsFirst(copies, s, k) && forall j :: j in copies ==> j.kind == PhysicalCopy
    ensures First(copies, s) == k
  {
    var f := First(copies, s);
    assert Before(copies, f, k) && Before(copies, k, f);
    TextLeqTotal(f.id, k.id);
  }

  function ActiveKeys(copies: map<Key, CopyData>): set<Key> {
    set k | k in copies && copies[k].active
  }

  function HintedKeys(copies: map<Key, CopyData>): set<Key> {
    set k | k in copies && copies[k].hint.Some?
  }

  // The copy whose condition, prices and loan the row shows.
  ghost function Primary(copies: map<Key, CopyData>): Option<CopyData> {
    if ActiveKeys(copies) != {} then Some(copies[First(copies, ActiveKeys(copies))])
    else if copies.Keys != {} then Some(copies[First(copies, copies.Keys)])
    else None
  }

  ghost function ViewHint(v: View): Option<Hint> {
    if v.entry.Some? && v.entry.value.hint.Some? then v.entry.value.hint
    else if HintedKeys(v.copies) != {} then v.copies[First(v.copies, HintedKeys(v.copies))].hint
    else None
  }

  function HintAsIssue(h: Hint): IssueData {
    IssueData(h.series, h.edition, h.number, h.title, h.publisher, h.year, None, "", "", false)
  }

  ghost function ViewIssue(v: View): Option<IssueData> {
    if v.issue.Some? then v.issue
    else if ViewHint(v).Some? then Some(HintAsIssue(ViewHint(v).value))
    else None
  }

  // The row of an issue as the projection writes it, before validate_comic.
  ghost function Row(v: View, id: string, cover: string, updatedAt: int): Comic
    requires ViewIssue(v).Some?
  {
    var i, primary := ViewIssue(v).value, Primary(v.copies);
    Comic(id, i.series, i.edition, i.number, i.title, i.publisher, i.year,
          ActiveKeys(v.copies) != {},
          v.entry.Some? && v.entry.value.isRead,
          if primary.Some? then primary.value.conditionGrade else "",
          if primary.Some? then primary.value.purchasePrice else None,
          if primary.Some? then primary.value.estimatedValue else None,
          |ActiveKeys(v.copies)| > 1,
          if primary.Some? then primary.value.loanedTo else "",
          if v.entry.Some? then v.entry.value.notes else "",
          cover,
          if v.entry.Some? then v.entry.value.rating else 0,
          i.pageCount, i.writer, i.artist,
          v.issueDeleted || v.entry.None? || v.entryDeleted || v.entry.value.deleted,
          updatedAt)
  }

  function ExistingRow(comics: Comics, id: string): Option<Comic> {
    if id in comics then Some(comics[id]) else None
  }

  function NextUpdate(existing: Option<Comic>, now: int): int {
    Max(now, (if existing.Some? then existing.value.updatedAt else 0) + 1)
  }

  // Whether the projection writes a row at all.
  ghost predicate Projects(v: View, existing: Option<Comic>) {
    (v.entry.Some? || existing.Some?) && ViewIssue(v).Some?
  }

  // _refresh_v1_projection
  ghost function Refresh(es: Entities, comics: Comics, issue: string, now: int): Result<Comics, SyncError> {
    var v, existing := ViewOf(es, issue), ExistingRow(comics, issue);
    if !Projects(v, existing) then Ok(comics)
    else
      var cover := if existing.Some? then existing.value.coverAsset else "";
      match ValidateComic(Row(v, issue, cover, NextUpdate(existing, now)))
      case None => Err(InternalError)
      case Some(clean) => Ok(UpsertComic(comics, clean))
  }

  ghost function RefreshAll(es: Entities, comics: Comics, issues: seq<string>, now: int): Result<Comics, SyncError> {
    if issues == [] then Ok(comics)
    else
      match RefreshAll(es, comics, issues[..|issues| - 1], now)
      case Err(e) => Err(e)
      case Ok(done) => Refresh(es, done, issues[|issues| - 1], now)
  }

  // ---------- Valid entities give valid rows ----------

  ghost predicate ValidEntities(es: Entities) {
    forall k :: k in es ==> ValidData(es[k].data) && (es[k].data.Issue? ==> IsIdentifier(k.id, 128))
  }

  ghost predicate ValidView(v: View) {
    && (v.issue.Some? ==> ValidData(Issue(v.issue.value)))
    && (v.entry.Some? ==> ValidData(Entry(v.entry.value)))
    && forall k :: k in v.copies ==> ValidData(Copy(v.copies[k]))
  }

  ghost predicate ValidComics(comics: Comics) {
    forall id :: id in comics ==> comics[id].id == id && ValidComic(comics[id])
  }

  // The bounds validate_comic checks or cuts to, the id and the clock apart.
  predicate WithinLimits(c: Comic) {
    && c.series != [] && |c.series| <= 200 && |c.edition| <= 200 && 0 <= c.number <= MAX_INT64
    && |c.title| <= 500 && |c.publisher| <= 200 && InRange(c.year, MIN_INT64, MAX_INT64)
    && |c.conditionGrade| <= 8 && c.conditionGrade in CONDITION_GRADES && |c.loanedTo| <= 300
    && |c.notes| <= 10_000 && |c.coverAsset| <= 500 && 0 <= c.rating <= 5
    && InRange(c.pageCount, MIN_INT64, MAX_INT64) && |c.writer| <= 300 && |c.artist| <= 300
  }

  lemma WithinLimitsIsValid(c: Comic)
    requires WithinLimits(c) && c.id != [] && c.updatedAt >= MIN_INT64
    ensures ValidateComic(c) == (if c.updatedAt <= MAX_INT64 then Some(c.(id := Cut(c.id, 64))) else None)
  {
  }

  lemma ValidIssueLimits(i: IssueData)
    requires ValidData(Issue(i))
    ensures i.series != [] && |i.series| <= 200 && |i.edition| <= 200 && 0 <= i.number <= MAX_INT64
    ensures |i.title| <= 500 && |i.publisher| <= 200 && InRange(i.year, MIN_INT64, MAX_INT64)
    ensures InRange(i.pageCount, MIN_INT64, MAX_INT64) && |i.writer| <= 300 && |i.artist| <= 300
  {
  }

  lemma ValidHintAsIssue(h: Hint)
    requires ValidHint(Some(h))
    ensures ValidData(Issue(HintAsIssue(h)))
  {
    assert Bytes("") == 0;
  }

  lemma ValidGrade(grade: string)
    requires grade in CONDITION_GRADES
    ensures |grade| <= 8
  {
    assert CONDITION_GRADES == {"", "M", "VF", "F", "G", "P"};
    assert |"VF"| == 2;
  }

  lemma NoGrade()
    ensures "" in CONDITION_GRADES
  {
  }

  lemma ViewIssueIsValid(v: View)
    requires ValidView(v) && ViewIssue(v).Some?
    ensures ValidData(Issue(ViewIssue(v).value))
  {
    if v.issue.None? {
      var h := ViewHint(v).value;
      if v.entry.Some? && v.entry.value.hint.Some? {
        assert ValidData(Entry(v.entry.value));
      } else {
        var k := First(v.copies, HintedKeys(v.copies));
        assert ValidData(Copy(v.copies[k]));
      }
      ValidHintAsIssue(h);
    }
  }

  lemma PrimaryIsValid(v: View)
    requires ValidView(v) && Primary(v.copies).Some?
    ensures ValidData(Copy(Primary(v.copies).value))
  {
  }

  // A projected row is refused only because its clock would pass the 64-bit limit; otherwise the
  // row is stored as projected, its id cut to 64 characters.
  lemma RowIsValid(v: View, id: string, cover: string, updatedAt: int)
    requires ValidView(v) && ViewIssue(v).Some? && id != [] && |cover| <= 500 && updatedAt >= MIN_INT64
    ensures var row := Row(v, id, cover, updatedAt);
            && ValidateComic(row) == (if updatedAt <= MAX_INT64 then Some(row.(id := Cut(id, 64))) else None)
            && StoredComic(row) == row
  {
    RowIsWithinLimits(v, id, cover, updatedAt);
    WithinLimitsIsValid(Row(v, id, cover, updatedAt));
  }

  lemma RowIsWithinLimits(v: View, id: string, cover: string, updatedAt: int)
    requires ValidView(v) && ViewIssue(v).Some? && |cover| <= 500
    ensures WithinLimits(Row(v, id, cover, updatedAt))
    ensures StoredComic(Row(v, id, cover, updatedAt)) == Row(v, id, cover, updatedAt)
  {
    hide ViewIssue, Primary, ActiveKeys, ValidHint, CONDITION_GRADES, IsIdentifier, Encode, Strip;
    var i, p := ViewIssue(v).value, Primary(v.copies);
    ViewIssueIsValid(v);
    ValidIssueLimits(i);
    if p.Some? {
      PrimaryIsValid(v);
      ValidGrade(p.value.conditionGrade);
      assert |p.value.loanedTo| <= 300;
    } else {
      NoGrade();
    }
    if v.entry.Some? {
      assert |v.entry.value.notes| <= 10_000 && 0 <= v.entry.value.rating <= 5;
    }
  }

  lemma ValidViews(es: Entities, issue: string)
    requires ValidEntities(es)
    ensures ValidView(ViewOf(es, issue))
  {
    var v := ViewOf(es, issue);
    forall k | k in v.copies ensures ValidData(Copy(v.copies[k])) {
      assert es[k].data == Copy(v.copies[k]);
    }
  }

  // An issue with a stored entry is always described well enough to project.
  lemma EntryProjects(es: Entities, issue: string)
    requires WellKeyed(es) && IssuesDescribed(es) && Key(CollectionEntry, issue) in es
    ensures ViewOf(es, issue).entry.Some? && ViewIssue(ViewOf(es, issue)).Some?
  {
    var k := Key(CollectionEntry, issue);
    assert Described(es, k.id, es[k].data);
  }

  // ---------- One refresh ----------

  // The row shows the view; only the cover and the clock are the row's own.
  ghost predicate Shows(row: Comic, v: View) {
    ViewIssue(v).Some? && row == Row(v, row.id, row.coverAsset, row.updatedAt)
  }

  // The flat row of an issue agrees with its entities; without an entry there is no row.
  ghost predicate RowAgrees(es: Entities, comics: Comics, issue: string) {
    var v := ViewOf(es, issue);
    if v.entry.Some? then issue in comics && Shows(comics[issue], v) else issue !in comics
  }

  lemma UpsertKeepsValid(comics: Comics, c: Comic)
    requires ValidComics(comics) && ValidComic(c)
    ensures ValidComics(UpsertComic(comics, c))
  {
    hide ValidateComic, StoredComic;
    StoredKeepsId(c);
    var after := UpsertComic(comics, c);
    forall id | id in after ensures after[id].id == id && ValidComic(after[id]) {
      if id in comics && after[id] == comics[id] {
      } else {
        assert after[id] == StoredComic(c);
        StoredIsValid(c);
      }
    }
  }

  lemma StoredKeepsId(c: Comic)
    ensures StoredComic(c).id == c.id && StoredComic(c).updatedAt == c.updatedAt
  {
  }

  lemma StoredIsValid(c: Comic)
    requires ValidComic(c)
    ensures ValidComic(StoredComic(c))
  {
  }

  lemma UpsertEffect(comics: Comics, c: Comic)
    ensures c.id in UpsertComic(comics, c)
    ensures forall id :: id != c.id ==> (id in UpsertComic(comics, c) <==> id in comics)
    ensures forall id :: id in comics && id != c.id ==> UpsertComic(comics, c)[id] == comics[id]
    ensures c.id !in comics || c.updatedAt > comics[c.id].updatedAt ==>
              UpsertComic(comics, c)[c.id] == StoredComic(c)
    ensures c.id in comics && c.updatedAt <= comics[c.id].updatedAt ==> UpsertComic(comics, c) == comics
  {
  }

  lemma RefreshEffect(es: Entities, comics: Comics, issue: string, now: int)
    requires ValidEntities(es) && ValidComics(comics) && issue != []
    ensures var existing := ExistingRow(comics, issue);
            var r := Refresh(es, comics, issue, now);
            if Projects(ViewOf(es, issue), existing) then
              if NextUpdate(existing, now) > MAX_INT64 then r == Err(InternalError)
              else
                && r.Ok? && ValidComics(r.value)
                && (forall id :: id != Cut(issue, 64) ==> (id in r.value <==> id in comics))
                && (forall id :: id in comics && id != Cut(issue, 64) ==> r.value[id] == comics[id])
                && Cut(issue, 64) in r.value
                && (|issue| <= 64 ==>
                      && Shows(r.value[issue], ViewOf(es, issue))
                      && r.value[issue].updatedAt == NextUpdate(existing, now)
                      && (existing.Some? ==> r.value[issue].coverAsset == existing.value.coverAsset))
                && (|issue| > 64 ==>
                      var row := Row(ViewOf(es, issue), Cut(issue, 64), "", Max(now, 1));
                      r.value[row.id] == if row.id in comics && comics[row.id].updatedAt >= row.updatedAt
                                         then comics[row.id] else row)
            else r == Ok(comics)
  {
    hide ViewOf, ViewIssue, ValidateComic, StoredComic, ValidEntities, ValidComic, ValidView;
    var v, existing := ViewOf(es, issue), ExistingRow(comics, issue);
    if Projects(v, existing) {
      ValidViews(es, issue);
      ExistingIsValid(comics, issue);
      var cover := if existing.Some? then existing.value.coverAsset else "";
      var row := Row(v, issue, cover, NextUpdate(existing, now));
      RowIsValid(v, issue, cover, NextUpdate(existing, now));
      if NextUpdate(existing, now) <= MAX_INT64 {
        ValidateComicIsIdempotent(row);
        var clean := row.(id := Cut(issue, 64));
        StoredRow(v, issue, cover, NextUpdate(existing, now));
        UpsertKeepsValid(comics, clean);
        UpsertEffect(comics, clean);
      }
    }
  }

  lemma RowKeysAreShort(comics: Comics, id: string)
    requires ValidComics(comics) && id in comics
    ensures |id| <= 64 && id != [] && comics[id].id == id
  {
    assert ValidComic(comics[id]);
  }

  // What the flat table holds under an id: short ids only, within the limits.
  lemma ExistingIsValid(comics: Comics, issue: string)
    requires ValidComics(comics)
    ensures issue in comics ==>
              |issue| <= 64 && |comics[issue].coverAsset| <= 500 && comics[issue].updatedAt >= MIN_INT64
  {
    assert issue in comics ==> ValidComic(comics[issue]);
  }

  lemma StoredRow(v: View, id: string, cover: string, updatedAt: int)
    requires ValidView(v) && ViewIssue(v).Some? && |cover| <= 500
    ensures var row := Row(v, id, cover, updatedAt).(id := Cut(id, 64));
            StoredComic(row) == row && row == Row(v, Cut(id, 64), cover, updatedAt)
  {
    hide ViewIssue, ActiveKeys, Primary;
    RowIsWithinLimits(v, id, cover, updatedAt);
    RowIsWithinLimits(v, Cut(id, 64), cover, updatedAt);
  }

  // ---------- The view of an issue a group does not touch ----------

  ghost predicate Touches(cs: seq<Change>, issue: string) {
    exists c :: c in cs && ChangeIssue(c) == issue
  }

  lemma UntouchedKey(es: Entities, cs: seq<Change>, revision: nat, issue: string, k: Key)
    requires WellKeyed(es) && DistinctKeys(cs) && NoMoves(es, cs) && !Touches(cs, issue)
    ensures var after := Record(es, cs, revision);
            (k in after && IsCopyOf(after[k].data, issue)) == (k in es && IsCopyOf(es[k].data, issue))
            && (k in es && IsCopyOf(es[k].data, issue) ==> after[k] == es[k])
  {
    RecordAt(es, cs, revision);
    if c :| c in cs && KeyOf(c) == k {
      assert ChangeIssue(c) != issue;
      assert k in es && es[k].data.Copy? ==> KindOf(es[k].data) == k.kind == KindOf(c.data);
    }
  }

  lemma UntouchedView(es: Entities, cs: seq<Change>, revision: nat, issue: string)
    requires WellKeyed(es) && DistinctKeys(cs) && NoMoves(es, cs) && !Touches(cs, issue)
    requires forall c :: c in cs && c.data.Entry? ==> c.data.entry.issueId == c.id
    ensures ViewOf(Record(es, cs, revision), issue) == ViewOf(es, issue)
  {
    hide Record, NoMoves, DistinctKeys, WellKeyed;
    var after := Record(es, cs, revision);
    RecordAt(es, cs, revision);
    forall c | c in cs ensures KeyOf(c) != Key(CustomIssue, issue) && KeyOf(c) != Key(CollectionEntry, issue) {
      assert ChangeIssue(c) != issue;
    }
    forall k {
      UntouchedKey(es, cs, revision, issue, k);
    }
    assert ViewOf(es, issue).copies == ViewOf(after, issue).copies;
  }
}
