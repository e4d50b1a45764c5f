/** What a v1 client sees: each field of a projected row in terms of the stored entities, and which
    rows the next poll brings. */
module FlatRows {
  import opened Basics
  import opened Utf8
  import opened SyncTypes
  import opened Canonical
  import opened Authority
  import opened Projection

  // ---------- The stored copies of an issue ----------

  // The copies that are no tombstones.
  ghost function CopiesOf(es: Entities, issue: string): set<Key> {
    set k | k in es && IsCopyOf(es[k].data, issue) && es[k].op.Upsert?
  }

  ghost function HintedOf(es: Entities, issue: string): set<Key> {
    set k | k in es && IsCopyOf(es[k].data, issue) && es[k].op.Upsert? && es[k].data.copy.hint.Some?
  }

  ghost function ActiveOf(es: Entities, issue: string): set<Key> {
    set k | k in es && IsCopyOf(es[k].data, issue) && es[k].op.Upsert? && es[k].data.copy.active
  }

  // By ordinal and then by id, no copy of the set stands before this one.
  ghost predicate ComesFirst(es: Entities, s: set<Key>, k: Key) {
    && k in s && k in es && es[k].data.Copy?
    && forall j :: j in s && j in es && es[j].data.Copy? ==>
         || es[k].data.copy.ordinal < es[j].data.copy.ordinal
         || (es[k].data.copy.ordinal == es[j].data.copy.ordinal && TextLeq(k.id, j.id))
  }

  // ---------- The fields of a row ----------

  predicate TellsTitle(row: Comic, series: string, edition: string, number: int, title: string, publisher: string,
                       year: Option<int>) {
    && row.series == series && row.edition == edition && row.number == number && row.title == title
    && row.publisher == publisher && row.year == year
  }

  predicate TellsIssue(row: Comic, i: IssueData) {
    && TellsTitle(row, i.series, i.edition, i.number, i.title, i.publisher, i.year)
    && row.pageCount == i.pageCount && row.writer == i.writer && row.artist == i.artist
  }

  predicate TellsHint(row: Comic, h: Hint) {
    && TellsTitle(row, h.series, h.edition, h.number, h.title, h.publisher, h.year)
    && row.pageCount == None && row.writer == "" && row.artist == ""
  }

  // The issue is the custom one, or else what the entry's hint or that of the first hinted copy says.
  ghost predicate ShowsIssue(es: Entities, issue: string, row: Comic)
    requires WellKeyed(es)
  {
    var i, e := Key(CustomIssue, issue), Key(CollectionEntry, issue);
    if i in es then TellsIssue(row, es[i].data.issue)
    else if e in es && es[e].data.entry.hint.Some? then TellsHint(row, es[e].data.entry.hint.value)
    else exists k :: ComesFirst(es, HintedOf(es, issue), k) && es[k].data.copy.hint.Some?
                     && TellsHint(row, es[k].data.copy.hint.value)
  }

  // Notes, rating and the read mark are the entry's; the row is deleted unless a live entry of an
  // issue that is no tombstone is stored.
  ghost predicate ShowsEntry(es: Entities, issue: string, row: Comic)
    requires WellKeyed(es)
  {
    var i, e := Key(CustomIssue, issue), Key(CollectionEntry, issue);
    && (if e in es then row.notes == es[e].data.entry.notes && row.rating == es[e].data.entry.rating
                        && row.isRead == es[e].data.entry.isRead
        else row.notes == "" && row.rating == 0 && !row.isRead)
    && (row.deleted <==> (i in es && es[i].op.Delete?)
                         || !(e in es && es[e].op.Upsert? && !es[e].data.entry.deleted))
  }

  predicate TellsCopy(row: Comic, c: CopyData) {
    && row.conditionGrade == c.conditionGrade && row.purchasePrice == c.purchasePrice
    && row.estimatedValue == c.estimatedValue && row.loanedTo == c.loanedTo
  }

  // Owned and duplicate count the active copies; grade, prices and loan are those of the first
  // active copy, or of the first copy when none is active.
  ghost predicate ShowsCopies(es: Entities, issue: string, row: Comic) {
    && (row.owned <==> |ActiveOf(es, issue)| >= 1) && (row.isDuplicate <==> |ActiveOf(es, issue)| >= 2)
    && (if ActiveOf(es, issue) != {} then exists k :: ComesFirst(es, ActiveOf(es, issue), k) && TellsCopy(row, es[k].data.copy)
        else if CopiesOf(es, issue) != {} then exists k :: ComesFirst(es, CopiesOf(es, issue), k) && TellsCopy(row, es[k].data.copy)
        else row.conditionGrade == "" && row.purchasePrice == None && row.estimatedValue == None && row.loanedTo == "")
  }

  // The least time that is neither before the present nor before or at that of the old row.
  ghost predicate IsNextTime(existing: Option<Comic>, now: int, t: int) {
    && MayBeNext(existing, now, t) && forall u :: MayBeNext(existing, now, u) ==> t <= u
  }

  predicate MayBeNext(existing: Option<Comic>, now: int, t: int) {
    t >= now && t > if existing.Some? then existing.value.updatedAt else 0
  }

  // A row is written for an issue that has an entry or a row and that something describes.
  ghost predicate HasRow(es: Entities, comics: Comics, issue: string)
    requires WellKeyed(es)
  {
    var i, e := Key(CustomIssue, issue), Key(CollectionEntry, issue);
    && (e in es || issue in comics)
    && (i in es || (e in es && es[e].data.entry.hint.Some?) || HintedOf(es, issue) != {})
  }

  // ---------- The projection writes such rows ----------

  lemma ViewCopies(es: Entities, issue: string)
    ensures var copies := ViewOf(es, issue).copies;
            && copies.Keys == CopiesOf(es, issue) && ActiveKeys(copies) == ActiveOf(es, issue)
            && HintedKeys(copies) == HintedOf(es, issue)
            && forall k :: k in copies ==> k in es && es[k].data == Copy(copies[k])
  {
    var copies := ViewOf(es, issue).copies;
    assert copies.Keys == CopiesOf(es, issue);
    assert ActiveKeys(copies) == ActiveOf(es, issue);
    assert HintedKeys(copies) == HintedOf(es, issue);
  }

  lemma FirstComesFirst(es: Entities, issue: string, s: set<Key>)
    requires s != {} && s <= ViewOf(es, issue).copies.Keys
    ensures var k := First(ViewOf(es, issue).copies, s);
            ComesFirst(es, s, k) && k in es && es[k].data == Copy(ViewOf(es, issue).copies[k])
  {
    hide ViewOf, ActiveKeys, HintedKeys, TextLeq;
    ViewCopies(es, issue);
    var copies := ViewOf(es, issue).copies;
    var k := First(copies, s);
    forall j | j in s && j in es && es[j].data.Copy? ensures Before(copies, k, j) && es[j].data == Copy(copies[j]) {
    }
  }

  lemma ViewParts(es: Entities, issue: string)
    requires WellKeyed(es)
    ensures var v := ViewOf(es, issue); var i, e := Key(CustomIssue, issue), Key(CollectionEntry, issue);
            && v.issue == (if i in es then Some(es[i].data.issue) else None)
            && v.issueDeleted == (i in es && es[i].op.Delete?)
            && v.entry == (if e in es then Some(es[e].data.entry) else None)
            && v.entryDeleted == (e in es && es[e].op.Delete?)
  {
  }

  lemma RowShowsIssue(es: Entities, issue: string, id: string, cover: string, updatedAt: int)
    requires WellKeyed(es) && ViewIssue(ViewOf(es, issue)).Some?
    ensures ShowsIssue(es, issue, Row(ViewOf(es, issue), id, cover, updatedAt))
  {
    hide ViewOf, Primary, ActiveKeys, HintedKeys, ComesFirst;
    ViewParts(es, issue);
    ViewCopies(es, issue);
    var v := ViewOf(es, issue);
    if v.issue.None? && !(v.entry.Some? && v.entry.value.hint.Some?) {
      FirstComesFirst(es, issue, HintedKeys(v.copies));
    }
  }

  lemma RowShowsEntry(es: Entities, issue: string, id: string, cover: string, updatedAt: int)
    requires WellKeyed(es) && ViewIssue(ViewOf(es, issue)).Some?
    ensures ShowsEntry(es, issue, Row(ViewOf(es, issue), id, cover, updatedAt))
  {
    hide ViewOf, ViewIssue, Primary, ActiveKeys;
    ViewParts(es, issue);
  }

  lemma RowShowsCopies(es: Entities, issue: string, id: string, cover: string, updatedAt: int)
    requires ViewIssue(ViewOf(es, issue)).Some?
    ensures ShowsCopies(es, issue, Row(ViewOf(es, issue), id, cover, updatedAt))
  {
    hide ViewOf, ViewIssue, ActiveKeys, ComesFirst;
    ViewCopies(es, issue);
    var copies := ViewOf(es, issue).copies;
    SomeMember(ActiveOf(es, issue));
    if ActiveKeys(copies) != {} {
      ActiveAreCopies(copies);
      FirstComesFirst(es, issue, ActiveKeys(copies));
    } else if copies.Keys != {} {
      FirstComesFirst(es, issue, copies.Keys);
    }
  }

  lemma ActiveAreCopies(copies: map<Key, CopyData>)
    ensures ActiveKeys(copies) <= copies.Keys
  {
  }

  lemma SomeMember(s: set<Key>)
    ensures s != {} <==> |s| >= 1
  {
  }

  lemma NextUpdateIsNext(existing: Option<Comic>, now: int)
    ensures IsNextTime(existing, now, NextUpdate(existing, now))
  {
  }

  lemma ProjectsIff(es: Entities, comics: Comics, issue: string)
    requires WellKeyed(es)
    ensures Projects(ViewOf(es, issue), ExistingRow(comics, issue)) <==> HasRow(es, comics, issue)
  {
    hide ViewOf, HintedKeys;
    ViewParts(es, issue);
    ViewCopies(es, issue);
    var v := ViewOf(es, issue);
    if v.issue.None? && !(v.entry.Some? && v.entry.value.hint.Some?) && HintedKeys(v.copies) != {} {
      HintedAreHinted(v.copies);
    }
  }

  lemma HintedAreHinted(copies: map<Key, CopyData>)
    requires HintedKeys(copies) != {}
    ensures HintedKeys(copies) <= copies.Keys && copies[First(copies, HintedKeys(copies))].hint.Some?
  {
  }

  // Every refresh of an issue with a row of its own: what the row says, when it says it was
  // written, and that nothing else changes.
  lemma RefreshedRow(es: Entities, comics: Comics, issue: string, now: int)
    requires WellKeyed(es) && ValidEntities(es) && ValidComics(comics) && 0 < |issue| <= 64
    requires Refresh(es, comics, issue, now).Ok?
    ensures var after := Refresh(es, comics, issue, now).value;
            if !HasRow(es, comics, issue) then after == comics
            else
              && issue in after && after.Keys == comics.Keys + {issue}
              && (forall id :: id in comics && id != issue ==> after[id] == comics[id])
              && ShowsIssue(es, issue, after[issue]) && ShowsEntry(es, issue, after[issue])
              && ShowsCopies(es, issue, after[issue])
              && IsNextTime(ExistingRow(comics, issue), now, after[issue].updatedAt)
              && after[issue].coverAsset == (if issue in comics then comics[issue].coverAsset else "")
              && after[issue].id == issue
  {
    hide ViewOf, Projects, Row, ShowsIssue, ShowsEntry, ShowsCopies, IsNextTime, NextUpdate, HasRow, ValidComic,
         ValidEntities, WellKeyed;
    ProjectsIff(es, comics, issue);
    RefreshEffect(es, comics, issue, now);
    NextUpdateIsNext(ExistingRow(comics, issue), now);
    if HasRow(es, comics, issue) {
      var after := Refresh(es, comics, issue, now).value;
      var row := after[issue];
      RowKeysAreShort(after, issue);
      ShownRow(es, issue, row);
      if issue !in comics {
        NewRowHasNoCover(es, comics, issue, now);
      }
    }
  }

  lemma ShownRow(es: Entities, issue: string, row: Comic)
    requires WellKeyed(es) && Shows(row, ViewOf(es, issue))
    ensures ShowsIssue(es, issue, row) && ShowsEntry(es, issue, row) && ShowsCopies(es, issue, row)
  {
    hide ViewOf, Row, ViewIssue, ShowsIssue, ShowsEntry, ShowsCopies, WellKeyed;
    RowShowsIssue(es, issue, row.id, row.coverAsset, row.updatedAt);
    RowShowsEntry(es, issue, row.id, row.coverAsset, row.updatedAt);
    RowShowsCopies(es, issue, row.id, row.coverAsset, row.updatedAt);
  }

  lemma NewRowHasNoCover(es: Entities, comics: Comics, issue: string, now: int)
    requires ValidEntities(es) && ValidComics(comics) && 0 < |issue| <= 64 && issue !in comics
    requires Refresh(es, comics, issue, now).Ok? && Projects(ViewOf(es, issue), None)
    ensures var after := Refresh(es, comics, issue, now).value; issue in after && after[issue].coverAsset == ""
  {
    hide ViewOf, ViewIssue, Primary, ActiveKeys;
  }

  // An id that is too long for a row of its own is written under its first 64 characters, unless
  // the row there is as new.
  lemma RefreshedLongRow(es: Entities, comics: Comics, issue: string, now: int)
    requires WellKeyed(es) && ValidEntities(es) && ValidComics(comics) && |issue| > 64
    requires Refresh(es, comics, issue, now).Ok?
    ensures var after, id := Refresh(es, comics, issue, now).value, issue[..64];
            if !HasRow(es, comics, issue) || (id in comics && comics[id].updatedAt >= Max(now, 1)) then after == comics
            else
              && id in after && after == comics[id := after[id]] && after[id].id == id
              && ShowsIssue(es, issue, after[id]) && ShowsEntry(es, issue, after[id])
              && ShowsCopies(es, issue, after[id])
              && after[id].updatedAt == Max(now, 1) && after[id].coverAsset == ""
  {
    hide ViewOf, Projects, Row, ShowsIssue, ShowsEntry, ShowsCopies, HasRow, ValidComic, ValidEntities, WellKeyed,
         ViewIssue;
    ProjectsIff(es, comics, issue);
    RefreshEffect(es, comics, issue, now);
    if issue in comics {
      RowKeysAreShort(comics, issue);
    }
    if HasRow(es, comics, issue) {
      var v, id := ViewOf(es, issue), issue[..64];
      assert ViewIssue(v).Some? by { DescribedRow(es, comics, issue); }
      CutRow(v, id, Max(now, 1));
      ShownRow(es, issue, Row(v, id, "", Max(now, 1)));
    }
  }

  lemma DescribedRow(es: Entities, comics: Comics, issue: string)
    requires Projects(ViewOf(es, issue), ExistingRow(comics, issue))
    ensures ViewIssue(ViewOf(es, issue)).Some?
  {
    hide ViewOf, ViewIssue;
  }

  lemma CutRow(v: View, id: string, updatedAt: int)
    requires ViewIssue(v).Some?
    ensures var row := Row(v, id, "", updatedAt);
            row.id == id && row.updatedAt == updatedAt && row.coverAsset == "" && Shows(row, v)
  {
    hide ViewIssue, Primary, ActiveKeys;
  }
}
