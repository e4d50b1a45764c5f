/** What the loops of the store build up, step by step, and why that is what their specifications
    say in one piece. */
module StoreLemmas {
  import opened Basics
  import opened SyncTypes
  import opened Canonical
  import opened Authority
  import opened Projection
  import opened V1Bridge
  import opened Paging
  import opened RequestCache
  import opened SyncState
  import opened SyncInvariant

  // ---------- Sorted texts ----------

  function Chosen(q: seq<string>, s: set<string>): seq<string> {
    if q == [] then [] else Chosen(q[..|q| - 1], s) + if q[|q| - 1] in s then [q[|q| - 1]] else []
  }

  lemma {:induction false} ChosenOfConcat(p: seq<string>, q: seq<string>, s: set<string>)
    ensures Chosen(p + q, s) == Chosen(p, s) + Chosen(q, s)
  {
    if q == [] {
      assert p + q == p;
    } else {
      ChosenOfConcat(p, q[..|q| - 1], s);
      assert (p + q)[..|p + q| - 1] == p + q[..|q| - 1];
    }
  }

  ghost predicate IsLeast(s: set<string>, x: string) {
    x in s && forall y :: y in s ==> TextLeq(x, y)
  }

  lemma LeastIsFirst(s: set<string>, x: string)
    requires IsLeast(s, x)
    ensures SortedTexts(s) == [x] + SortedTexts(s - {x})
  {
    var q := SortedTexts(s);
    assert q[0] in q;
    var y :| y in s && (forall z :: z in s ==> TextLeq(y, z)) && q == [y] + SortedTexts(s - {y});
    TextLeqTotal(x, y);
  }

  // Sorted texts stand in text order.
  lemma {:induction false} SortedInOrder(s: set<string>, i: nat, j: nat)
    requires i < j < |SortedTexts(s)|
    ensures TextLeq(SortedTexts(s)[i], SortedTexts(s)[j])
    decreases |s|
  {
    hide SortedTexts, TextLeq;
    if s == {} {
      NothingSorted();
    } else {
      var x := LeastTextExists(s);
      LeastIsFirst(s, x);
      var rest := SortedTexts(s - {x});
      if i == 0 {
        assert rest[j - 1] in rest;
      } else {
        SortedInOrder(s - {x}, i - 1, j - 1);
      }
    }
  }

  lemma NothingSorted()
    ensures SortedTexts({}) == []
  {
  }

  lemma {:induction false} ChosenIsSorted(s: set<string>, t: set<string>)
    requires t <= s
    ensures Chosen(SortedTexts(s), t) == SortedTexts(t)
    decreases |s|
  {
    hide SortedTexts, TextLeq, Chosen;
    if s == {} {
      NothingSorted();
      assert t == {};
      ChosenOfNone(t);
    } else {
      var x := LeastTextExists(s);
      ChosenIsSorted(s - {x}, t - {x});
      assert x !in SortedTexts(s - {x});
      ChosenElsewhere(SortedTexts(s - {x}), t, x);
      LeastIsFirst(s, x);
      ChosenOfFirst(x, SortedTexts(s - {x}), t);
      if x in t {
        LeastIsFirst(t, x);
      } else {
        assert t - {x} == t;
      }
    }
  }

  lemma ChosenOfNone(t: set<string>)
    ensures Chosen([], t) == []
  {
  }

  lemma ChosenOfFirst(x: string, q: seq<string>, t: set<string>)
    ensures Chosen([x] + q, t) == (if x in t then [x] else []) + Chosen(q, t)
  {
    ChosenOfConcat([x], q, t);
    assert [x][..0] == [];
  }

  lemma {:induction false} ChosenElsewhere(q: seq<string>, t: set<string>, x: string)
    requires x !in q
    ensures Chosen(q, t) == Chosen(q, t - {x})
  {
    if q != [] {
      ChosenElsewhere(q[..|q| - 1], t, x);
      assert q[|q| - 1] in q;
    }
  }

  // ---------- Normalising issue by issue ----------

  // The entry or copy issues a list of changes concerns.
  function Concerned(cs: seq<Change>): set<string> {
    set c | c in cs && (c.data.Entry? || c.data.Copy?) && ChangeIssue(c) != "" :: ChangeIssue(c)
  }

  predicate WellNamed(cs: seq<Change>) {
    forall c :: c in cs ==>
      && (c.data.Entry? ==> c.data.entry.issueId == c.id)
      && (c.data.Entry? || c.data.Copy? ==> ChangeIssue(c) != "")
  }

  // The first aggregate entry of the issue, or the length of the list.
  function EntryAt(cs: seq<Change>, issue: string): (at: nat)
    ensures at <= |cs| && (at < |cs| ==> cs[at].data.Entry? && cs[at].id == issue)
    ensures forall i :: 0 <= i < at ==> !(cs[i].data.Entry? && cs[i].id == issue)
  {
    if cs == [] || (cs[0].data.Entry? && cs[0].id == issue) then 0
    else EntryAt(cs[1..], issue) + 1
  }

  ghost function NormalizedFor(es: Entities, cs: seq<Change>, ids: seq<string>, c: Change): Change {
    if c.data.Entry? && c.id in ids then NormalizeOne(es, cs, c) else c
  }

  ghost function AddedFor(es: Entities, cs: seq<Change>, ids: seq<string>): seq<Change> {
    if ids == [] then []
    else
      var last := ids[|ids| - 1];
      AddedFor(es, cs, ids[..|ids| - 1]) + if last in MissingEntries(cs) then [AddedEntry(es, cs, last)] else []
  }

  // The list once the issues so far are normalised.
  ghost function NormalizedUpTo(es: Entities, cs: seq<Change>, ids: seq<string>): seq<Change> {
    seq(|cs|, i requires 0 <= i < |cs| => NormalizedFor(es, cs, ids, cs[i])) + AddedFor(es, cs, ids)
  }

  lemma {:induction false} AddedForIds(es: Entities, cs: seq<Change>, ids: seq<string>)
    ensures forall c :: c in AddedFor(es, cs, ids) ==> c.data.Entry? && c.id in ids
  {
    hide AddedEntry;
    if ids != [] {
      AddedForIds(es, cs, ids[..|ids| - 1]);
      assert ids == ids[..|ids| - 1] + [ids[|ids| - 1]];
      AddedIsEntry(es, cs, ids[|ids| - 1]);
    }
  }

  lemma AddedIsEntry(es: Entities, cs: seq<Change>, issue: string)
    ensures AddedEntry(es, cs, issue).data.Entry? && AddedEntry(es, cs, issue).id == issue
  {
  }

  lemma EntryUpTo(es: Entities, cs: seq<Change>, ids: seq<string>, issue: string)
    requires issue !in ids
    ensures var out := NormalizedUpTo(es, cs, ids); var at := EntryAt(out, issue);
            if at < |cs| then cs[at].data.Entry? && cs[at].id == issue && out[at] == cs[at]
            else at == |out| && forall c :: c in cs ==> !(c.data.Entry? && c.id == issue)
  {
    hide AddedFor, NormalizeOne, EntryAt;
    var out := NormalizedUpTo(es, cs, ids);
    var at := EntryAt(out, issue);
    AddedForIds(es, cs, ids);
    forall i | 0 <= i < |cs| ensures KeyOf(out[i]) == KeyOf(cs[i]) {
      NormalizeKeepsKey(es, cs, cs[i]);
    }
    assert forall i :: |cs| <= i < |out| ==> out[i] in AddedFor(es, cs, ids);
  }

  lemma AddedStep(es: Entities, cs: seq<Change>, ids: seq<string>, issue: string)
    ensures AddedFor(es, cs, ids + [issue])
            == AddedFor(es, cs, ids) + if issue in MissingEntries(cs) then [AddedEntry(es, cs, issue)] else []
  {
    assert (ids + [issue])[..|ids|] == ids;
  }

  lemma EntryIsNotMissing(cs: seq<Change>, c: Change)
    requires c in cs && c.data.Entry?
    ensures c.id !in MissingEntries(cs)
  {
  }

  lemma StepAtEntry(es: Entities, cs: seq<Change>, ids: seq<string>, issue: string, at: nat)
    requires DistinctKeys(cs) && at < |cs| && cs[at].data.Entry? && cs[at].id == issue
    ensures NormalizedUpTo(es, cs, ids + [issue])
            == NormalizedUpTo(es, cs, ids)[at := NormalizeOne(es, cs, cs[at])]
  {
    hide AddedFor, NormalizeOne, MissingEntries, AddedEntry;
    AddedStep(es, cs, ids, issue);
    EntryIsNotMissing(cs, cs[at]);
    forall i | 0 <= i < |cs| && i != at
      ensures NormalizedFor(es, cs, ids + [issue], cs[i]) == NormalizedFor(es, cs, ids, cs[i])
    {
      if i < at {
        assert KeyOf(cs[i]) != KeyOf(cs[at]);
      } else {
        assert KeyOf(cs[at]) != KeyOf(cs[i]);
      }
    }
  }

  lemma StepWithoutEntry(es: Entities, cs: seq<Change>, ids: seq<string>, issue: string)
    requires forall c :: c in cs ==> !(c.data.Entry? && c.id == issue)
    ensures NormalizedUpTo(es, cs, ids + [issue])
            == NormalizedUpTo(es, cs, ids) + if CopyChanges(cs, issue) != [] then [AddedEntry(es, cs, issue)] else []
  {
    hide AddedFor, NormalizeOne, AddedEntry, CopyChanges;
    AddedStep(es, cs, ids, issue);
    CopyChangesAreCopies(cs, issue);
    if CopyChanges(cs, issue) != [] {
      var c := CopyChanges(cs, issue)[0];
      assert c in CopyChanges(cs, issue);
    }
    assert CopyChanges(cs, issue) != [] <==> issue in MissingEntries(cs);
    assert forall i :: 0 <= i < |cs| ==>
      NormalizedFor(es, cs, ids + [issue], cs[i]) == NormalizedFor(es, cs, ids, cs[i]);
  }

  lemma {:induction false} AddedForChosen(es: Entities, cs: seq<Change>, ids: seq<string>)
    ensures var q := Chosen(ids, MissingEntries(cs));
            |AddedFor(es, cs, ids)| == |q| && forall i :: 0 <= i < |q| ==> AddedFor(es, cs, ids)[i] == AddedEntry(es, cs, q[i])
  {
    hide AddedEntry, MissingEntries;
    if ids != [] {
      AddedForChosen(es, cs, ids[..|ids| - 1]);
    }
  }

  lemma EntryIsConcerned(es: Entities, cs: seq<Change>, c: Change)
    requires WellNamed(cs) && c in cs
    ensures NormalizedFor(es, cs, SortedTexts(Concerned(cs)), c) == NormalizeOne(es, cs, c)
  {
    hide SortedTexts, MergedActive, NormalizeEntry;
    if c.data.Entry? {
      assert ChangeIssue(c) in Concerned(cs);
    }
  }

  lemma MissingAreConcerned(cs: seq<Change>)
    requires WellNamed(cs)
    ensures MissingEntries(cs) <= Concerned(cs)
  {
    forall issue | issue in MissingEntries(cs) ensures issue in Concerned(cs) {
      var c :| c in cs && c.data.Copy? && c.data.copy.issueId == issue;
      assert ChangeIssue(c) == issue;
    }
  }

  // All concerned issues in text order: that is the normalised list.
  lemma NormalizedInTheEnd(es: Entities, cs: seq<Change>)
    requires WellNamed(cs)
    ensures NormalizedUpTo(es, cs, SortedTexts(Concerned(cs))) == Normalized(es, cs)
  {
    hide AddedEntry, AddedFor, SortedTexts, Chosen, NormalizeOne, NormalizedFor, MissingEntries, Concerned, WellNamed;
    var ids := SortedTexts(Concerned(cs));
    MissingAreConcerned(cs);
    ChosenIsSorted(Concerned(cs), MissingEntries(cs));
    AddedForChosen(es, cs, ids);
    forall i | 0 <= i < |cs| ensures NormalizedFor(es, cs, ids, cs[i]) == NormalizeOne(es, cs, cs[i]) {
      EntryIsConcerned(es, cs, cs[i]);
    }
  }

  lemma NothingNormalized(es: Entities, cs: seq<Change>)
    ensures NormalizedUpTo(es, cs, []) == cs
  {
  }

  // ---------- The active copies of one issue ----------

  // The stored copies of an issue and whether each is active, and the changed copies over them.
  function ActiveRows(es: Entities, cs: seq<Change>, issue: string): map<Key, bool> {
    if cs == [] then map k | k in es && IsCopyOf(es[k].data, issue) :: IsActiveCopy(es[k].op, es[k].data)
    else
      var c := cs[|cs| - 1];
      var rows := ActiveRows(es, cs[..|cs| - 1], issue);
      if IsCopyOf(c.data, issue) then rows[KeyOf(c) := IsActiveCopy(c.op, c.data)] else rows
  }

  lemma {:induction false} ActiveRowsAreMerged(es: Entities, cs: seq<Change>, issue: string)
    requires DistinctKeys(cs)
    ensures forall k :: k in ActiveRows(es, cs, issue) && ActiveRows(es, cs, issue)[k] <==> k in MergedActive(es, cs, issue)
  {
    if cs != [] {
      var init, c := cs[..|cs| - 1], cs[|cs| - 1];
      assert cs == init + [c];
      ActiveRowsAreMerged(es, init, issue);
      forall d | d in init ensures KeyOf(d) != KeyOf(c) {
        var i :| 0 <= i < |init| && init[i] == d;
        assert KeyOf(cs[i]) != KeyOf(cs[|cs| - 1]);
      }
      MergedStep(es, init, c, issue);
    }
  }

  lemma MergedStep(es: Entities, cs: seq<Change>, c: Change, issue: string)
    requires forall d :: d in cs ==> KeyOf(d) != KeyOf(c)
    ensures MergedActive(es, cs + [c], issue)
            == if !IsCopyOf(c.data, issue) then MergedActive(es, cs, issue)
               else if IsActiveCopy(c.op, c.data) then MergedActive(es, cs, issue) + {KeyOf(c)}
               else MergedActive(es, cs, issue) - {KeyOf(c)}
  {
    var all := cs + [c];
    assert c in all;
    if IsCopyOf(c.data, issue) {
      assert ChangedCopies(all, issue) == ChangedCopies(cs, issue) + {KeyOf(c)};
      assert ActivatedCopies(all, issue)
             == ActivatedCopies(cs, issue) + if IsActiveCopy(c.op, c.data) then {KeyOf(c)} else {};
    } else {
      assert ChangedCopies(all, issue) == ChangedCopies(cs, issue);
      assert ActivatedCopies(all, issue) == ActivatedCopies(cs, issue);
    }
  }

  // ---------- Lists that fail early ----------

  lemma {:induction false} RefreshFailsEarly(es: Entities, comics: Comics, issues: seq<string>, k: nat, now: int)
    requires k <= |issues| && RefreshAll(es, comics, issues[..k], now).Err?
    ensures RefreshAll(es, comics, issues, now) == RefreshAll(es, comics, issues[..k], now)
    decreases |issues|
  {
    hide Refresh;
    if k < |issues| {
      assert issues[..|issues| - 1][..k] == issues[..k];
      RefreshFailsEarly(es, comics, issues[..|issues| - 1], k, now);
    } else {
      assert issues[..k] == issues;
    }
  }

  lemma {:induction false} DeliveryFailsEarly(env: Env, core: Core, ms: seq<Mutation>, k: nat, now: nat)
    requires k <= |ms| && DeliverAll(env, core, ms[..k], now).Err?
    ensures DeliverAll(env, core, ms, now) == DeliverAll(env, core, ms[..k], now)
    decreases |ms|
  {
    hide Deliver;
    if k < |ms| {
      assert ms[..|ms| - 1][..k] == ms[..k];
      DeliveryFailsEarly(env, core, ms[..|ms| - 1], k, now);
    } else {
      assert ms[..k] == ms;
    }
  }

  lemma {:induction false} WritesFailEarly(env: Env, core: Core, cs: seq<Comic>, k: nat)
    requires k <= |cs| && WriteAllV1(env, core, cs[..k]).Err?
    ensures WriteAllV1(env, core, cs) == WriteAllV1(env, core, cs[..k])
    decreases |cs|
  {
    hide WriteV1;
    if k < |cs| {
      assert cs[..|cs| - 1][..k] == cs[..k];
      WritesFailEarly(env, core, cs[..|cs| - 1], k);
    } else {
      assert cs[..k] == cs;
    }
  }

  lemma {:induction false} BootstrapFailsEarly(env: Env, core: Core, ids: seq<string>, k: nat)
    requires k <= |ids| && (forall id :: id in ids ==> id in core.comics) && (forall id :: id in ids[..k] ==> id in core.comics)
    requires BootstrapRows(env, core, ids[..k]).Err?
    ensures BootstrapRows(env, core, ids) == BootstrapRows(env, core, ids[..k])
    decreases |ids|
  {
    hide RecordInternal, ValidateComic;
    if k < |ids| {
      assert ids[..|ids| - 1][..k] == ids[..k];
      BootstrapFailsEarly(env, core, ids[..|ids| - 1], k);
    } else {
      assert ids[..k] == ids;
    }
  }

  lemma {:induction false} RefusedEarly(raws: seq<Comic>, k: nat)
    requires k <= |raws| && CleanAll(raws[..k]).None?
    ensures CleanAll(raws).None?
    decreases |raws|
  {
    hide ValidateComic;
    if k < |raws| {
      assert raws[..|raws| - 1][..k] == raws[..k];
      RefusedEarly(raws[..|raws| - 1], k);
    } else {
      assert raws[..k] == raws;
    }
  }

  // ---------- Ordered copies ----------

  // Copies in the order of the projection: sorted by ordinal and id.
  ghost predicate SortedCopies(copies: map<Key, CopyData>, q: seq<Key>) {
    && (forall k :: k in q <==> k in copies)
    && (forall i, j :: 0 <= i < j < |q| ==> q[i] != q[j] && q[i] in copies && q[j] in copies && Before(copies, q[i], q[j]))
  }

  // The first copy of the order that has the property.
  lemma FirstInOrder(copies: map<Key, CopyData>, q: seq<Key>, s: set<Key>, at: nat)
    requires SortedCopies(copies, q) && (forall k :: k in copies ==> k.kind == PhysicalCopy)
    requires s <= copies.Keys && at < |q| && q[at] in s && (forall i :: 0 <= i < at ==> q[i] !in s)
    ensures s != {} && First(copies, s) == q[at]
  {
    forall k | k in s ensures Before(copies, q[at], k) {
      var i :| 0 <= i < |q| && q[i] == k;
      BeforeOrders(copies, k, k, k);
      assert at <= i;
    }
    assert IsFirst(copies, s, q[at]);
    FirstIsUnique(copies, s, q[at]);
  }

  lemma InsertSorted(copies: map<Key, CopyData>, q: seq<Key>, k: Key, at: nat)
    requires at <= |q| && (forall x :: x in q ==> x in copies) && k in copies && k !in q
    requires forall i, j :: 0 <= i < j < |q| ==> q[i] != q[j] && Before(copies, q[i], q[j])
    requires forall i :: 0 <= i < at ==> Before(copies, q[i], k)
    requires forall i :: at <= i < |q| ==> Before(copies, k, q[i])
    ensures var r := q[..at] + [k] + q[at..];
            && (forall x :: x in r <==> x in q || x == k)
            && (forall i, j :: 0 <= i < j < |r| ==>
                  r[i] in copies && r[j] in copies && r[i] != r[j] && Before(copies, r[i], r[j]))
  {
    hide Before;
    var r := q[..at] + [k] + q[at..];
    assert forall i :: 0 <= i < |r| ==> r[i] == if i < at then q[i] else if i == at then k else q[i - 1];
    forall x | x in q ensures x in r {
      var i :| 0 <= i < |q| && q[i] == x;
      assert i < at ==> r[i] == x;
      assert i >= at ==> r[i + 1] == x;
    }
    assert r[at] == k;
  }

  // The wanted copies among the first of the order.
  function Seen(q: seq<Key>, wanted: set<Key>, n: nat): set<Key>
    requires n <= |q|
  {
    set k | k in q[..n] && k in wanted
  }

  lemma NoneSeen(q: seq<Key>, wanted: set<Key>)
    ensures |Seen(q, wanted, 0)| == 0
  {
  }

  lemma DistinctOrder(copies: map<Key, CopyData>, q: seq<Key>)
    requires SortedCopies(copies, q)
    ensures forall i, j :: 0 <= i < j < |q| ==> q[i] != q[j]
  {
    hide Before;
  }

  lemma SeenStep(q: seq<Key>, wanted: set<Key>, n: nat)
    requires (forall i, j :: 0 <= i < j < |q| ==> q[i] != q[j]) && n < |q|
    ensures |Seen(q, wanted, n + 1)| == |Seen(q, wanted, n)| + if q[n] in wanted then 1 else 0
  {
    assert q[..n + 1] == q[..n] + [q[n]];
    assert Seen(q, wanted, n + 1) == Seen(q, wanted, n) + if q[n] in wanted then {q[n]} else {};
    assert q[n] !in q[..n];
  }

  lemma AllSeen(copies: map<Key, CopyData>, q: seq<Key>, wanted: set<Key>)
    requires SortedCopies(copies, q) && wanted <= copies.Keys
    ensures Seen(q, wanted, |q|) == wanted
    ensures wanted != {} ==> exists i :: 0 <= i < |q| && q[i] in wanted
  {
    hide Before;
    assert q[..|q|] == q;
    if wanted != {} {
      var k :| k in wanted;
      assert k in q;
    }
  }

  // ---------- The flat row, field by field ----------

  function Flat(id: string, shown: IssueData, issueDeleted: bool, entry: Option<EntryData>, entryDeleted: bool,
                active: nat, primary: Option<CopyData>, cover: string, updatedAt: int): Comic {
    var (grade, price, value, loan) :=
      if primary.Some? then (primary.value.conditionGrade, primary.value.purchasePrice,
                             primary.value.estimatedValue, primary.value.loanedTo)
      else ("", None, None, "");
    var (isRead, notes, rating, deleted) :=
      if entry.Some? then (entry.value.isRead, entry.value.notes, entry.value.rating, entry.value.deleted)
      else (false, "", 0, true);
    Comic(id, shown.series, shown.edition, shown.number, shown.title, shown.publisher, shown.year,
          active > 0, isRead, grade, price, value, active > 1, loan, notes, cover, rating,
          shown.pageCount, shown.writer, shown.artist, issueDeleted || entryDeleted || deleted, updatedAt)
  }

  lemma FlatIsRow(v: View, id: string, shown: IssueData, active: nat, cover: string, updatedAt: int)
    requires ViewIssue(v) == Some(shown) && active == |ActiveKeys(v.copies)|
    ensures Flat(id, shown, v.issueDeleted, v.entry, v.entryDeleted, active, Primary(v.copies), cover, updatedAt)
            == Row(v, id, cover, updatedAt)
  {
    hide Primary, ViewIssue;
  }

  // ---------- Mutations known before a request ----------

  // The receipts a request looks up before it delivers anything.
  ghost predicate IsKnown(core: Core, ms: seq<Mutation>, known: map<MutationId, nat>) {
    forall id :: (id in known <==> Named(ms, id) && id in core.receipts)
                 && (id in known ==> known[id] == core.receipts[id].revision)
  }

  lemma RequestIsDeliverable(core: Core, req: Request)
    requires ValidRequest(req) && forall i :: 0 <= i < |req.mutations| ==> !IdReused(core, req.mutations[i])
    ensures Deliverable(core, req.mutations)
  {
    hide ValidMutation, IdReused, IsIdentifier;
  }

  lemma MutationBodies(m: Mutation)
    requires ValidMutation(m)
    ensures AllValidBodies(m.changes)
  {
    hide ValidBody, IsIdentifier;
    forall c | c in m.changes ensures ValidBody(c) {
      var i :| 0 <= i < |m.changes| && m.changes[i] == c;
      assert ValidChange(m.changes[i]);
    }
  }

  // After the first mutations, the next is known exactly if it was known before the request.
  lemma DeliveryContinues(env: Env, start: Core, ms: seq<Mutation>, i: nat, done: Core,
                          known: map<MutationId, nat>, now: nat)
    requires GoodCore(env, start) && Deliverable(start, ms) && i < |ms| && IsKnown(start, ms, known)
    requires DeliverAll(env, start, ms[..i], now).Ok? && DeliverAll(env, start, ms[..i], now).value.core == done
    ensures GoodTables(done) && ValidMutation(ms[i])
    ensures ms[i].id in known <==> ms[i].id in done.receipts
    ensures ms[i].id in known ==>
              Deliver(env, done, ms[i], now) == Ok((done, Ack(ms[i].id, known[ms[i].id], Duplicate)))
  {
    hide ValidMutation, IdReused, GoodHistory, GoodTables, Answered, RecordGroup, Canonicalize;
    var first, m := ms[..i], ms[i];
    DeliverAllKeeps(env, start, first, now);
    assert Named(ms, m.id);
    NotNamedBefore(ms, i);
  }

  lemma NotNamedBefore(ms: seq<Mutation>, i: nat)
    requires DistinctMutations(ms) && i < |ms|
    ensures !Named(ms[..i], ms[i].id)
  {
  }

  // ---------- The answer of a v1 call ----------

  // ORDER BY updated_at: a row is placed behind those that are not newer.
  function PlaceRow(rows: seq<Comic>, c: Comic): seq<Comic> {
    if rows != [] && rows[|rows| - 1].updatedAt > c.updatedAt
    then PlaceRow(rows[..|rows| - 1], c) + [rows[|rows| - 1]]
    else rows + [c]
  }

  ghost predicate OldestFirst(rows: seq<Comic>) {
    forall i, j :: 0 <= i < j < |rows| ==> rows[i].updatedAt <= rows[j].updatedAt && rows[i].id != rows[j].id
  }

  // The same place in the rows and in all but the last of them.
  lemma PlaceBeforeLast(rows: seq<Comic>, c: Comic, at: nat)
    requires at < |rows|
    ensures var init, last := rows[..|rows| - 1], rows[|rows| - 1];
            (init[..at] + [c] + init[at..]) + [last] == rows[..at] + [c] + rows[at..]
  {
    var init, last := rows[..|rows| - 1], rows[|rows| - 1];
    assert init[at..] + [last] == rows[at..] && init[..at] == rows[..at];
  }

  lemma PlaceLast(rows: seq<Comic>, c: Comic)
    ensures rows + [c] == rows[..|rows|] + [c] + rows[|rows|..]
  {
  }

  lemma {:induction false} PlacedAt(rows: seq<Comic>, c: Comic) returns (at: nat)
    ensures at <= |rows| && PlaceRow(rows, c) == rows[..at] + [c] + rows[at..]
    ensures forall i :: at <= i < |rows| ==> rows[i].updatedAt > c.updatedAt
    ensures at > 0 ==> rows[at - 1].updatedAt <= c.updatedAt
  {
    if rows != [] && rows[|rows| - 1].updatedAt > c.updatedAt {
      var init := rows[..|rows| - 1];
      at := PlacedAt(init, c);
      PlaceBeforeLast(rows, c, at);
      forall i | at <= i < |rows| ensures rows[i].updatedAt > c.updatedAt {
        assert i < |init| ==> init[i] == rows[i];
      }
      assert at > 0 ==> init[at - 1] == rows[at - 1];
    } else {
      at := |rows|;
      PlaceLast(rows, c);
    }
  }

  lemma PlaceRowKeepsOrder(rows: seq<Comic>, c: Comic)
    requires OldestFirst(rows) && forall r :: r in rows ==> r.id != c.id
    ensures OldestFirst(PlaceRow(rows, c))
    ensures forall r :: r in PlaceRow(rows, c) <==> r in rows || r == c
  {
    hide PlaceRow;
    var at := PlacedAt(rows, c);
    assert rows == rows[..at] + rows[at..];
    InsertedInOrder(rows, c, at);
  }

  lemma InsertedInOrder(rows: seq<Comic>, c: Comic, at: nat)
    requires OldestFirst(rows) && at <= |rows| && forall r :: r in rows ==> r.id != c.id
    requires forall i :: at <= i < |rows| ==> rows[i].updatedAt > c.updatedAt
    requires at > 0 ==> rows[at - 1].updatedAt <= c.updatedAt
    ensures OldestFirst(rows[..at] + [c] + rows[at..])
  {
    var all := rows[..at] + [c] + rows[at..];
    forall i, j | 0 <= i < j < |all| ensures all[i].updatedAt <= all[j].updatedAt && all[i].id != all[j].id {
      assert all[i] == if i < at then rows[i] else if i == at then c else rows[i - 1];
      assert all[j] == if j < at then rows[j] else if j == at then c else rows[j - 1];
      assert j == at ==> rows[i].updatedAt <= rows[at - 1].updatedAt;
    }
  }
}
