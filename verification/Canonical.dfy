/** What the server makes of an accepted list of changes: the canonical group it logs, and the
    entity table after that group. */
module Canonical {
  import opened Basics
  import opened SyncTypes

  function CanonicalChange(c: Change): Change {
    if c.data.Issue? then c.(data := Issue(c.data.issue.(deleted := c.op.Delete?))) else c
  }

  predicate DistinctKeys(cs: seq<Change>) {
    forall i, j :: 0 <= i < j < |cs| ==> KeyOf(cs[i]) != KeyOf(cs[j])
  }

  // ---------- The order of a canonical group: custom issues first ----------

  function IssueChanges(cs: seq<Change>): seq<Change> {
    if cs == [] then []
    else
      var c := cs[|cs| - 1];
      IssueChanges(cs[..|cs| - 1]) + if c.data.Issue? then [CanonicalChange(c)] else []
  }

  function OtherChanges(cs: seq<Change>): seq<Change> {
    if cs == [] then []
    else
      var c := cs[|cs| - 1];
      OtherChanges(cs[..|cs| - 1]) + if c.data.Issue? then [] else [c]
  }

  function Ordered(cs: seq<Change>): seq<Change> {
    IssueChanges(cs) + OtherChanges(cs)
  }

  // ---------- Acceptance ----------

  predicate KnownIssue(es: Entities, cs: seq<Change>, issue: string) {
    || Key(CustomIssue, issue) in es
    || exists c :: c in cs && c.data.Issue? && c.id == issue
  }

  // A copy stays with its issue, and what refers to an unknown issue describes it.
  predicate Acceptable(es: Entities, cs: seq<Change>, c: Change) {
    c.data.Issue? ||
    (&& (c.data.Copy? && KeyOf(c) in es ==> IsCopyOf(es[KeyOf(c)].data, ChangeIssue(c)))
     && (KnownIssue(es, cs, ChangeIssue(c)) || HintOf(c.data).Some?))
  }

  // ---------- Copies decide the aggregate entry ----------

  ghost function StoredActive(es: Entities, issue: string): set<Key> {
    set k | k in es && IsCopyOf(es[k].data, issue) && IsActiveCopy(es[k].op, es[k].data)
  }

  ghost function ChangedCopies(cs: seq<Change>, issue: string): set<Key> {
    set c | c in cs && IsCopyOf(c.data, issue) :: KeyOf(c)
  }

  ghost function ActivatedCopies(cs: seq<Change>, issue: string): set<Key> {
    set c | c in cs && IsCopyOf(c.data, issue) && IsActiveCopy(c.op, c.data) :: KeyOf(c)
  }

  // The active copies of the issue once the changes are stored.
  ghost function MergedActive(es: Entities, cs: seq<Change>, issue: string): set<Key> {
    (StoredActive(es, issue) - ChangedCopies(cs, issue)) + ActivatedCopies(cs, issue)
  }

  function Derived(data: EntryData, active: nat): EntryData {
    data.(owned := active > 0, isDuplicate := active > 1, isWanted := active == 0)
  }

  predicate IsLive(op: Operation, data: Data) {
    op.Upsert? && !IsDeleted(data)
  }

  function Find(es: Entities, kind: Kind, id: string): Option<Entity> {
    if Key(kind, id) in es then Some(es[Key(kind, id)]) else None
  }

  // One aggregate entry against the number of active copies. A deletion which did not observe
  // an active copy is turned into an upsert of what the server already stores.
  function NormalizeEntry(es: Entities, entry: Change, active: nat): (c: Change)
    requires entry.data.Entry?
    ensures KeyOf(c) == KeyOf(entry)
  {
    var data := entry.data.entry;
    if IsLive(entry.op, entry.data) then entry.(data := Entry(Derived(data, active)))
    else if active == 0 then
      entry.(data := Entry(data.(owned := false, isDuplicate := false, isWanted := false)))
    else
      var stored := Find(es, CollectionEntry, entry.id);
      var kept :=
        if stored.Some? && stored.value.data.Entry? && IsLive(stored.value.op, stored.value.data) then
          var server := stored.value.data.entry;
          if server.hint.None? && data.hint.Some? then server.(hint := data.hint) else server
        else data;
      Change(entry.id, Upsert, Entry(Derived(kept.(deleted := false), active)))
  }

  function CopyChanges(cs: seq<Change>, issue: string): seq<Change> {
    if cs == [] then []
    else
      var c := cs[|cs| - 1];
      CopyChanges(cs[..|cs| - 1], issue) + if IsCopyOf(c.data, issue) then [c] else []
  }

  function FirstHint(cs: seq<Change>): Option<Hint> {
    if cs == [] then None
    else if HintOf(cs[0].data).Some? then HintOf(cs[0].data)
    else FirstHint(cs[1..])
  }

  function UpdatedAt(c: Change): int {
    if c.data.Copy? then c.data.copy.updatedAt else 0
  }

  function LatestUpdate(cs: seq<Change>): int {
    if cs == [] then 0
    else if |cs| == 1 then UpdatedAt(cs[0])
    else Max(UpdatedAt(cs[0]), LatestUpdate(cs[1..]))
  }

  lemma {:induction false} CopyChangesAreCopies(cs: seq<Change>, issue: string)
    ensures forall c :: c in CopyChanges(cs, issue) <==> c in cs && IsCopyOf(c.data, issue)
  {
    if cs != [] {
      CopyChangesAreCopies(cs[..|cs| - 1], issue);
      assert cs == cs[..|cs| - 1] + [cs[|cs| - 1]];
    }
  }

  // The entry a group must carry because it changes copies of the issue but not the entry.
  function ImpliedEntry(es: Entities, cs: seq<Change>, issue: string): (c: Change)
    ensures c.data.Entry? && c.id == issue
  {
    var copies := CopyChanges(cs, issue);
    var stored := Find(es, CollectionEntry, issue);
    if stored.Some? && stored.value.data.Entry? then Change(issue, stored.value.op, stored.value.data)
    else Change(issue, Upsert,
                Entry(EntryData(issue, false, true, false, false, 0, "", false,
                                LatestUpdate(copies), FirstHint(copies))))
  }

  function MissingEntries(cs: seq<Change>): set<string> {
    set c | c in cs && c.data.Copy? && !(exists e :: e in cs && e.data.Entry? && e.id == c.data.copy.issueId)
      :: c.data.copy.issueId
  }

  ghost function NormalizeOne(es: Entities, cs: seq<Change>, c: Change): Change {
    if c.data.Entry? then NormalizeEntry(es, c, |MergedActive(es, cs, c.id)|) else c
  }

  ghost function AddedEntry(es: Entities, cs: seq<Change>, issue: string): Change {
    NormalizeEntry(es, ImpliedEntry(es, cs, issue), |MergedActive(es, cs, issue)|)
  }

  // Every entry normalised where it stands, and the implied entries appended in issue order.
  ghost function Normalized(es: Entities, cs: seq<Change>): seq<Change> {
    var missing := SortedTexts(MissingEntries(cs));
    seq(|cs|, i requires 0 <= i < |cs| => NormalizeOne(es, cs, cs[i]))
    + seq(|missing|, i requires 0 <= i < |missing| => AddedEntry(es, cs, missing[i]))
  }

  // _canonicalize_group
  ghost function Canonicalize(es: Entities, cs: seq<Change>): Result<seq<Change>, SyncError> {
    if exists c :: c in cs && !Acceptable(es, cs, c) then Err(InvalidRequest)
    else
      var canonical := Normalized(es, Ordered(cs));
      if DistinctKeys(canonical) then Ok(canonical) else Err(InvalidRequest)
  }

  // ---------- Recording a group ----------

  function Record(es: Entities, cs: seq<Change>, revision: nat): Entities {
    if cs == [] then es
    else
      var c := cs[|cs| - 1];
      Record(es, cs[..|cs| - 1], revision)[KeyOf(c) := Entity(c.op, c.data, revision)]
  }

  // The entity table a log describes.
  function Replay(log: seq<Group>): Entities {
    if log == [] then map[]
    else Record(Replay(log[..|log| - 1]), log[|log| - 1].changes, |log|)
  }

  lemma {:induction false} RecordAt(es: Entities, cs: seq<Change>, revision: nat)
    ensures forall k :: k in Record(es, cs, revision) <==> k in es || exists c :: c in cs && KeyOf(c) == k
    ensures forall k :: k in es && (forall c :: c in cs ==> KeyOf(c) != k) ==> Record(es, cs, revision)[k] == es[k]
    ensures DistinctKeys(cs) ==>
              forall c :: c in cs ==> Record(es, cs, revision)[KeyOf(c)] == Entity(c.op, c.data, revision)
  {
    if cs != [] {
      var init, last := cs[..|cs| - 1], cs[|cs| - 1];
      RecordAt(es, init, revision);
      assert cs == init + [last];
      if DistinctKeys(cs) {
        forall c | c in cs ensures Record(es, cs, revision)[KeyOf(c)] == Entity(c.op, c.data, revision) {
          if c != last {
            var i :| 0 <= i < |cs| && cs[i] == c;
            assert init[i] == c && KeyOf(cs[i]) != KeyOf(cs[|cs| - 1]);
          }
        }
      }
    }
  }

  // ---------- Elementary facts about the pieces ----------

  lemma {:induction false} OrderedMembers(cs: seq<Change>)
    ensures forall c :: c in Ordered(cs) <==> exists d :: d in cs && CanonicalChange(d) == c
    ensures forall c :: c in IssueChanges(cs) ==> c.data.Issue?
    ensures forall c :: c in OtherChanges(cs) ==> !c.data.Issue?
    ensures |Ordered(cs)| == |cs|
  {
    if cs != [] {
      var init, last := cs[..|cs| - 1], cs[|cs| - 1];
      OrderedMembers(init);
      assert cs == init + [last];
      assert CanonicalChange(last) in Ordered(cs) by {
        if last.data.Issue? {
          assert CanonicalChange(last) in IssueChanges(cs);
        } else {
          assert CanonicalChange(last) in OtherChanges(cs);
        }
      }
      forall c ensures c in Ordered(cs) <==> exists d :: d in cs && CanonicalChange(d) == c {
        if c in Ordered(cs) && c != CanonicalChange(last) {
          assert c in Ordered(init);
        }
        if exists d :: d in cs && CanonicalChange(d) == c {
          var d :| d in cs && CanonicalChange(d) == c;
          if d in init {
            assert c in Ordered(init);
          }
        }
      }
    }
  }

  // What stands at each place of a normalised list.
  lemma NormalizedAt(es: Entities, cs: seq<Change>, i: nat)
    requires i < |Normalized(es, cs)|
    ensures var missing := SortedTexts(MissingEntries(cs));
            && |Normalized(es, cs)| == |cs| + |missing|
            && Normalized(es, cs)[i] ==
               if i < |cs| then NormalizeOne(es, cs, cs[i]) else AddedEntry(es, cs, missing[i - |cs|])
  {
    hide NormalizeOne, AddedEntry, SortedTexts, MissingEntries;
  }

  lemma NormalizedLength(es: Entities, cs: seq<Change>)
    ensures |Normalized(es, cs)| == |cs| + |SortedTexts(MissingEntries(cs))|
  {
    hide NormalizeOne, AddedEntry, SortedTexts, MissingEntries;
  }

  // Membership in a normalised list: a normalised member, or an implied entry.
  lemma NormalizedMembers(es: Entities, cs: seq<Change>)
    ensures forall c :: c in cs ==> NormalizeOne(es, cs, c) in Normalized(es, cs)
    ensures forall issue :: issue in MissingEntries(cs) ==> AddedEntry(es, cs, issue) in Normalized(es, cs)
  {
    hide Normalized, NormalizeOne, AddedEntry, MissingEntries, SortedTexts;
    var n, missing := Normalized(es, cs), SortedTexts(MissingEntries(cs));
    NormalizedLength(es, cs);
    forall c | c in cs ensures NormalizeOne(es, cs, c) in n {
      var i :| 0 <= i < |cs| && cs[i] == c;
      NormalizedAt(es, cs, i);
    }
    forall issue | issue in MissingEntries(cs) ensures AddedEntry(es, cs, issue) in n {
      var i :| 0 <= i < |missing| && missing[i] == issue;
      NormalizedAt(es, cs, |cs| + i);
    }
  }

  lemma NormalizedOrigin(es: Entities, cs: seq<Change>, d: Change)
    requires d in Normalized(es, cs)
    ensures || (exists c :: c in cs && NormalizeOne(es, cs, c) == d)
            || (exists issue :: issue in MissingEntries(cs) && AddedEntry(es, cs, issue) == d)
  {
    hide Normalized, NormalizeOne, AddedEntry, MissingEntries, SortedTexts;
    var n, missing := Normalized(es, cs), SortedTexts(MissingEntries(cs));
    var i :| 0 <= i < |n| && n[i] == d;
    NormalizedAt(es, cs, i);
    if i < |cs| {
      assert cs[i] in cs && NormalizeOne(es, cs, cs[i]) == d;
    } else {
      assert missing[i - |cs|] in missing;
    }
  }

  lemma NormalizeKeepsKey(es: Entities, cs: seq<Change>, c: Change)
    ensures KeyOf(NormalizeOne(es, cs, c)) == KeyOf(c)
    ensures !c.data.Entry? ==> NormalizeOne(es, cs, c) == c
  {
  }

  // ---------- Distinct keys ----------

  predicate KeysKept(cs: seq<Change>, out: seq<Change>) {
    |out| >= |cs| && forall i :: 0 <= i < |cs| ==> KeyOf(out[i]) == KeyOf(cs[i])
  }

  lemma KeptDuplicates(cs: seq<Change>, out: seq<Change>)
    requires KeysKept(cs, out) && DistinctKeys(out)
    ensures DistinctKeys(cs)
  {
  }

  lemma NormalizedKeepsKeys(es: Entities, cs: seq<Change>)
    ensures KeysKept(cs, Normalized(es, cs))
  {
    hide NormalizeOne, AddedEntry, SortedTexts, MissingEntries;
    forall i | 0 <= i < |cs| ensures KeyOf(Normalized(es, cs)[i]) == KeyOf(cs[i]) {
      NormalizeKeepsKey(es, cs, cs[i]);
    }
  }

  function Keys(cs: seq<Change>): set<Key> {
    set c | c in cs :: KeyOf(c)
  }

  // len(keys) == len(set(keys))
  lemma {:induction false} DistinctByCount(cs: seq<Change>)
    ensures |Keys(cs)| <= |cs| && (DistinctKeys(cs) <==> |Keys(cs)| == |cs|)
  {
    if cs != [] {
      var init, c := cs[..|cs| - 1], cs[|cs| - 1];
      assert cs == init + [c];
      DistinctByCount(init);
      assert Keys(cs) == Keys(init) + {KeyOf(c)};
      if d :| d in init && KeyOf(d) == KeyOf(c) {
        var i :| 0 <= i < |init| && init[i] == d;
        assert KeyOf(cs[i]) == KeyOf(cs[|cs| - 1]);
        assert Keys(cs) == Keys(init);
      } else {
        assert KeyOf(c) !in Keys(init);
        DistinctStep(init, c);
      }
    }
  }

  lemma DistinctStep(cs: seq<Change>, c: Change)
    requires forall d :: d in cs ==> KeyOf(d) != KeyOf(c)
    ensures DistinctKeys(cs + [c]) <==> DistinctKeys(cs)
  {
    var all := cs + [c];
    if DistinctKeys(cs) {
      forall i, j | 0 <= i < j < |all| ensures KeyOf(all[i]) != KeyOf(all[j]) {
        assert all[i] == cs[i];
      }
    }
    if DistinctKeys(all) {
      forall i, j | 0 <= i < j < |cs| ensures KeyOf(cs[i]) != KeyOf(cs[j]) {
        assert all[i] == cs[i] && all[j] == cs[j];
      }
    }
  }

  lemma {:induction false} OrderedKeys(cs: seq<Change>)
    ensures Keys(Ordered(cs)) == Keys(cs) && |Ordered(cs)| == |cs|
    ensures DistinctKeys(Ordered(cs)) <==> DistinctKeys(cs)
  {
    hide Ordered, DistinctKeys;
    OrderedMembers(cs);
    forall k ensures k in Keys(Ordered(cs)) <==> k in Keys(cs) {
      if c :| c in cs && KeyOf(c) == k {
        assert CanonicalChange(c) in Ordered(cs);
      }
      if c :| c in Ordered(cs) && KeyOf(c) == k {
        var d :| d in cs && CanonicalChange(d) == c;
      }
    }
    DistinctByCount(cs);
    DistinctByCount(Ordered(cs));
  }

  // Normalising adds no second change to any entity.
  lemma NormalizedIsDistinct(es: Entities, cs: seq<Change>)
    requires DistinctKeys(cs)
    ensures DistinctKeys(Normalized(es, cs))
  {
    hide Normalized, NormalizeOne, NormalizeEntry, ImpliedEntry, SortedTexts, DistinctKeys, MissingEntries;
    var n, missing := Normalized(es, cs), SortedTexts(MissingEntries(cs));
    NormalizedLength(es, cs);
    forall i, j | 0 <= i < j < |n| ensures KeyOf(n[i]) != KeyOf(n[j]) {
      NormalizedKeyAt(es, cs, i);
      NormalizedKeyAt(es, cs, j);
      if j < |cs| {
        DistinctAt(cs, i, j);
      } else if i < |cs| {
        MissingIsNew(cs, cs[i], missing[j - |cs|]);
      }
    }
    IsDistinct(n);
  }

  lemma NormalizedKeyAt(es: Entities, cs: seq<Change>, i: nat)
    requires i < |Normalized(es, cs)|
    ensures var missing := SortedTexts(MissingEntries(cs));
            && |Normalized(es, cs)| == |cs| + |missing|
            && KeyOf(Normalized(es, cs)[i]) == if i < |cs| then KeyOf(cs[i]) else Key(CollectionEntry, missing[i - |cs|])
  {
    hide Normalized, NormalizeOne, SortedTexts, MissingEntries;
    NormalizedAt(es, cs, i);
    if i < |cs| {
      NormalizeKeepsKey(es, cs, cs[i]);
    }
  }

  lemma DistinctAt(cs: seq<Change>, i: nat, j: nat)
    requires DistinctKeys(cs) && i < j < |cs|
    ensures KeyOf(cs[i]) != KeyOf(cs[j])
  {
  }

  lemma IsDistinct(cs: seq<Change>)
    requires forall i, j :: 0 <= i < j < |cs| ==> KeyOf(cs[i]) != KeyOf(cs[j])
    ensures DistinctKeys(cs)
  {
  }

  lemma MissingIsNew(cs: seq<Change>, c: Change, issue: string)
    requires c in cs && issue in SortedTexts(MissingEntries(cs))
    ensures KeyOf(c) != Key(CollectionEntry, issue)
  {
  }
}
