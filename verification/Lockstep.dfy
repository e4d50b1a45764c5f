/** Before activation the entity table is a function of the flat v1 table, and each accepted v1
    write is one group of the log. */
module Lockstep {
  import opened Basics
  import opened SyncTypes
  import opened Canonical
  import opened Authority
  import opened Projection
  import opened V1Bridge
  import opened Paging
  import opened RoundTrip
  import opened SyncState

  // ---------- The entities of one row ----------

  function V1Keys(issue: string): set<Key> {
    {Key(CustomIssue, issue), Key(CollectionEntry, issue),
     Key(PhysicalCopy, issue + ":copy:0"), Key(PhysicalCopy, issue + ":copy:1")}
  }

  lemma KeysOfComic(c: Comic)
    ensures forall k :: k in V1Keys(c.id) <==> exists d :: d in CanonicalOf(c) && KeyOf(d) == k
  {
    var cs := CanonicalOf(c);
    assert KeyOf(cs[0]) == Key(CustomIssue, c.id) && KeyOf(cs[1]) == Key(CollectionEntry, c.id);
    assert KeyOf(cs[2]) == Key(PhysicalCopy, c.id + ":copy:0") && KeyOf(cs[3]) == Key(PhysicalCopy, c.id + ":copy:1");
    assert cs[0] in cs && cs[1] in cs && cs[2] in cs && cs[3] in cs;
  }

  lemma KeysAreDisjoint(a: string, b: string)
    requires a != b
    ensures V1Keys(a) !! V1Keys(b)
  {
    if k :| k in V1Keys(a) && k in V1Keys(b) && k.kind == PhysicalCopy {
      V1CopyIdIsInjective(k.id, a, b);
    }
  }

  function KeysOf(cs: seq<Change>): set<Key> {
    set c | c in cs :: KeyOf(c)
  }

  // The table holds the changes, revisions aside.
  predicate Holds(es: Entities, cs: seq<Change>) {
    forall d :: d in cs ==> KeyOf(d) in es && es[KeyOf(d)].op == d.op && es[KeyOf(d)].data == d.data
  }

  // The table holds what the row says.
  predicate HoldsRow(env: Env, es: Entities, row: Comic) {
    Holds(es, V1Canonical(env, row))
  }

  ghost predicate Keyed(rows: Comics) {
    forall id :: id in rows ==> rows[id].id == id
  }

  // Every sanitised id has a row the table follows, and every entity belongs to such a row.
  ghost predicate RowAnchored(env: Env, es: Entities, rows: Comics, issue: string) {
    exists a :: a in rows && SanitizedId(env, a) == issue && HoldsRow(env, es, rows[a])
  }

  ghost predicate RowsAnchored(env: Env, es: Entities, rows: Comics) {
    forall id :: id in rows ==> RowAnchored(env, es, rows, SanitizedId(env, id))
  }

  ghost predicate EntityAnchored(env: Env, es: Entities, rows: Comics, k: Key) {
    exists a :: a in rows && k in V1Keys(SanitizedId(env, a)) && HoldsRow(env, es, rows[a])
  }

  ghost predicate EntitiesAnchored(env: Env, es: Entities, rows: Comics) {
    forall k :: k in es ==> EntityAnchored(env, es, rows, k)
  }

  ghost predicate Anchored(env: Env, es: Entities, rows: Comics) {
    RowsAnchored(env, es, rows) && EntitiesAnchored(env, es, rows)
  }

  lemma KeysOfCanonical(env: Env, row: Comic)
    ensures KeysOf(V1Canonical(env, row)) == V1Keys(SanitizedId(env, row.id))
    ensures DistinctKeys(V1Canonical(env, row))
  {
    hide Sanitize, CanonicalOf, V1Keys;
    var c := Sanitize(env, row);
    SanitizedIdOf(env, row);
    KeysOfComic(c);
    CanonicalOfIsDistinct(c);
  }

  lemma SanitizedIdOf(env: Env, row: Comic)
    ensures Sanitize(env, row).id == SanitizedId(env, row.id)
  {
  }

  lemma RecordHolds(es: Entities, cs: seq<Change>, revision: nat)
    requires DistinctKeys(cs)
    ensures Holds(Record(es, cs, revision), cs)
    ensures forall k :: k in Record(es, cs, revision) <==> k in es || k in KeysOf(cs)
  {
    RecordAt(es, cs, revision);
  }

  lemma RecordKeepsOthers(es: Entities, cs: seq<Change>, other: seq<Change>, revision: nat)
    requires Holds(es, other) && KeysOf(cs) !! KeysOf(other)
    ensures Holds(Record(es, cs, revision), other)
  {
    RecordAt(es, cs, revision);
    forall d | d in other
      ensures KeyOf(d) in Record(es, cs, revision) && Record(es, cs, revision)[KeyOf(d)] == es[KeyOf(d)]
    {
      assert KeyOf(d) in KeysOf(other);
      forall c | c in cs ensures KeyOf(c) != KeyOf(d) {
        assert KeyOf(c) in KeysOf(cs);
      }
    }
  }

  lemma RecordKeepsRow(env: Env, es: Entities, row: Comic, other: Comic, revision: nat)
    requires HoldsRow(env, es, other) && SanitizedId(env, row.id) != SanitizedId(env, other.id)
    ensures HoldsRow(env, Record(es, V1Canonical(env, row), revision), other)
  {
    hide V1Canonical, V1Keys, SanitizedId, Holds, Record, KeysOf;
    KeysOfCanonical(env, row);
    KeysOfCanonical(env, other);
    KeysAreDisjoint(SanitizedId(env, row.id), SanitizedId(env, other.id));
    RecordKeepsOthers(es, V1Canonical(env, row), V1Canonical(env, other), revision);
  }

  lemma StoredHolds(env: Env, es: Entities, row: Comic)
    requires HoldsRow(env, es, row)
    ensures HoldsRow(env, es, StoredComic(row))
  {
    hide V1Canonical, Holds;
    SanitizeIsStable(env, row);
  }

  // Recording a row keeps the table anchored in the rows with that row replaced.
  lemma RecordKeepsAnchored(env: Env, es: Entities, rows: Comics, row: Comic, revision: nat)
    requires Anchored(env, es, rows) && Keyed(rows)
    ensures Anchored(env, Record(es, V1Canonical(env, row), revision), rows[row.id := StoredComic(row)])
  {
    hide V1Canonical, V1Keys, SanitizedId, Holds, Record, KeysOf, HoldsRow, StoredComic, RowAnchored, EntityAnchored;
    var after, rows' := Record(es, V1Canonical(env, row), revision), rows[row.id := StoredComic(row)];
    forall id | id in rows' ensures RowAnchored(env, after, rows', SanitizedId(env, id)) {
      RecordAnchorsRow(env, es, rows, row, revision, SanitizedId(env, id));
    }
    forall k | k in after ensures EntityAnchored(env, after, rows', k) {
      RecordAnchorsEntity(env, es, rows, row, revision, k);
    }
  }

  lemma RecordAnchorsRow(env: Env, es: Entities, rows: Comics, row: Comic, revision: nat, issue: string)
    requires Keyed(rows) && (RowAnchored(env, es, rows, issue) || issue == SanitizedId(env, row.id))
    ensures RowAnchored(env, Record(es, V1Canonical(env, row), revision), rows[row.id := StoredComic(row)], issue)
  {
    hide V1Canonical, V1Keys, SanitizedId, Holds, Record, KeysOf, HoldsRow, StoredComic;
    var after, rows' := Record(es, V1Canonical(env, row), revision), rows[row.id := StoredComic(row)];
    if issue == SanitizedId(env, row.id) {
      RecordHoldsRow(env, es, row, revision);
      assert row.id in rows' && HoldsRow(env, after, rows'[row.id]);
    } else {
      var a :| a in rows && SanitizedId(env, a) == issue && HoldsRow(env, es, rows[a]);
      RecordKeepsRow(env, es, row, rows[a], revision);
      assert a in rows' && rows'[a] == rows[a];
    }
  }

  lemma RecordAnchorsEntity(env: Env, es: Entities, rows: Comics, row: Comic, revision: nat, k: Key)
    requires Keyed(rows) && EntitiesAnchored(env, es, rows) && k in Record(es, V1Canonical(env, row), revision)
    ensures EntityAnchored(env, Record(es, V1Canonical(env, row), revision), rows[row.id := StoredComic(row)], k)
  {
    hide V1Canonical, V1Keys, SanitizedId, Holds, Record, KeysOf, HoldsRow, StoredComic;
    var after, rows' := Record(es, V1Canonical(env, row), revision), rows[row.id := StoredComic(row)];
    KeysOfCanonical(env, row);
    RecordHolds(es, V1Canonical(env, row), revision);
    if k in V1Keys(SanitizedId(env, row.id)) {
      RecordHoldsRow(env, es, row, revision);
      assert row.id in rows' && HoldsRow(env, after, rows'[row.id]);
    } else {
      assert EntityAnchored(env, es, rows, k);
      var a :| a in rows && k in V1Keys(SanitizedId(env, a)) && HoldsRow(env, es, rows[a]);
      RecordKeepsRow(env, es, row, rows[a], revision);
      assert a in rows' && rows'[a] == rows[a];
    }
  }

  lemma RecordHoldsRow(env: Env, es: Entities, row: Comic, revision: nat)
    ensures HoldsRow(env, Record(es, V1Canonical(env, row), revision), StoredComic(row))
  {
    hide V1Canonical, V1Keys, SanitizedId, Holds, Record, KeysOf, StoredComic;
    KeysOfCanonical(env, row);
    RecordHolds(es, V1Canonical(env, row), revision);
    StoredHolds(env, Record(es, V1Canonical(env, row), revision), row);
  }

  // ---------- The table as a function of the rows ----------

  ghost predicate SharedIdsAgree(env: Env, rows: Comics) {
    forall a, b :: a in rows && b in rows && SanitizedId(env, a) == SanitizedId(env, b) ==>
      V1Canonical(env, rows[a]) == V1Canonical(env, rows[b])
  }

  lemma SameKeys(a: Comic, b: Comic, i: nat)
    requires a.id == b.id && i < 4
    ensures |CanonicalOf(a)| == |CanonicalOf(b)| == 4 && KeyOf(CanonicalOf(a)[i]) == KeyOf(CanonicalOf(b)[i])
  {
  }

  lemma SameHoldings(env: Env, es: Entities, a: Comic, b: Comic)
    requires HoldsRow(env, es, a) && HoldsRow(env, es, b) && SanitizedId(env, a.id) == SanitizedId(env, b.id)
    ensures V1Canonical(env, a) == V1Canonical(env, b)
  {
    hide Sanitize, CanonicalOf, SanitizedId;
    var x, y := Sanitize(env, a), Sanitize(env, b);
    SanitizedIdOf(env, a);
    SanitizedIdOf(env, b);
    forall i: nat | i < 4 ensures |CanonicalOf(x)| == |CanonicalOf(y)| == 4 && CanonicalOf(x)[i] == CanonicalOf(y)[i] {
      SameKeys(x, y, i);
      assert CanonicalOf(x)[i] in CanonicalOf(x) && CanonicalOf(y)[i] in CanonicalOf(y);
    }
    SameKeys(x, y, 0);
  }

  // The table is the union of what the rows say: it holds every row, and nothing besides.
  ghost predicate IsUnion(env: Env, es: Entities, rows: Comics) {
    && (forall id :: id in rows ==> HoldsRow(env, es, rows[id]))
    && (forall k :: k in es ==> exists id :: id in rows && k in V1Keys(SanitizedId(env, id)))
  }

  // No two ids that need one have the same digest.
  ghost predicate DigestsDiffer(env: Env, rows: Comics) {
    forall a, b :: a in rows && b in rows && a != b && !IsIdentifier(a, 128) && !IsIdentifier(b, 128) ==>
      env.digest(a) != env.digest(b)
  }

  // The id of a row takes at most 64 characters, and one made from a digest takes 71, so a row
  // never has the v2 id another row was given: only two digests can be equal.
  lemma OnlyDigestsCollide(env: Env, rows: Comics, a: string, b: string)
    requires ValidEnv(env) && ValidComics(rows) && a in rows && b in rows
    requires SanitizedId(env, a) == SanitizedId(env, b)
    ensures a == b || (!IsIdentifier(a, 128) && !IsIdentifier(b, 128) && env.digest(a) == env.digest(b))
  {
    hide IsIdentifier, ValidEnv;
    RowKeysAreShort(rows, a);
    RowKeysAreShort(rows, b);
    LegacyIdIsLong(env, a);
    LegacyIdIsLong(env, b);
    assert |"legacy-"| == 7;
    if !IsIdentifier(a, 128) && !IsIdentifier(b, 128) {
      assert env.digest(a) == SanitizedId(env, a)[7..] && env.digest(b) == SanitizedId(env, b)[7..];
    }
  }

  lemma LegacyIdIsLong(env: Env, raw: string)
    requires ValidEnv(env)
    ensures !IsIdentifier(raw, 128) ==> |SanitizedId(env, raw)| == 71
  {
    hide IsIdentifier;
    assert IsHexDigest(env.digest(raw));
    assert |"legacy-"| == 7;
  }

  lemma AnchoredHolds(env: Env, es: Entities, rows: Comics, id: string)
    requires Anchored(env, es, rows) && id in rows && SharedIdsAgree(env, rows)
    ensures HoldsRow(env, es, rows[id])
  {
    hide V1Canonical, V1Keys, SanitizedId, Holds, EntitiesAnchored;
    assert RowAnchored(env, es, rows, SanitizedId(env, id));
    var a :| a in rows && SanitizedId(env, a) == SanitizedId(env, id) && HoldsRow(env, es, rows[a]);
    assert V1Canonical(env, rows[a]) == V1Canonical(env, rows[id]);
  }

  lemma AnchoredBelongs(env: Env, es: Entities, rows: Comics, k: Key)
    requires Anchored(env, es, rows) && k in es
    ensures exists id :: id in rows && k in V1Keys(SanitizedId(env, id))
  {
    hide V1Keys, SanitizedId, HoldsRow, RowsAnchored;
    assert EntityAnchored(env, es, rows, k);
  }

  // The table is the union of its rows exactly when rows whose ids share a digest describe the
  // same comic, and so outright when no digests collide.
  lemma TableIsUnionOfRows(env: Env, es: Entities, rows: Comics)
    requires Anchored(env, es, rows) && ValidEnv(env) && ValidComics(rows)
    ensures IsUnion(env, es, rows) <==> SharedIdsAgree(env, rows)
    ensures DigestsDiffer(env, rows) ==> IsUnion(env, es, rows)
  {
    hide V1Canonical, V1Keys, SanitizedId, HoldsRow, Anchored, ValidComics, ValidEnv, IsIdentifier;
    forall a, b | a in rows && b in rows && SanitizedId(env, a) == SanitizedId(env, b)
      ensures HoldsRow(env, es, rows[a]) && HoldsRow(env, es, rows[b]) ==>
                V1Canonical(env, rows[a]) == V1Canonical(env, rows[b])
      ensures DigestsDiffer(env, rows) ==> a == b
    {
      RowKeysAreShort(rows, a);
      RowKeysAreShort(rows, b);
      OnlyDigestsCollide(env, rows, a, b);
      if HoldsRow(env, es, rows[a]) && HoldsRow(env, es, rows[b]) {
        SameHoldings(env, es, rows[a], rows[b]);
      }
    }
    if SharedIdsAgree(env, rows) {
      forall id | id in rows ensures HoldsRow(env, es, rows[id]) {
        AnchoredHolds(env, es, rows, id);
      }
    }
    forall k | k in es ensures exists id :: id in rows && k in V1Keys(SanitizedId(env, id)) {
      AnchoredBelongs(env, es, rows, k);
    }
  }

  // ---------- The v1 phase ----------

  // Each write in the log is at most as new as the row it went to.
  ghost predicate WritesAreOld(core: Core) {
    forall i :: 0 <= i < |core.log| && core.log[i].mutationId.V1Write? ==>
      !IsNewer(core.comics, core.log[i].mutationId.comic)
  }

  ghost predicate V1Phase(env: Env, core: Core) {
    && !core.activated && core.receipts == map[] && V1Shaped(core.entities)
    && Keyed(core.comics) && Anchored(env, core.entities, core.comics) && WritesAreOld(core)
  }

  lemma ShapeOfCanonical(c: Comic)
    ensures forall d :: d in CanonicalOf(c) ==>
              !d.data.Barcode? && (d.data.Copy? ==> IsV1CopyId(d.id, d.data.copy.issueId))
              && (d.data.Entry? ==> d.data.entry.issueId == d.id)
  {
  }

  lemma RecordKeepsShape(env: Env, es: Entities, row: Comic, revision: nat)
    requires V1Shaped(es) && WellKeyed(es)
    ensures V1Shaped(Record(es, V1Canonical(env, row), revision))
    ensures WellKeyed(Record(es, V1Canonical(env, row), revision))
  {
    hide Sanitize, CanonicalOf, IsV1CopyId;
    var c := Sanitize(env, row);
    RecordedComic(es, c, revision);
    ShapeOfCanonical(c);
  }

  // An accepted v1 write adds exactly one group: the comic's own canonical group. The only
  // refusal left is a group over the size limit.
  lemma WriteV1InLockstep(env: Env, core: Core, c: Comic)
    requires V1Phase(env, core) && WellKeyed(core.entities)
    ensures var r := WriteV1(env, core, c); var canonical := V1Canonical(env, c);
            if !IsNewer(core.comics, c) then r == Ok(core)
            else if ChangesBytes(env, canonical) > MAX_V2_GROUP_BYTES then r == Err(MutationTooLarge)
            else r == Ok(core.(comics := core.comics[c.id := StoredComic(c)],
                               log := core.log + [Group(V1Write(c), canonical)],
                               entities := Record(core.entities, canonical, |core.log| + 1)))
                 && V1Phase(env, r.value) && WellKeyed(r.value.entities)
  {
    hide Sanitize, CanonicalOf, Anchored, V1Shaped, WellKeyed, Record, ChangesBytes, StoredComic;
    if IsNewer(core.comics, c) {
      WriteIsOneGroup(env, core, c);
      var r := WriteV1(env, core, c);
      if r.Ok? {
        RecordKeepsShape(env, core.entities, c, |core.log| + 1);
        RecordKeepsAnchored(env, core.entities, core.comics, c, |core.log| + 1);
        StoredKeepsId(c);
        WritesStayOld(core, c, V1Canonical(env, c), r.value);
      }
    }
  }

  lemma WritesStayOld(core: Core, c: Comic, canonical: seq<Change>, after: Core)
    requires WritesAreOld(core) && IsNewer(core.comics, c)
    requires after.comics == core.comics[c.id := StoredComic(c)]
    requires after.log == core.log + [Group(V1Write(c), canonical)]
    ensures WritesAreOld(after)
  {
    StoredKeepsId(c);
  }

  lemma WriteIsOneGroup(env: Env, core: Core, c: Comic)
    requires WritesAreOld(core) && V1Shaped(core.entities) && WellKeyed(core.entities) && IsNewer(core.comics, c)
    ensures WriteV1(env, core, c)
            == RecordGroup(env, core.(comics := core.comics[c.id := StoredComic(c)]), V1Write(c), V1Canonical(env, c),
                           false, 0)
  {
    hide Sanitize, CanonicalOf, V1Shaped, WellKeyed, Record, StoredComic, Canonicalize, ChangesOf;
    CanonicalizeComic(core.entities, Sanitize(env, c));
    var stored := core.(comics := UpsertComic(core.comics, c));
    assert !InLog(core.log, V1Write(c));
    assert WriteV1(env, core, c) == RecordInternal(env, stored, V1Write(c), V1Changes(env, c));
  }

  lemma {:induction false} WriteAllV1InLockstep(env: Env, core: Core, cs: seq<Comic>)
    requires V1Phase(env, core) && WellKeyed(core.entities)
    ensures var r := WriteAllV1(env, core, cs);
            r.Ok? ==> V1Phase(env, r.value) && WellKeyed(r.value.entities) && |r.value.log| <= |core.log| + |cs|
  {
    hide V1Phase, WellKeyed, WriteV1, V1Canonical, Record, ChangesBytes, StoredComic;
    if cs != [] {
      WriteAllV1InLockstep(env, core, cs[..|cs| - 1]);
      var d := WriteAllV1(env, core, cs[..|cs| - 1]);
      if d.Ok? {
        WriteV1InLockstep(env, d.value, cs[|cs| - 1]);
      }
    }
  }

  // ---------- The newest write wins, the first of equals ----------

  // What a list of writes makes of one row.
  ghost predicate IsNewest(before: Option<Comic>, cs: seq<Comic>, id: string, after: Option<Comic>) {
    || (after == before && forall i :: 0 <= i < |cs| && cs[i].id == id ==>
          before.Some? && cs[i].updatedAt <= before.value.updatedAt)
    || exists w :: IsWinner(before, cs, id, w) && after == Some(StoredComic(cs[w]))
  }

  // A winner is newer than the row and than every earlier write, and no write is newer than it.
  ghost predicate IsWinner(before: Option<Comic>, cs: seq<Comic>, id: string, w: int) {
    && 0 <= w < |cs| && cs[w].id == id
    && (before.Some? ==> before.value.updatedAt < cs[w].updatedAt)
    && forall i :: 0 <= i < |cs| && cs[i].id == id ==>
         if i < w then cs[i].updatedAt < cs[w].updatedAt else cs[i].updatedAt <= cs[w].updatedAt
  }

  lemma WriteV1Row(env: Env, core: Core, c: Comic, id: string)
    requires WriteV1(env, core, c).Ok?
    ensures ExistingRow(WriteV1(env, core, c).value.comics, id) ==
            if id == c.id && IsNewer(core.comics, c) then Some(StoredComic(c)) else ExistingRow(core.comics, id)
  {
  }

  lemma NewestStep(before: Option<Comic>, cs: seq<Comic>, id: string, done: Option<Comic>, c: Comic)
    requires IsNewest(before, cs, id, done)
    ensures IsNewest(before, cs + [c], id,
                     if id == c.id && (done.None? || c.updatedAt > done.value.updatedAt)
                     then Some(StoredComic(c)) else done)
  {
    var all := cs + [c];
    assert forall i :: 0 <= i < |cs| ==> all[i] == cs[i];
    if id == c.id && (done.None? || c.updatedAt > done.value.updatedAt) {
      if w :| IsWinner(before, cs, id, w) && done == Some(StoredComic(cs[w])) {
      }
      assert IsWinner(before, all, id, |cs|);
    } else if w :| IsWinner(before, cs, id, w) && done == Some(StoredComic(cs[w])) {
      assert IsWinner(before, all, id, w);
    }
  }

  // After any accepted list of v1 writes, each row is the newest of its writes and what was
  // there before, the earliest of equally new ones.
  lemma {:induction false} NewestWriteWins(env: Env, core: Core, cs: seq<Comic>, id: string)
    requires WriteAllV1(env, core, cs).Ok?
    ensures IsNewest(ExistingRow(core.comics, id), cs, id, ExistingRow(WriteAllV1(env, core, cs).value.comics, id))
  {
    hide WriteV1, RecordInternal;
    if cs != [] {
      var init, last := cs[..|cs| - 1], cs[|cs| - 1];
      NewestWriteWins(env, core, init, id);
      var done := WriteAllV1(env, core, init).value;
      WriteV1Row(env, done, last, id);
      NewestStep(ExistingRow(core.comics, id), init, id, ExistingRow(done.comics, id), last);
      assert cs == init + [last];
    }
  }

  // ---------- Opening on a v1 table ----------

  ghost predicate BootstrapIds(core: Core, ids: seq<string>) {
    forall i :: 0 <= i < |core.log| ==>
      core.log[i].mutationId.Bootstrap? && core.log[i].mutationId.comic.id in ids
  }

  function RowsOf(comics: Comics, ids: seq<string>): Comics {
    map id | id in ids && id in comics :: comics[id]
  }

  ghost predicate DistinctTexts(q: seq<string>) {
    forall i, j :: 0 <= i < j < |q| ==> q[i] != q[j]
  }

  lemma BootstrapStep(env: Env, done: Core, comics: Comics, ids: seq<string>, last: string)
    requires done.comics == comics && ValidComics(comics) && last in comics && last !in ids
    requires V1Shaped(done.entities) && WellKeyed(done.entities) && BootstrapIds(done, ids)
    requires Anchored(env, done.entities, RowsOf(comics, ids))
    ensures var clean := comics[last]; var r := RecordInternal(env, done, Bootstrap(clean), V1Changes(env, clean));
            r.Ok? ==>
              && r.value.comics == comics && V1Shaped(r.value.entities) && WellKeyed(r.value.entities)
              && BootstrapIds(r.value, ids + [last])
              && Anchored(env, r.value.entities, RowsOf(comics, ids + [last]))
  {
    hide Sanitize, CanonicalOf, Anchored, V1Shaped, WellKeyed, Record, ChangesBytes, StoredComic, ValidComic;
    var clean := comics[last];
    BootstrapIsOneGroup(env, done, clean, ids);
    var r := RecordInternal(env, done, Bootstrap(clean), V1Changes(env, clean));
    if r.Ok? {
      RecordKeepsShape(env, done.entities, clean, |done.log| + 1);
      RecordKeepsAnchored(env, done.entities, RowsOf(comics, ids), clean, |done.log| + 1);
      StoredRowAnchors(env, Record(done.entities, V1Canonical(env, clean), |done.log| + 1), comics, ids, last);
      assert r.value.log == done.log + [Group(Bootstrap(clean), V1Canonical(env, clean))];
    }
  }

  lemma BootstrapIsOneGroup(env: Env, done: Core, clean: Comic, ids: seq<string>)
    requires V1Shaped(done.entities) && WellKeyed(done.entities) && BootstrapIds(done, ids) && clean.id !in ids
    ensures RecordInternal(env, done, Bootstrap(clean), V1Changes(env, clean))
            == RecordGroup(env, done, Bootstrap(clean), V1Canonical(env, clean), false, 0)
  {
    hide Sanitize, CanonicalOf, V1Shaped, WellKeyed, Record, Canonicalize, ChangesOf;
    CanonicalizeComic(done.entities, Sanitize(env, clean));
    assert !InLog(done.log, Bootstrap(clean));
  }

  // A row anchors what its stored form anchors.
  lemma StoredRowAnchors(env: Env, es: Entities, comics: Comics, ids: seq<string>, last: string)
    requires last in comics && comics[last].id == last
    requires Anchored(env, es, RowsOf(comics, ids)[last := StoredComic(comics[last])])
    ensures Anchored(env, es, RowsOf(comics, ids + [last]))
  {
    hide V1Canonical, SanitizedId, V1Keys, Holds, StoredComic, RowAnchored, EntityAnchored;
    var stored, rows := RowsOf(comics, ids)[last := StoredComic(comics[last])], RowsOf(comics, ids + [last]);
    SanitizeIsStable(env, comics[last]);
    assert stored.Keys == rows.Keys;
    forall a | a in stored ensures HoldsRow(env, es, rows[a]) == HoldsRow(env, es, stored[a]) {
    }
    forall id | id in rows ensures RowAnchored(env, es, rows, SanitizedId(env, id)) {
      SameAnchors(env, es, stored, rows, SanitizedId(env, id));
    }
    forall k | k in es ensures EntityAnchored(env, es, rows, k) {
      SameEntityAnchors(env, es, stored, rows, k);
    }
  }

  ghost predicate SameRows(env: Env, es: Entities, stored: Comics, rows: Comics) {
    stored.Keys == rows.Keys && forall a :: a in stored ==> HoldsRow(env, es, rows[a]) == HoldsRow(env, es, stored[a])
  }

  lemma SameAnchors(env: Env, es: Entities, stored: Comics, rows: Comics, issue: string)
    requires SameRows(env, es, stored, rows) && RowAnchored(env, es, stored, issue)
    ensures RowAnchored(env, es, rows, issue)
  {
    hide HoldsRow, SanitizedId;
    var a :| a in stored && SanitizedId(env, a) == issue && HoldsRow(env, es, stored[a]);
    assert a in rows && HoldsRow(env, es, rows[a]);
  }

  lemma SameEntityAnchors(env: Env, es: Entities, stored: Comics, rows: Comics, k: Key)
    requires SameRows(env, es, stored, rows) && EntityAnchored(env, es, stored, k)
    ensures EntityAnchored(env, es, rows, k)
  {
    hide HoldsRow, SanitizedId, V1Keys;
    var a :| a in stored && k in V1Keys(SanitizedId(env, a)) && HoldsRow(env, es, stored[a]);
    assert a in rows && HoldsRow(env, es, rows[a]);
  }

  lemma {:induction false} BootstrapInLockstep(env: Env, core: Core, ids: seq<string>)
    requires ValidComics(core.comics) && core.log == [] && core.entities == map[]
    requires DistinctTexts(ids) && forall id :: id in ids ==> id in core.comics
    ensures var r := BootstrapRows(env, core, ids);
            r.Ok? ==>
              && r.value.comics == core.comics && V1Shaped(r.value.entities) && WellKeyed(r.value.entities)
              && BootstrapIds(r.value, ids) && Anchored(env, r.value.entities, RowsOf(core.comics, ids))
  {
    hide RecordInternal, Anchored, V1Shaped, WellKeyed, V1Changes;
    if ids == [] {
      EmptyTable(env);
      assert RowsOf(core.comics, []) == map[];
    } else {
      var init, last := ids[..|ids| - 1], ids[|ids| - 1];
      assert ids == init + [last] && last in ids && last !in init;
      BootstrapInLockstep(env, core, init);
      var d := BootstrapRows(env, core, init);
      if d.Ok? {
        BootstrapStep(env, d.value, core.comics, init, last);
      }
    }
  }

  lemma EmptyTable(env: Env)
    ensures V1Shaped(map[]) && WellKeyed(map[]) && Anchored(env, map[], map[])
  {
  }

  // A store opened on a flat v1 table starts in lock-step with it.
  lemma OpenedInLockstep(env: Env, comics: Comics)
    requires ValidComics(comics) && Opened(env, comics).Ok?
    ensures V1Phase(env, Opened(env, comics).value) && Opened(env, comics).value.comics == comics
    ensures WellKeyed(Opened(env, comics).value.entities)
  {
    hide Anchored, V1Shaped, WellKeyed, BootstrapRows, ValidComic;
    var ids := SortedTexts(comics.Keys);
    BootstrapInLockstep(env, Core([], map[], map[], comics, false), ids);
    assert RowsOf(comics, ids) == comics;
  }
}
