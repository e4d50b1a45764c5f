/** The bounded cache of responses. Its rows are listed in the order of eviction, oldest first:
    by created_at, and by insertion where the clock stood still. */
module RequestCache {
  import opened Basics
  import opened Utf8
  import opened SyncTypes
  import opened Paging

  // A row of v2_requests; the payload stands for its hash.
  datatype CacheRow = CacheRow(requestId: string, payload: Request, response: Response, createdAt: int)

  type Cache = seq<CacheRow>

  function RowBytes(env: Env, serverId: string, r: CacheRow): nat {
    ResponseBytes(env, serverId, r.response) + 64 + Bytes(r.requestId)
  }

  function CacheBytes(env: Env, serverId: string, rows: Cache): nat {
    if rows == [] then 0 else RowBytes(env, serverId, rows[0]) + CacheBytes(env, serverId, rows[1..])
  }

  ghost predicate InEvictionOrder(rows: Cache) {
    forall i, j :: 0 <= i < j < |rows| ==> rows[i].createdAt <= rows[j].createdAt
  }

  // INSERT: a new row stands behind every row that is not younger.
  function Insert(rows: Cache, row: CacheRow): Cache {
    if rows != [] && rows[|rows| - 1].createdAt > row.createdAt
    then Insert(rows[..|rows| - 1], row) + [rows[|rows| - 1]]
    else rows + [row]
  }

  // ---------- _prune_request_cache: three phases, each dropping the oldest rows ----------

  function DropExpired(rows: Cache, now: int): Cache {
    if rows != [] && rows[0].createdAt < now - V2_REQUEST_CACHE_TTL_MS then DropExpired(rows[1..], now)
    else rows
  }

  function DropExcess(rows: Cache): Cache {
    if |rows| > MAX_V2_REQUEST_CACHE then rows[|rows| - MAX_V2_REQUEST_CACHE..] else rows
  }

  function DropHeavy(env: Env, serverId: string, rows: Cache): Cache {
    if rows != [] && CacheBytes(env, serverId, rows) > MAX_V2_REQUEST_CACHE_BYTES
    then DropHeavy(env, serverId, rows[1..])
    else rows
  }

  function Prune(env: Env, serverId: string, rows: Cache, now: int): Cache {
    DropHeavy(env, serverId, DropExcess(DropExpired(rows, now)))
  }

  // ---------- What the phases leave ----------

  // The same place in the rows and in all but the last of them.
  lemma InsertBeforeLast(rows: Cache, row: CacheRow, at: nat)
    requires at < |rows|
    ensures var init, last := rows[..|rows| - 1], rows[|rows| - 1];
            (init[..at] + [row] + init[at..]) + [last] == rows[..at] + [row] + rows[at..]
  {
    var init, last := rows[..|rows| - 1], rows[|rows| - 1];
    assert init[at..] + [last] == rows[at..] && init[..at] == rows[..at];
  }

  lemma InsertLast(rows: Cache, row: CacheRow)
    ensures rows + [row] == rows[..|rows|] + [row] + rows[|rows|..]
  {
  }

  lemma {:induction false} InsertPlaces(rows: Cache, row: CacheRow) returns (at: nat)
    ensures at <= |rows| && Insert(rows, row) == rows[..at] + [row] + rows[at..]
    ensures forall i :: at <= i < |rows| ==> rows[i].createdAt > row.createdAt
    ensures at > 0 ==> rows[at - 1].createdAt <= row.createdAt
  {
    if rows != [] && rows[|rows| - 1].createdAt > row.createdAt {
      var init := rows[..|rows| - 1];
      at := InsertPlaces(init, row);
      InsertBeforeLast(rows, row, at);
      forall i | at <= i < |rows| ensures rows[i].createdAt > row.createdAt {
        assert i < |init| ==> init[i] == rows[i];
      }
      assert at > 0 ==> init[at - 1] == rows[at - 1];
    } else {
      at := |rows|;
      InsertLast(rows, row);
    }
  }

  lemma InsertKeepsOrder(rows: Cache, row: CacheRow)
    requires InEvictionOrder(rows)
    ensures InEvictionOrder(Insert(rows, row))
  {
    hide Insert, InEvictionOrder;
    var at := InsertPlaces(rows, row);
    var n := Insert(rows, row);
    forall i, j | 0 <= i < j < |n| ensures n[i].createdAt <= n[j].createdAt {
      PlacedRow(rows, row, at, i);
      PlacedRow(rows, row, at, j);
      if i != at && j != at {
        OrderAt(rows, if i < at then i else i - 1, if j < at then j else j - 1);
      } else if j == at && i < at - 1 {
        OrderAt(rows, i, at - 1);
      }
    }
    IsOrdered(n);
  }

  lemma PlacedRow(rows: Cache, row: CacheRow, at: nat, i: nat)
    requires at <= |rows| && i <= |rows|
    ensures (rows[..at] + [row] + rows[at..])[i] == if i < at then rows[i] else if i == at then row else rows[i - 1]
  {
  }

  lemma OrderAt(rows: Cache, i: nat, j: nat)
    requires InEvictionOrder(rows) && i < j < |rows|
    ensures rows[i].createdAt <= rows[j].createdAt
  {
  }

  lemma IsOrdered(rows: Cache)
    requires forall i, j :: 0 <= i < j < |rows| ==> rows[i].createdAt <= rows[j].createdAt
    ensures InEvictionOrder(rows)
  {
  }

  lemma {:induction false} DropExpiredDrops(rows: Cache, now: int) returns (k: nat)
    requires InEvictionOrder(rows)
    ensures k <= |rows| && DropExpired(rows, now) == rows[k..]
    ensures forall i :: 0 <= i < |rows| ==> (i < k <==> rows[i].createdAt < now - V2_REQUEST_CACHE_TTL_MS)
  {
    k := 0;
    if rows != [] && rows[0].createdAt < now - V2_REQUEST_CACHE_TTL_MS {
      var rest := DropExpiredDrops(rows[1..], now);
      k := rest + 1;
      assert rows[k..] == rows[1..][rest..];
      forall i | 0 <= i < |rows| ensures i < k <==> rows[i].createdAt < now - V2_REQUEST_CACHE_TTL_MS {
        if i > 0 {
          assert rows[i] == rows[1..][i - 1];
        }
      }
    }
  }

  // The shortest prefix whose removal suffices.
  lemma {:induction false} DropHeavyDrops(env: Env, serverId: string, rows: Cache) returns (k: nat)
    ensures k <= |rows| && DropHeavy(env, serverId, rows) == rows[k..]
    ensures CacheBytes(env, serverId, rows[k..]) <= MAX_V2_REQUEST_CACHE_BYTES
    ensures forall j :: 0 <= j < k ==> CacheBytes(env, serverId, rows[j..]) > MAX_V2_REQUEST_CACHE_BYTES
  {
    k := 0;
    if rows != [] && CacheBytes(env, serverId, rows) > MAX_V2_REQUEST_CACHE_BYTES {
      var rest := DropHeavyDrops(env, serverId, rows[1..]);
      k := rest + 1;
      assert rows[k..] == rows[1..][rest..];
      forall j | 0 <= j < k ensures CacheBytes(env, serverId, rows[j..]) > MAX_V2_REQUEST_CACHE_BYTES {
        if j > 0 {
          assert rows[j..] == rows[1..][j - 1..];
        }
      }
    }
  }

  lemma {:induction false} LastRowBytes(env: Env, serverId: string, rows: Cache, j: nat)
    requires j < |rows|
    ensures CacheBytes(env, serverId, rows[j..]) >= RowBytes(env, serverId, rows[|rows| - 1])
    decreases |rows| - j
  {
    assert rows[j..][1..] == rows[j + 1..];
    if j + 1 < |rows| {
      LastRowBytes(env, serverId, rows, j + 1);
    }
  }

  ghost predicate PruneBounds(env: Env, serverId: string, rows: Cache, now: int) {
    && |rows| <= MAX_V2_REQUEST_CACHE
    && CacheBytes(env, serverId, rows) <= MAX_V2_REQUEST_CACHE_BYTES
    && forall i :: 0 <= i < |rows| ==> rows[i].createdAt >= now - V2_REQUEST_CACHE_TTL_MS
  }

  // How many rows each phase drops.
  lemma PrunePhases(env: Env, serverId: string, rows: Cache, now: int) returns (a: nat, b: nat, c: nat)
    requires InEvictionOrder(rows)
    ensures a + b + c <= |rows| && Prune(env, serverId, rows, now) == rows[a + b + c..]
    ensures forall i :: 0 <= i < |rows| ==> (i < a <==> rows[i].createdAt < now - V2_REQUEST_CACHE_TTL_MS)
    ensures |rows| - a - b <= MAX_V2_REQUEST_CACHE
    ensures b > 0 ==> |rows| - a - b == MAX_V2_REQUEST_CACHE
    ensures CacheBytes(env, serverId, rows[a + b + c..]) <= MAX_V2_REQUEST_CACHE_BYTES
    ensures forall i :: a + b <= i < a + b + c ==> CacheBytes(env, serverId, rows[i..]) > MAX_V2_REQUEST_CACHE_BYTES
  {
    hide CacheBytes, DropExpired, DropHeavy, InEvictionOrder;
    a := DropExpiredDrops(rows, now);
    var young := rows[a..];
    b := if |young| > MAX_V2_REQUEST_CACHE then |young| - MAX_V2_REQUEST_CACHE else 0;
    var kept := young[b..];
    c := DropHeavyDrops(env, serverId, kept);
    assert DropExcess(young) == kept;
    DropTwice(rows, a, b);
    DropTwice(rows, a + b, c);
    forall i | a + b <= i < a + b + c ensures CacheBytes(env, serverId, rows[i..]) > MAX_V2_REQUEST_CACHE_BYTES {
      DropTwice(rows, a + b, i - a - b);
    }
  }

  lemma DropTwice(rows: Cache, i: nat, j: nat)
    requires i + j <= |rows|
    ensures rows[i..][j..] == rows[i + j..]
  {
  }

  lemma ShorterDropFails(env: Env, serverId: string, rows: Cache, now: int, a: nat, b: nat, c: nat, j: nat)
    requires a + b + c <= |rows| && j < a + b + c
    requires forall i :: 0 <= i < a ==> rows[i].createdAt < now - V2_REQUEST_CACHE_TTL_MS
    requires b > 0 ==> |rows| - a - b == MAX_V2_REQUEST_CACHE
    requires forall i :: a + b <= i < a + b + c ==>
               CacheBytes(env, serverId, rows[i..]) > MAX_V2_REQUEST_CACHE_BYTES
    ensures !PruneBounds(env, serverId, rows[j..], now)
  {
    if j < a {
      assert rows[j..][0] == rows[j];
    } else if j < a + b {
      assert |rows[j..]| > MAX_V2_REQUEST_CACHE;
    }
  }

  lemma {:induction false} YoungerAreBounded(env: Env, serverId: string, rows: Cache, now: int, k: nat, j: nat)
    requires k <= j <= |rows| && PruneBounds(env, serverId, rows[k..], now)
    ensures PruneBounds(env, serverId, rows[j..], now)
    decreases j - k
  {
    if k < j {
      var kept, younger := rows[k..], rows[k + 1..];
      assert kept[1..] == younger && forall i :: 0 <= i < |younger| ==> younger[i] == kept[i + 1];
      YoungerAreBounded(env, serverId, rows, now, k + 1, j);
    }
  }

  // Pruning keeps the longest run of the youngest rows that is within all three bounds: a row
  // stays exactly when it and the rows behind it are.
  lemma PruneIsExact(env: Env, serverId: string, rows: Cache, now: int) returns (k: nat)
    requires InEvictionOrder(rows)
    ensures k <= |rows| && Prune(env, serverId, rows, now) == rows[k..]
    ensures forall j :: 0 <= j <= |rows| ==> (k <= j <==> PruneBounds(env, serverId, rows[j..], now))
  {
    hide PruneBounds, Prune;
    var a, b, c := PrunePhases(env, serverId, rows, now);
    k := a + b + c;
    PrunedIsBounded(env, serverId, rows, now, a, k);
    forall j | 0 <= j <= |rows| ensures k <= j <==> PruneBounds(env, serverId, rows[j..], now) {
      if k <= j {
        YoungerAreBounded(env, serverId, rows, now, k, j);
      } else {
        ShorterDropFails(env, serverId, rows, now, a, b, c, j);
      }
    }
  }

  lemma PrunedIsBounded(env: Env, serverId: string, rows: Cache, now: int, a: nat, k: nat)
    requires a <= k <= |rows| && |rows| - k <= MAX_V2_REQUEST_CACHE
    requires forall i :: a <= i < |rows| ==> rows[i].createdAt >= now - V2_REQUEST_CACHE_TTL_MS
    requires CacheBytes(env, serverId, rows[k..]) <= MAX_V2_REQUEST_CACHE_BYTES
    ensures PruneBounds(env, serverId, rows[k..], now)
  {
  }

  // A row that was just inserted behind all others survives the pruning that follows: it is
  // within its lifetime and smaller than the whole cache may be.
  lemma InsertedRowSurvives(env: Env, serverId: string, rows: Cache, row: CacheRow, now: int)
    requires InEvictionOrder(rows) && forall i :: 0 <= i < |rows| ==> rows[i].createdAt <= row.createdAt
    requires now - row.createdAt <= V2_REQUEST_CACHE_TTL_MS
    requires RowBytes(env, serverId, row) <= MAX_V2_REQUEST_CACHE_BYTES
    ensures var left := Prune(env, serverId, Insert(rows, row), now);
            left != [] && left[|left| - 1] == row
  {
    hide RowBytes, Prune, PruneBounds, InEvictionOrder, CacheBytes;
    var all := Insert(rows, row);
    assert all == rows + [row];
    InsertKeepsOrder(rows, row);
    assert all[|all| - 1..] == [row];
    OneRowIsBounded(env, serverId, row, now);
    var k := PruneIsExact(env, serverId, all, now);
  }

  lemma OneRowIsBounded(env: Env, serverId: string, row: CacheRow, now: int)
    requires now - row.createdAt <= V2_REQUEST_CACHE_TTL_MS
    requires RowBytes(env, serverId, row) <= MAX_V2_REQUEST_CACHE_BYTES
    ensures PruneBounds(env, serverId, [row], now)
  {
    hide RowBytes;
    assert [row][1..] == [];
    assert CacheBytes(env, serverId, [row]) == RowBytes(env, serverId, row) + CacheBytes(env, serverId, [row][1..]);
  }
}
