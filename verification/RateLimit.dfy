/** The bounded rate limiter: fixed windows per key in a table that evicts the least recently used
    key, against one counter per key. */
module RateLimit {
  import opened Basics

  // SHA-256 of bucket and identity; the pair stands for its digest.
  datatype Key = Key(bucket: string, identity: string)

  datatype Policy = Policy(limit: nat, window: int)

  datatype Counter = Counter(start: int, count: nat)

  // The table, least recently used entry first.
  datatype Entry = Entry(key: Key, counter: Counter)

  type Table = seq<Entry>

  datatype Outcome = Admitted | Limited(retryAfter: int)

  datatype Policies = Policies(named: map<string, Policy>, other: Policy)

  predicate ValidPolicy(p: Policy) {
    p.limit > 0 && p.window > 0
  }

  predicate ValidPolicies(ps: Policies) {
    ValidPolicy(ps.other) && forall b :: b in ps.named ==> ValidPolicy(ps.named[b])
  }

  function PolicyOf(ps: Policies, key: Key): Policy {
    if key.bucket in ps.named then ps.named[key.bucket] else ps.other
  }

  // ---------- One counter ----------

  // The window a call falls into: the counter's own, or a new one.
  function Opened(p: Policy, c: Option<Counter>, now: int): Counter {
    if c.None? || now - c.value.start >= p.window then Counter(now, 0) else c.value
  }

  function RetryAfter(p: Policy, c: Counter, now: int): int {
    (Max(1, p.window - (now - c.start)) + 999) / 1000
  }

  function Count(p: Policy, c: Option<Counter>, now: int): (Counter, Outcome) {
    var open := Opened(p, c, now);
    if open.count >= p.limit then (open, Limited(RetryAfter(p, open, now)))
    else (Counter(open.start, open.count + 1), Admitted)
  }

  // A refused call would be admitted from the very end of its window on, and Retry-After is the
  // least number of whole seconds that reaches it.
  lemma RetryAfterIsExact(p: Policy, c: Option<Counter>, now: int, later: int)
    requires ValidPolicy(p) && Count(p, c, now).1.Limited? && now <= later
    ensures c.Some? && Count(p, c, now).0 == c.value
    ensures Count(p, c, later).1.Admitted? <==> later >= c.value.start + p.window
    ensures var r := Count(p, c, now).1.retryAfter;
            now + 1000 * (r - 1) < c.value.start + p.window <= now + 1000 * r
  {
  }

  // ---------- Calls of one key ----------

  // Where a key stands after calls at these times.
  function After(p: Policy, times: seq<int>): Option<Counter> {
    if times == [] then None
    else Some(Count(p, After(p, times[..|times| - 1]), times[|times| - 1]).0)
  }

  predicate AdmittedAt(p: Policy, times: seq<int>, i: nat)
    requires i < |times|
  {
    Count(p, After(p, times[..i]), times[i]).1.Admitted?
  }

  // How many calls of the interval [from, from + window) were admitted.
  function AdmittedIn(p: Policy, times: seq<int>, from: int): nat {
    if times == [] then 0
    else
      var n := |times| - 1;
      AdmittedIn(p, times[..n], from)
      + if from <= times[n] < from + p.window && AdmittedAt(p, times, n) then 1 else 0
  }

  ghost predicate NonDecreasing(times: seq<int>) {
    forall i, j :: 0 <= i < j < |times| ==> times[i] <= times[j]
  }

  // Of the calls in the interval, those of the present window are at most its count, and those of
  // the window before at most the limit.
  ghost predicate Accounted(p: Policy, times: seq<int>, from: int) {
    var n, c := AdmittedIn(p, times, from), After(p, times);
    && (times != [] ==> c.value.start <= times[|times| - 1] && c.value.count <= p.limit)
    && n <= 2 * p.limit
    && (times == [] || times[|times| - 1] < from ==> n == 0)
    && (times != [] && times[|times| - 1] < from + p.window ==>
          if c.value.start < from then n <= c.value.count else n <= p.limit + c.value.count)
  }

  lemma AccountedStep(p: Policy, times: seq<int>, from: int, now: int)
    requires ValidPolicy(p) && Accounted(p, times, from)
    requires times != [] ==> times[|times| - 1] <= now
    ensures Accounted(p, times + [now], from)
  {
    var all := times + [now];
    assert all[..|times|] == times && all[|times|] == now;
    assert times == [] ==> After(p, times) == None;
    assert times != [] ==> After(p, times).Some?;
  }

  lemma {:induction false} AllAccounted(p: Policy, times: seq<int>, from: int)
    requires ValidPolicy(p) && NonDecreasing(times)
    ensures Accounted(p, times, from)
  {
    if times != [] {
      var init, last := times[..|times| - 1], times[|times| - 1];
      AllAccounted(p, init, from);
      AccountedStep(p, init, from, last);
      assert times == init + [last];
    }
  }

  // A counter on its own admits at most twice the limit in any half-open interval of one window.
  lemma CounterAdmitsTwice(p: Policy, times: seq<int>, from: int)
    requires ValidPolicy(p) && NonDecreasing(times)
    ensures AdmittedIn(p, times, from) <= 2 * p.limit
  {
    AllAccounted(p, times, from);
    hide AdmittedIn;
  }

  // ---------- The table ----------

  ghost predicate DistinctKeys(t: Table) {
    forall i, j :: 0 <= i < j < |t| ==> t[i].key != t[j].key
  }

  // The position of a key, or the size of the table.
  function IndexOf(t: Table, key: Key): (i: nat)
    ensures i <= |t| && (i < |t| ==> t[i].key == key)
    ensures forall j :: 0 <= j < i ==> t[j].key != key
  {
    if t == [] || t[0].key == key then 0 else IndexOf(t[1..], key) + 1
  }

  function Lookup(t: Table, key: Key): Option<Counter> {
    if IndexOf(t, key) < |t| then Some(t[IndexOf(t, key)].counter) else None
  }

  function Remove(t: Table, key: Key): Table {
    var i := IndexOf(t, key);
    if i < |t| then t[..i] + t[i + 1..] else t
  }

  // The newest entries, at most so many.
  function Suffix(t: Table, size: nat): Table {
    if |t| <= size then t else t[|t| - size..]
  }

  // consume on a table of unlimited size
  function Use(ps: Policies, t: Table, key: Key, now: int): (Table, Outcome) {
    var (c, outcome) := Count(PolicyOf(ps, key), Lookup(t, key), now);
    (Remove(t, key) + [Entry(key, c)], outcome)
  }

  // consume
  function UseBounded(ps: Policies, size: nat, t: Table, key: Key, now: int): (Table, Outcome) {
    var (next, outcome) := Use(ps, t, key, now);
    (if outcome.Admitted? then Suffix(next, size) else next, outcome)
  }

  // Where the entries of a table stand once one is removed.
  lemma RemovedAt(t: Table, used: Key)
    ensures var u, r := IndexOf(t, used), Remove(t, used);
            && |r| == (if u < |t| then |t| - 1 else |t|)
            && forall j :: 0 <= j < |r| ==> r[j] == t[if j < u then j else j + 1]
  {
    hide IndexOf;
    var u, r := IndexOf(t, used), Remove(t, used);
    forall j | 0 <= j < |r| ensures r[j] == t[if j < u then j else j + 1] {
    }
  }

  lemma RemoveFacts(t: Table, key: Key)
    requires DistinctKeys(t)
    ensures DistinctKeys(Remove(t, key))
    ensures forall e :: e in Remove(t, key) <==> e in t && e.key != key
    ensures |Remove(t, key)| == |t| - if Lookup(t, key).Some? then 1 else 0
  {
    hide DistinctKeys, Remove, IndexOf;
    RemovedAt(t, key);
    var i, r := IndexOf(t, key), Remove(t, key);
    RemoveKeepsDistinct(t, key);
    forall e ensures e in r <==> e in t && e.key != key {
      if e in r {
        var j :| 0 <= j < |r| && r[j] == e;
        var k := if j < i then j else j + 1;
        if i < |t| {
          DistinctAt(t, k, i);
        }
        assert t[k] == e;
      }
      if e in t && e.key != key {
        var j :| 0 <= j < |t| && t[j] == e;
        assert r[if j < i then j else j - 1] == e;
      }
    }
  }

  lemma DistinctAt(t: Table, i: nat, j: nat)
    requires DistinctKeys(t) && i < |t| && j < |t| && i != j
    ensures t[i].key != t[j].key
  {
  }

  lemma RemoveKeepsDistinct(t: Table, key: Key)
    requires DistinctKeys(t)
    ensures DistinctKeys(Remove(t, key))
  {
    hide Remove, IndexOf;
    RemovedAt(t, key);
    var u, r := IndexOf(t, key), Remove(t, key);
    forall i, j | 0 <= i < j < |r| ensures r[i].key != r[j].key {
      DistinctAt(t, if i < u then i else i + 1, if j < u then j else j + 1);
    }
  }

  lemma UseKeepsDistinct(ps: Policies, t: Table, key: Key, now: int)
    requires DistinctKeys(t)
    ensures DistinctKeys(Use(ps, t, key, now).0)
  {
    RemoveFacts(t, key);
    var r := Remove(t, key);
    assert forall i :: 0 <= i < |r| ==> r[i] in r;
  }

  // Only a key with a counter is ever refused, so a refusal does not grow the table.
  lemma BoundedStaysBounded(ps: Policies, size: nat, t: Table, key: Key, now: int)
    requires ValidPolicies(ps) && size > 0 && |t| <= size && DistinctKeys(t)
    ensures |UseBounded(ps, size, t, key, now).0| <= size && DistinctKeys(UseBounded(ps, size, t, key, now).0)
  {
    RemoveFacts(t, key);
    UseKeepsDistinct(ps, t, key, now);
    assert ValidPolicy(PolicyOf(ps, key));
  }

  // ---------- The least recently used entries are a suffix ----------

  // The key is new, or fewer than so many other keys were used since its last use.
  predicate IsRecent(t: Table, key: Key, size: nat) {
    IndexOf(t, key) == |t| || |t| - IndexOf(t, key) <= size
  }

  lemma FoundAt(t: Table, key: Key, i: nat)
    requires DistinctKeys(t) && i < |t| && t[i].key == key
    ensures IndexOf(t, key) == i
  {
    var j := IndexOf(t, key);
    assert j <= i;
  }

  lemma NotFound(t: Table, key: Key)
    requires forall i :: 0 <= i < |t| ==> t[i].key != key
    ensures IndexOf(t, key) == |t|
  {
  }

  lemma SuffixIndex(t: Table, key: Key, size: nat)
    requires DistinctKeys(t) && IsRecent(t, key, size)
    ensures var s := Suffix(t, size);
            IndexOf(s, key) == if IndexOf(t, key) < |t| then IndexOf(t, key) - (|t| - |s|) else |s|
    ensures Lookup(Suffix(t, size), key) == Lookup(t, key)
  {
    hide IndexOf, DistinctKeys, Suffix;
    var i, s := IndexOf(t, key), Suffix(t, size);
    SuffixIsDistinct(t, size);
    SuffixLength(t, size);
    if i < |t| {
      SuffixAt(t, size, i - (|t| - |s|));
      FoundAt(s, key, i - (|t| - |s|));
    } else {
      forall j | 0 <= j < |s| ensures s[j].key != key {
        SuffixAt(t, size, j);
      }
      NotFound(s, key);
    }
  }

  lemma SuffixLength(t: Table, size: nat)
    ensures |Suffix(t, size)| == if |t| <= size then |t| else size
  {
  }

  lemma SuffixIsDistinct(t: Table, size: nat)
    requires DistinctKeys(t)
    ensures DistinctKeys(Suffix(t, size))
  {
    var s := Suffix(t, size);
    forall i, j | 0 <= i < j < |s| ensures s[i].key != s[j].key {
      SuffixAt(t, size, i);
      SuffixAt(t, size, j);
    }
  }

  lemma SuffixAt(t: Table, size: nat, j: nat)
    requires j < |Suffix(t, size)|
    ensures |t| - |Suffix(t, size)| + j < |t| && Suffix(t, size)[j] == t[|t| - |Suffix(t, size)| + j]
  {
  }

  lemma DropAround(t: Table, i: nat, k: nat)
    requires k <= i < |t|
    ensures (t[..i] + t[i + 1..])[k..] == t[k..][..i - k] + t[k..][i - k + 1..]
  {
    assert t[..i][k..] == t[k..][..i - k] && t[k..][i - k + 1..] == t[i + 1..];
    assert (t[..i] + t[i + 1..])[k..] == t[..i][k..] + t[i + 1..];
  }

  lemma RemoveFromSuffix(t: Table, key: Key, size: nat)
    requires size > 0 && DistinctKeys(t) && IsRecent(t, key, size)
    ensures Lookup(t, key).Some? && |t| > size ==> Remove(Suffix(t, size), key) == Suffix(Remove(t, key), size - 1)
    ensures Lookup(t, key).Some? && |t| <= size ==> Remove(Suffix(t, size), key) == Remove(t, key)
    ensures Lookup(t, key).None? ==> Remove(Suffix(t, size), key) == Suffix(t, size) && Remove(t, key) == t
    ensures Lookup(t, key).Some? ==> |Remove(t, key)| == |t| - 1
  {
    hide IndexOf, IsRecent, DistinctKeys, Suffix;
    SuffixIndex(t, key, size);
    SmallSuffix(t, size);
    var i := IndexOf(t, key);
    if i < |t| && |t| > size {
      RecentIsInSuffix(t, key, size);
      DropInSuffix(t, i, size);
    }
  }

  lemma DropInSuffix(t: Table, i: nat, size: nat)
    requires 0 < size < |t| && |t| - size <= i < |t|
    ensures var s, j := Suffix(t, size), i - (|t| - size);
            |s| == size && Suffix(t[..i] + t[i + 1..], size - 1) == s[..j] + s[j + 1..]
  {
    DropAround(t, i, |t| - size);
  }

  lemma RecentIsInSuffix(t: Table, key: Key, size: nat)
    requires IsRecent(t, key, size) && IndexOf(t, key) < |t|
    ensures |t| - IndexOf(t, key) <= size
  {
  }

  // A recent key gets the same answer from the bounded table, which stays the newest part of the
  // unbounded one.
  lemma BoundedAgrees(ps: Policies, size: nat, t: Table, key: Key, now: int)
    requires ValidPolicies(ps) && size > 0 && DistinctKeys(t) && IsRecent(t, key, size)
    ensures var b, u := UseBounded(ps, size, Suffix(t, size), key, now), Use(ps, t, key, now);
            b.1 == u.1 && b.0 == Suffix(u.0, size)
  {
    SuffixIndex(t, key, size);
    RemoveFromSuffix(t, key, size);
    NewIsAdmitted(ps, key, now);
    hide IndexOf, Remove, Lookup, Count, IsRecent, DistinctKeys, PolicyOf, ValidPolicies, Suffix;
    var e := Entry(key, Count(PolicyOf(ps, key), Lookup(t, key), now).0);
    SuffixOfAppend(Remove(t, key), e, size);
    SuffixOfAppend(t, e, size);
    SmallSuffix(Remove(t, key), size - 1);
    SmallSuffix(Remove(t, key) + [e], size);
    SuffixSize(t, size - 1);
    SmallSuffix(Suffix(Remove(t, key), size - 1) + [e], size);
    SuffixSize(Remove(t, key), size - 1);
  }

  lemma NewIsAdmitted(ps: Policies, key: Key, now: int)
    requires ValidPolicies(ps)
    ensures Count(PolicyOf(ps, key), None, now).1.Admitted?
  {
    assert ValidPolicy(PolicyOf(ps, key));
  }

  lemma SmallSuffix(t: Table, size: nat)
    ensures |t| <= size ==> Suffix(t, size) == t
  {
  }

  lemma SuffixSize(t: Table, size: nat)
    ensures |Suffix(t, size)| <= size
  {
  }

  lemma SuffixOfAppend(t: Table, e: Entry, size: nat)
    requires size > 0
    ensures Suffix(t + [e], size) == Suffix(t, size - 1) + [e]
    ensures Suffix(Suffix(t, size) + [e], size) == Suffix(t + [e], size)
  {
    if |t| + 1 > size {
      var k := |t| + 1 - size;
      assert (t + [e])[k..] == t[k..] + [e];
      if |t| > size {
        assert t[|t| - size..] + [e] == (t + [e])[|t| - size..];
        assert (t + [e])[|t| - size..][1..] == (t + [e])[k..];
      }
    }
  }

  // ---------- Sequences of calls ----------

  datatype Call = Call(key: Key, now: int)

  function Unbounded(ps: Policies, calls: seq<Call>): Table {
    if calls == [] then []
    else Use(ps, Unbounded(ps, calls[..|calls| - 1]), calls[|calls| - 1].key, calls[|calls| - 1].now).0
  }

  function Bounded(ps: Policies, size: nat, calls: seq<Call>): Table {
    if calls == [] then []
    else UseBounded(ps, size, Bounded(ps, size, calls[..|calls| - 1]), calls[|calls| - 1].key, calls[|calls| - 1].now).0
  }

  function UnboundedOutcome(ps: Policies, calls: seq<Call>, c: Call): Outcome {
    Use(ps, Unbounded(ps, calls), c.key, c.now).1
  }

  function BoundedOutcome(ps: Policies, size: nat, calls: seq<Call>, c: Call): Outcome {
    UseBounded(ps, size, Bounded(ps, size, calls), c.key, c.now).1
  }

  // The distinct other keys used since a key was used last, and whether it was used at all.
  function Since(calls: seq<Call>, key: Key): set<Key> {
    if calls == [] then {}
    else
      var last := calls[|calls| - 1].key;
      if last == key then {} else Since(calls[..|calls| - 1], key) + {last}
  }

  predicate Used(calls: seq<Call>, key: Key) {
    exists i :: 0 <= i < |calls| && calls[i].key == key
  }

  // Between consecutive uses of a key, fewer other keys are used than the table holds.
  ghost predicate Frequent(calls: seq<Call>, size: nat) {
    calls == [] ||
    (&& Frequent(calls[..|calls| - 1], size)
     && (Used(calls[..|calls| - 1], calls[|calls| - 1].key) ==>
           |Since(calls[..|calls| - 1], calls[|calls| - 1].key)| < size))
  }

  lemma {:induction false} UnboundedIsDistinct(ps: Policies, calls: seq<Call>)
    ensures DistinctKeys(Unbounded(ps, calls))
  {
    hide Use;
    if calls != [] {
      UnboundedIsDistinct(ps, calls[..|calls| - 1]);
      UseKeepsDistinct(ps, Unbounded(ps, calls[..|calls| - 1]), calls[|calls| - 1].key, calls[|calls| - 1].now);
    }
  }

  // The keys of the entries from a position on.
  function KeysFrom(t: Table, i: nat): set<Key> {
    set j | i <= j < |t| :: t[j].key
  }

  lemma {:induction false} CountFrom(t: Table, i: nat)
    requires DistinctKeys(t) && i <= |t|
    ensures |KeysFrom(t, i)| == |t| - i
    decreases |t| - i
  {
    if i < |t| {
      CountFrom(t, i + 1);
      assert KeysFrom(t, i) == {t[i].key} + KeysFrom(t, i + 1);
      assert t[i].key !in KeysFrom(t, i + 1);
    }
  }

  // In the unbounded table a key stands before exactly the keys used since its last use.
  lemma {:induction false} BehindAreSince(ps: Policies, calls: seq<Call>, key: Key)
    ensures var t := Unbounded(ps, calls); var i := IndexOf(t, key);
            && DistinctKeys(t)
            && (Used(calls, key) <==> i < |t|)
            && (i < |t| ==> KeysFrom(t, i + 1) == Since(calls, key))
  {
    hide Use, IndexOf, KeysFrom, Used;
    UnboundedIsDistinct(ps, calls);
    if calls == [] {
      NeverUsed(key);
    } else {
      var init, last := calls[..|calls| - 1], calls[|calls| - 1];
      BehindAreSince(ps, init, key);
      UsedNext(init, last, key);
      assert calls == init + [last];
      var t := Unbounded(ps, init);
      BehindAfterUse(ps, t, last.key, last.now, key);
      NoneBehind(Unbounded(ps, calls));
    }
  }

  lemma NeverUsed(key: Key)
    ensures !Used([], key) && IndexOf([], key) == 0
  {
  }

  lemma NoneBehind(t: Table)
    ensures KeysFrom(t, |t|) == {}
  {
  }

  lemma UsedNext(calls: seq<Call>, c: Call, key: Key)
    ensures Used(calls + [c], key) <==> Used(calls, key) || c.key == key
  {
    var all := calls + [c];
    if Used(calls, key) {
      var i :| 0 <= i < |calls| && calls[i].key == key;
      assert all[i].key == key;
    }
    assert all[|calls|] == c;
  }

  // The position a key has after another was used.
  function Moved(t: Table, used: Key, i: nat): nat {
    if IndexOf(t, used) < i then i - 1 else i
  }

  lemma MovedUp(t: Table, used: Key, key: Key, after: Table)
    requires DistinctKeys(t) && used != key && IndexOf(t, key) < |t|
    requires |after| > 0 && DistinctKeys(after) && after[..|after| - 1] == Remove(t, used)
    ensures var i := IndexOf(t, key);
            IndexOf(after, key) == Moved(t, used, i) < |after| - 1
  {
    var i, r := IndexOf(t, key), Remove(t, used);
    RemovedAt(t, used);
    var j := Moved(t, used, i);
    assert after[j] == r[j] == t[i];
    FoundAt(after, key, j);
  }

  lemma KeysStay(t: Table, used: Key, i: nat, after: Table, k: Key)
    requires DistinctKeys(t) && i < |t| && t[i].key != used
    requires |after| > 0 && after[..|after| - 1] == Remove(t, used) && after[|after| - 1].key == used
    ensures k in KeysFrom(t, i + 1) ==> k in KeysFrom(after, Moved(t, used, i) + 1)
  {
    hide DistinctKeys, IndexOf, Remove;
    var u, r := IndexOf(t, used), Remove(t, used);
    RemovedAt(t, used);
    if k == used {
      assert after[|after| - 1].key == k;
    } else if k in KeysFrom(t, i + 1) {
      var m :| i + 1 <= m < |t| && t[m].key == k;
      var n := if m < u then m else m - 1;
      assert after[n] == r[n] == t[m];
    }
  }

  lemma KeysWere(t: Table, used: Key, i: nat, after: Table, k: Key)
    requires DistinctKeys(t) && i < |t| && t[i].key != used
    requires |after| > 0 && after[..|after| - 1] == Remove(t, used) && after[|after| - 1].key == used
    ensures k in KeysFrom(after, Moved(t, used, i) + 1) ==> k in KeysFrom(t, i + 1) || k == used
  {
    var u, r, j := IndexOf(t, used), Remove(t, used), Moved(t, used, i);
    RemovedAt(t, used);
    assert forall m :: 0 <= m < |r| ==> after[m] == r[m];
    if k in KeysFrom(after, j + 1) && k != used {
      var m :| j + 1 <= m < |after| && after[m].key == k;
      assert t[if m < u then m else m + 1].key == k;
    }
  }

  lemma UseShape(ps: Policies, t: Table, used: Key, now: int)
    ensures var after := Use(ps, t, used, now).0;
            |after| == |Remove(t, used)| + 1 && after[..|after| - 1] == Remove(t, used) && after[|after| - 1].key == used
  {
    hide Remove, Count, Lookup;
  }

  lemma BehindAfterUse(ps: Policies, t: Table, used: Key, now: int, key: Key)
    requires DistinctKeys(t)
    ensures var after := Use(ps, t, used, now).0; var i, j := IndexOf(t, key), IndexOf(after, key);
            && (j < |after| <==> i < |t| || used == key)
            && (used == key ==> j == |after| - 1)
            && (used != key && i < |t| ==> j < |after| && KeysFrom(after, j + 1) == KeysFrom(t, i + 1) + {used})
  {
    hide Use, Remove, KeysFrom, Moved;
    var after := Use(ps, t, used, now).0;
    UseShape(ps, t, used, now);
    UseKeepsDistinct(ps, t, used, now);
    if used == key {
      FoundAt(after, key, |after| - 1);
    } else if IndexOf(t, key) < |t| {
      MovedUp(t, used, key, after);
      var i := IndexOf(t, key);
      assert used in KeysFrom(after, Moved(t, used, i) + 1) by {
        LastIsBehind(after, Moved(t, used, i) + 1);
      }
      var behind, before := KeysFrom(after, Moved(t, used, i) + 1), KeysFrom(t, i + 1);
      forall k ensures k in behind <==> k in before || k == used {
        KeysStay(t, used, i, after, k);
        KeysWere(t, used, i, after, k);
      }
    } else {
      AbsentAfterUse(t, used, key, after);
    }
  }

  lemma LastIsBehind(t: Table, i: nat)
    requires i < |t|
    ensures t[|t| - 1].key in KeysFrom(t, i)
  {
  }

  lemma AbsentAfterUse(t: Table, used: Key, key: Key, after: Table)
    requires used != key && IndexOf(t, key) == |t|
    requires |after| > 0 && after[..|after| - 1] == Remove(t, used) && after[|after| - 1].key == used
    ensures IndexOf(after, key) == |after|
  {
    RemovedAt(t, used);
    assert forall m :: 0 <= m < |after| - 1 ==> after[m] == after[..|after| - 1][m];
    NotFound(after, key);
  }

  lemma FrequentIsRecent(ps: Policies, size: nat, calls: seq<Call>, key: Key)
    requires Used(calls, key) ==> |Since(calls, key)| < size
    ensures IsRecent(Unbounded(ps, calls), key, size)
  {
    hide Unbounded, Since, Used;
    BehindAreSince(ps, calls, key);
    var t := Unbounded(ps, calls);
    var i := IndexOf(t, key);
    if i < |t| {
      CountFrom(t, i + 1);
    }
  }

  // On every sequence of calls that uses fewer other keys than the table holds between two uses
  // of a key, the bounded table answers each call as one counter per key would.
  lemma {:induction false} BoundedRefinesUnbounded(ps: Policies, size: nat, calls: seq<Call>, c: Call)
    requires ValidPolicies(ps) && size > 0 && Frequent(calls + [c], size)
    ensures Bounded(ps, size, calls) == Suffix(Unbounded(ps, calls), size)
    ensures BoundedOutcome(ps, size, calls, c) == UnboundedOutcome(ps, calls, c)
    decreases |calls|
  {
    hide UseBounded, Use, Since, Used;
    assert (calls + [c])[..|calls|] == calls;
    UnboundedIsDistinct(ps, calls);
    FrequentIsRecent(ps, size, calls, c.key);
    if calls != [] {
      var init, last := calls[..|calls| - 1], calls[|calls| - 1];
      assert calls == init + [last];
      BoundedRefinesUnbounded(ps, size, init, last);
      assert (init + [last])[..|init|] == init;
      UnboundedIsDistinct(ps, init);
      FrequentIsRecent(ps, size, init, last.key);
      BoundedAgrees(ps, size, Unbounded(ps, init), last.key, last.now);
    }
    BoundedAgrees(ps, size, Unbounded(ps, calls), c.key, c.now);
  }

  lemma {:induction false} TableIsBounded(ps: Policies, size: nat, calls: seq<Call>)
    requires ValidPolicies(ps) && size > 0
    ensures |Bounded(ps, size, calls)| <= size && DistinctKeys(Bounded(ps, size, calls))
  {
    hide UseBounded;
    if calls != [] {
      TableIsBounded(ps, size, calls[..|calls| - 1]);
      BoundedStaysBounded(ps, size, Bounded(ps, size, calls[..|calls| - 1]), calls[|calls| - 1].key,
                          calls[|calls| - 1].now);
    }
  }

  // ---------- One counter per key ----------

  function TimesOf(calls: seq<Call>, key: Key): seq<int> {
    if calls == [] then []
    else
      var last := calls[|calls| - 1];
      TimesOf(calls[..|calls| - 1], key) + if last.key == key then [last.now] else []
  }

  lemma LookupAfterUse(ps: Policies, t: Table, used: Key, now: int, key: Key)
    requires DistinctKeys(t)
    ensures Lookup(Use(ps, t, used, now).0, key)
            == if used == key then Some(Count(PolicyOf(ps, key), Lookup(t, key), now).0) else Lookup(t, key)
  {
    hide DistinctKeys, IndexOf, Remove, Count, PolicyOf;
    var after := Use(ps, t, used, now).0;
    RemoveFacts(t, used);
    UseKeepsDistinct(ps, t, used, now);
    var r, i := Remove(t, used), IndexOf(t, key);
    if used == key {
      FoundAt(after, key, |after| - 1);
    } else if i < |t| {
      assert t[i] in r;
      var k :| 0 <= k < |r| && r[k] == t[i];
      assert after[k] == t[i];
      FoundAt(after, key, k);
    } else {
      forall k | 0 <= k < |r| ensures after[k].key != key {
        assert r[k] in r && r[k] in t && after[k] == r[k];
        AbsentKey(t, key, r[k]);
      }
      NotFound(after, key);
    }
  }

  lemma AbsentKey(t: Table, key: Key, e: Entry)
    requires IndexOf(t, key) == |t| && e in t
    ensures e.key != key
  {
    var k :| 0 <= k < |t| && t[k] == e;
  }

  // The unbounded table keeps each key's own counter.
  lemma {:induction false} OneCounterPerKey(ps: Policies, calls: seq<Call>, key: Key)
    ensures Lookup(Unbounded(ps, calls), key) == After(PolicyOf(ps, key), TimesOf(calls, key))
  {
    hide Use, Lookup, Count, PolicyOf;
    if calls == [] {
      assert Lookup([], key) == None by { EmptyLookup(key); }
    } else {
      var init, last := calls[..|calls| - 1], calls[|calls| - 1];
      OneCounterPerKey(ps, init, key);
      UnboundedIsDistinct(ps, init);
      LookupAfterUse(ps, Unbounded(ps, init), last.key, last.now, key);
      var times := TimesOf(init, key);
      assert (times + [last.now])[..|times|] == times && times + [] == times;
    }
  }

  lemma EmptyLookup(key: Key)
    ensures Lookup([], key) == None
  {
  }

  // ---------- A key in the bounded table ----------

  // The key is in the table whenever it is used again.
  ghost predicate NeverEvicted(ps: Policies, size: nat, calls: seq<Call>, key: Key) {
    calls == [] ||
    (&& NeverEvicted(ps, size, calls[..|calls| - 1], key)
     && (calls[|calls| - 1].key == key && Used(calls[..|calls| - 1], key) ==>
           Lookup(Bounded(ps, size, calls[..|calls| - 1]), key).Some?))
  }

  lemma SuffixLookup(t: Table, key: Key, size: nat)
    requires DistinctKeys(t)
    ensures Lookup(Suffix(t, size), key).None? || Lookup(Suffix(t, size), key) == Lookup(t, key)
  {
    var s := Suffix(t, size);
    var i, k := IndexOf(s, key), |t| - |s|;
    if i < |s| {
      assert s[i] == t[k + i];
      FoundAt(t, key, k + i);
    }
  }

  lemma LastStays(t: Table, size: nat)
    requires size > 0 && t != [] && DistinctKeys(t)
    ensures Lookup(Suffix(t, size), t[|t| - 1].key) == Some(t[|t| - 1].counter)
  {
    var s := Suffix(t, size);
    assert s[|s| - 1] == t[|t| - 1];
    SuffixIsDistinct(t, size);
    FoundAt(s, t[|t| - 1].key, |s| - 1);
  }

  // Using a key stores its new counter; another key keeps its counter or is evicted.
  lemma LookupAfterBoundedUse(ps: Policies, size: nat, t: Table, used: Key, now: int, key: Key)
    requires DistinctKeys(t) && size > 0
    ensures var after := Lookup(UseBounded(ps, size, t, used, now).0, key);
            if used == key then after == Some(Count(PolicyOf(ps, key), Lookup(t, key), now).0)
            else after.None? || after == Lookup(t, key)
  {
    hide Lookup, Count, PolicyOf, Remove, Suffix, DistinctKeys;
    UseKeepsDistinct(ps, t, used, now);
    LookupAfterUse(ps, t, used, now, key);
    UseShape(ps, t, used, now);
    SuffixLookup(Use(ps, t, used, now).0, key, size);
    LastStays(Use(ps, t, used, now).0, size);
  }

  // The table holds a used key's own counter, unless it was evicted, and no key never used.
  lemma {:induction false} OwnCounterOrNone(ps: Policies, size: nat, calls: seq<Call>, key: Key)
    requires ValidPolicies(ps) && size > 0 && NeverEvicted(ps, size, calls, key)
    ensures var found := Lookup(Bounded(ps, size, calls), key);
            && (found.None? || found == After(PolicyOf(ps, key), TimesOf(calls, key)))
            && (!Used(calls, key) ==> found.None? && TimesOf(calls, key) == [])
  {
    hide UseBounded, Lookup, Count, PolicyOf, Used;
    if calls == [] {
      EmptyLookup(key);
    } else {
      var init, last := calls[..|calls| - 1], calls[|calls| - 1];
      OwnCounterOrNone(ps, size, init, key);
      TableIsBounded(ps, size, init);
      UsedNext(init, last, key);
      assert calls == init + [last];
      LookupAfterBoundedUse(ps, size, Bounded(ps, size, init), last.key, last.now, key);
      var times := TimesOf(init, key);
      assert (times + [last.now])[..|times|] == times && times + [] == times;
    }
  }

  // A key that is not evicted between its uses is limited by its own calls alone, whatever
  // becomes of the other keys.
  lemma OwnCallsDecide(ps: Policies, size: nat, calls: seq<Call>, c: Call)
    requires ValidPolicies(ps) && size > 0 && NeverEvicted(ps, size, calls + [c], c.key)
    ensures BoundedOutcome(ps, size, calls, c)
            == Count(PolicyOf(ps, c.key), After(PolicyOf(ps, c.key), TimesOf(calls, c.key)), c.now).1
  {
    hide Lookup, Count, PolicyOf, Used, Bounded;
    assert (calls + [c])[..|calls|] == calls;
    OwnCounterOrNone(ps, size, calls, c.key);
  }

  // How many calls of a key the table admitted in the interval [from, from + window).
  function AdmittedByTable(ps: Policies, size: nat, calls: seq<Call>, key: Key, from: int): nat {
    if calls == [] then 0
    else
      var init, last := calls[..|calls| - 1], calls[|calls| - 1];
      AdmittedByTable(ps, size, init, key, from)
      + if last.key == key && from <= last.now < from + PolicyOf(ps, key).window
           && BoundedOutcome(ps, size, init, last).Admitted? then 1 else 0
  }

  lemma {:induction false} TableAdmitsAsCounter(ps: Policies, size: nat, calls: seq<Call>, key: Key, from: int)
    requires ValidPolicies(ps) && size > 0 && NeverEvicted(ps, size, calls, key)
    ensures AdmittedByTable(ps, size, calls, key, from) == AdmittedIn(PolicyOf(ps, key), TimesOf(calls, key), from)
  {
    hide BoundedOutcome, Count, PolicyOf, Lookup, Used, After;
    if calls != [] {
      var init, last := calls[..|calls| - 1], calls[|calls| - 1];
      TableAdmitsAsCounter(ps, size, init, key, from);
      var times := TimesOf(init, key);
      assert (times + [last.now])[..|times|] == times && times + [] == times;
      if last.key == key {
        assert calls == init + [last];
        OwnCallsDecide(ps, size, init, last);
      }
    }
  }

  // Of the calls of such a key the table admits at most twice the limit in any half-open interval
  // of one window, while the clock does not go back between them.
  lemma TwiceTheLimit(ps: Policies, size: nat, calls: seq<Call>, key: Key, from: int)
    requires ValidPolicies(ps) && size > 0 && NeverEvicted(ps, size, calls, key)
    requires NonDecreasing(TimesOf(calls, key))
    ensures AdmittedByTable(ps, size, calls, key, from)
            <= 2 * if key.bucket in ps.named then ps.named[key.bucket].limit else ps.other.limit
  {
    hide AdmittedByTable, AdmittedIn, TimesOf, NeverEvicted;
    assert ValidPolicy(PolicyOf(ps, key));
    TableAdmitsAsCounter(ps, size, calls, key, from);
    CounterAdmitsTwice(PolicyOf(ps, key), TimesOf(calls, key), from);
  }

  // ---------- Which calls are admitted ----------

  // The call that opened the window of the last call: that call itself, if a whole window has
  // passed since the opening of the one before.
  function Opener(window: int, times: seq<int>): (i: nat)
    requires times != []
    ensures i < |times|
  {
    var n := |times| - 1;
    if n == 0 then 0
    else
      var i := Opener(window, times[..n]);
      if times[n] - times[i] >= window then n else i
  }

  // The counter starts with the opening call and counts the calls since, up to the limit.
  lemma {:induction false} CounterSinceOpener(p: Policy, times: seq<int>)
    requires ValidPolicy(p) && times != []
    ensures var i := Opener(p.window, times);
            After(p, times) == Some(Counter(times[i], Min(p.limit, |times| - i)))
  {
    var n := |times| - 1;
    if n == 0 {
      assert After(p, times[..0]) == None;
    } else {
      CounterSinceOpener(p, times[..n]);
    }
  }

  // A call of a key that is not evicted between its uses is admitted exactly when fewer calls of
  // its window came before it than the limit of its own bucket, or the common one, allows.
  lemma AdmittedIff(ps: Policies, size: nat, calls: seq<Call>, c: Call)
    requires ValidPolicies(ps) && size > 0 && NeverEvicted(ps, size, calls + [c], c.key)
    ensures TimesOf(calls + [c], c.key) == TimesOf(calls, c.key) + [c.now]
    ensures var times := TimesOf(calls + [c], c.key);
            var p := if c.key.bucket in ps.named then ps.named[c.key.bucket] else ps.other;
            BoundedOutcome(ps, size, calls, c).Admitted? <==> |times| - 1 - Opener(p.window, times) < p.limit
  {
    hide NeverEvicted, BoundedOutcome;
    var p := PolicyOf(ps, c.key);
    assert ValidPolicy(p);
    OwnCallsDecide(ps, size, calls, c);
    assert (calls + [c])[..|calls|] == calls && (calls + [c])[|calls|] == c;
    var times := TimesOf(calls, c.key);
    assert (times + [c.now])[..|times|] == times && (times + [c.now])[|times|] == c.now;
    if times != [] {
      CounterSinceOpener(p, times);
    }
  }

  // The calls of one window after a pause share its opening.
  lemma {:induction false} BurstSharesOpener(window: int, before: seq<int>, burst: seq<int>)
    requires window > 0 && burst != []
    requires forall t :: t in before ==> t + window <= burst[0]
    requires forall t :: t in burst ==> burst[0] <= t < burst[0] + window
    ensures Opener(window, before + burst) == |before|
  {
    var all, n := before + burst, |burst| - 1;
    if n == 0 {
      assert all[..|before|] == before && all[|before|] == burst[0];
      if before != [] {
        assert before[Opener(window, before)] in before;
      }
    } else {
      assert burst[..n][0] == burst[0] && forall t :: t in burst[..n] ==> t in burst;
      BurstSharesOpener(window, before, burst[..n]);
      assert all[..|all| - 1] == before + burst[..n] && all[|all| - 1] == burst[n] && all[|before|] == burst[0];
      assert burst[n] in burst;
    }
  }

  // In a fresh window a key gets its full limit and no more: of a burst of calls within one window,
  // after a pause of a whole window, exactly the first so many are admitted.
  lemma FreshWindow(ps: Policies, size: nat, calls: seq<Call>, c: Call, before: seq<int>, burst: seq<int>)
    requires ValidPolicies(ps) && size > 0 && NeverEvicted(ps, size, calls + [c], c.key)
    requires TimesOf(calls + [c], c.key) == before + burst && burst != []
    requires var window := if c.key.bucket in ps.named then ps.named[c.key.bucket].window else ps.other.window;
             && (forall t :: t in before ==> t + window <= burst[0])
             && forall t :: t in burst ==> burst[0] <= t < burst[0] + window
    ensures var limit := if c.key.bucket in ps.named then ps.named[c.key.bucket].limit else ps.other.limit;
            BoundedOutcome(ps, size, calls, c).Admitted? <==> |burst| <= limit
  {
    hide NeverEvicted, BoundedOutcome, TimesOf, Opener;
    var p := if c.key.bucket in ps.named then ps.named[c.key.bucket] else ps.other;
    AdmittedIff(ps, size, calls, c);
    assert ValidPolicy(p);
    BurstSharesOpener(p.window, before, burst);
  }

  // Whenever the key is used again, fewer other keys were used in between than the table holds.
  ghost predicate OftenUsed(calls: seq<Call>, key: Key, size: nat) {
    calls == [] ||
    (&& OftenUsed(calls[..|calls| - 1], key, size)
     && (calls[|calls| - 1].key == key && Used(calls[..|calls| - 1], key) ==>
           |Since(calls[..|calls| - 1], key)| < size))
  }

  // A key stays in the table while fewer other keys than it holds were used after it.
  ghost predicate StaysIn(t: Table, calls: seq<Call>, key: Key, size: nat) {
    Used(calls, key) && |Since(calls, key)| < size ==>
      var i := IndexOf(t, key);
      i < |t| && KeysFrom(t, i + 1) <= Since(calls, key)
  }

  lemma SmallerSet(a: set<Key>, b: set<Key>)
    requires a <= b
    ensures |a| <= |b|
  {
    if a != {} {
      var x :| x in a;
      SmallerSet(a - {x}, b - {x});
    }
  }

  lemma SuffixKeys(t: Table, size: nat, i: nat)
    requires i <= |t| && |t| - i <= size
    ensures var s := Suffix(t, size); |t| - |s| <= i && KeysFrom(s, i - (|t| - |s|)) == KeysFrom(t, i)
  {
    hide Suffix;
    var s := Suffix(t, size);
    SuffixLength(t, size);
    var k := |t| - |s|;
    forall key ensures key in KeysFrom(s, i - k) <==> key in KeysFrom(t, i) {
      if key in KeysFrom(s, i - k) {
        var j :| i - k <= j < |s| && s[j].key == key;
        SuffixAt(t, size, j);
      }
      if key in KeysFrom(t, i) {
        var j :| i <= j < |t| && t[j].key == key;
        SuffixAt(t, size, j - k);
      }
    }
  }

  lemma SuffixStays(t: Table, calls: seq<Call>, key: Key, size: nat)
    requires DistinctKeys(t) && StaysIn(t, calls, key, size)
    ensures StaysIn(Suffix(t, size), calls, key, size)
  {
    hide Used, Since, IndexOf, DistinctKeys, KeysFrom, Lookup;
    var i := IndexOf(t, key);
    if Used(calls, key) && |Since(calls, key)| < size {
      CountFrom(t, i + 1);
      SmallerSet(KeysFrom(t, i + 1), Since(calls, key));
      SuffixIndex(t, key, size);
      SuffixKeys(t, size, i + 1);
    }
  }

  lemma UseStays(ps: Policies, t: Table, calls: seq<Call>, c: Call, key: Key, size: nat)
    requires DistinctKeys(t) && StaysIn(t, calls, key, size)
    ensures StaysIn(Use(ps, t, c.key, c.now).0, calls + [c], key, size)
  {
    hide Use, IndexOf, KeysFrom, Used, DistinctKeys;
    var after := Use(ps, t, c.key, c.now).0;
    BehindAfterUse(ps, t, c.key, c.now, key);
    UsedNext(calls, c, key);
    NoneBehind(after);
    assert (calls + [c])[..|calls|] == calls;
    SmallerSet(Since(calls, key), Since(calls, key) + {c.key});
  }

  lemma NothingStays(key: Key, size: nat)
    ensures StaysIn([], [], key, size)
  {
  }

  lemma {:induction false} OftenUsedStays(ps: Policies, size: nat, calls: seq<Call>, key: Key)
    requires ValidPolicies(ps) && size > 0
    ensures StaysIn(Bounded(ps, size, calls), calls, key, size)
  {
    hide Use, StaysIn, DistinctKeys, Suffix;
    if calls == [] {
      NothingStays(key, size);
    } else {
      var init, last := calls[..|calls| - 1], calls[|calls| - 1];
      OftenUsedStays(ps, size, init, key);
      TableIsBounded(ps, size, init);
      var t := Bounded(ps, size, init);
      UseStays(ps, t, init, last, key, size);
      UseKeepsDistinct(ps, t, last.key, last.now);
      SuffixStays(Use(ps, t, last.key, last.now).0, init + [last], key, size);
      assert calls == init + [last];
    }
  }

  // So a key that is used often enough is never evicted.
  lemma {:induction false} OftenUsedIsNeverEvicted(ps: Policies, size: nat, calls: seq<Call>, key: Key)
    requires ValidPolicies(ps) && size > 0 && OftenUsed(calls, key, size)
    ensures NeverEvicted(ps, size, calls, key)
  {
    hide Bounded, IndexOf, Used, Since;
    if calls != [] {
      OftenUsedIsNeverEvicted(ps, size, calls[..|calls| - 1], key);
      OftenUsedStays(ps, size, calls[..|calls| - 1], key);
    }
  }

  // ---------- The limiter ----------

  class Limiter {
    const policies: Policies
    const maximumKeys: nat
    var entries: Table

    ghost predicate Valid()
      reads this
    {
      ValidPolicies(policies) && maximumKeys > 0 && |entries| <= maximumKeys && DistinctKeys(entries)
    }

    constructor (policies: Policies, maximumKeys: nat)
      requires ValidPolicies(policies) && maximumKeys > 0
      ensures Valid() && this.policies == policies && this.maximumKeys == maximumKeys && entries == []
    {
      this.policies := policies;
      this.maximumKeys := maximumKeys;
      this.entries := [];
    }

    method Consume(bucket: string, identity: string, now: int) returns (outcome: Outcome)
      requires Valid()
      modifies `entries
      ensures Valid()
      ensures (entries, outcome) == UseBounded(policies, maximumKeys, old(entries), Key(bucket, identity), now)
    {
      var key := Key(bucket, identity);
      BoundedStaysBounded(policies, maximumKeys, entries, key, now);
      hide Lookup, Remove, PolicyOf, ValidPolicies, DistinctKeys, Suffix;
      var policy := PolicyOf(policies, key);
      var found := Lookup(entries, key);
      entries := Remove(entries, key);
      var start, count := now, 0;
      if found.Some? {
        start, count := found.value.start, found.value.count;
      }
      if now - start >= policy.window {
        start, count := now, 0;
      }
      if count >= policy.limit {
        entries := entries + [Entry(key, Counter(start, count))];
        var remaining := Max(1, policy.window - (now - start));
        return Limited((remaining + 999) / 1000);
      }
      entries := entries + [Entry(key, Counter(start, count + 1))];
      Evict();
      return Admitted;
    }

    method Evict()
      modifies `entries
      ensures entries == Suffix(old(entries), maximumKeys)
    {
      ghost var all := entries;
      assert all[0..] == all;
      while |entries| > maximumKeys
        invariant Min(|all|, maximumKeys) <= |entries| <= |all| && entries == all[|all| - |entries|..]
        decreases |entries|
      {
        entries := entries[1..];
      }
    }
  }
}
