/** The cache of responses too large for the caller's buffer, and its eviction. */
module OverflowCache {

  datatype Entry = Entry(data: seq<int>, created: nat)

  const MAX_ENTRIES: nat := 256
  const MAX_BYTES: nat := 64 * 1024 * 1024
  /** Thirty seconds, in nanoseconds. */
  const TTL: nat := 30_000_000_000

  /** `created.elapsed() < TTL` at time `now`. */
  predicate Unexpired(e: Entry, now: nat) {
    now < e.created + TTL
  }

  ghost function TotalBytes(cache: map<nat, Entry>): (n: nat)
    decreases |cache|
  {
    if cache == map[] then 0
    else
      var k :| k in cache;
      |cache[k].data| + TotalBytes(cache - {k})
  }

  /** The sum does not depend on the order of the keys. */
  lemma {:induction false} TotalWithout(cache: map<nat, Entry>, k: nat)
    requires k in cache
    ensures TotalBytes(cache) == |cache[k].data| + TotalBytes(cache - {k})
    decreases |cache|
  {
    var j :| j in cache && TotalBytes(cache) == |cache[j].data| + TotalBytes(cache - {j});
    if j != k {
      TotalWithout(cache - {j}, k);
      TotalWithout(cache - {k}, j);
      assert (cache - {j}) - {k} == (cache - {k}) - {j};
    }
  }

  ghost predicate OverBudget(cache: map<nat, Entry>) {
    |cache| > MAX_ENTRIES || TotalBytes(cache) > MAX_BYTES
  }

  // ── What eviction leaves ────────────────────────────────────────────────────

  /** Removed by the budget, not by age. */
  ghost predicate Squeezed(before: map<nat, Entry>, now: nat, after: map<nat, Entry>, k: nat) {
    k in before && Unexpired(before[k], now) && k !in after
  }

  ghost predicate Keeps(before: map<nat, Entry>, now: nat, after: map<nat, Entry>) {
    forall k | k in after :: k in before && after[k] == before[k] && Unexpired(after[k], now)
  }

  /** Nothing that was squeezed out is younger than anything kept. */
  ghost predicate OldestFirst(before: map<nat, Entry>, now: nat, after: map<nat, Entry>) {
    forall k, j | Squeezed(before, now, after, k) && j in after :: before[k].created <= after[j].created
  }

  /** `k` is the youngest entry squeezed out, and would not fit beside what was kept. */
  ghost predicate LastToGo(before: map<nat, Entry>, now: nat, after: map<nat, Entry>, k: nat) {
    && Squeezed(before, now, after, k) && OverBudget(after[k := before[k]])
    && forall j | Squeezed(before, now, after, j) :: before[j].created <= before[k].created
  }

  /** No unexpired entry was squeezed out without need. */
  ghost predicate NoneTooMany(before: map<nat, Entry>, now: nat, after: map<nat, Entry>) {
    forall k | Squeezed(before, now, after, k) :: exists last :: LastToGo(before, now, after, last)
  }

  ghost predicate Evicted(before: map<nat, Entry>, now: nat, after: map<nat, Entry>) {
    && Keeps(before, now, after) && !OverBudget(after)
    && OldestFirst(before, now, after) && NoneTooMany(before, now, after)
  }

  class Cache {
    var entries: map<nat, Entry>

    constructor ()
      ensures entries == map[]
    {
      entries := map[];
    }

    /** The byte count the loop condition takes afresh each time. */
    method SumLengths() returns (total: nat)
      ensures total == TotalBytes(entries)
    {
      total := 0;
      var rest := entries;
      while rest != map[]
        invariant rest.Keys <= entries.Keys && forall k | k in rest :: rest[k] == entries[k]
        invariant total + TotalBytes(rest) == TotalBytes(entries)
        decreases |rest|
      {
        var k :| k in rest;
        TotalWithout(rest, k);
        total := total + |rest[k].data|;
        rest := rest - {k};
      }
    }

    /** `min_by_key` on the creation time; among equals any may come first. */
    method Oldest() returns (k: nat)
      requires entries != map[]
      ensures k in entries && forall j | j in entries :: entries[k].created <= entries[j].created
    {
      k :| k in entries;
      var rest := entries.Keys - {k};
      while rest != {}
        invariant k in entries && rest <= entries.Keys
        invariant forall j | j in entries && j !in rest :: entries[k].created <= entries[j].created
      {
        var j :| j in rest;
        rest := rest - {j};
        if entries[j].created < entries[k].created { k := j; }
      }
    }

    method EvictOverflow(now: nat)
      modifies this
      ensures Evicted(old(entries), now, entries)
    {
      ghost var before := entries;
      entries := map k | k in entries && Unexpired(entries[k], now) :: entries[k];
      var total := SumLengths();
      while |entries| > MAX_ENTRIES || total > MAX_BYTES
        invariant total == TotalBytes(entries)
        invariant Keeps(before, now, entries) && OldestFirst(before, now, entries) && NoneTooMany(before, now, entries)
        decreases |entries|
      {
        if entries == map[] { break; }
        var oldest := Oldest();
        RemoveOldest(before, now, entries, oldest);
        entries := entries - {oldest};
        total := SumLengths();
      }
    }
  }

  lemma RemoveOldest(before: map<nat, Entry>, now: nat, during: map<nat, Entry>, k: nat)
    requires Keeps(before, now, during) && OldestFirst(before, now, during) && OverBudget(during)
    requires k in during && forall j | j in during :: during[k].created <= during[j].created
    ensures Keeps(before, now, during - {k}) && OldestFirst(before, now, during - {k})
    ensures NoneTooMany(before, now, during - {k})
  {
    var after := during - {k};
    assert after[k := before[k]] == during;
    forall j | Squeezed(before, now, after, j)
      ensures before[j].created <= before[k].created
    {
      if j != k { assert Squeezed(before, now, during, j); }
    }
    assert LastToGo(before, now, after, k);
  }

  /** Eviction always comes to an end. */
  lemma EvictionExists(before: map<nat, Entry>, now: nat) returns (after: map<nat, Entry>)
    ensures Evicted(before, now, after)
  {
    after := map k | k in before && Unexpired(before[k], now) :: before[k];
    after := Squeeze(before, now, after);
  }

  lemma {:induction false} Squeeze(before: map<nat, Entry>, now: nat, during: map<nat, Entry>) returns (after: map<nat, Entry>)
    requires Keeps(before, now, during) && OldestFirst(before, now, during) && NoneTooMany(before, now, during)
    ensures Evicted(before, now, after)
    decreases |during|
  {
    if OverBudget(during) {
      assert TotalBytes(map[]) == 0;
      var k := OldestOf(during);
      RemoveOldest(before, now, during, k);
      after := Squeeze(before, now, during - {k});
    } else {
      after := during;
    }
  }

  lemma {:induction false} OldestOf(cache: map<nat, Entry>) returns (k: nat)
    requires cache != map[]
    ensures k in cache && forall j | j in cache :: cache[k].created <= cache[j].created
    decreases |cache|
  {
    k :| k in cache;
    var rest := cache - {k};
    if rest != map[] {
      var j := OldestOf(rest);
      assert forall i | i in cache :: i == k || i in rest;
      if cache[j].created < cache[k].created { k := j; }
    }
  }

  // ── Eviction leaves no choice ───────────────────────────────────────────────

  lemma {:induction false} SmallerCache(a: map<nat, Entry>, b: map<nat, Entry>)
    requires forall k | k in a :: k in b && a[k] == b[k]
    ensures |a| <= |b| && TotalBytes(a) <= TotalBytes(b)
    decreases |a|
  {
    if a != map[] {
      var k :| k in a;
      TotalWithout(a, k);
      TotalWithout(b, k);
      SmallerCache(a - {k}, b - {k});
    }
  }

  ghost predicate DistinctTimes(cache: map<nat, Entry>) {
    forall j, k | j in cache && k in cache && cache[j].created == cache[k].created :: j == k
  }

  /** What is at least as young as a kept entry is kept. */
  lemma YoungerIsKept(before: map<nat, Entry>, now: nat, b: map<nat, Entry>, x: nat, j: nat)
    requires DistinctTimes(before) && Keeps(before, now, b) && OldestFirst(before, now, b) && x in b
    requires j in before && Unexpired(before[j], now) && before[x].created <= before[j].created
    ensures j in b
  {
    if j !in b { assert Squeezed(before, now, b, j); }
  }

  lemma AllKept(before: map<nat, Entry>, now: nat, a: map<nat, Entry>, b: map<nat, Entry>, x: nat, last: nat)
    requires DistinctTimes(before) && Keeps(before, now, a) && OldestFirst(before, now, a)
    requires Keeps(before, now, b) && OldestFirst(before, now, b)
    requires x in b && x !in a && LastToGo(before, now, a, last)
    ensures OverBudget(b)
  {
    var more := a[last := before[last]];
    assert Squeezed(before, now, a, x);
    forall j | j in more
      ensures j in b && more[j] == b[j]
    {
      YoungerIsKept(before, now, b, x, j);
    }
    SmallerCache(more, b);
  }

  /** Whatever one outcome keeps, the other keeps too. */
  lemma KeptByBoth(before: map<nat, Entry>, now: nat, a: map<nat, Entry>, b: map<nat, Entry>, x: nat)
    requires DistinctTimes(before) && Evicted(before, now, a) && Evicted(before, now, b) && x in b
    ensures x in a
  {
    if x !in a {
      assert Squeezed(before, now, a, x);
      var last :| LastToGo(before, now, a, last);
      AllKept(before, now, a, b, x, last);
    }
  }

  /** With no two entries of the same age, the limits alone determine what is left. */
  lemma EvictionIsUnique(before: map<nat, Entry>, now: nat, a: map<nat, Entry>, b: map<nat, Entry>)
    requires DistinctTimes(before) && Evicted(before, now, a) && Evicted(before, now, b)
    ensures a == b
  {
    forall x | x in b ensures x in a { KeptByBoth(before, now, a, b, x); }
    forall x | x in a ensures x in b { KeptByBoth(before, now, b, a, x); }
  }
}
