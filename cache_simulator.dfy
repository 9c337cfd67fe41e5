/**
 * A TTL cache simulator. The cache's clock is never wall-clock time: the
 * driver sets it from the timestamp of each event it replays. Entries live
 * for a fixed time-to-live counted from their first insertion; expired
 * entries are removed lazily, by a sweep that runs before every read.
 *
 * Times and durations are whole seconds.
 */
module CacheSimulator {
  import opened Wrappers

  /** The errors the cache signals: put before the clock is set, or get of an absent key. */
  datatype CacheError = ClockNotSet | KeyNotFound

  /** One cached entry. Its timing fields are fixed when it is created. */
  datatype CacheKeyValue<K, V> = CacheKeyValue(
    key: K,
    timeToDestruct: int,
    lastUpdated: int,
    insertTime: int,
    value: V)

  /**
   * The entry created for a key absent from the cache at time `currentTime`:
   * it satisfies the entry invariant on its own, was inserted now, and lives
   * exactly `ttl` seconds.
   */
  function NewKeyValue<K, V>(key: K, currentTime: int, ttl: int, value: V): (e: CacheKeyValue<K, V>)
    ensures WellFormed(map[key := e], ttl)
    ensures e.insertTime == currentTime && e.timeToDestruct - e.insertTime == ttl
    ensures e.value == value
  {
    CacheKeyValue(key, currentTime + ttl, currentTime, currentTime, value)
  }

  /**
   * An entry is expired once the clock is strictly past its destruct time.
   * While the clock is unset the cache holds no entries (see `Cache.Valid`),
   * so there is nothing to compare; the Python program would fail comparing
   * a time with None there.
   */
  predicate Expired<K, V>(e: CacheKeyValue<K, V>, now: Option<int>)
  {
    now.Some? && e.timeToDestruct < now.value
  }

  /** The entry has not expired at `now`. */
  predicate Live<K, V>(e: CacheKeyValue<K, V>, now: Option<int>)
  {
    !Expired(e, now)
  }

  /** The keys whose entries are live at `now`. */
  function LiveKeys<K, V>(kv: map<K, CacheKeyValue<K, V>>, now: Option<int>): set<K>
  {
    set k | k in kv && Live(kv[k], now)
  }

  /**
   * The invariant every entry of a cache with time-to-live `ttl` keeps: it is
   * filed under its own key, was last updated when it was inserted, and is
   * destroyed exactly `ttl` seconds after its insertion.
   */
  predicate WellFormed<K, V>(kv: map<K, CacheKeyValue<K, V>>, ttl: int)
  {
    forall k :: k in kv ==>
      && kv[k].key == k
      && kv[k].lastUpdated == kv[k].insertTime
      && kv[k].timeToDestruct == kv[k].insertTime + ttl
  }

  /** The cache's mapping after the expiration sweep at `now`. */
  function Sweep<K, V>(kv: map<K, CacheKeyValue<K, V>>, now: Option<int>): map<K, CacheKeyValue<K, V>>
  {
    map k | k in kv && !Expired(kv[k], now) :: kv[k]
  }

  /**
   * The sweep removes exactly the entries whose destruct time is strictly
   * before the current time, and leaves the others as they were.
   */
  lemma SweepSpec<K, V>(kv: map<K, CacheKeyValue<K, V>>, now: Option<int>)
    ensures Sweep(kv, now).Keys <= kv.Keys
    ensures forall k :: k in Sweep(kv, now) ==>
      Sweep(kv, now)[k] == kv[k] && (now.None? || kv[k].timeToDestruct >= now.value)
    ensures forall k :: k in kv && (now.None? || kv[k].timeToDestruct >= now.value) ==> k in Sweep(kv, now)
  {
  }

  /** The keys the sweep keeps are exactly the live keys. */
  lemma SweepKeepsLiveKeys<K, V>(kv: map<K, CacheKeyValue<K, V>>, now: Option<int>)
    ensures Sweep(kv, now).Keys == LiveKeys(kv, now)
  {
  }

  /** The sweep keeps the entry invariant: it only removes entries. */
  lemma SweepWellFormed<K, V>(kv: map<K, CacheKeyValue<K, V>>, now: Option<int>, ttl: int)
    requires WellFormed(kv, ttl)
    ensures WellFormed(Sweep(kv, now), ttl)
  {
  }

  /**
   * The cache's mapping after `put(key, value)` at time `now`: an entry is
   * created only when the key is absent, then its value is overwritten.
   */
  function PutEntries<K, V>(kv: map<K, CacheKeyValue<K, V>>, now: int, ttl: int, key: K, value: V)
    : map<K, CacheKeyValue<K, V>>
  {
    var e := if key in kv then kv[key] else NewKeyValue(key, now, ttl, value);
    kv[key := e.(value := value)]
  }

  /**
   * Put adds `key` and touches no other key. It always stores the new value;
   * a new entry is inserted now and destroyed `ttl` seconds later, while an
   * existing entry keeps its insertion, update and destruct times.
   */
  lemma PutSpec<K, V>(kv: map<K, CacheKeyValue<K, V>>, now: int, ttl: int, key: K, value: V)
    ensures var r := PutEntries(kv, now, ttl, key, value);
      && r.Keys == kv.Keys + {key}
      && (forall k :: k in kv && k != key ==> r[k] == kv[k])
      && r[key].key == (if key in kv then kv[key].key else key)
      && r[key].value == value
      && (key in kv ==>
        && r[key].insertTime == kv[key].insertTime
        && r[key].lastUpdated == kv[key].lastUpdated
        && r[key].timeToDestruct == kv[key].timeToDestruct)
      && (key !in kv ==>
        && r[key].insertTime == now && r[key].lastUpdated == now
        && r[key].timeToDestruct == now + ttl)
  {
  }

  /** Put keeps the entry invariant. */
  lemma PutWellFormed<K, V>(kv: map<K, CacheKeyValue<K, V>>, now: int, ttl: int, key: K, value: V)
    requires WellFormed(kv, ttl)
    ensures WellFormed(PutEntries(kv, now, ttl, key, value), ttl)
  {
  }

  /** A TTL cache whose clock is set from outside. */
  class Cache<K(==), V> {
    /** Seconds each entry lives after its first insertion. */
    const ttl: int
    /** The simulation clock; None until it is first set. */
    var currentTime: Option<int>
    var keyvalues: map<K, CacheKeyValue<K, V>>

    /** Every entry is well formed, and there are no entries before the clock is first set. */
    ghost predicate Valid()
      reads this
    {
      && WellFormed(keyvalues, ttl)
      && (currentTime.None? ==> keyvalues == map[])
    }

    constructor (ttl: int)
      ensures Valid()
      ensures this.ttl == ttl && currentTime == None && keyvalues == map[]
    {
      this.ttl := ttl;
      currentTime := None;
      keyvalues := map[];
    }

    /** Stores `value` under `key`; fails, changing nothing, while the clock is unset. */
    method Put(key: K, value: V) returns (r: Outcome<CacheError>)
      requires Valid()
      modifies this`keyvalues
      ensures Valid()
      ensures r == (if old(currentTime).None? then Fail(ClockNotSet) else Pass)
      ensures r.Fail? ==> keyvalues == old(keyvalues)
      ensures r.Pass? ==> keyvalues == PutEntries(old(keyvalues), currentTime.value, ttl, key, value)
    {
      if currentTime.None? {
        return Fail(ClockNotSet);
      }
      var entry := if key in keyvalues then keyvalues[key] else NewKeyValue(key, currentTime.value, ttl, value);
      keyvalues := keyvalues[key := entry];
      keyvalues := keyvalues[key := keyvalues[key].(value := value)];
      PutWellFormed(old(keyvalues), currentTime.value, ttl, key, value);
      r := Pass;
    }

    /** Removes, one key at a time, every entry that has expired at the current time. */
    method ExpireOldKeys()
      requires Valid()
      modifies this`keyvalues
      ensures Valid()
      ensures keyvalues == Sweep(old(keyvalues), currentTime)
    {
      var pending := keyvalues.Keys;
      while pending != {}
        invariant pending <= old(keyvalues).Keys
        invariant keyvalues.Keys <= old(keyvalues).Keys
        invariant forall k :: k in keyvalues ==> keyvalues[k] == old(keyvalues)[k]
        invariant forall k :: k in old(keyvalues) ==>
          (k in keyvalues <==> k in pending || !Expired(old(keyvalues)[k], currentTime))
        decreases pending
      {
        var key :| key in pending;
        if Expired(keyvalues[key], currentTime) {
          keyvalues := keyvalues - {key};
        }
        pending := pending - {key};
      }
      assert keyvalues.Keys == Sweep(old(keyvalues), currentTime).Keys;
      SweepWellFormed(old(keyvalues), currentTime, ttl);
    }

    /** Sweeps, then reports whether `key` is present. */
    method IsCached(key: K) returns (b: bool)
      requires Valid()
      modifies this`keyvalues
      ensures Valid()
      ensures keyvalues == Sweep(old(keyvalues), currentTime)
      ensures b <==> key in old(keyvalues) && Live(old(keyvalues)[key], currentTime)
    {
      ExpireOldKeys();
      SweepSpec(old(keyvalues), currentTime);
      b := key in keyvalues;
    }

    /** Sweeps, then returns the entry for `key`, or KeyNotFound if it is absent or has just expired. */
    method Get(key: K) returns (r: Result<CacheKeyValue<K, V>, CacheError>)
      requires Valid()
      modifies this`keyvalues
      ensures Valid()
      ensures keyvalues == Sweep(old(keyvalues), currentTime)
      ensures r.Failure? <==> !(key in old(keyvalues) && Live(old(keyvalues)[key], currentTime))
      ensures r.Failure? ==> r.error == KeyNotFound
      ensures r.Success? ==> r.value == old(keyvalues)[key] && r.value.key == key
    {
      ExpireOldKeys();
      SweepSpec(old(keyvalues), currentTime);
      if key !in keyvalues {
        return Failure(KeyNotFound);
      }
      r := Success(keyvalues[key]);
    }

    /** Sweeps, then returns the number of entries, which is the number of live keys. */
    method Size() returns (n: nat)
      requires Valid()
      modifies this`keyvalues
      ensures Valid()
      ensures keyvalues == Sweep(old(keyvalues), currentTime)
      ensures n == |keyvalues| == |LiveKeys(old(keyvalues), currentTime)|
    {
      ExpireOldKeys();
      SweepKeepsLiveKeys(old(keyvalues), currentTime);
      n := |keyvalues|;
    }
  }

  /** The sweep leaves nothing further to remove: a second sweep at the same time changes nothing. */
  lemma SweepIdempotent<K, V>(kv: map<K, CacheKeyValue<K, V>>, now: Option<int>)
    ensures Sweep(Sweep(kv, now), now) == Sweep(kv, now)
  {
    var once := Sweep(kv, now);
    assert Sweep(once, now).Keys == once.Keys;
  }

  /**
   * Reading twice with the same clock and no put in between gives the same
   * answer: `is_cached`, `get` and `size` all act on the swept mapping.
   */
  lemma ReadsRepeatable<K, V>(kv: map<K, CacheKeyValue<K, V>>, now: Option<int>, key: K)
    ensures var once := Sweep(kv, now);
      && (key in once && Live(once[key], now) <==> key in kv && Live(kv[key], now))
      && |LiveKeys(once, now)| == |LiveKeys(kv, now)|
  {
    SweepIdempotent(kv, now);
    SweepKeepsLiveKeys(kv, now);
    SweepKeepsLiveKeys(Sweep(kv, now), now);
  }

  /** An entry whose destruct time equals the current time is still live; one second later it is gone. */
  lemma ExpiryBoundary<K, V>(kv: map<K, CacheKeyValue<K, V>>, key: K, t: int)
    requires key in kv && kv[key].timeToDestruct == t
    ensures key in Sweep(kv, Some(t))
    ensures key !in Sweep(kv, Some(t + 1))
  {
  }

  /**
   * A get after a put with the same clock returns the value just put, unless
   * the entry's destruct time has already passed; re-putting never moves the
   * destruct time.
   */
  lemma GetAfterPut<K, V>(kv: map<K, CacheKeyValue<K, V>>, now: int, ttl: int, key: K, value: V)
    ensures var after := Sweep(PutEntries(kv, now, ttl, key, value), Some(now));
      var destruct := if key in kv then kv[key].timeToDestruct else now + ttl;
      && (key in after <==> destruct >= now)
      && (key in after ==> after[key].value == value && after[key].timeToDestruct == destruct)
  {
  }

  // ---------------------------------------------------------------------------
  // Statistics

  /** The numbers the final report prints. */
  datatype StatsReport = StatsReport(gets: int, hits: int, misses: int, maxSize: Option<int>)

  /**
   * The running maximum after observing `n`. "No observations yet" (None)
   * compares below every size, as None does in Python 2's `max`.
   */
  function MaxWith(m: Option<int>, n: int): (r: Option<int>)
    ensures r.Some? && r.value >= n
    ensures m.Some? ==> r.value >= m.value
    ensures r.value == n || (m.Some? && r.value == m.value)
  {
    if m.Some? && m.value > n then m else Some(n)
  }

  /** Counts gets and hits and keeps the largest observed cache size. */
  class CacheStatistics {
    var hits: int
    var gets: int
    var maxsize: Option<int>

    constructor ()
      ensures hits == 0 && gets == 0 && maxsize == None
    {
      hits := 0;
      gets := 0;
      maxsize := None;
    }

    method RegisterSize(newSize: int)
      modifies this`maxsize
      ensures maxsize == MaxWith(old(maxsize), newSize)
    {
      maxsize := MaxWith(maxsize, newSize);
    }

    method RegisterHit()
      modifies this`hits
      ensures hits == old(hits) + 1
    {
      hits := hits + 1;
    }

    method RegisterGet()
      modifies this`gets
      ensures gets == old(gets) + 1
    {
      gets := gets + 1;
    }

    /** The numbers the final report prints, misses derived as gets minus hits. */
    function Report(): StatsReport
      reads this
    {
      StatsReport(gets, hits, gets - hits, maxsize)
    }
  }

  /** Three gets, one hit and the sizes 4, 6, 5 report two misses and a maximum size of 6. */
  method StatisticsExample() returns (r: StatsReport)
    ensures r == StatsReport(3, 1, 2, Some(6))
  {
    var cs := new CacheStatistics();
    cs.RegisterHit();
    cs.RegisterGet();
    cs.RegisterGet();
    cs.RegisterGet();
    cs.RegisterSize(4);
    cs.RegisterSize(6);
    cs.RegisterSize(5);
    r := cs.Report();
  }

  // ---------------------------------------------------------------------------
  // The event loop

  /** One parsed log line: its timestamp and the cache key it requests. */
  datatype Event = Event(timestamp: int, key: string)

  /** The driver stores Python's None as the value of every key it inserts. */
  type Entries = map<string, CacheKeyValue<string, Option<string>>>

  /** The cache's mapping and clock and the statistics' counters after some events. */
  datatype SimState = SimState(entries: Entries, clock: Option<int>, gets: int, hits: int, maxsize: Option<int>)

  const Initial: SimState := SimState(map[], None, 0, 0, None)

  /** Whether an event is a hit in state `s`: its key is live at the event's timestamp. */
  predicate IsHit(s: SimState, ev: Event)
  {
    ev.key in Sweep(s.entries, Some(ev.timestamp))
  }

  /**
   * One event: set the clock, count a get, count a hit or insert the key, and
   * record the size after the sweep.
   */
  function Step(ttl: int, s: SimState, ev: Event): SimState
  {
    var now := Some(ev.timestamp);
    var swept := Sweep(s.entries, now);
    var stored := if ev.key in swept then swept else PutEntries(swept, ev.timestamp, ttl, ev.key, None);
    var after := Sweep(stored, now);
    SimState(after, now, s.gets + 1, if ev.key in swept then s.hits + 1 else s.hits, MaxWith(s.maxsize, |after|))
  }

  /** The state after replaying `events` in order from a fresh cache and fresh statistics. */
  function Simulate(ttl: int, events: seq<Event>): SimState
    decreases |events|
  {
    if events == [] then Initial
    else Step(ttl, Simulate(ttl, events[..|events| - 1]), events[|events| - 1])
  }

  /** A step, given its intermediate mappings: the sweep, the mapping after the hit or the put, and the final sweep. */
  lemma StepParts(ttl: int, s: SimState, ev: Event, swept: Entries, stored: Entries, after: Entries)
    requires swept == Sweep(s.entries, Some(ev.timestamp))
    requires stored == if ev.key in swept then swept else PutEntries(swept, ev.timestamp, ttl, ev.key, None)
    requires after == Sweep(stored, Some(ev.timestamp))
    ensures Step(ttl, s, ev) == SimState(after, Some(ev.timestamp), s.gets + 1,
      if ev.key in swept then s.hits + 1 else s.hits, MaxWith(s.maxsize, |after|))
  {
  }

  /** The cache size recorded after each event, in order. */
  function Sizes(ttl: int, events: seq<Event>): (r: seq<int>)
    ensures |r| == |events|
    decreases |events|
  {
    if events == [] then []
    else Sizes(ttl, events[..|events| - 1]) + [|Simulate(ttl, events).entries|]
  }

  function ReportOf(s: SimState): StatsReport
  {
    StatsReport(s.gets, s.hits, s.gets - s.hits, s.maxsize)
  }

  /** The largest element of a non-empty sequence. */
  function MaxOf(s: seq<int>): (m: int)
    requires |s| > 0
    ensures forall i :: 0 <= i < |s| ==> s[i] <= m
    ensures exists i :: 0 <= i < |s| && s[i] == m
    decreases |s|
  {
    if |s| == 1 then s[0]
    else
      var p := MaxOf(s[..|s| - 1]);
      assert forall i :: 0 <= i < |s| - 1 ==> s[..|s| - 1][i] == s[i];
      if p > s[|s| - 1] then p else s[|s| - 1]
  }

  /** Each event adds exactly one get, and a hit exactly when its key is live. */
  lemma StepCounts(ttl: int, s: SimState, ev: Event)
    ensures Step(ttl, s, ev).gets == s.gets + 1
    ensures Step(ttl, s, ev).hits == s.hits + 1 <==>
      ev.key in s.entries && s.entries[ev.key].timeToDestruct >= ev.timestamp
    ensures Step(ttl, s, ev).hits == s.hits || Step(ttl, s, ev).hits == s.hits + 1
  {
  }

  /** After a miss the key is cached, destroyed `ttl` seconds after this event, provided `ttl` is not negative. */
  lemma StepCachesKey(ttl: int, s: SimState, ev: Event)
    requires ttl >= 0
    requires !IsHit(s, ev)
    ensures ev.key in Step(ttl, s, ev).entries
    ensures Step(ttl, s, ev).entries[ev.key].timeToDestruct == ev.timestamp + ttl
  {
  }

  /** After any events, gets equals their number and hits never exceed gets. */
  lemma {:induction false} SimulateCounts(ttl: int, events: seq<Event>)
    ensures Simulate(ttl, events).gets == |events|
    ensures 0 <= Simulate(ttl, events).hits <= Simulate(ttl, events).gets
    decreases |events|
  {
    if events != [] {
      SimulateCounts(ttl, events[..|events| - 1]);
    }
  }

  /** The recorded maximum size is the largest of all recorded sizes, and absent before any event. */
  lemma {:induction false} SimulateMaxSize(ttl: int, events: seq<Event>)
    ensures Simulate(ttl, events).maxsize == if events == [] then None else Some(MaxOf(Sizes(ttl, events)))
    decreases |events|
  {
    if events != [] {
      var prefix := events[..|events| - 1];
      SimulateMaxSize(ttl, prefix);
      var sizes := Sizes(ttl, events);
      assert sizes[..|sizes| - 1] == Sizes(ttl, prefix);
      if prefix != [] {
        assert MaxOf(sizes) == MaxWith(Some(MaxOf(Sizes(ttl, prefix))), sizes[|sizes| - 1]).value;
      }
    }
  }

  /** Between events every entry is well formed and live at the clock, and the clock is the last timestamp. */
  lemma {:induction false} SimulateInvariant(ttl: int, events: seq<Event>)
    ensures WellFormed(Simulate(ttl, events).entries, ttl)
    ensures var s := Simulate(ttl, events);
      forall k :: k in s.entries ==> Live(s.entries[k], s.clock)
    ensures Simulate(ttl, events).clock == if events == [] then None else Some(events[|events| - 1].timestamp)
    decreases |events|
  {
    if events != [] {
      SimulateInvariant(ttl, events[..|events| - 1]);
    }
  }

  /** The report of a run: one get per event, hits never more than gets, the rest misses. */
  lemma ReportOfSimulate(ttl: int, events: seq<Event>)
    ensures ReportOf(Simulate(ttl, events)).gets == |events|
    ensures 0 <= ReportOf(Simulate(ttl, events)).hits <= |events|
    ensures ReportOf(Simulate(ttl, events)).misses == |events| - ReportOf(Simulate(ttl, events)).hits
    ensures ReportOf(Simulate(ttl, events)).maxSize
         == if events == [] then None else Some(MaxOf(Sizes(ttl, events)))
  {
    SimulateCounts(ttl, events);
    SimulateMaxSize(ttl, events);
  }

  /** The driver's cache and statistics hold the mapping, clock and counters of `s`. */
  ghost predicate Mirrors(cache: Cache<string, Option<string>>, stats: CacheStatistics, s: SimState)
    reads cache, stats
  {
    && cache.Valid()
    && cache.keyvalues == s.entries && cache.currentTime == s.clock
    && stats.gets == s.gets && stats.hits == s.hits && stats.maxsize == s.maxsize
  }

  /** Processes one event on the driver's cache and statistics, as one step of the simulation. */
  method ProcessEvent(cache: Cache<string, Option<string>>, stats: CacheStatistics, ev: Event, ghost s: SimState)
    requires Mirrors(cache, stats, s)
    modifies cache`keyvalues, cache`currentTime, stats
    ensures Mirrors(cache, stats, Step(cache.ttl, s, ev))
  {
    ghost var now := Some(ev.timestamp);
    ghost var swept := Sweep(s.entries, now);
    ghost var stored := if ev.key in swept then swept else PutEntries(swept, ev.timestamp, cache.ttl, ev.key, None);
    ghost var after := Sweep(stored, now);
    cache.currentTime := Some(ev.timestamp);
    stats.RegisterGet();
    var cached := cache.IsCached(ev.key);
    assert cache.keyvalues == swept && (cached <==> ev.key in swept);
    if !cached {
      var outcome := cache.Put(ev.key, None);
    } else {
      stats.RegisterHit();
    }
    assert cache.keyvalues == stored;
    var size := cache.Size();
    assert cache.keyvalues == after && size == |after|;
    stats.RegisterSize(size);
    StepParts(cache.ttl, s, ev, swept, stored, after);
  }

  /** Replaying one more event is one more step. */
  lemma SimulateExtend(ttl: int, events: seq<Event>, i: nat)
    requires i < |events|
    ensures Simulate(ttl, events[..i + 1]) == Step(ttl, Simulate(ttl, events[..i]), events[i])
  {
    assert events[..i + 1][..i] == events[..i];
  }

  /** Processes the event at index `i`, taking the driver from the state after `events[..i]` to the one after `events[..i + 1]`. */
  method ReplayNext(cache: Cache<string, Option<string>>, stats: CacheStatistics, events: seq<Event>, i: nat)
    requires i < |events|
    requires Mirrors(cache, stats, Simulate(cache.ttl, events[..i]))
    modifies cache`keyvalues, cache`currentTime, stats
    ensures Mirrors(cache, stats, Simulate(cache.ttl, events[..i + 1]))
  {
    SimulateExtend(cache.ttl, events, i);
    ProcessEvent(cache, stats, events[i], Simulate(cache.ttl, events[..i]));
  }

  /**
   * Replays `events` through a fresh cache with time-to-live `ttl` and fresh
   * statistics, and returns the final report.
   */
  method Run(ttl: int, events: seq<Event>) returns (report: StatsReport)
    ensures report == ReportOf(Simulate(ttl, events))
    ensures report.gets == |events| && 0 <= report.hits <= report.gets
    ensures report.misses == report.gets - report.hits
    ensures report.maxSize == if events == [] then None else Some(MaxOf(Sizes(ttl, events)))
  {
    var cache := new Cache<string, Option<string>>(ttl);
    var stats := new CacheStatistics();
    assert events[..0] == [];
    var i := 0;
    while i < |events|
      invariant 0 <= i <= |events|
      invariant cache.ttl == ttl
      invariant Mirrors(cache, stats, Simulate(ttl, events[..i]))
    {
      ReplayNext(cache, stats, events, i);
      i := i + 1;
    }
    assert events[..i] == events;
    report := stats.Report();
    assert report == ReportOf(Simulate(ttl, events));
    ReportOfSimulate(ttl, events);
  }

  /**
   * One key requested three times: a miss that inserts it, a hit while it is
   * live (up to and including its destruct time, even when the clock has
   * moved backwards), and a miss once the clock is strictly past its destruct
   * time.
   */
  lemma {:induction false} HitThenExpire(ttl: int, key: string, t0: int, t1: int, t2: int)
    requires 0 <= ttl && t1 <= t0 + ttl < t2
    ensures ReportOf(Simulate(ttl, [Event(t0, key), Event(t1, key), Event(t2, key)]))
         == StatsReport(3, 1, 2, Some(1))
  {
    var e := [Event(t0, key), Event(t1, key), Event(t2, key)];
    var first := NewKeyValue(key, t0, ttl, None);
    var again := NewKeyValue(key, t2, ttl, None);
    var s1 := SimState(map[key := first], Some(t0), 1, 0, Some(1));
    var s2 := SimState(map[key := first], Some(t1), 2, 1, Some(1));
    var s3 := SimState(map[key := again], Some(t2), 3, 1, Some(1));
    assert Step(ttl, Initial, e[0]) == s1 by {
      assert Sweep(Initial.entries, Some(t0)) == map[];
      assert PutEntries(map[], t0, ttl, key, None) == map[key := first];
      assert Sweep(map[key := first], Some(t0)) == map[key := first];
    }
    assert Step(ttl, s1, e[1]) == s2 by {
      assert Sweep(map[key := first], Some(t1)) == map[key := first];
    }
    assert Step(ttl, s2, e[2]) == s3 by {
      assert Sweep(map[key := first], Some(t2)) == map[];
      assert PutEntries(map[], t2, ttl, key, None) == map[key := again];
      assert Sweep(map[key := again], Some(t2)) == map[key := again];
    }
    assert Simulate(ttl, e[..1]) == s1 by {
      assert e[..1][..0] == [];
    }
    assert Simulate(ttl, e[..2]) == s2 by {
      assert e[..2][..1] == e[..1];
    }
  }

  /** TTL 60: "a" at 0 misses, at 30 hits, at 61 misses again (61 > 0 + 60). */
  lemma ScenarioSixtySeconds()
    ensures ReportOf(Simulate(60, [Event(0, "a"), Event(30, "a"), Event(61, "a")]))
         == StatsReport(3, 1, 2, Some(1))
  {
    HitThenExpire(60, "a", 0, 30, 61);
  }

  /** TTL 0: "x" at 0 misses, again at 0 hits (destruct time 0 is not past), at 1 misses. */
  lemma ScenarioZeroTtl()
    ensures ReportOf(Simulate(0, [Event(0, "x"), Event(0, "x"), Event(1, "x")]))
         == StatsReport(3, 1, 2, Some(1))
  {
    HitThenExpire(0, "x", 0, 0, 1);
  }
}
