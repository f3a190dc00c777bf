/** The bounded cache of client metadata documents, whose lock is let go while a document is fetched. */
module Resolver {
  import opened Wrappers

  const MAX_CACHE_ENTRIES: nat := 4096
  const DEFAULT_CACHE_TTL: nat := 3_600_000_000_000
  const DEFAULT_NEGATIVE_TTL: nat := 60_000_000_000

  /** A fetch yields a client's document or an error, and both are cached. */
  type Answer = Result<string, string>

  datatype Entry = Entry(answer: Answer, expiresAt: nat)

  datatype Config = Config(cacheTtl: nat, negativeTtl: nat)

  type Cache = map<string, Entry>

  function Ttl(cfg: Config, answer: Answer): nat {
    if answer.Err? then cfg.negativeTtl else cfg.cacheTtl
  }

  function Stamped(cfg: Config, answer: Answer, now: nat): Entry {
    Entry(answer, now + Ttl(cfg, answer))
  }

  function Cached(cache: Cache, id: string, now: nat): Option<Answer> {
    if id in cache && now < cache[id].expiresAt then Some(cache[id].answer) else None
  }

  function Live(cache: Cache, now: nat): Cache {
    map id | id in cache && now < cache[id].expiresAt :: cache[id]
  }

  /** Storing replaces or inserts while there is room. In a full cache the expired entries go first,
      and live ones only as far as the bound demands; which ones is left open. */
  ghost predicate Stored(before: Cache, id: string, entry: Entry, now: nat, after: Cache) {
    if id in before || |before| < MAX_CACHE_ENTRIES then
      after == before[id := entry]
    else
      && id in after
      && after[id] == entry
      && (forall k :: k in after && k != id ==> k in Live(before, now) && after[k] == before[k])
      && (if |Live(before, now)| < MAX_CACHE_ENTRIES
          then after == Live(before, now)[id := entry]
          else |after| == MAX_CACHE_ENTRIES)
  }

  class Resolver {
    const cfg: Config
    var cache: Cache

    constructor (cacheTtl: int, negativeTtl: int)
      ensures cfg.cacheTtl == if cacheTtl <= 0 then DEFAULT_CACHE_TTL else cacheTtl
      ensures cfg.negativeTtl == if negativeTtl <= 0 then DEFAULT_NEGATIVE_TTL else negativeTtl
      ensures cache == map[]
    {
      cfg := Config(if cacheTtl <= 0 then DEFAULT_CACHE_TTL else cacheTtl,
                    if negativeTtl <= 0 then DEFAULT_NEGATIVE_TTL else negativeTtl);
      cache := map[];
    }

    method Lookup(id: string, now: nat) returns (hit: Option<Answer>)
      ensures hit == Cached(cache, id, now)
    {
      if id in cache {
        var entry := cache[id];
        if now < entry.expiresAt {
          return Some(entry.answer);
        }
      }
      hit := None;
    }

    method Purge(now: nat)
      modifies this
      ensures cache == Live(old(cache), now)
    {
      var todo := cache.Keys;
      while todo != {}
        invariant todo <= cache.Keys <= old(cache).Keys
        invariant forall k :: k in cache ==> cache[k] == old(cache)[k]
        invariant forall k :: k in old(cache) && k !in todo ==> (k in cache <==> now < old(cache)[k].expiresAt)
        decreases |todo|
      {
        var key :| key in todo;
        todo := todo - {key};
        if !(now < cache[key].expiresAt) {
          cache := cache - {key};
        }
      }
    }

    /** Entries go in whatever order the map gives them, until there is room for one more. */
    method Evict()
      modifies this
      ensures cache.Keys <= old(cache).Keys && forall k :: k in cache ==> cache[k] == old(cache)[k]
      ensures if |old(cache)| < MAX_CACHE_ENTRIES then cache == old(cache) else |cache| == MAX_CACHE_ENTRIES - 1
    {
      var todo := cache.Keys;
      while todo != {}
        invariant todo <= cache.Keys <= old(cache).Keys
        invariant forall k :: k in cache ==> cache[k] == old(cache)[k]
        invariant cache == old(cache) || |cache| >= MAX_CACHE_ENTRIES - 1
        invariant |old(cache)| < MAX_CACHE_ENTRIES ==> cache == old(cache)
        invariant |cache| >= MAX_CACHE_ENTRIES ==> todo == cache.Keys
        decreases |todo|
      {
        if |cache| < MAX_CACHE_ENTRIES {
          break;
        }
        var key :| key in todo;
        todo := todo - {key};
        cache := cache - {key};
        assert |cache.Keys| == |cache|;
      }
    }

    method Store(id: string, entry: Entry, now: nat)
      modifies this
      ensures Stored(old(cache), id, entry, now, cache)
    {
      if id !in cache && |cache| >= MAX_CACHE_ENTRIES {
        Purge(now);
        Evict();
      }
      cache := cache[id := entry];
    }

    /** One caller on its own: `fetched` is what the fetch would yield, `done` and `storing` are the
        clock once it is over and under the lock. */
    method Resolve(id: string, now: nat, fetched: Answer, done: nat, storing: nat) returns (answer: Answer)
      modifies this
      ensures Cached(old(cache), id, now).Some? ==>
                answer == Cached(old(cache), id, now).value && cache == old(cache)
      ensures Cached(old(cache), id, now).None? ==>
                answer == fetched && Stored(old(cache), id, Stamped(cfg, fetched, done), storing, cache)
    {
      var hit := Lookup(id, now);
      if hit.Some? {
        return hit.value;
      }
      var expiresAt;
      if fetched.Err? {
        expiresAt := done + cfg.negativeTtl;
      } else {
        expiresAt := done + cfg.cacheTtl;
      }
      Store(id, Entry(fetched, expiresAt), storing);
      answer := fetched;
    }
  }

  /** A caller without the lock: waiting for its fetch, or holding an entry it has yet to store. */
  datatype Caller = Fetching(id: string) | Holding(id: string, entry: Entry)

  /** A fetch that is over, with the clock read at that moment. */
  datatype Fetch = Fetch(id: string, answer: Answer, at: nat)

  /** `fetches` is the record of the fetches that are over; the code keeps no such record. */
  datatype Sys = Sys(cache: Cache, callers: map<nat, Caller>, clock: nat, fetches: seq<Fetch>)

  datatype Step =
    | Tick(now: nat)
    | Hit(id: string, answer: Answer)
    | Miss(caller: nat, id: string)
    | FetchOver(caller: nat, answer: Answer)
    | Put(caller: nat)

  ghost predicate Next(cfg: Config, s: Sys, step: Step, s': Sys) {
    match step
    case Tick(now) =>
      s.clock <= now && s' == s.(clock := now)
    case Hit(id, answer) =>
      Cached(s.cache, id, s.clock) == Some(answer) && s' == s
    case Miss(c, id) =>
      && c !in s.callers
      && Cached(s.cache, id, s.clock) == None
      && s' == s.(callers := s.callers[c := Fetching(id)])
    case FetchOver(c, answer) =>
      && c in s.callers && s.callers[c].Fetching?
      && var id := s.callers[c].id;
         s' == s.(callers := s.callers[c := Holding(id, Stamped(cfg, answer, s.clock))],
                  fetches := s.fetches + [Fetch(id, answer, s.clock)])
    case Put(c) =>
      && c in s.callers && s.callers[c].Holding?
      && Stored(s.cache, s.callers[c].id, s.callers[c].entry, s.clock, s'.cache)
      && s' == s.(cache := s'.cache, callers := s.callers - {c})
  }

  ghost predicate Run(cfg: Config, states: seq<Sys>, steps: seq<Step>) {
    && |states| == |steps| + 1
    && states[0].cache == map[] && states[0].callers == map[] && states[0].fetches == []
    && forall i :: 0 <= i < |steps| ==> Next(cfg, states[i], steps[i], states[i + 1])
  }

  /** The entry is what some fetch for this very ID left when it was over. */
  ghost predicate Earned(cfg: Config, s: Sys, id: string, entry: Entry) {
    exists f :: f in s.fetches && f.id == id && f.at <= s.clock && entry == Stamped(cfg, f.answer, f.at)
  }

  ghost predicate Inv(cfg: Config, s: Sys) {
    && |s.cache| <= MAX_CACHE_ENTRIES
    && (forall id :: id in s.cache ==> Earned(cfg, s, id, s.cache[id]))
    && (forall c :: c in s.callers && s.callers[c].Holding? ==>
          Earned(cfg, s, s.callers[c].id, s.callers[c].entry))
  }

  lemma StoredIsBounded(before: Cache, id: string, entry: Entry, now: nat, after: Cache)
    requires Stored(before, id, entry, now, after) && |before| <= MAX_CACHE_ENTRIES
    ensures |after| <= MAX_CACHE_ENTRIES
    ensures id in after && after[id] == entry
    ensures forall k :: k in after && k != id ==> k in before && after[k] == before[k]
  {
    if id in before {
      assert after.Keys == before.Keys;
      assert |after| == |after.Keys| == |before.Keys|;
    } else {
      var base := if |before| < MAX_CACHE_ENTRIES then before else Live(before, now);
      if after == base[id := entry] {
        assert after.Keys == base.Keys + {id};
        assert |after| == |after.Keys| && |base| == |base.Keys|;
      }
    }
  }

  lemma FewerLive(before: Cache, now: nat, k: string)
    requires k in before && now >= before[k].expiresAt
    ensures |Live(before, now)| < |before|
  {
    assert Live(before, now).Keys <= before.Keys - {k};
    SubsetCount(Live(before, now).Keys, before.Keys - {k});
    assert |before.Keys| == |before| && |Live(before, now).Keys| == |Live(before, now)|;
  }

  lemma OneIsLost(before: Cache, id: string, after: Cache)
    requires id !in before && id in after && |after| == |before| && after.Keys - {id} <= before.Keys
    ensures |before.Keys - after.Keys| == 1
  {
    assert |after.Keys| == |after| && |before.Keys| == |before|;
    assert before.Keys - after.Keys == before.Keys - (after.Keys - {id});
  }

  /** A live entry is lost only to a new ID in a full cache of live entries, and then one is lost. */
  lemma LiveEntriesAreKept(before: Cache, id: string, entry: Entry, now: nat, after: Cache)
    requires Stored(before, id, entry, now, after) && |before| <= MAX_CACHE_ENTRIES
    ensures (exists k :: k in before && k != id && now < before[k].expiresAt && k !in after) ==>
              id !in before && |before| == MAX_CACHE_ENTRIES && forall k :: k in before ==> now < before[k].expiresAt
    ensures id !in before && |before| == MAX_CACHE_ENTRIES
            && (forall k :: k in before ==> now < before[k].expiresAt) ==>
              |before.Keys - after.Keys| == 1
  {
    if id !in before && |before| == MAX_CACHE_ENTRIES {
      if k :| k in before && now >= before[k].expiresAt {
        FewerLive(before, now, k);
      } else {
        assert Live(before, now) == before;
        OneIsLost(before, id, after);
      }
    }
  }

  lemma SubsetCount(a: set<string>, b: set<string>)
    requires a <= b
    ensures |a| <= |b|
  {
    assert b == a + (b - a);
  }

  lemma NextKeepsInv(cfg: Config, s: Sys, step: Step, s': Sys)
    requires Inv(cfg, s) && Next(cfg, s, step, s')
    ensures Inv(cfg, s') && s.clock <= s'.clock && s.fetches <= s'.fetches
  {
    forall id, entry | Earned(cfg, s, id, entry)
      ensures Earned(cfg, s', id, entry)
    {
      var f :| f in s.fetches && f.id == id && f.at <= s.clock && entry == Stamped(cfg, f.answer, f.at);
      assert f in s'.fetches;
    }
    match step {
      case FetchOver(c, answer) =>
        var f := Fetch(s.callers[c].id, answer, s.clock);
        assert f in s'.fetches;
        assert Earned(cfg, s', f.id, Stamped(cfg, answer, s.clock));
      case Put(c) =>
        StoredIsBounded(s.cache, s.callers[c].id, s.callers[c].entry, s.clock, s'.cache);
      case _ =>
    }
  }

  lemma {:induction false} RunKeepsInv(cfg: Config, states: seq<Sys>, steps: seq<Step>, n: nat)
    requires Run(cfg, states, steps) && n <= |steps|
    ensures Inv(cfg, states[n])
  {
    if n > 0 {
      RunKeepsInv(cfg, states, steps, n - 1);
      NextKeepsInv(cfg, states[n - 1], steps[n - 1], states[n]);
    }
  }

  /** However the callers interleave and whatever is evicted: the cache stays within its bound, and
      an answer served from it is that of a fetch for the same ID which was over less than its
      lifetime ago. */
  lemma ServedIsFresh(cfg: Config, states: seq<Sys>, steps: seq<Step>, n: nat)
    requires Run(cfg, states, steps) && n < |steps|
    ensures |states[n].cache| <= MAX_CACHE_ENTRIES
    ensures steps[n].Hit? ==>
              exists f :: f in states[n].fetches && f.id == steps[n].id && f.answer == steps[n].answer
                          && f.at <= states[n].clock < f.at + if f.answer.Ok? then cfg.cacheTtl else cfg.negativeTtl
  {
    RunKeepsInv(cfg, states, steps, n);
    if steps[n].Hit? {
      var s, id := states[n], steps[n].id;
      assert Next(cfg, s, steps[n], states[n + 1]);
      assert Earned(cfg, s, id, s.cache[id]);
      var f :| f in s.fetches && f.id == id && f.at <= s.clock && s.cache[id] == Stamped(cfg, f.answer, f.at);
    }
  }

  /** A store that finds its ID cached, or fewer live entries than the cache can hold. */
  ghost predicate HasRoom(s: Sys, step: Step) {
    step.Put? && step.caller in s.callers ==>
      s.callers[step.caller].id in s.cache || |Live(s.cache, s.clock)| < MAX_CACHE_ENTRIES
  }

  ghost predicate Puts(s: Sys, step: Step, id: string) {
    step.Put? && step.caller in s.callers && s.callers[step.caller].id == id
  }

  lemma ClockGrows(cfg: Config, s: Sys, step: Step, s': Sys)
    requires Next(cfg, s, step, s')
    ensures s.clock <= s'.clock
  {
    hide Stored, Stamped, Cached;
  }

  lemma EntryStays(cfg: Config, s: Sys, step: Step, s': Sys, id: string)
    requires Next(cfg, s, step, s') && HasRoom(s, step) && !Puts(s, step, id)
    requires id in s.cache && s.clock < s.cache[id].expiresAt
    ensures id in s'.cache && s'.cache[id] == s.cache[id]
  {
  }

  /** The bound costs nothing while live entries fit in it: until it expires or is stored anew, an
      entry keeps answering for its ID. */
  lemma {:induction false} AnswersUntilExpiry(cfg: Config, states: seq<Sys>, steps: seq<Step>,
                                              from: nat, n: nat, id: string)
    requires Run(cfg, states, steps) && from <= n <= |steps|
    requires id in states[from].cache && states[n].clock < states[from].cache[id].expiresAt
    requires forall i :: from <= i < n ==> HasRoom(states[i], steps[i]) && !Puts(states[i], steps[i], id)
    ensures id in states[n].cache && states[n].cache[id] == states[from].cache[id]
    ensures Cached(states[n].cache, id, states[n].clock) == Some(states[from].cache[id].answer)
  {
    hide Next, HasRoom, Puts;
    if from < n {
      var s, step := states[n - 1], steps[n - 1];
      assert Next(cfg, s, step, states[n]);
      ClockGrows(cfg, s, step, states[n]);
      AnswersUntilExpiry(cfg, states, steps, from, n - 1, id);
      EntryStays(cfg, s, step, states[n], id);
    }
  }

  lemma HoldsOn(cfg: Config, s: Sys, step: Step, s': Sys, c: nat)
    requires Next(cfg, s, step, s') && c in s.callers && s.callers[c].Holding? && step != Put(c)
    ensures c in s'.callers && s'.callers[c] == s.callers[c]
  {
    hide Stored, Stamped, Cached;
  }

  lemma {:induction false} HoldsUntilPut(cfg: Config, states: seq<Sys>, steps: seq<Step>, from: nat, n: nat, c: nat)
    requires Run(cfg, states, steps) && from <= n <= |steps|
    requires c in states[from].callers && states[from].callers[c].Holding?
    requires forall i :: from <= i < n ==> steps[i] != Put(c)
    ensures c in states[n].callers && states[n].callers[c] == states[from].callers[c]
  {
    hide Next;
    if from < n {
      HoldsUntilPut(cfg, states, steps, from, n - 1, c);
      assert Next(cfg, states[n - 1], steps[n - 1], states[n]);
      HoldsOn(cfg, states[n - 1], steps[n - 1], states[n], c);
    }
  }

  lemma PutIsCached(cfg: Config, s: Sys, c: nat, s': Sys)
    requires Next(cfg, s, Put(c), s')
    ensures s.callers[c].id in s'.cache && s'.cache[s.callers[c].id] == s.callers[c].entry
    ensures s'.clock == s.clock
  {
  }

  /** What a fetch brought at one moment and its caller then stored answers for its ID, while live
      entries fit and nobody stores it anew, for the lifetime of a document or of an error counted from
      that moment. */
  lemma FetchedAnswers(cfg: Config, states: seq<Sys>, steps: seq<Step>, i: nat, j: nat, n: nat, id: string)
    requires Run(cfg, states, steps) && i < j < n <= |steps|
    requires steps[i].FetchOver? && steps[i].caller in states[i].callers && states[i].callers[steps[i].caller].id == id
    requires steps[j] == Put(steps[i].caller) && forall m :: i < m < j ==> steps[m] != Put(steps[i].caller)
    requires forall m :: j < m < n ==> HasRoom(states[m], steps[m]) && !Puts(states[m], steps[m], id)
    requires states[n].clock < states[i].clock + if steps[i].answer.Ok? then cfg.cacheTtl else cfg.negativeTtl
    ensures Cached(states[n].cache, id, states[n].clock) == Some(steps[i].answer)
  {
    hide Stored, HasRoom, Puts;
    assert Next(cfg, states[i], steps[i], states[i + 1]);
    HoldsUntilPut(cfg, states, steps, i + 1, j, steps[i].caller);
    assert Next(cfg, states[j], steps[j], states[j + 1]);
    PutIsCached(cfg, states[j], steps[i].caller, states[j + 1]);
    hide Run, Next, Cached;
    AnswersUntilExpiry(cfg, states, steps, j + 1, n, id);
  }
}
