/**
 The caching policy of CachingBreedFetcher as pure functions: the state of one
 caching fetcher, one lookup, and a run of lookups, with the properties the
 policy promises stated as lemmas.
 */
module CachePolicy {
  import opened BreedFetcher
  import JavaInt

  /** One call the cache made to the wrapped fetcher, with the answer it got. */
  datatype SourceCall = SourceCall(breed: string, answer: FetchResult)

  /**
   The abstract state of a caching fetcher: the cache from breed name to its
   sub-breeds, and the history of calls that reached the wrapped fetcher (the
   call counter is its length).
   */
  datatype CacheState = CacheState(cache: map<string, seq<string>>, calls: seq<SourceCall>)

  /** The state of a freshly constructed caching fetcher. */
  const Initial: CacheState := CacheState(map[], [])

  /**
   The invariant the cache keeps with respect to the fetcher's answers:
   every cached list is one the fetcher returned for that breed, every
   successful answer is what the cache holds for its breed, and once a breed
   has been answered successfully the fetcher is never asked about it again.
   */
  ghost predicate Consistent(s: CacheState) {
    && (forall k :: k in s.cache ==> SourceCall(k, Found(s.cache[k])) in s.calls)
    && (forall i :: 0 <= i < |s.calls| && s.calls[i].answer.Found? ==>
          s.calls[i].breed in s.cache && s.cache[s.calls[i].breed] == s.calls[i].answer.subBreeds)
    && (forall i, j :: 0 <= i < j < |s.calls| && s.calls[i].answer.Found? ==>
          s.calls[j].breed != s.calls[i].breed)
  }

  /** Every entry of `before` is still in `after`, with the same list. */
  ghost predicate KeepsEntries(before: map<string, seq<string>>, after: map<string, seq<string>>) {
    forall k :: k in before ==> k in after && after[k] == before[k]
  }

  /**
   One getSubBreeds(breed) on state s. `fetched` is what the wrapped fetcher
   answers if it is asked; on a hit it is not asked and `fetched` is ignored.
   Returns the new state and the result handed to the caller.
   */
  function Lookup(s: CacheState, breed: string, fetched: FetchResult): (r: (CacheState, FetchResult))
    // a hit changes nothing and answers from the cache
    ensures breed in s.cache ==> r.0 == s && r.1 == Found(s.cache[breed])
    // a miss forwards the request exactly once and hands back the fetcher's answer unchanged
    ensures breed !in s.cache ==> r.0.calls == s.calls + [SourceCall(breed, fetched)] && r.1 == fetched
    // the caller gets a list exactly when the breed is cached afterwards, and it is the cached list
    ensures r.1.Found? <==> breed in r.0.cache
    ensures r.1.Found? ==> r.0.cache[breed] == r.1.subBreeds
    // no entry is removed or overwritten, and only `breed` can be added
    ensures KeepsEntries(s.cache, r.0.cache)
    ensures r.0.cache.Keys <= s.cache.Keys + {breed}
  {
    if breed in s.cache then
      (s, Found(s.cache[breed]))
    else
      var cache := if fetched.Found? then s.cache[breed := fetched.subBreeds] else s.cache;
      (CacheState(cache, s.calls + [SourceCall(breed, fetched)]), fetched)
  }

  /**
   A sequence of lookups on one caching fetcher. The wrapped fetcher answers
   its n-th call from this cache with source(breed, n).
   */
  function Run(s: CacheState, breeds: seq<string>, source: (string, nat) -> FetchResult): (r: CacheState)
    // the history of calls only grows, by at most one call per lookup
    ensures s.calls <= r.calls
    ensures |r.calls| <= |s.calls| + |breeds|
    decreases |breeds|
  {
    if breeds == [] then s
    else Run(Lookup(s, breeds[0], source(breeds[0], |s.calls|)).0, breeds[1..], source)
  }

  /** How many calls in a history were for `breed`. */
  function CallsFor(calls: seq<SourceCall>, breed: string): nat
  {
    if calls == [] then 0
    else (if calls[0].breed == breed then 1 else 0) + CallsFor(calls[1..], breed)
  }

  lemma {:induction false} CallsForAppend(a: seq<SourceCall>, b: seq<SourceCall>, breed: string)
    ensures CallsFor(a + b, breed) == CallsFor(a, breed) + CallsFor(b, breed)
  {
    if a != [] {
      assert (a + b)[1..] == a[1..] + b;
      CallsForAppend(a[1..], b, breed);
    } else {
      assert a + b == b;
    }
  }

  /** The calls a run adds are those of its first lookup followed by those of the rest. */
  lemma RunCallsSplit(s: CacheState, breeds: seq<string>, source: (string, nat) -> FetchResult)
    requires breeds != []
    ensures var s' := Lookup(s, breeds[0], source(breeds[0], |s.calls|)).0;
      Run(s, breeds, source).calls[|s.calls|..]
      == s'.calls[|s.calls|..] + Run(s', breeds[1..], source).calls[|s'.calls|..]
  {
    var s' := Lookup(s, breeds[0], source(breeds[0], |s.calls|)).0;
    var r := Run(s', breeds[1..], source);
    assert r.calls == s'.calls + r.calls[|s'.calls|..];
    assert s'.calls == s.calls + s'.calls[|s.calls|..];
  }

  // ---------------------------------------------------------------------------
  // One lookup

  /** A fresh caching fetcher satisfies the invariant. */
  lemma InitialConsistent()
    ensures Consistent(Initial)
    ensures Initial.cache == map[] && |Initial.calls| == 0
  {
  }

  /** One lookup keeps the invariant. */
  lemma LookupConsistent(s: CacheState, breed: string, fetched: FetchResult)
    requires Consistent(s)
    ensures Consistent(Lookup(s, breed, fetched).0)
  {
    if breed !in s.cache {
      var s' := Lookup(s, breed, fetched).0;
      var n := |s.calls|;
      forall i | 0 <= i < n && s'.calls[i].answer.Found?
        ensures s'.calls[n].breed != s'.calls[i].breed
      {
        assert s'.calls[i] == s.calls[i];
      }
      forall k | k in s'.cache
        ensures SourceCall(k, Found(s'.cache[k])) in s'.calls
      {
        if k != breed {
          assert SourceCall(k, Found(s.cache[k])) in s.calls;
        } else {
          assert s'.calls[n] == SourceCall(k, Found(s'.cache[k]));
        }
      }
    }
  }

  /**
   Looking up a breed again after a successful lookup is a hit: the same list
   comes back, whatever the fetcher would answer now, and nothing changes, so
   the two lookups together call the fetcher at most once.
   */
  lemma RepeatAfterSuccessIsHit(s: CacheState, breed: string, first: FetchResult, second: FetchResult)
    requires Lookup(s, breed, first).1.Found?
    ensures Lookup(Lookup(s, breed, first).0, breed, second) == Lookup(s, breed, first)
    ensures |Lookup(s, breed, first).0.calls| <= |s.calls| + 1
  {
  }

  /**
   A failed lookup leaves nothing behind but the call: the next lookup of the
   same breed reaches the fetcher again, and the count goes up again.
   */
  lemma RetryAfterFailure(s: CacheState, breed: string, first: FetchResult, second: FetchResult)
    requires breed !in s.cache
    requires first.Failed?
    ensures Lookup(s, breed, first).1 == first
    ensures Lookup(s, breed, first).0.cache == s.cache
    ensures Lookup(Lookup(s, breed, first).0, breed, second).1 == second
    ensures Lookup(Lookup(s, breed, first).0, breed, second).0.calls
         == s.calls + [SourceCall(breed, first), SourceCall(breed, second)]
  {
  }

  // ---------------------------------------------------------------------------
  // Runs of lookups

  /** Any run of lookups keeps the invariant. */
  lemma {:induction false} RunConsistent(s: CacheState, breeds: seq<string>, source: (string, nat) -> FetchResult)
    requires Consistent(s)
    ensures Consistent(Run(s, breeds, source))
    decreases |breeds|
  {
    if breeds != [] {
      var s' := Lookup(s, breeds[0], source(breeds[0], |s.calls|)).0;
      LookupConsistent(s, breeds[0], source(breeds[0], |s.calls|));
      RunConsistent(s', breeds[1..], source);
    }
  }

  /**
   The counter the caching fetcher reports never goes down over a run of
   lookups, as long as the number of calls still fits in a Java `int`.
   */
  lemma CounterNeverDecreases(s: CacheState, breeds: seq<string>, source: (string, nat) -> FetchResult)
    requires |Run(s, breeds, source).calls| <= JavaInt.MaxValue
    ensures JavaInt.Wrap(|s.calls|) <= JavaInt.Wrap(|Run(s, breeds, source).calls|)
  {
  }

  /**
   Nothing is ever evicted or overwritten: every entry present before a run is
   present after it with the same list, however many lookups the run makes.
   */
  lemma {:induction false} RunKeepsEntries(s: CacheState, breeds: seq<string>, source: (string, nat) -> FetchResult)
    ensures KeepsEntries(s.cache, Run(s, breeds, source).cache)
    decreases |breeds|
  {
    if breeds != [] {
      var s' := Lookup(s, breeds[0], source(breeds[0], |s.calls|)).0;
      RunKeepsEntries(s', breeds[1..], source);
    }
  }

  /** Every call a run adds to the history is for a breed the run looked up. */
  lemma {:induction false} RunCallsRequested(s: CacheState, breeds: seq<string>, source: (string, nat) -> FetchResult)
    ensures forall i :: |s.calls| <= i < |Run(s, breeds, source).calls| ==> Run(s, breeds, source).calls[i].breed in breeds
    decreases |breeds|
  {
    if breeds != [] {
      var s' := Lookup(s, breeds[0], source(breeds[0], |s.calls|)).0;
      RunCallsRequested(s', breeds[1..], source);
      var r := Run(s', breeds[1..], source);
      assert Run(s, breeds, source) == r;
      forall i | |s.calls| <= i < |r.calls| ensures r.calls[i].breed in breeds {
        if i < |s'.calls| {
          assert r.calls[i] == s'.calls[i];
        } else {
          assert r.calls[i].breed in breeds[1..];
        }
      }
    }
  }

  /**
   Once a breed is cached it is terminal: no later lookup of it reaches the
   fetcher, so the counter does not move for it again.
   */
  lemma {:induction false} CachedBreedNeverForwarded(s: CacheState, breeds: seq<string>, source: (string, nat) -> FetchResult, breed: string)
    requires breed in s.cache
    ensures CallsFor(Run(s, breeds, source).calls[|s.calls|..], breed) == 0
    decreases |breeds|
  {
    if breeds != [] {
      var s' := Lookup(s, breeds[0], source(breeds[0], |s.calls|)).0;
      CachedBreedNeverForwarded(s', breeds[1..], source, breed);
      var r := Run(s', breeds[1..], source);
      RunCallsSplit(s, breeds, source);
      CallsForAppend(s'.calls[|s.calls|..], r.calls[|s'.calls|..], breed);
      if breeds[0] != breed && breeds[0] !in s.cache {
        assert s'.calls[|s.calls|..] == [SourceCall(breeds[0], source(breeds[0], |s.calls|))];
      }
    }
  }

  /** A breed the fetcher never finds is never cached, however often it is looked up. */
  lemma {:induction false} FailingBreedNeverCached(s: CacheState, breeds: seq<string>, source: (string, nat) -> FetchResult, breed: string)
    requires breed !in s.cache
    requires forall n :: source(breed, n).Failed?
    ensures breed !in Run(s, breeds, source).cache
    decreases |breeds|
  {
    if breeds != [] {
      var s' := Lookup(s, breeds[0], source(breeds[0], |s.calls|)).0;
      FailingBreedNeverCached(s', breeds[1..], source, breed);
    }
  }

  /**
   Every lookup of a breed the fetcher never finds reaches the fetcher: a run
   calls the fetcher for that breed exactly as often as it looks it up, so the
   counter goes up on every attempt.
   */
  lemma {:induction false} FailingBreedAlwaysForwarded(s: CacheState, breeds: seq<string>, source: (string, nat) -> FetchResult, breed: string)
    requires breed !in s.cache
    requires forall n :: source(breed, n).Failed?
    ensures CallsFor(Run(s, breeds, source).calls[|s.calls|..], breed) == multiset(breeds)[breed]
    decreases |breeds|
  {
    if breeds != [] {
      var fetched := source(breeds[0], |s.calls|);
      var s' := Lookup(s, breeds[0], fetched).0;
      FailingBreedAlwaysForwarded(s', breeds[1..], source, breed);
      var r := Run(s', breeds[1..], source);
      RunCallsSplit(s, breeds, source);
      CallsForAppend(s'.calls[|s.calls|..], r.calls[|s'.calls|..], breed);
      assert breeds == [breeds[0]] + breeds[1..];
      if breeds[0] !in s.cache {
        assert s'.calls[|s.calls|..] == [SourceCall(breeds[0], fetched)];
      }
    }
  }

  /**
   A breed is cached after a run exactly when it was cached before or one of
   the run's calls to the fetcher for it succeeded.
   */
  lemma {:induction false} CachedIffFetched(s: CacheState, breeds: seq<string>, source: (string, nat) -> FetchResult, breed: string)
    ensures breed in Run(s, breeds, source).cache <==>
      breed in s.cache ||
      exists i :: |s.calls| <= i < |Run(s, breeds, source).calls| &&
        Run(s, breeds, source).calls[i].breed == breed && Run(s, breeds, source).calls[i].answer.Found?
    decreases |breeds|
  {
    if breeds != [] {
      var s' := Lookup(s, breeds[0], source(breeds[0], |s.calls|)).0;
      CachedIffFetched(s', breeds[1..], source, breed);
      RunKeepsEntries(s', breeds[1..], source);
      var r := Run(s, breeds, source);
      if |s'.calls| == |s.calls| + 1 {
        assert r.calls[|s.calls|] == s'.calls[|s.calls|];
      }
    }
  }
}
