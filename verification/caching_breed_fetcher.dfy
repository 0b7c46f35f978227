/**
 CachingBreedFetcher: a breed fetcher that memoises another one. The first
 successful answer for a breed is kept for good; failed lookups are not kept;
 every lookup that reaches the wrapped fetcher is counted, whatever its outcome.
 */
module Caching {
  import opened BreedFetcher
  import opened CachePolicy
  import JavaInt

  class CachingBreedFetcher {
    /** Calls made to the wrapped fetcher, as the Java `int` the source keeps. */
    var callsMade: int
    const fetcher: BreedSource
    var breedCache: map<string, seq<string>>
    /** Every call made to the wrapped fetcher, with its answer. */
    ghost var calls: seq<SourceCall>

    /** The abstract state this object implements. */
    ghost function State(): CacheState
      reads this
    {
      CacheState(breedCache, calls)
    }

    /**
     The object invariant: the counter is the number of calls made, held in a
     32-bit `int`, and the cache agrees with the answers the fetcher gave.
     */
    ghost predicate Valid()
      reads this
    {
      callsMade == JavaInt.Wrap(|calls|) && Consistent(State())
    }

    constructor (fetcher: BreedSource)
      ensures Valid()
      ensures this.fetcher == fetcher
      ensures State() == Initial
      ensures callsMade == 0
    {
      this.fetcher := fetcher;
      callsMade := 0;
      breedCache := map[];
      calls := [];
      new;
      InitialConsistent();
    }

    /**
     Returns the sub-breeds of `breed` from the cache if it is there; otherwise
     asks the wrapped fetcher, counts the call whether or not it succeeds, and
     caches the answer only if it succeeds. A failure is handed back unchanged.
     */
    method GetSubBreeds(breed: string) returns (r: FetchResult)
      requires Valid()
      modifies this, fetcher
      ensures Valid()
      ensures (State(), r) == Lookup(old(State()), breed, fetcher.respond(breed, |old(fetcher.requests)|))
      // hit: answered from the cache; the fetcher is not consulted and nothing changes
      ensures breed in old(breedCache) ==>
        && r == Found(old(breedCache)[breed])
        && fetcher.requests == old(fetcher.requests)
        && breedCache == old(breedCache) && callsMade == old(callsMade)
      // miss: the fetcher is consulted once and its answer handed back; the counter
      // goes up whatever the answer, and only a success is cached
      ensures breed !in old(breedCache) ==>
        && fetcher.requests == old(fetcher.requests) + [breed]
        && r == fetcher.respond(breed, |old(fetcher.requests)|)
        && callsMade == JavaInt.Wrap(old(callsMade) + 1)
        && breedCache == if r.Found? then old(breedCache)[breed := r.subBreeds] else old(breedCache)
    {
      if breed in breedCache {
        r := Found(breedCache[breed]);
      } else {
        r := fetcher.GetSubBreeds(breed);
        if r.Found? {
          breedCache := breedCache[breed := r.subBreeds];
        }
        // the `finally` block: runs on success and on failure alike
        JavaInt.WrapIncrement(|calls|);
        callsMade := JavaInt.Wrap(callsMade + 1);
        calls := calls + [SourceCall(breed, r)];
        LookupConsistent(old(State()), breed, r);
      }
    }

    /**
     The number of calls made to the wrapped fetcher. It reads the counter
     and changes nothing; it is exact until the Java `int` overflows.
     */
    method GetCallsMade() returns (n: int)
      requires Valid()
      ensures JavaInt.InRange(n)
      ensures |calls| <= JavaInt.MaxValue ==> n == |calls|
      ensures n == JavaInt.Wrap(|calls|)
    {
      n := callsMade;
    }
  }

  // ---------------------------------------------------------------------------
  // Clients: what a caller can conclude from the contracts above alone.

  function HuskyOnly(breed: string, n: nat): FetchResult {
    if breed == "husky" then Found(["example"]) else Failed(BreedNotFound(breed))
  }

  /** A miss followed by a hit: one call to the fetcher, the same list twice. */
  method MissThenHit() {
    var source := new BreedSource(HuskyOnly);
    var caching := new CachingBreedFetcher(source);
    var first := caching.GetSubBreeds("husky");
    var count := caching.GetCallsMade();
    assert first == Found(["example"]) && count == 1;
    var second := caching.GetSubBreeds("husky");
    count := caching.GetCallsMade();
    assert second == Found(["example"]) && count == 1;
    assert source.requests == ["husky"];
  }

  /** A breed that is never found is asked for, and counted, every time. */
  method NotFoundIsRetried() {
    var source := new BreedSource(HuskyOnly);
    var caching := new CachingBreedFetcher(source);
    var first := caching.GetSubBreeds("unknown");
    var second := caching.GetSubBreeds("unknown");
    var count := caching.GetCallsMade();
    assert first == second == Failed(BreedNotFound("unknown"));
    assert count == 2;
    assert "unknown" !in caching.breedCache;
  }

  /** Two breeds are cached independently, and neither is fetched again. */
  method IndependentBreeds() {
    var source := new BreedSource((breed: string, n: nat) => Found([breed]));
    var caching := new CachingBreedFetcher(source);
    var a := caching.GetSubBreeds("a");
    var b := caching.GetSubBreeds("b");
    var count := caching.GetCallsMade();
    assert count == 2;
    a := caching.GetSubBreeds("a");
    b := caching.GetSubBreeds("b");
    count := caching.GetCallsMade();
    assert count == 2;
    assert a == Found(["a"]) && b == Found(["b"]);
  }
}
