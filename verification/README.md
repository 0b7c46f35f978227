# CachingBreedFetcher in Dafny

This project models `CachingBreedFetcher`, the component of the dog-breed
fetcher repository that caches lookups. It is a `BreedFetcher` that wraps
another `BreedFetcher`. `getSubBreeds(breed)` answers from a table from breed
name to sub-breed list when the breed is there (a hit). Otherwise (a miss) it
asks the wrapped fetcher and counts that call in a `finally` block, so the count
goes up whether the call succeeds or throws. It stores the answer only when the
call succeeds. `getCallsMade()` reports the counter.

The project has four modules:

- `BreedFetcher` (breed_fetcher.dfy): the outcome of a fetch, `FetchResult`,
  which is `Found(subBreeds)` or `Failed(error)`. The error is
  `BreedNotFound` or `SourceError`, and it stands for the exception Java would
  throw. The module also holds `BreedSource`, the wrapped fetcher as an oracle.
  Its answer is an arbitrary function of the breed and of the request's position
  in its history. It logs every request it receives, so a contract can say
  whether it was consulted.
- `JavaInt` (java_int.dfy): the 32-bit two's-complement `int` that holds
  `callsMade`, with `++` wrapping from 2^31 - 1 to -2^31.
- `CachePolicy` (cache_policy.dfy): the caching policy as pure functions.
  `CacheState` holds the cache and the history of calls made to the wrapped
  fetcher (the count is its length). `Lookup` is one `getSubBreeds`, and `Run`
  is a sequence of them. `Consistent` is the invariant the cache keeps with the
  fetcher's answers. The lemmas state the per-breed state machine: a breed is
  UNSEEN, stays UNSEEN after a failed attempt, and becomes CACHED for good after
  a successful one.
- `Caching` (caching_breed_fetcher.dfy): the class `CachingBreedFetcher`, with
  the source's fields `callsMade`, `fetcher` and `breedCache`. Its
  `GetSubBreeds` updates them in place and is proved equal to
  `CachePolicy.Lookup` on its abstract state. It also holds three client
  methods. They check, from the contracts alone, the behaviours the component is
  documented to have: a miss then a hit, a not-found breed retried, and two
  breeds cached independently.

## Model

| member | source | states |
|---|---|---|
| `Caching.CachingBreedFetcher.constructor` | src/main/java/dogapi/CachingBreedFetcher.java:16-22 | A new caching fetcher keeps the given fetcher, has an empty cache and `callsMade == 0`, and satisfies the invariant |
| `Caching.CachingBreedFetcher.GetSubBreeds` | src/main/java/dogapi/CachingBreedFetcher.java:24-41 | On a hit it returns the stored list and changes nothing: the counter, the cache and the wrapped fetcher's request log stay as they were. On a miss it asks the wrapped fetcher exactly once and returns its answer unchanged. The counter then goes up by one (as a Java `int`) on success and on failure alike, and only a success is added to the cache. The new state is `Lookup` of the old one, and the invariant is kept |
| `Caching.CachingBreedFetcher.GetCallsMade` | src/main/java/dogapi/CachingBreedFetcher.java:43-45 | Changes nothing and returns the number of calls made to the wrapped fetcher, wrapped to a Java `int`. The result is that number exactly while it is at most 2^31 - 1 |
| `BreedFetcher.BreedSource.GetSubBreeds` | src/main/java/dogapi/CachingBreedFetcher.java:17-33 | The wrapped fetcher answers with its oracle's answer for this breed and request position, and logs the request |
| `JavaInt.Wrap` | src/main/java/dogapi/CachingBreedFetcher.java:16 | The `int` that holds a count is in the 32-bit range, agrees with the count modulo 2^32, and equals the count when the count fits |
| `JavaInt.WrapIncrement` | src/main/java/dogapi/CachingBreedFetcher.java:36 | Applying `++` to the `int` holding n gives the `int` holding n + 1, so the counter always equals the exact call count wrapped to 32 bits |
| `CachePolicy.Lookup` | src/main/java/dogapi/CachingBreedFetcher.java:29-40 | A hit leaves the state alone and returns the cached list. A miss appends exactly one call to the history and returns the fetcher's answer unchanged. The caller gets a list exactly when the breed is cached afterwards, and it is the cached list. No entry is removed or overwritten, and only `breed` can be added |
| `CachePolicy.Run` | src/main/java/dogapi/CachingBreedFetcher.java:31-37 | Over any sequence of lookups the history of calls only grows, by at most one call per lookup |
| `CachePolicy.InitialConsistent` | src/main/java/dogapi/CachingBreedFetcher.java:16-18 | The fresh state has an empty cache and no calls, and satisfies the invariant |
| `CachePolicy.LookupConsistent` | src/main/java/dogapi/CachingBreedFetcher.java:29-37 | One lookup keeps the invariant. Every cached list is one the fetcher returned for that breed. Every successful answer is what the cache holds. After a success the fetcher is never asked about that breed again |
| `CachePolicy.RunConsistent` | src/main/java/dogapi/CachingBreedFetcher.java:29-37 | Any run of lookups keeps that invariant |
| `CachePolicy.RepeatAfterSuccessIsHit` | src/main/java/dogapi/CachingBreedFetcher.java:29-34 | After a successful lookup, looking the same breed up again returns the identical list and changes nothing, whatever the fetcher would answer now; the two lookups make at most one call |
| `CachePolicy.RetryAfterFailure` | src/main/java/dogapi/CachingBreedFetcher.java:32-37 | A failed lookup hands back the failure unchanged and leaves the cache untouched; the next lookup of that breed reaches the fetcher again and adds a second call |
| `CachePolicy.CounterNeverDecreases` | src/main/java/dogapi/CachingBreedFetcher.java:36 | Over any run of lookups the reported counter does not go down while the call count fits in an `int` |
| `CachePolicy.RunKeepsEntries` | src/main/java/dogapi/CachingBreedFetcher.java:29-34 | No eviction and no overwrite: every entry present before a run is present after it with the same list |
| `CachePolicy.RunCallsRequested` | src/main/java/dogapi/CachingBreedFetcher.java:31-33 | Every call a run makes to the fetcher is for a breed the run looked up |
| `CachePolicy.CachedBreedNeverForwarded` | src/main/java/dogapi/CachingBreedFetcher.java:29-30 | Once a breed is cached, no later lookup of it reaches the fetcher |
| `CachePolicy.FailingBreedNeverCached` | src/main/java/dogapi/CachingBreedFetcher.java:10-11 | A breed the fetcher never finds is never cached, however often it is looked up |
| `CachePolicy.FailingBreedAlwaysForwarded` | src/main/java/dogapi/CachingBreedFetcher.java:31-37 | Such a breed reaches the fetcher on every lookup: the run calls the fetcher for it exactly as often as it looks it up |
| `CachePolicy.CachedIffFetched` | src/main/java/dogapi/CachingBreedFetcher.java:29-34 | A breed is cached after a run if and only if it was cached before or one of the run's calls to the fetcher for it succeeded |

## Left out

- The real implementations of the wrapped `BreedFetcher` (HTTP requests, JSON parsing) are not part of this model. The wrapped fetcher is the oracle `BreedSource`.
- Java exceptions are values: a thrown `BreedNotFoundException` or any other exception becomes `Failed(error)`. The `finally` block becomes an increment on both the success and the failure path.
- `CachingBreedFetcher` itself implements `BreedFetcher`, so Java can wrap one caching fetcher in another. Without an interface type the model's wrapped fetcher is always a `BreedSource`.
- List aliasing is not modelled. Java returns the cached `List` object itself, not a copy, so a caller that mutates it changes the cache. Dafny sequences are immutable values.
- `HashMap` details are not modelled: hashing, and the `null` key and `null` list values Java would accept and cache.
- Thread safety is not modelled. The class has no synchronisation and is modelled as used from one thread.
