/**
 The contract every breed fetcher offers: given a breed name, the list of its
 sub-breed names, or a failure. The Java interface reports a failure by throwing
 (a checked BreedNotFoundException, or any unchecked exception of the
 implementation); here a failure is a value of FetchResult.
 */
module BreedFetcher {

  /** Why a fetch failed. */
  datatype FetchError =
    | BreedNotFound(breed: string)   // the source has no data for the breed
    | SourceError(reason: string)    // any other failure of the source (transport, parsing, ...)

  /** What a call to getSubBreeds produces: the sub-breeds, or the failure it raised. */
  datatype FetchResult =
    | Found(subBreeds: seq<string>)
    | Failed(error: FetchError)

  /**
   The wrapped fetcher, as an oracle. Its real implementations (HTTP requests,
   JSON parsing) are not part of this model; all that matters is that it answers.
   The answer to a request is an arbitrary function of the breed and of the
   position of the request in the fetcher's own history, so the same breed may
   be answered differently over time (a network source may fail and later
   succeed). `requests` records every request the fetcher has received, which
   is how a caller's contract can say whether the fetcher was consulted.
   */
  class BreedSource {
    const respond: (string, nat) -> FetchResult
    var requests: seq<string>

    constructor (respond: (string, nat) -> FetchResult)
      ensures this.respond == respond
      ensures requests == []
    {
      this.respond := respond;
      requests := [];
    }

    /** Answers one request and records it. */
    method GetSubBreeds(breed: string) returns (r: FetchResult)
      modifies this
      ensures requests == old(requests) + [breed]
      ensures r == respond(breed, |old(requests)|)
    {
      r := respond(breed, |requests|);
      requests := requests + [breed];
    }
  }
}
