/**
 * The HTTP method enumeration (HttpMethod.java) with its three tables:
 * which methods invalidate a cache, require a request body, or permit one.
 */
module HttpMethods {

  datatype HttpMethod =
    | GET | HEAD | POST | PUT | DELETE | PATCH | MOVE
    | OPTIONS | REPORT | PROPFIND | PROPPATCH | MKCOL | LOCK | UNLOCK

  predicate InvalidatesCache(m: HttpMethod) {
    m == POST || m == PATCH || m == PUT || m == DELETE || m == MOVE
  }

  predicate RequiresRequestBody(m: HttpMethod) {
    m == POST || m == PATCH || m == PUT || m == PROPPATCH || m == REPORT
  }

  predicate PermitsRequestBody(m: HttpMethod) {
    RequiresRequestBody(m) || m == DELETE || m == OPTIONS || m == PROPFIND || m == MKCOL || m == LOCK
  }

  /** Ten methods permit a body; exactly GET, HEAD, MOVE and UNLOCK do not. */
  lemma BodyPermitters(m: HttpMethod)
    ensures !PermitsRequestBody(m) <==> m in {GET, HEAD, MOVE, UNLOCK}
  {
  }

  /** Of the methods that invalidate a cache, only DELETE and MOVE do not require a body, and both still invalidate. */
  lemma CacheInvalidatorsWithoutBody(m: HttpMethod)
    ensures InvalidatesCache(m) && !RequiresRequestBody(m) <==> m in {DELETE, MOVE}
  {
  }

  /** A method that requires a body always permits one. */
  lemma RequiresImpliesPermits(m: HttpMethod)
    ensures RequiresRequestBody(m) ==> PermitsRequestBody(m)
  {
  }

  /** A method that neither requires nor permits a body. */
  lemma NoBodyMethods(m: HttpMethod)
    requires m in [GET, HEAD, MOVE, UNLOCK]
    ensures !RequiresRequestBody(m) && !PermitsRequestBody(m)
  {
  }
}
