/** The cache facade and the outcome of a cache write. */
module CacheBase {

  /**
   * What an `UpdateCacheFuture` completes with: `Ok(())`, carrying no value,
   * or the backend's error.
   */
  datatype UpdateResult<E> = Updated | Failed(error: E)

  /**
   * `Cache<B>`: a cache bound to one backend type `B`, holding one shared
   * handle to it.
   */
  class Cache<B> {
    const backend: B

    constructor (backend: B)
      ensures this.backend == backend
    {
      this.backend := backend;
    }

    /** `backend()`: the cache's one handle; reading it changes nothing, so every call returns the same handle. */
    function Backend(): (handle: B)
      ensures handle == backend
    {
      backend
    }
  }
}
