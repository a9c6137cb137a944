/** The request path of 01/src/main.rs: `retrieve_image`, the get-or-fetch over
    the shared LRU cache, and `generate`, which runs the steps of one request and
    maps the first failing one to an HTTP status.

    The model is sequential: a request takes the cache and returns the cache it
    leaves behind. The URL hash (`DefaultHasher`) and the network fetch
    (`reqwest::get` followed by `bytes()`) are parameters; each call of
    `retrieve_image` consults the fetch oracle at most once, and the URLs it
    fetched are returned so that "no fetch" can be stated.
 */
module Server {
  import opened Wrappers
  import opened Abi
  import opened PhotonApi
  import opened Pb
  import Engine
  import Lru

  /** The capacity the cache is created with. */
  const CacheCapacity: nat := 1024

  const BadRequest: int := 400
  const InternalServerError: int := 500

  /** The quality of the JPEG the service answers with. */
  const JpegQuality: u8 := 85

  type ImageCache = Lru.Cache<Bytes>

  /** The cache `main` creates: empty, capacity 1024. */
  function NewCache(): (c: ImageCache)
    ensures Lru.Valid(c) && c.cap == CacheCapacity && |c.entries| == 0
  {
    Lru.New(CacheCapacity)
  }

  /** What the world supplies to a request: the hash of a URL, the outcome of
      fetching a URL, the prost codec and the photon_rs calls. */
  datatype Env<!Img> = Env(
    hash: string -> u64,
    fetch: string -> Result<Bytes, string>,
    prost: Prost,
    photon: Photon<Img>)

  datatype Retrieval = Retrieval(data: Result<Bytes, string>, cache: ImageCache, fetched: seq<string>)

  /** `retrieve_image`. The key is the hash of the URL. A hit returns the stored
      bytes, fetches nothing, and keeps the stored entries. A miss fetches the URL
      exactly once; a failed fetch is returned and leaves the cache as it was; a
      successful one is stored under the key and returned. */
  function RetrieveImage<Img>(env: Env<Img>, cache: ImageCache, url: string): (r: Retrieval)
    requires Lru.Valid(cache)
    ensures Lru.Valid(r.cache) && r.cache.cap == cache.cap
    ensures env.hash(url) in cache.entries ==>
              && r.data == Ok(cache.entries[env.hash(url)])
              && r.fetched == []
              && r.cache.entries == cache.entries
    ensures env.hash(url) !in cache.entries ==> r.fetched == [url] && r.data == env.fetch(url)
    ensures env.hash(url) !in cache.entries && env.fetch(url).Err? ==> r.cache == cache
    ensures env.hash(url) !in cache.entries && env.fetch(url).Ok? ==>
              env.hash(url) in r.cache.entries && r.cache.entries[env.hash(url)] == env.fetch(url).value
  {
    var key := env.hash(url);
    var (hit, touched) := Lru.Get(cache, key);
    match hit
    case Some(v) => Retrieval(Ok(v), touched, [])
    case None =>
      match env.fetch(url)
      case Err(e) => Retrieval(Err(e), touched, [url])
      case Ok(data) => Retrieval(Ok(data), Lru.Put(touched, key, data), [url])
  }

  /** A cache created by the service never holds more than 1024 sources, however
      many requests it has served. */
  lemma CacheStaysBounded<Img>(env: Env<Img>, cache: ImageCache, url: string)
    requires Lru.Valid(cache) && cache.cap == CacheCapacity
    ensures |RetrieveImage(env, cache, url).cache.entries| <= CacheCapacity
  {
    Lru.SizeBounded(RetrieveImage(env, cache, url).cache);
  }

  /** Once a URL has been fetched, asking for it again is a hit: the same bytes,
      no fetch, whatever the network would now answer. */
  lemma SecondRetrieveHits<Img>(env: Env<Img>, env2: Env<Img>, cache: ImageCache, url: string)
    requires Lru.Valid(cache) && env2.hash == env.hash
    requires RetrieveImage(env, cache, url).data.Ok?
    ensures var first := RetrieveImage(env, cache, url);
            var second := RetrieveImage(env2, first.cache, url);
            second.data == first.data && second.fetched == []
  {
  }

  /** Keys are compared, not URLs: a URL whose hash collides with a cached one is
      answered with the other URL's bytes and is never fetched. */
  lemma CollidingUrlsShareAnEntry<Img>(env: Env<Img>, cache: ImageCache, url1: string, url2: string)
    requires Lru.Valid(cache)
    requires env.hash(url1) == env.hash(url2) && env.hash(url1) in cache.entries
    ensures RetrieveImage(env, cache, url2).data == RetrieveImage(env, cache, url1).data
    ensures RetrieveImage(env, cache, url2).fetched == []
  {
  }

  /** A miss on a full cache stores the new source and evicts exactly the least
      recently used one; a lookup counts as a use, so a source just looked up is
      the last candidate for eviction. */
  lemma MissOnFullCacheEvictsLeastRecent<Img>(env: Env<Img>, cache: ImageCache, url: string)
    requires Lru.Valid(cache) && |cache.order| == cache.cap
    requires env.hash(url) !in cache.entries && env.fetch(url).Ok?
    ensures RetrieveImage(env, cache, url).cache.entries.Keys
         == cache.entries.Keys - {cache.order[0]} + {env.hash(url)}
  {
  }

  lemma HitMakesMostRecent<Img>(env: Env<Img>, cache: ImageCache, url: string)
    requires Lru.Valid(cache) && env.hash(url) in cache.entries
    ensures var c := RetrieveImage(env, cache, url).cache;
            c.order[|c.order| - 1] == env.hash(url)
  {
  }

  /** What `generate` answers: the image with its content type, an HTTP error
      status, or nothing at all because a panic ended the request. */
  datatype Response = Image(contentType: string, body: Bytes) | Status(code: int) | Panic(message: string)

  datatype Served = Served(response: Response, cache: ImageCache, fetched: seq<string>)

  /** The source image a request works on: the retrieved bytes, decoded. */
  function Decoded<Img>(env: Env<Img>, r: Retrieval): Option<Img> {
    if r.data.Ok? then env.photon.openImage(r.data.value) else None
  }

  /** The steps of `generate` after the spec is parsed: retrieve the source (a
      failure is 400), decode it (a failure is 500), apply the specs (a panic
      ends the request), encode a JPEG of quality 85. The cache and the fetches
      are those of the retrieval, whatever the later steps do. */
  function Process<Img>(env: Env<Img>, cache: ImageCache, spec: ImageSpec, url: string): (s: Served)
    requires Lru.Valid(cache)
    ensures Lru.Valid(s.cache)
    ensures var r := RetrieveImage(env, cache, url);
            s.cache == r.cache && s.fetched == r.fetched
    ensures s.response == Status(BadRequest) <==> RetrieveImage(env, cache, url).data.Err?
    ensures var r := RetrieveImage(env, cache, url);
            s.response == Status(InternalServerError) <==> r.data.Ok? && Decoded(env, r).None?
    ensures var src := Decoded(env, RetrieveImage(env, cache, url));
            s.response.Panic? <==> src.Some? && Engine.Apply(env.photon, src.value, spec.specs).Panicked?
    ensures var src := Decoded(env, RetrieveImage(env, cache, url));
            s.response.Panic? ==> s.response.message == Engine.Apply(env.photon, src.value, spec.specs).message
    ensures var src := Decoded(env, RetrieveImage(env, cache, url));
            s.response.Image? <==> src.Some? && Engine.Apply(env.photon, src.value, spec.specs).Returned?
    ensures var src := Decoded(env, RetrieveImage(env, cache, url));
            s.response.Image? ==>
              s.response == Image("image/jpeg",
                env.photon.encode(Engine.Apply(env.photon, src.value, spec.specs).value, Jpeg(JpegQuality)))
  {
    var r := RetrieveImage(env, cache, url);
    match r.data
    case Err(_) => Served(Status(BadRequest), r.cache, r.fetched)
    case Ok(data) =>
      match env.photon.openImage(data)
      case None => Served(Status(InternalServerError), r.cache, r.fetched)
      case Some(img) =>
        match Engine.Apply(env.photon, img, spec.specs)
        case Panicked(m) => Served(Panic(m), r.cache, r.fetched)
        case Returned(out) =>
          Served(Image("image/jpeg", env.photon.encode(out, Jpeg(JpegQuality))), r.cache, r.fetched)
  }

  /** The token decodes, but prost refuses the bytes. */
  predicate SpecRejected(p: Prost, token: string) {
    ParseSpec(p, token).Returned? && ParseSpec(p, token).value.Err?
  }

  predicate SpecAccepted(p: Prost, token: string) {
    ParseSpec(p, token).Returned? && ParseSpec(p, token).value.Ok?
  }

  /** `generate` as written. A spec that prost refuses is a 400 and a token the
      base64 decoder refuses is a panic; either way the source is not fetched
      and the cache is untouched. A parsed spec is processed: a failed
      retrieval is a 400, an undecodable image a 500, a panicking transform a
      panic, and otherwise the JPEG of the transformed image. */
  function Generate<Img>(env: Env<Img>, cache: ImageCache, token: string, url: string): (s: Served)
    requires Lru.Valid(cache)
    ensures Lru.Valid(s.cache)
    ensures !SpecAccepted(env.prost, token) ==> s.cache == cache && s.fetched == []
    ensures ParseSpec(env.prost, token).Panicked? ==> s.response.Panic?
    ensures s.response == Status(BadRequest) <==>
              || SpecRejected(env.prost, token)
              || (SpecAccepted(env.prost, token) && RetrieveImage(env, cache, url).data.Err?)
    ensures s.response == Status(InternalServerError) <==>
              && SpecAccepted(env.prost, token)
              && RetrieveImage(env, cache, url).data.Ok?
              && env.photon.openImage(RetrieveImage(env, cache, url).data.value).None?
    ensures s.response.Image? ==> s.response.contentType == "image/jpeg"
    ensures SpecAccepted(env.prost, token) ==>
              s == Process(env, cache, ParseSpec(env.prost, token).value.value, url)
    ensures ParseSpec(env.prost, token).Panicked? ==>
              s == Served(Panic(ParseSpec(env.prost, token).message), cache, [])
  {
    match ParseSpec(env.prost, token)
    case Panicked(m) => Served(Panic(m), cache, [])
    case Returned(parsed) =>
      match parsed
      case Err(_) => Served(Status(BadRequest), cache, [])
      case Ok(spec) => Process(env, cache, spec, url)
  }

  /** `generate` with the corrected parser: every text that is not a base64url
      token is answered with 400 without touching the cache, and on every other
      text the answer is the one `Generate` gives. */
  function GenerateChecked<Img>(env: Env<Img>, cache: ImageCache, token: string, url: string): (s: Served)
    requires Lru.Valid(cache)
    ensures Lru.Valid(s.cache)
    ensures ParseSpec(env.prost, token).Panicked? ==> s == Served(Status(BadRequest), cache, [])
    ensures ParseSpec(env.prost, token).Returned? ==> s == Generate(env, cache, token, url)
  {
    match ParseSpecChecked(env.prost, token)
    case Err(_) => Served(Status(BadRequest), cache, [])
    case Ok(spec) => Process(env, cache, spec, url)
  }

  /** The panic the corrected parser removes: a one-character token ends the
      request with a panic instead of a 400. */
  lemma MalformedTokenPanicsInsteadOf400<Img>(env: Env<Img>, cache: ImageCache, url: string)
    requires Lru.Valid(cache)
    ensures Generate(env, cache, "A", url).response.Panic?
    ensures GenerateChecked(env, cache, "A", url).response == Status(BadRequest)
  {
    SingleCharTokenPanics(env.prost);
  }

  /** End to end: a token made from a spec, for a source already in the cache,
      is answered with the JPEG of the spec applied to the decoded source. */
  lemma TokenOfSpecServesTransformedImage<Img>(env: Env<Img>, cache: ImageCache, spec: ImageSpec,
                                              url: string, img: Img, out: Img)
    requires Lru.Valid(cache) && Lawful(env.prost)
    requires env.hash(url) in cache.entries
    requires env.photon.openImage(cache.entries[env.hash(url)]) == Some(img)
    requires Engine.Apply(env.photon, img, spec.specs) == Returned(out)
    ensures Generate(env, cache, ToToken(env.prost, spec), url).response
         == Image("image/jpeg", env.photon.encode(out, Jpeg(JpegQuality)))
    ensures Generate(env, cache, ToToken(env.prost, spec), url).fetched == []
  {
    SpecRoundTrip(env.prost, spec);
  }
}
