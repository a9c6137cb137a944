# rust-example, modelled in Dafny

This project models the logic at the centre of three small Rust programs:

- **Image service (`01`).** An HTTP service serves `/image/:spec/:url`. `spec` is a pipeline of image operations (`ImageSpec`, a list of `Spec`). The pipeline is serialised by prost and written as base64url text without padding. The service fetches the source image at `url`, keeping fetched sources in an LRU cache of 1024 entries keyed by a hash of the URL. It applies the operations in order through photon_rs and answers with a JPEG of quality 85.
  - `wrappers.dfy`: `Option`, `Result`, `Run` (a value, or a Rust panic), and the fixed-width integer types.
  - `base64url.dfy`: the URL-safe base64 alphabet of section 5 of RFC 4648, without the padding of section 3.2, as the `base64` crate's `URL_SAFE`/`NO_PAD` engine encodes and strictly decodes it.
  - `abi.rs`, the prost-generated module, is not part of this model. `abi.dfy` stands in for it: the message shapes `pb/mod.rs` and `photon.rs` use, and the `i32` numbering of the three enums.
  - `photon_api.dfy`: the photon_rs and image-crate calls. Each is an uninterpreted function over an abstract image type.
  - `pb.dfy`: the spec codec, `Filter::to_str`, the sample-filter conversion and the `Spec::new_*` constructors.
  - `engine.dfy`: `Engine::apply` and each `SpecTransform` implementation, including the 64×64 `WATERMARK` asset.
  - `lru.dfy`: the LRU cache as a map plus a recency order.
  - `server.dfy`: `retrieve_image` and `generate`.
- **httpie clone.** `httpie.dfy` parses `key=value` arguments and builds the map that `post` sends.
- **fib.** `fib.dfy` covers `next_fib`, the three loop forms, and the `Fibnacci` iterator. Each loop's printed values are its returned sequence.

### Design choices

- **Prost.** The prost message codec is a pair of functions (`Pb.Prost`). The one law the service relies on, that decoding an encoding gives the message back, is the predicate `Pb.Lawful`. Lemmas that need the law take it as a precondition. No protobuf field numbers or wire format are modelled.
- **Enum numbering.** Enum values are numbered in declaration order from zero, because `abi.rs` is not available.
- **Panics.** A Rust panic is the `Panicked` variant of `Run`. A panic inside a request ends that request and gives no HTTP response (`Server.Response.Panic`).
- **Fetch failures.** Fetching goes through an oracle that may fail. `reqwest::get` fails only on transport errors, not on an HTTP error status, so which outcomes count as failures is left to the oracle.
- **URL hashing.** The URL hash is an abstract function from text to `u64`.

## Model

| member | source | states |
|---|---|---|
| Base64Url.Encode | 01/src/pb/mod.rs:19-22 | a token uses only `A–Z a–z 0–9 - _`, has no `=` padding, and is ⌈4n/3⌉ characters long for n bytes |
| Base64Url.DecodeEncode | 01/src/pb/mod.rs:20-22 | decoding an encoding gives the bytes back |
| Base64Url.DecodeAcceptsExactlyEncodings | 01/src/pb/mod.rs:31-32 | the no-pad decoder accepts a text exactly when some byte string encodes to it |
| Base64Url.Decode | 01/src/pb/mod.rs:31-32 | the strict no-pad decoder refuses text with a character outside the alphabet, and whatever it accepts re-encodes to the same text |
| Base64Url.EncodeInjective | 01/src/pb/mod.rs:19-22 | different byte strings give different tokens |
| Base64Url.DecodeRejects | 01/src/pb/mod.rs:31-32 | a text with a character outside the alphabet, or with length 1 mod 4, is refused |
| Base64Url.DecodeEncodeValues | 01/src/pb/mod.rs:20-22 | on 6-bit values, the group decoder inverts the group encoder, including the 1- and 2-byte tails |
| Base64Url.EncodeDecodeValues | 01/src/pb/mod.rs:31-32 | a sequence of 6-bit values that decodes re-encodes to itself, so trailing bits must be zero |
| Base64Url.DecodeValuesRejectsBadLength | 01/src/pb/mod.rs:31-32 | a length of 1 mod 4 is never decodable |
| Base64Url.ValuesChars | 01/src/pb/mod.rs:20-21 | mapping 6-bit values to alphabet characters and back is the identity |
| Base64Url.CharsValues | 01/src/pb/mod.rs:31 | on alphabet text, mapping characters to values and back is the identity |
| Base64Url.ValuesDefinedOnTokens | 01/src/pb/mod.rs:31 | every character of a token has a 6-bit value, and no other text does |
| Base64Url.ValueOf | 01/src/pb/mod.rs:20-21 | a character has a value exactly when it is in the URL-safe alphabet, and the value maps back to it |
| Abi.ResizeTypeFromI32 | 01/src/engine/photon.rs:105 | `from_i32` succeeds exactly on the declared numbers and inverts the numbering |
| Abi.SampleFilterFromI32 | 01/src/engine/photon.rs:110 | `from_i32` succeeds exactly on 0..5 and inverts the numbering |
| Abi.FilterKindFromI32 | 01/src/engine/photon.rs:95 | `from_i32` succeeds exactly on 0..3 and inverts the numbering |
| Abi.EnumRoundTrips | 01/src/pb/mod.rs:69-70 | every variant stored `as i32` is read back by `from_i32` as itself |
| Pb.ToToken | 01/src/pb/mod.rs:17-24 | a spec's string is a padding-free base64url token whose length is ⌈4n/3⌉ for the n bytes prost produced |
| Pb.SpecRoundTrip | 01/src/pb/mod.rs:17-35 | under the prost law, parsing the string of any spec, including the empty pipeline, gives the same spec back |
| Pb.ToTokenInjective | 01/src/pb/mod.rs:17-24 | under the prost law, different specs give different strings |
| Pb.ParseSpec | 01/src/pb/mod.rs:30-34 | `try_from` panics, with the `unwrap` of an `Err`, exactly on text that is not the base64url encoding of any byte string; on an encoding it returns prost's own verdict on the encoded bytes, `Err` included |
| Pb.SingleCharTokenPanics | 01/src/pb/mod.rs:31-32 | the one-character text `A` makes parsing panic, while the corrected parser returns `Err` |
| Pb.PaddedTokenPanics | 01/src/pb/mod.rs:31-32 | a token carrying `=` padding makes parsing panic |
| Pb.ParseSpecChecked | 01/src/pb/mod.rs:30-34 | the corrected parser agrees with the original wherever the original returns, and returns `Err` where it panics |
| Pb.ToStr | 01/src/pb/mod.rs:38-47 | only `Unspecifited` has no photon filter name |
| Pb.ToStrInjective | 01/src/pb/mod.rs:38-47 | distinct filters have distinct photon filter names; the names themselves are given by `Pb.ToStr` |
| Pb.ToSampling | 01/src/pb/mod.rs:50-61 | `Undefined` becomes `Nearest`; every other sample filter becomes the kernel of the same name |
| Pb.ToSamplingMergesOnlyUndefined | 01/src/pb/mod.rs:50-61 | two sample filters give the same kernel exactly when they are equal or are `Undefined` and `Nearest`, and every kernel is reached |
| Pb.NewResizeSeamCarve | 01/src/pb/mod.rs:64-73 | builds a resize with the given size, type `SemeCarve` and filter `Undefined` |
| Pb.NewResize | 01/src/pb/mod.rs:75-84 | builds a resize with the given size, type `Normal` and the given filter |
| Pb.NewFilter | 01/src/pb/mod.rs:86-92 | builds a filter spec holding the given filter |
| Pb.NewWatermark | 01/src/pb/mod.rs:94-100 | builds a watermark spec holding the given offset |
| Engine.WatermarkAsset | 01/src/engine/photon.rs:20-26 | the `WATERMARK` asset panics exactly when the embedded PNG does not decode; otherwise it is that image resized to 64×64 with the nearest kernel |
| Engine.Transform | 01/src/engine/photon.rs:43-124 | only a resize or a watermark payload can panic, and a watermark panics exactly when its asset does not decode; each call made is stated in `Engine.DispatchCallsPhoton` |
| Engine.Apply | 01/src/engine/photon.rs:41-55 | the empty list returns the image unchanged; a run that panics holds a present resize or watermark payload; the fold itself is stated in `Engine.ApplyIsLeftFold` |
| Engine.TransformFilter | 01/src/engine/photon.rs:93-100 | never panics; an unknown number or `Unspecifited` leaves the image unchanged; any other filter applies the photon filter named by `to_str` |
| Engine.TransformResize | 01/src/engine/photon.rs:103-117 | panics exactly on an unknown resize type, or a `Normal` resize with an unknown filter; seam carving uses only the size; a normal resize uses the converted kernel |
| Engine.ApplyIsLeftFold | 01/src/engine/photon.rs:41-55 | the empty pipeline changes nothing, and applying `xs + ys` is applying `xs`, then `ys` to its result, with a panic stopping the rest |
| Engine.ApplyLoop | 01/src/engine/photon.rs:41-55 | the `for` loop over the specs computes the fold |
| Engine.ApplySkipsEmpty | 01/src/engine/photon.rs:52 | removing every spec without a payload changes nothing |
| Engine.DispatchCallsPhoton | 01/src/engine/photon.rs:43-124 | each variant makes its own photon_rs call with the spec's own arguments; a watermark composites the `WATERMARK` asset at the spec's offset, or panics as the asset does; a spec without a payload changes nothing |
| Engine.SeamCarveIgnoresFilter | 01/src/engine/photon.rs:112-114 | a seam-carving resize gives the same result whatever its filter field holds |
| Engine.WatermarkUsesFixedAsset | 01/src/engine/photon.rs:20-26 | every watermark composites the same image: the embedded asset resized to 64×64 with the nearest kernel |
| Engine.WatermarkPanicsOnlyOnBadAsset | 01/src/engine/photon.rs:24 | a watermark panics exactly when the embedded asset cannot be decoded |
| Engine.ConstructorsApplyAsNamed | 01/src/pb/mod.rs:63-92 | the specs the constructors build reach the matching photon call and never a panicking `unwrap` |
| Engine.CropThenResize | 01/src/engine/photon.rs:62-67 | a later spec works on the image an earlier crop produced |
| Lru.New | 01/src/main.rs:54 | a new cache is valid, empty, and has the given capacity |
| Lru.Get | 01/src/main.rs:115-118 | a hit returns the stored value, makes the key most recently used, and keeps every entry; a miss changes nothing |
| Lru.Put | 01/src/main.rs:124 | the key holds the new value and is most recently used; no other value changes; only a new key meeting a full cache evicts a key, and then exactly the least recently used one; the recency order drops the evicted or re-inserted key and appends the new one, the others keeping their order |
| Lru.Remove | 01/src/main.rs:115 | taking a key out of a distinct recency order cuts out its one occurrence, so the order shortens by one, stays distinct, and the other keys keep their relative order; an absent key changes nothing |
| Lru.SizeBounded | 01/src/main.rs:54 | a valid cache holds no more entries than its capacity |
| Server.NewCache | 01/src/main.rs:54 | the service starts with an empty cache of capacity 1024 |
| Server.RetrieveImage | 01/src/main.rs:109-130 | a hit returns the stored bytes and fetches nothing; a miss fetches once; a failed fetch is returned and the cache keeps its state; fetched bytes are stored under the key |
| Server.CacheStaysBounded | 01/src/main.rs:54 | the service's cache never holds more than 1024 sources |
| Server.SecondRetrieveHits | 01/src/main.rs:110-118 | the same URL gives the same key, so once fetched it is served from the cache without a fetch, whatever the network would now answer |
| Server.CollidingUrlsShareAnEntry | 01/src/main.rs:110-118 | URLs whose hashes collide share one cache entry |
| Server.MissOnFullCacheEvictsLeastRecent | 01/src/main.rs:120-125 | a miss on a full cache stores the new source and evicts exactly the least recently used one |
| Server.HitMakesMostRecent | 01/src/main.rs:115 | a lookup that hits makes its key the most recently used |
| Server.Process | 01/src/main.rs:86-104 | the cache and fetches are those of `retrieve_image`; 400 exactly when retrieval fails, 500 exactly when the bytes do not decode, a panic exactly when the transform panics, and otherwise the `image/jpeg` encoding at quality 85 of the transformed image |
| Server.Generate | 01/src/main.rs:76-105 | 400 exactly when prost refuses the spec or the retrieval fails; 500 exactly when the source does not decode; a malformed token panics with the parser's message; no fetch unless the spec parses; a parsed spec is answered as `Server.Process` answers it |
| Server.GenerateChecked | 01/src/main.rs:81-84 | the corrected `generate` answers 400 where the original panics and agrees with it everywhere else |
| Server.MalformedTokenPanicsInsteadOf400 | 01/src/main.rs:81-84 | the token `A` ends the request with a panic, where the corrected service answers 400 |
| Server.TokenOfSpecServesTransformedImage | 01/src/main.rs:76-105 | the string of a spec, for a cached source, is answered with the JPEG of the spec applied to that source, without a fetch |
| Httpie.Split | httpie/src/main.rs:21 | `split("=")` gives at least one piece, no piece contains `=`, and joining the pieces with `=` gives the input back |
| Httpie.SplitJoin | httpie/src/main.rs:21 | splitting `=`-free pieces joined with `=` gives the same pieces back |
| Httpie.FromStr | httpie/src/main.rs:17-28 | fails with `Failed to parse <s>` exactly when there is no `=`; otherwise both fields are free of `=` and the text starts with `k=v`, followed by its end or another `=` |
| Httpie.FromStrReadsFirstTwoFields | httpie/src/main.rs:24-25 | the key is the text before the first `=`, the value the text up to the second `=`, and anything after that is dropped |
| Httpie.SplitsAsUnique | httpie/src/main.rs:24-25 | a text has only one reading as `k=v` with `=`-free fields |
| Httpie.ParseKvPair | httpie/src/main.rs:30-32 | the argument parser fails with `Failed to parse <s>` exactly when there is no `=`; otherwise both fields are free of `=` and the text starts with `k=v`, followed by its end or another `=` |
| Httpie.SecondEqualsDropsRest | httpie/src/main.rs:24-25 | `a=b=c` reads as key `a` and value `b` |
| Httpie.LoneEqualsIsEmptyPair | httpie/src/main.rs:21-26 | `=` reads as an empty key and an empty value |
| Httpie.NoEqualsFails | httpie/src/main.rs:22-25 | a text without `=` fails with `Failed to parse` followed by the text |
| Httpie.BodyOf | httpie/src/main.rs:79-82 | the body's keys are exactly the keys of the pairs |
| Httpie.LastPairWins | httpie/src/main.rs:79-82 | a key holds the value of the last pair with that key, so a later duplicate overwrites an earlier one |
| Httpie.LaterPairOverwrites | httpie/src/main.rs:80-81 | one more pair overwrites its key and leaves the other keys alone |
| Fib.NextFib | fib/src/main.rs:1-3 | `next_fib` moves any window (F(k), F(k+1)) on to (F(k+1), F(k+2)) |
| Fib.NextFibAdvances | fib/src/main.rs:1-3 | `next_fib` turns (F(k), F(k+1)) into (F(k+1), F(k+2)) without overflow while k+2 <= 93 |
| Fib.LastBelowU64 | fib/src/main.rs:1-3 | F(93) is below 2^64 and F(94) is not, so 93 is the tight bound |
| Fib.FitsU64 | fib/src/main.rs:1-3 | every F(k) with k <= 93 fits in a `u64` |
| Fib.Addition | fib/src/main.rs:1-3 | F(m+n+1) = F(m+1)F(n+1) + F(m)F(n), the identity behind the bound |
| Fib.Monotone | fib/src/main.rs:1-3 | F does not decrease from F(1) on |
| Fib.Emitted | fib/src/main.rs:34-41 | the reference output: n−2 values when n ≥ 2, none otherwise, the k-th (from 0) being F(k+3) |
| Fib.FibFor | fib/src/main.rs:34-41 | `fib_for(n)` prints exactly the reference output |
| Fib.FibWhile | fib/src/main.rs:22-31 | `fib_while(n)` prints exactly the reference output, the same as `fib_for` |
| Fib.FibLoop | fib/src/main.rs:5-19 | `fib_loop(n)` prints the reference output when n > 3, and only F(3) = 2 when n <= 3 |
| Fib.Next | fib/src/main.rs:57-61 | `next` always yields a value; from the window (F(k), F(k+1)) it yields F(k+1) and moves on to (F(k+1), F(k+2)) |
| Fib.NextAdvances | fib/src/main.rs:57-61 | from the state (F(k+1), F(k+2)) the iterator yields F(k+2) and moves to (F(k+2), F(k+3)), without overflow while k+3 <= 93 |
| Fib.Take | fib/src/main.rs:43-61 | `Fibnacci::new().take(count)` yields F(2), F(3), … , F(count+1), so from the second item on every value is at least 2 and the second 1 never appears |

## Left out

- Pixel algorithms. photon_rs's crop, contrast (`f32`), grayscale, flips, named filters, resampling, seam carving and alpha-blended watermarking are uninterpreted functions over an abstract image. The contrast argument is carried as raw `f32` bits.
- In-place versus replaced. photon.rs mutates the held image in place for contrast, flips, gray, filter and watermark, and replaces it for crop and resize. A value model cannot tell the two apart, since both give the next image.
- `image_to_buf` and `TryFrom<Bytes> for Photon`. They are external codecs: one oracle encodes, another decodes and may fail. The two `unwrap`s in `image_to_buf` (01/src/engine/photon.rs:131 on `ImageBuffer::from_vec`, :136 on `write_to`) are not modelled as panics: `encode` is total.
- Panics inside photon_rs and the image crate. Every photon_rs and image call is a total function of the model, so a panic raised inside one of them is not modelled. `Engine.Transform`'s "only a resize or a watermark payload can panic", `Engine.Apply`'s panic clause and `Server.Process`'s "otherwise the `image/jpeg` encoding" hold under that assumption.
- The prost wire format, because `abi.rs` is not part of this model. The codec is abstract, and its round trip is the `Lawful` precondition.
- `DefaultHasher`. The URL hash is an abstract `u64` function; collisions are allowed and stated (`Server.CollidingUrlsShareAnEntry`).
- The network. `reqwest::get` and `bytes()` are an oracle that may fail. Whether an HTTP error status counts as a failure is up to the oracle; reqwest itself does not fail on one.
- `percent_decode_str(...).decode_utf8_lossy()` on the URL. The model takes the already-decoded URL.
- Concurrency. This covers axum routing, the server bind, tracing, `hello`, `print_test_url`, the tokio `Mutex` held across the fetch, and async. The model is sequential: a request takes the cache and returns the cache it leaves.
- The `Engine` trait's move from an open image to a finished one. Rust ownership enforces it (`generate` takes `self`).
- Crop coordinates that lie outside the image. Whatever `crop` does with them, a panic included, happens inside photon_rs, whose calls are total here (see above).
- httpie: `parse_url` (`Url::parse`), the HTTP client, header and status printing, the JSON serialisation of the body, and the pretty printer.
- Fib: console printing. The printed values are the returned sequence.
- Fib.FibLoop, Fib.FibWhile, Fib.FibFor: these require n <= 93. For larger n, Rust's debug build panics on `u64` overflow and a release build wraps; neither is modelled.
- Fib.Take: requires at most 91 items, because producing item k computes F(k+3).
- `main` of fib and of httpie. They only wire the parts above to the console and the command line.
- scrape_url/src/main.rs. It is fetch, HTML-to-Markdown conversion and a file write, with no logic of its own beyond argument defaults.

## Findings

| source | as written | input that shows it | evidently intended | confidence | as-written member | corrected member |
|---|---|---|---|---|---|---|
| 01/src/pb/mod.rs:31-32 | the base64 decode is `unwrap`ped, so text that is not base64url panics inside `try_from` instead of returning `Err` | the spec text `A` (a length of 1 mod 4); any text containing `=` or `+` also shows it | `generate` maps every `try_into` failure to 400 (01/src/main.rs:81-84), so a malformed spec should be a 400, not a panic that drops the request | not executed | Pb.SingleCharTokenPanics, Server.MalformedTokenPanicsInsteadOf400 | Pb.ParseSpecChecked, Server.GenerateChecked |
