/** The pipeline-spec codec of 01/src/pb/mod.rs and its small conversions.

    A spec becomes text in two steps: prost turns the `ImageSpec` into bytes, and
    the bytes become base64url text without padding. Parsing reverses both steps.
    The prost layer lives in generated code that is not part of this model, so it
    is a parameter (`Prost`); the only law it must keep is the message-level
    round trip, stated as the predicate `Lawful` and required where it is used.
 */
module Pb {
  import opened Wrappers
  import opened Abi
  import Base64Url
  import PhotonApi

  /** `Message::encode_to_vec` and `Message::decode` for `ImageSpec`. */
  datatype Prost = Prost(encode: ImageSpec -> Bytes, decode: Bytes -> Result<ImageSpec, string>)

  /** The message layer gives back every spec it serialized. */
  ghost predicate Lawful(p: Prost) {
    forall s :: p.decode(p.encode(s)) == Ok(s)
  }

  /** `From<&ImageSpec> for String`: the token is URL-safe, unpadded, and exactly
      as long as the base64url text of the serialized message. */
  function ToToken(p: Prost, spec: ImageSpec): (t: string)
    ensures Base64Url.IsToken(t) && '=' !in t
    ensures |t| == Base64Url.EncodedLength(|p.encode(spec)|)
  {
    Base64Url.Encode(p.encode(spec))
  }

  /** `TryFrom<&str> for ImageSpec` as written: text the base64 decoder refuses
      reaches `unwrap` and panics; bytes prost refuses become an `Err`. So it
      panics on exactly the texts that are not the base64url encoding of any
      byte string, and on every other text it returns prost's verdict on the one
      byte string encoded, `Err` included. */
  function ParseSpec(p: Prost, token: string): (r: Run<Result<ImageSpec, string>>)
    ensures r.Panicked? <==> forall data :: Base64Url.Encode(data) != token
    ensures r.Panicked? ==> r.message == UnwrapErr
    ensures forall data :: Base64Url.Encode(data) == token ==> r == Returned(p.decode(data))
  {
    Base64Url.DecodeAcceptsExactlyEncodings(token);
    assert forall data :: Base64Url.Encode(data) == token ==> Base64Url.Decode(token) == Some(data) by {
      forall data | Base64Url.Encode(data) == token {
        Base64Url.DecodeEncode(data);
      }
    }
    match Base64Url.Decode(token)
    case None => Panicked(UnwrapErr)
    case Some(data) => Returned(p.decode(data))
  }

  /** The same conversion with the base64 error returned as an `Err` instead of
      unwrapped, which is what the `Result` type of `try_from` and the
      `map_err(|_| StatusCode::BAD_REQUEST)` of its caller evidently intend. */
  function ParseSpecChecked(p: Prost, token: string): (r: Result<ImageSpec, string>)
    ensures ParseSpec(p, token).Returned? ==> r == ParseSpec(p, token).value
    ensures ParseSpec(p, token).Panicked? ==> r.Err?
  {
    match Base64Url.Decode(token)
    case None => Err("invalid base64url token")
    case Some(data) => p.decode(data)
  }

  /** Turning a spec into a token and parsing it back gives the same spec, the
      empty list of operations included. */
  lemma SpecRoundTrip(p: Prost, spec: ImageSpec)
    requires Lawful(p)
    ensures ParseSpec(p, ToToken(p, spec)) == Returned(Ok(spec))
  {
    Base64Url.DecodeEncode(p.encode(spec));
  }

  /** Distinct specs give distinct tokens. */
  lemma ToTokenInjective(p: Prost, a: ImageSpec, b: ImageSpec)
    requires Lawful(p)
    requires ToToken(p, a) == ToToken(p, b)
    ensures a == b
  {
    SpecRoundTrip(p, a);
    SpecRoundTrip(p, b);
  }

  /** A concrete text that panics: a single character is never a whole group. */
  lemma SingleCharTokenPanics(p: Prost)
    ensures ParseSpec(p, "A") == Panicked(UnwrapErr)
    ensures ParseSpecChecked(p, "A").Err?
  {
    Base64Url.DecodeRejects("A");
  }

  /** So does a padded token, although `=` padding is what a standard base64
      encoder appends. */
  lemma PaddedTokenPanics(p: Prost, token: string)
    requires '=' in token
    ensures ParseSpec(p, token).Panicked?
  {
    var i :| 0 <= i < |token| && token[i] == '=';
    Base64Url.DecodeRejects(token);
  }

  /** `Filter::to_str`: the name of the photon filter, none for `Unspecifited`. */
  function ToStr(f: FilterKind): (r: Option<string>)
    ensures r.None? <==> f == Unspecifited
  {
    match f
    case Unspecifited => None
    case Oceanic => Some("oceanic")
    case Islands => Some("islands")
    case Marine => Some("marine")
  }

  /** Distinct filters name distinct photon filters. */
  lemma ToStrInjective(f: FilterKind, g: FilterKind)
    requires ToStr(f).Some? && ToStr(f) == ToStr(g)
    ensures f == g
  {
  }

  function SampleFilterName(f: SampleFilter): string {
    match f
    case Undefined => "Undefined"
    case Nearest => "Nearest"
    case Triangle => "Triangle"
    case CatmullRom => "CatmullRom"
    case Gaussian => "Gaussian"
    case Lanczos3 => "Lanczos3"
  }

  function KernelName(k: PhotonApi.SamplingFilter): string {
    match k
    case Nearest => "Nearest"
    case Triangle => "Triangle"
    case CatmullRom => "CatmullRom"
    case Gaussian => "Gaussian"
    case Lanczos3 => "Lanczos3"
  }

  /** `From<SampleFilter> for SamplingFilter`: `Undefined` falls back to the
      nearest-neighbour kernel; every other filter maps to the kernel of the same name. */
  function ToSampling(f: SampleFilter): (k: PhotonApi.SamplingFilter)
    ensures f == Undefined ==> k == PhotonApi.Nearest
    ensures f != Undefined ==> KernelName(k) == SampleFilterName(f)
  {
    match f
    case Undefined => PhotonApi.Nearest
    case Nearest => PhotonApi.Nearest
    case Triangle => PhotonApi.Triangle
    case CatmullRom => PhotonApi.CatmullRom
    case Gaussian => PhotonApi.Gaussian
    case Lanczos3 => PhotonApi.Lanczos3
  }

  /** The conversion is onto, and the only two filters it merges are `Undefined`
      and `Nearest`. */
  lemma ToSamplingMergesOnlyUndefined(f: SampleFilter, g: SampleFilter, k: PhotonApi.SamplingFilter)
    ensures ToSampling(f) == ToSampling(g) <==> f == g || ({f, g} <= {Undefined, Nearest})
    ensures exists h :: ToSampling(h) == k
  {
    match k
    case Nearest => assert ToSampling(Nearest) == k;
    case Triangle => assert ToSampling(Triangle) == k;
    case CatmullRom => assert ToSampling(CatmullRom) == k;
    case Gaussian => assert ToSampling(Gaussian) == k;
    case Lanczos3 => assert ToSampling(Lanczos3) == k;
  }

  /** `Spec::new_resize_seam_carve`: a content-aware resize; the filter field holds
      `Undefined`. */
  function NewResizeSeamCarve(width: u32, height: u32): (s: Spec)
    ensures s.data.Some? && s.data.value.Resize?
    ensures s.data.value.width == width && s.data.value.height == height
    ensures ResizeTypeFromI32(s.data.value.rtype) == Some(SemeCarve)
    ensures SampleFilterFromI32(s.data.value.filter) == Some(Undefined)
  {
    Spec(Some(Resize(width, height, ResizeTypeToI32(SemeCarve), SampleFilterToI32(Undefined))))
  }

  /** `Spec::new_resize`: a normal resize with the given sampling filter. */
  function NewResize(width: u32, height: u32, filter: SampleFilter): (s: Spec)
    ensures s.data.Some? && s.data.value.Resize?
    ensures s.data.value.width == width && s.data.value.height == height
    ensures ResizeTypeFromI32(s.data.value.rtype) == Some(Normal)
    ensures SampleFilterFromI32(s.data.value.filter) == Some(filter)
  {
    Spec(Some(Resize(width, height, ResizeTypeToI32(Normal), SampleFilterToI32(filter))))
  }

  /** `Spec::new_filter`. */
  function NewFilter(filter: FilterKind): (s: Spec)
    ensures s.data.Some? && s.data.value.Filter?
    ensures FilterKindFromI32(s.data.value.filter) == Some(filter)
  {
    Spec(Some(Filter(FilterKindToI32(filter))))
  }

  /** `Spec::new_watermark`. */
  function NewWatermark(x: u32, y: u32): (s: Spec)
    ensures s.data.Some? && s.data.value.Watermark?
    ensures s.data.value.x == x && s.data.value.y == y
  {
    Spec(Some(Watermark(x, y)))
  }
}
