/** The messages of the pipeline specification, as 01/src/pb/mod.rs and
    01/src/engine/photon.rs use them. The prost-generated abi.rs that declares
    them is not part of this model: field names and types follow their uses in
    those two files; wire tags are not modelled at all.

    Enum-typed fields are stored as raw `i32` values, as prost stores them, so a
    decoded message can hold a number outside the enum. The numbering of each enum
    is taken as its declaration order starting at zero; proto3 requires the first
    value of an enum to be zero, which matches the `Undefined`/`Unspecifited`
    defaults the code relies on.
 */
module Abi {
  import opened Wrappers

  /** The raw IEEE-754 bits of an `f32`; the model passes it on uninterpreted. */
  type F32Bits = x: int | 0 <= x < 0x1_0000_0000

  /** `resize::ResizeType`. `SemeCarve` keeps the source's spelling. */
  datatype ResizeType = Normal | SemeCarve

  /** `resize::SampleFilter`. */
  datatype SampleFilter = Undefined | Nearest | Triangle | CatmullRom | Gaussian | Lanczos3

  /** `filter::Filter`. `Unspecifited` keeps the source's spelling. */
  datatype FilterKind = Unspecifited | Oceanic | Islands | Marine

  function ResizeTypeToI32(t: ResizeType): i32 {
    match t
    case Normal => 0
    case SemeCarve => 1
  }

  /** `ResizeType::from_i32`: `None` for a number outside the enum. */
  function ResizeTypeFromI32(n: i32): (r: Option<ResizeType>)
    ensures r.Some? <==> 0 <= n < 2
    ensures r.Some? ==> ResizeTypeToI32(r.value) == n
  {
    if n == 0 then Some(Normal)
    else if n == 1 then Some(SemeCarve)
    else None
  }

  function SampleFilterToI32(f: SampleFilter): i32 {
    match f
    case Undefined => 0
    case Nearest => 1
    case Triangle => 2
    case CatmullRom => 3
    case Gaussian => 4
    case Lanczos3 => 5
  }

  /** `SampleFilter::from_i32`. */
  function SampleFilterFromI32(n: i32): (r: Option<SampleFilter>)
    ensures r.Some? <==> 0 <= n < 6
    ensures r.Some? ==> SampleFilterToI32(r.value) == n
  {
    if n == 0 then Some(Undefined)
    else if n == 1 then Some(Nearest)
    else if n == 2 then Some(Triangle)
    else if n == 3 then Some(CatmullRom)
    else if n == 4 then Some(Gaussian)
    else if n == 5 then Some(Lanczos3)
    else None
  }

  function FilterKindToI32(f: FilterKind): i32 {
    match f
    case Unspecifited => 0
    case Oceanic => 1
    case Islands => 2
    case Marine => 3
  }

  /** `Filter::from_i32`. */
  function FilterKindFromI32(n: i32): (r: Option<FilterKind>)
    ensures r.Some? <==> 0 <= n < 4
    ensures r.Some? ==> FilterKindToI32(r.value) == n
  {
    if n == 0 then Some(Unspecifited)
    else if n == 1 then Some(Oceanic)
    else if n == 2 then Some(Islands)
    else if n == 3 then Some(Marine)
    else None
  }

  /** Storing an enum value in its `i32` field and reading it back gives it back. */
  lemma EnumRoundTrips(t: ResizeType, s: SampleFilter, f: FilterKind)
    ensures ResizeTypeFromI32(ResizeTypeToI32(t)) == Some(t)
    ensures SampleFilterFromI32(SampleFilterToI32(s)) == Some(s)
    ensures FilterKindFromI32(FilterKindToI32(f)) == Some(f)
  {
  }

  /** `spec::Data`, the one-of payload of a `Spec`. Each variant carries the fields
      of the message of the same name (flattened); `Constrast` keeps the source's
      spelling of the variant that carries a `Contrast` message. */
  datatype Data =
    | Crop(x1: u32, y1: u32, x2: u32, y2: u32)
    | Constrast(contrast: F32Bits)
    | Filter(filter: i32)
    | Fliph
    | Flipv
    | Gray
    | Resize(width: u32, height: u32, rtype: i32, filter: i32)
    | Watermark(x: u32, y: u32)

  /** `Spec`: the one-of may be absent (`data: None`). */
  datatype Spec = Spec(data: Option<Data>)

  /** `ImageSpec`: the ordered list of operations. `ImageSpec::new` is the constructor. */
  datatype ImageSpec = ImageSpec(specs: seq<Spec>)
}
