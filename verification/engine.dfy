/** The transform engine of 01/src/engine/photon.rs: `Engine::apply` folds the
    list of specs from left to right and dispatches each on its variant to one
    `SpecTransform::transform` implementation, which makes one photon_rs call.

    The image is the abstract `Img` and each photon_rs call an uninterpreted field
    of `Photon<Img>`. What is modelled is which call is made, with which arguments,
    in which order, which specs are skipped, and where an `unwrap` panics. A panic
    ends the request, so the fold stops at the first one.
 */
module Engine {
  import opened Wrappers
  import opened Abi
  import opened PhotonApi
  import opened Pb

  /** The side of the square the watermark asset is resized to. */
  const WatermarkSize: u32 := 64

  /** The lazily initialised `WATERMARK`: the embedded asset, decoded with an
      `unwrap`, then resized to 64 by 64 with the nearest-neighbour kernel. */
  function WatermarkAsset<Img>(ph: Photon<Img>): (r: Run<Img>)
    ensures r.Panicked? <==> ph.openImage(ph.watermarkPng).None?
    ensures r.Panicked? ==> r.message == UnwrapErr
    ensures r.Returned? ==>
              r.value == ph.resize(ph.openImage(ph.watermarkPng).value, WatermarkSize, WatermarkSize, PhotonApi.Nearest)
  {
    match ph.openImage(ph.watermarkPng)
    case None => Panicked(UnwrapErr)
    case Some(w) => Returned(ph.resize(w, WatermarkSize, WatermarkSize, PhotonApi.Nearest))
  }

  /** `SpecTransform<&Filter>`: a number outside the enum and `Unspecifited` leave
      the image alone; any other filter applies the photon filter `to_str` names.
      The `unwrap` of `to_str` never panics, because only `Unspecifited` has no name. */
  function TransformFilter<Img>(ph: Photon<Img>, img: Img, filter: i32): (r: Run<Img>)
    ensures r.Returned?
    ensures FilterKindFromI32(filter) in {None, Some(Unspecifited)} ==> r.value == img
    ensures forall f :: FilterKindFromI32(filter) == Some(f) && f != Unspecifited ==>
              ToStr(f).Some? && r.value == ph.filter(img, ToStr(f).value)
  {
    match FilterKindFromI32(filter)
    case Some(f) =>
      if f == Unspecifited then Returned(img)
      else
        (match ToStr(f)
         case None => Panicked(UnwrapNone)
         case Some(name) => Returned(ph.filter(img, name)))
    case None => Returned(img)
  }

  /** `SpecTransform<&Resize>`: the resize type is unwrapped first, so an unknown
      one panics; a normal resize then unwraps its sampling filter, so an unknown
      filter panics too; a seam-carving resize never reads the filter. */
  function TransformResize<Img>(ph: Photon<Img>, img: Img, width: u32, height: u32, rtype: i32, filter: i32)
    : (r: Run<Img>)
    ensures r.Panicked? <==>
              ResizeTypeFromI32(rtype).None? ||
              (ResizeTypeFromI32(rtype) == Some(Normal) && SampleFilterFromI32(filter).None?)
    ensures ResizeTypeFromI32(rtype) == Some(SemeCarve) ==> r == Returned(ph.seamCarve(img, width, height))
    ensures ResizeTypeFromI32(rtype) == Some(Normal) && SampleFilterFromI32(filter).Some? ==>
              r == Returned(ph.resize(img, width, height, ToSampling(SampleFilterFromI32(filter).value)))
  {
    match ResizeTypeFromI32(rtype)
    case None => Panicked(UnwrapNone)
    case Some(t) =>
      if t == Normal then
        match SampleFilterFromI32(filter)
        case None => Panicked(UnwrapNone)
        case Some(f) => Returned(ph.resize(img, width, height, ToSampling(f)))
      else
        Returned(ph.seamCarve(img, width, height))
  }

  /** A payload whose transform unwraps something that can be absent: a resize
      (its type and sampling filter) or a watermark (its embedded asset). */
  predicate MayPanic(d: Data) {
    d.Resize? || d.Watermark?
  }

  /** The `match spec.data` of `apply` for a present payload. Only a resize or a
      watermark can panic; a watermark panics exactly when its asset does not
      decode. */
  function Transform<Img>(ph: Photon<Img>, img: Img, d: Data): (r: Run<Img>)
    ensures r.Panicked? ==> MayPanic(d)
    ensures d.Watermark? ==> (r.Panicked? <==> ph.openImage(ph.watermarkPng).None?)
  {
    match d
    case Crop(x1, y1, x2, y2) => Returned(ph.crop(img, x1, y1, x2, y2))
    case Constrast(c) => Returned(ph.adjustContrast(img, c))
    case Filter(f) => TransformFilter(ph, img, f)
    case Fliph => Returned(ph.fliph(img))
    case Flipv => Returned(ph.flipv(img))
    case Gray => Returned(ph.grayscale(img))
    case Resize(w, h, rtype, f) => TransformResize(ph, img, w, h, rtype, f)
    case Watermark(x, y) =>
      match WatermarkAsset(ph)
      case Panicked(m) => Panicked(m)
      case Returned(mark) => Returned(ph.watermark(img, mark, x, y))
  }

  /** One iteration of the loop in `apply`: a spec without a payload is skipped. */
  function Step<Img>(ph: Photon<Img>, img: Img, spec: Spec): Run<Img> {
    match spec.data
    case None => Returned(img)
    case Some(d) => Transform(ph, img, d)
  }

  /** `Engine::apply`: the specs in order, each on the image the previous one
      left. The empty list returns the image unchanged, and a run that panics
      holds a present payload that may panic. */
  function Apply<Img>(ph: Photon<Img>, img: Img, specs: seq<Spec>): (r: Run<Img>)
    ensures |specs| == 0 ==> r == Returned(img)
    ensures r.Panicked? ==> exists i :: 0 <= i < |specs| && specs[i].data.Some? && MayPanic(specs[i].data.value)
    decreases |specs|
  {
    if |specs| == 0 then Returned(img)
    else
      match Step(ph, img, specs[0])
      case Panicked(m) =>
        assert specs[0].data.Some? && MayPanic(specs[0].data.value);
        Panicked(m)
      case Returned(next) =>
        var r := Apply(ph, next, specs[1..]);
        assert r.Panicked? ==> exists i :: 0 <= i < |specs| && specs[i].data.Some? && MayPanic(specs[i].data.value) by {
          if r.Panicked? {
            var j :| 0 <= j < |specs[1..]| && specs[1..][j].data.Some? && MayPanic(specs[1..][j].data.value);
            assert specs[j + 1] == specs[1..][j];
          }
        }
        r
  }

  /** Carries on with more specs after an earlier run, unless it panicked. */
  function Continue<Img>(ph: Photon<Img>, r: Run<Img>, specs: seq<Spec>): Run<Img> {
    match r
    case Panicked(m) => Panicked(m)
    case Returned(img) => Apply(ph, img, specs)
  }

  /** `apply` is a strict left-to-right fold: the empty list changes nothing, and
      applying `xs + ys` is applying `xs`, then `ys` to its result. */
  lemma {:induction false} ApplyIsLeftFold<Img>(ph: Photon<Img>, img: Img, xs: seq<Spec>, ys: seq<Spec>)
    ensures Apply(ph, img, []) == Returned(img)
    ensures Apply(ph, img, xs + ys) == Continue(ph, Apply(ph, img, xs), ys)
    decreases |xs|
  {
    if |xs| > 0 {
      assert (xs + ys)[0] == xs[0];
      assert (xs + ys)[1..] == xs[1..] + ys;
      match Step(ph, img, xs[0])
      case Panicked(m) =>
      case Returned(next) => ApplyIsLeftFold(ph, next, xs[1..], ys);
    } else {
      assert xs + ys == ys;
    }
  }

  /** The loop of `apply` as written, with an early exit where a step panics. */
  method ApplyLoop<Img>(ph: Photon<Img>, img: Img, specs: seq<Spec>) returns (r: Run<Img>)
    ensures r == Apply(ph, img, specs)
  {
    var current := img;
    var i := 0;
    while i < |specs|
      invariant 0 <= i <= |specs|
      invariant Apply(ph, img, specs[..i]) == Returned(current)
    {
      ApplyIsLeftFold(ph, img, specs[..i], specs[i..]);
      assert specs[..i] + specs[i..] == specs;
      ApplyIsLeftFold(ph, img, specs[..i], [specs[i]]);
      assert specs[..i + 1] == specs[..i] + [specs[i]];
      assert [specs[i]][1..] == [];
      match Step(ph, current, specs[i])
      case Panicked(m) =>
        return Panicked(m);
      case Returned(next) =>
        assert Apply(ph, current, [specs[i]]) == Returned(next);
        current := next;
      i := i + 1;
    }
    assert specs[..i] == specs;
    r := Returned(current);
  }

  function DropEmpty(specs: seq<Spec>): (kept: seq<Spec>)
    ensures forall i :: 0 <= i < |kept| ==> kept[i].data.Some?
    ensures |kept| <= |specs|
  {
    if |specs| == 0 then []
    else if specs[0].data.None? then DropEmpty(specs[1..])
    else [specs[0]] + DropEmpty(specs[1..])
  }

  /** A spec whose payload is absent has no effect wherever it stands in the list. */
  lemma {:induction false} ApplySkipsEmpty<Img>(ph: Photon<Img>, img: Img, specs: seq<Spec>)
    ensures Apply(ph, img, specs) == Apply(ph, img, DropEmpty(specs))
    decreases |specs|
  {
    if |specs| > 0 {
      if specs[0].data.None? {
        ApplySkipsEmpty(ph, img, specs[1..]);
      } else {
        var kept := DropEmpty(specs);
        assert kept[0] == specs[0] && kept[1..] == DropEmpty(specs[1..]);
        match Step(ph, img, specs[0])
        case Panicked(m) =>
        case Returned(next) => ApplySkipsEmpty(ph, next, specs[1..]);
      }
    }
  }

  /** The dispatch table: a list of one spec makes the one photon_rs call its
      variant names, with the spec's own arguments. */
  lemma DispatchCallsPhoton<Img>(ph: Photon<Img>, img: Img, d: Data)
    ensures d.Crop? ==> Apply(ph, img, [Spec(Some(d))]) == Returned(ph.crop(img, d.x1, d.y1, d.x2, d.y2))
    ensures d.Constrast? ==> Apply(ph, img, [Spec(Some(d))]) == Returned(ph.adjustContrast(img, d.contrast))
    ensures d.Fliph? ==> Apply(ph, img, [Spec(Some(d))]) == Returned(ph.fliph(img))
    ensures d.Flipv? ==> Apply(ph, img, [Spec(Some(d))]) == Returned(ph.flipv(img))
    ensures d.Gray? ==> Apply(ph, img, [Spec(Some(d))]) == Returned(ph.grayscale(img))
    ensures d.Filter? ==> Apply(ph, img, [Spec(Some(d))]) == TransformFilter(ph, img, d.filter)
    ensures d.Resize? ==> Apply(ph, img, [Spec(Some(d))]) == TransformResize(ph, img, d.width, d.height, d.rtype, d.filter)
    ensures d.Watermark? && WatermarkAsset(ph).Returned? ==>
              Apply(ph, img, [Spec(Some(d))]) == Returned(ph.watermark(img, WatermarkAsset(ph).value, d.x, d.y))
    ensures d.Watermark? && WatermarkAsset(ph).Panicked? ==> Apply(ph, img, [Spec(Some(d))]) == WatermarkAsset(ph)
    ensures Apply(ph, img, [Spec(None)]) == Returned(img)
  {
    assert [Spec(Some(d))][1..] == [];
    assert [Spec(None)][1..] == [];
  }

  /** A seam-carving resize ignores its `filter` field, whatever number it holds. */
  lemma SeamCarveIgnoresFilter<Img>(ph: Photon<Img>, img: Img, width: u32, height: u32, f1: i32, f2: i32)
    ensures Transform(ph, img, Resize(width, height, ResizeTypeToI32(SemeCarve), f1))
         == Transform(ph, img, Resize(width, height, ResizeTypeToI32(SemeCarve), f2))
  {
  }

  /** Every watermark composites the same image: the embedded asset at 64 by 64,
      whatever the target image and offset. */
  lemma WatermarkUsesFixedAsset<Img>(ph: Photon<Img>, img1: Img, x1: u32, y1: u32, img2: Img, x2: u32, y2: u32)
    requires Transform(ph, img1, Watermark(x1, y1)).Returned?
    ensures ph.openImage(ph.watermarkPng).Some?
    ensures var mark := ph.resize(ph.openImage(ph.watermarkPng).value, WatermarkSize, WatermarkSize, PhotonApi.Nearest);
            && Transform(ph, img1, Watermark(x1, y1)) == Returned(ph.watermark(img1, mark, x1, y1))
            && Transform(ph, img2, Watermark(x2, y2)) == Returned(ph.watermark(img2, mark, x2, y2))
  {
  }

  /** A watermark panics exactly when the embedded asset cannot be decoded. */
  lemma WatermarkPanicsOnlyOnBadAsset<Img>(ph: Photon<Img>, img: Img, x: u32, y: u32)
    ensures Transform(ph, img, Watermark(x, y)).Panicked? <==> ph.openImage(ph.watermarkPng).None?
  {
  }

  /** The constructors of 01/src/pb/mod.rs build specs the engine interprets as
      their names say, and none of them can reach a panicking `unwrap`. */
  lemma ConstructorsApplyAsNamed<Img>(ph: Photon<Img>, img: Img, width: u32, height: u32,
                                      sample: SampleFilter, f: FilterKind)
    ensures Apply(ph, img, [NewResize(width, height, sample)])
         == Returned(ph.resize(img, width, height, ToSampling(sample)))
    ensures Apply(ph, img, [NewResizeSeamCarve(width, height)])
         == Returned(ph.seamCarve(img, width, height))
    ensures f == Unspecifited ==> Apply(ph, img, [NewFilter(f)]) == Returned(img)
    ensures f != Unspecifited ==> Apply(ph, img, [NewFilter(f)]) == Returned(ph.filter(img, ToStr(f).value))
  {
    DispatchCallsPhoton(ph, img, NewResize(width, height, sample).data.value);
    DispatchCallsPhoton(ph, img, NewResizeSeamCarve(width, height).data.value);
    DispatchCallsPhoton(ph, img, NewFilter(f).data.value);
  }

  /** Later specs see the cumulative effect of earlier ones: a crop followed by a
      resize resamples the cropped image. */
  lemma CropThenResize<Img>(ph: Photon<Img>, img: Img, x1: u32, y1: u32, x2: u32, y2: u32,
                            width: u32, height: u32, sample: SampleFilter)
    ensures Apply(ph, img, [Spec(Some(Crop(x1, y1, x2, y2))), NewResize(width, height, sample)])
         == Returned(ph.resize(ph.crop(img, x1, y1, x2, y2), width, height, ToSampling(sample)))
  {
    var specs := [Spec(Some(Crop(x1, y1, x2, y2))), NewResize(width, height, sample)];
    ApplyIsLeftFold(ph, img, specs[..1], specs[1..]);
    assert specs == specs[..1] + specs[1..];
    DispatchCallsPhoton(ph, img, Crop(x1, y1, x2, y2));
    ConstructorsApplyAsNamed(ph, ph.crop(img, x1, y1, x2, y2), width, height, sample, Unspecifited);
  }
}
