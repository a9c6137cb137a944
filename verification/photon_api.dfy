/** The photon_rs and image-crate calls the engine makes, kept uninterpreted.
    The pixel algorithms (cropping, resampling, seam carving, contrast in `f32`,
    alpha blending, the named colour filters) and the codecs are foreign code with
    floating-point arithmetic; the model only records which call is made with
    which arguments. An image is a value of the type parameter `Img`.
 */
module PhotonApi {
  import opened Wrappers
  import opened Abi

  /** `photon_rs::transform::SamplingFilter`, the resampling kernels. */
  datatype SamplingFilter = Nearest | Triangle | CatmullRom | Gaussian | Lanczos3

  /** `image::ImageOutputFormat`, reduced to the one format the service asks for. */
  datatype OutputFormat = Jpeg(quality: u8)

  /** One photon_rs (or image-crate) function per field.
      `openImage` is `open_image_from_bytes`, which may fail; `encode` is
      `image_to_buf`. `watermarkPng` stands for the bytes of the watermark asset
      that photon.rs includes at compile time. */
  datatype Photon<!Img> = Photon(
    openImage: Bytes -> Option<Img>,
    crop: (Img, u32, u32, u32, u32) -> Img,
    adjustContrast: (Img, F32Bits) -> Img,
    flipv: Img -> Img,
    fliph: Img -> Img,
    grayscale: Img -> Img,
    filter: (Img, string) -> Img,
    resize: (Img, u32, u32, SamplingFilter) -> Img,
    seamCarve: (Img, u32, u32) -> Img,
    watermark: (Img, Img, u32, u32) -> Img,
    encode: (Img, OutputFormat) -> Bytes,
    watermarkPng: Bytes)
}
