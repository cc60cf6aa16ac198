/** The image library's objects, reduced to what the application's own arithmetic sees:
    size, colour mode and the logos pasted onto an image. Pixel values stay abstract;
    an image is determined by its source pixels and the sequence of pastes. */
module Raster {

  /** Pillow colour modes the application distinguishes; `Other` is any further mode. */
  datatype Mode = RGB | RGBA | LA | P | L | Other

  /** One `paste` of a logo: top-left corner, logo size, the factor applied to the logo's
      alpha channel, and whether the logo's own alpha served as the paste mask. */
  datatype Overlay = Overlay(x: int, y: int, width: int, height: int, alpha: real, masked: bool)

  datatype Image = Image(width: nat, height: nat, mode: Mode, overlays: seq<Overlay>)

  /** The image converted to RGB: onto a white background for the modes with
      transparency, by `convert('RGB')` for the others; pixels only change. */
  function ToRgb(img: Image): (r: Image)
    ensures r.mode == RGB && r.width == img.width && r.height == img.height
    ensures r.overlays == img.overlays
  {
    img.(mode := RGB)
  }
}
