/** Images as the Python code sees them: a numpy shape plus a pixel payload
    that is never inspected.  The pixel payload is a term that records which
    library operation produced it, so two images produced the same way from the
    same file are equal. */
module Imaging {

  /** A numpy image shape: (height, width) for grayscale, (height, width, channels)
      for colour.  Every decoder returns at least two axes. */
  type Shape = s: seq<nat> | |s| >= 2 witness [0, 0]

  /** The payload of an image, kept symbolic. */
  datatype Pixels =
    | Decoded(path: string)                  // what a decoder returned for a file
    | ColorDecoded(source: Pixels)           // cv2.imread in its default colour mode
    | ChannelsSwapped(source: Pixels)        // cv2.cvtColor(.., COLOR_BGR2RGB)
    | Resampled(source: Pixels, height: nat, width: nat)
    | AlphaComposited(source: Pixels)        // skimage.color.rgba2rgb

  datatype Image = Image(shape: Shape, pixels: Pixels)

  /** The side length every loader resizes to. */
  const Side: nat := 240

  /** `len(img.shape) == 2` */
  predicate IsGray(img: Image) { |img.shape| == 2 }

  /** `len(img.shape) == 3 and img.shape[2] == 4` */
  predicate IsRgba(img: Image) { |img.shape| == 3 && img.shape[2] == 4 }

  /** Three axes, three channels: the shape the classifier expects. */
  predicate IsRgb(img: Image) { |img.shape| == 3 && img.shape[2] == 3 }

  predicate SameSize(a: Image, b: Image) {
    a.shape[0] == b.shape[0] && a.shape[1] == b.shape[1]
  }

  /** skimage.transform.resize(img, (h, w)) on the two- and three-axis images
      imread yields: the first two axes take the new size, a channel axis is
      kept.  (The library refuses four or more axes; imread gives none.) */
  function SkResize(img: Image, h: nat, w: nat): (r: Image)
    ensures r.shape[0] == h && r.shape[1] == w
    ensures |r.shape| == |img.shape| && r.shape[2..] == img.shape[2..]
  {
    Image([h, w] + img.shape[2..], Resampled(img.pixels, h, w))
  }

  /** skimage.color.rgba2rgb: blends the alpha channel away; the library
      refuses anything whose last axis is not 4. */
  function Rgba2Rgb(img: Image): (r: Image)
    requires IsRgba(img)
    ensures IsRgb(r) && SameSize(r, img)
  {
    Image([img.shape[0], img.shape[1], 3], AlphaComposited(img.pixels))
  }

  /** cv2.imread(path) in its default IMREAD_COLOR mode: always three
      channels in BGR order, whatever the file holds.  The height and width
      are those of the decoded image; OpenCV applies the file's EXIF
      orientation and the other decoders do not, which the model does not
      distinguish (every loader resizes to Side x Side afterwards). */
  function CvDecodeColor(native: Image): (r: Image)
    ensures IsRgb(r) && SameSize(r, native)
  {
    Image([native.shape[0], native.shape[1], 3], ColorDecoded(native.pixels))
  }

  /** cv2.cvtColor(img, COLOR_BGR2RGB): reorders channels, keeps the shape. */
  function CvBgrToRgb(img: Image): (r: Image)
    ensures r.shape == img.shape
  {
    Image(img.shape, ChannelsSwapped(img.pixels))
  }

  /** cv2.resize(img, (w, h)) on a three-channel image: new height and
      width, channels kept. */
  function CvResize(img: Image, w: nat, h: nat): (r: Image)
    requires IsRgb(img)
    ensures r.shape[0] == h && r.shape[1] == w && r.shape[2..] == img.shape[2..]
  {
    Image([h, w] + img.shape[2..], Resampled(img.pixels, h, w))
  }

  /** The part of the file system the pipeline reads.
      `listing` is what os.listdir returns for a directory (in its order),
      `imagePaths` what imutils.paths.list_images yields for a directory (in
      walk order; a directory it cannot walk yields nothing), and `files` the
      image a decoder returns for a path (a path that no decoder can read is
      absent). */
  datatype Disk = Disk(
    listing: map<string, seq<string>>,
    imagePaths: map<string, seq<string>>,
    files: map<string, Image>)

  function ListImages(disk: Disk, dir: string): (paths: seq<string>)
    ensures dir !in disk.imagePaths ==> paths == []
  {
    if dir in disk.imagePaths then disk.imagePaths[dir] else []
  }
}
