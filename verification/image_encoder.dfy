/**
 * `get_image_base64`: turns an uploaded image into an embeddable
 * `data:` URI.  Decoding, resizing, PNG encoding and base64 are library
 * calls; they enter the model as the functions of a `Codec`.
 */
module ImageEncoder {
  import opened Options

  type byte = b: int | 0 <= b < 256

  /** What the function may be handed: a string, a PIL image, raw file bytes, or anything else. */
  datatype ImageSource<Pic> = Text(text: string) | PilImage(pic: Pic) | Raw(bytes: seq<byte>) | Unsupported

  /**
   * The image library as seen by the encoder: `open` decodes file bytes
   * (`None` when the library raises), `resize` stretches to the given width
   * and height, `pngBase64` saves as PNG and base64-encodes the result
   * (`None` when saving raises, as it does for modes PNG cannot store).
   */
  datatype Codec<!Pic> = Codec(open: seq<byte> -> Option<Pic>, resize: (Pic, nat, nat) -> Pic, pngBase64: Pic -> Option<string>)

  /** The outcome: an encoded URI, `None` for an unrecognised input, or an exception raised by the library. */
  datatype Encoding = Encoded(uri: string) | Unrecognised | LibraryError

  /** Strings starting with this are taken to be encoded already. */
  const DataPrefix: string := "data:image"

  /** Every URI the encoder produces starts with this. */
  const PngPrefix: string := "data:image/png;base64,"

  /** Width and height every encoded image is stretched to. */
  const Side: nat := 150

  /** Stretches a picture to the fixed size and saves it as a PNG URI. */
  function PngUri<Pic>(pic: Pic, codec: Codec<Pic>): Encoding {
    match codec.pngBase64(codec.resize(pic, Side, Side))
    case None => LibraryError
    case Some(b64) => Encoded(PngPrefix + b64)
  }

  function GetImageBase64<Pic>(src: ImageSource<Pic>, codec: Codec<Pic>): (r: Encoding)
    ensures src.Text? ==> (r.Encoded? <==> DataPrefix <= src.text)
    ensures src.Text? && r.Encoded? ==> r.uri == src.text
    ensures src.Text? && !r.Encoded? ==> r == Unrecognised
    ensures src.PilImage? ==>
      var saved := codec.pngBase64(codec.resize(src.pic, 150, 150));
      && (r.Encoded? <==> saved.Some?)
      && (r.Encoded? ==> r.uri == PngPrefix + saved.value)
    ensures src.Raw? ==>
      var pic := codec.open(src.bytes);
      && (r.Encoded? <==> pic.Some? && codec.pngBase64(codec.resize(pic.value, 150, 150)).Some?)
      && (r.Encoded? ==> r.uri == PngPrefix + codec.pngBase64(codec.resize(pic.value, 150, 150)).value)
    ensures src.Unsupported? ==> r == Unrecognised
    ensures r.Encoded? && !src.Text? ==> PngPrefix <= r.uri
    ensures r == LibraryError <==> !src.Text? && !src.Unsupported? && !r.Encoded?
  {
    match src
    case Text(s) => if DataPrefix <= s then Encoded(s) else Unrecognised
    case PilImage(pic) => PngUri(pic, codec)
    case Raw(bytes) =>
      (match codec.open(bytes)
       case None => LibraryError
       case Some(pic) => PngUri(pic, codec))
    case Unsupported => Unrecognised
  }

  /** Feeding an encoded result back in returns it unchanged. */
  lemma EncodeIdempotent<Pic>(src: ImageSource<Pic>, codec: Codec<Pic>)
    ensures var r := GetImageBase64(src, codec);
      r.Encoded? ==> GetImageBase64(Text(r.uri), codec) == r
  {
    var r := GetImageBase64(src, codec);
    if r.Encoded? && !src.Text? {
      assert DataPrefix <= PngPrefix;
      assert r.uri[..|DataPrefix|] == PngPrefix[..|DataPrefix|];
    }
  }
}
