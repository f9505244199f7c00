/**
  The four output formats, the static `messages` table (script.js lines
  39-66), the slider rule of `updateFormatInfo` (lines 69-88) and the
  background choice of the transcoder (lines 232-237).
 */
module Formats {
  import opened Wrappers

  datatype Format = Avif | WebP | Jpeg | Png

  /** The value the format selector holds for each format. */
  function Mime(f: Format): string {
    match f
    case Avif => "image/avif"
    case WebP => "image/webp"
    case Jpeg => "image/jpeg"
    case Png => "image/png"
  }

  /** `messages[value]` as a key lookup: defined only for the four MIME
      strings. */
  function ParseMime(value: string): (r: Option<Format>)
    ensures r.Some? ==> Mime(r.value) == value
  {
    if value == "image/avif" then Some(Avif)
    else if value == "image/webp" then Some(WebP)
    else if value == "image/jpeg" then Some(Jpeg)
    else if value == "image/png" then Some(Png)
    else None
  }

  /** Every format's MIME string is a key of the table, and only its own. */
  lemma ParseMimeRoundTrip(f: Format)
    ensures ParseMime(Mime(f)) == Some(f)
  {
  }

  /** One row of `messages`. */
  datatype FormatConfig = FormatConfig(
    text: string, colorClass: string, icon: string, disableSlider: bool)

  const AvifSafariText: string :=
    "⚠️ AVIF: Es probable que no funcione en Safari. Si el proceso se detiene, por favor usa WebP."
  const AvifText: string :=
    "AVIF (Nuevo): La mejor compresión actual. Menor peso que WebP y gran calidad."
  const WebPText: string :=
    "WebP: Estándar moderno. Mantiene transparencia y ahorra mucho peso."
  const JpegText: string :=
    "JPEG: Clásico para fotos. El fondo transparente se volverá BLANCO."
  const PngText: string :=
    "PNG: Formato 'sin pérdida'. El selector de calidad NO afectará el peso."

  /** The table, with the AVIF row depending on whether the browser was
      detected as Safari (the detection itself is a parameter). */
  function Messages(f: Format, isSafari: bool): (c: FormatConfig)
    ensures c.disableSlider <==> f == Png
  {
    match f
    case Avif =>
      if isSafari
      then FormatConfig(AvifSafariText, "bg-amber-50 border-amber-200 text-amber-800", "⚠️", false)
      else FormatConfig(AvifText, "bg-purple-50 border-purple-100 text-purple-800", "💎", false)
    case WebP => FormatConfig(WebPText, "bg-green-50 border-green-100 text-green-800", "✨", false)
    case Jpeg => FormatConfig(JpegText, "bg-blue-50 border-blue-100 text-blue-800", "📸", false)
    case Png => FormatConfig(PngText, "bg-orange-50 border-orange-100 text-orange-800", "⚠️", true)
  }

  /** Only the AVIF row depends on the browser. */
  lemma OnlyAvifDependsOnBrowser(f: Format)
    ensures Messages(f, true) != Messages(f, false) <==> f == Avif
  {
  }

  /** What the quality label shows: the word "Máxima", or the rounded
      percentage of the slider (the rounding is not modelled). */
  datatype QualityLabel = Maxima | Rounded

  /** The label text for the pinned case. */
  const MaximaText: string := "Máxima"

  /** What `updateFormatInfo` renders: the row's text, icon and colour, and
      whether the quality slider is usable. */
  datatype FormatView = FormatView(
    text: string, icon: string, colorClass: string,
    sliderEnabled: bool, quality: QualityLabel)

  /** `updateFormatInfo` for the selector's current value. A value that is
      not a key of the table makes `config` undefined and the function throw
      on its first use: `None`. */
  function UpdateFormatInfo(value: string, isSafari: bool): (v: Option<FormatView>)
    ensures v.Some? <==> ParseMime(value).Some?
    ensures v.Some? ==> (v.value.sliderEnabled <==> v.value.quality == Rounded)
    ensures v.Some? ==> (!v.value.sliderEnabled <==> value == Mime(Png))
    ensures v.Some? ==>
      var c := Messages(ParseMime(value).value, isSafari);
      v.value.text == c.text && v.value.icon == c.icon && v.value.colorClass == c.colorClass
  {
    match ParseMime(value)
    case None => None
    case Some(f) =>
      var c := Messages(f, isSafari);
      Some(FormatView(c.text, c.icon, c.colorClass, !c.disableSlider,
                      if c.disableSlider then Maxima else Rounded))
  }

  /** The slider is pinned to "Máxima" for PNG and usable for the other
      three formats, whatever the browser. */
  lemma SliderPinnedOnlyForPng(f: Format, isSafari: bool)
    ensures var v := UpdateFormatInfo(Mime(f), isSafari);
      && v.Some?
      && (v.value.quality == Maxima <==> f == Png)
      && (v.value.sliderEnabled <==> f in {Avif, WebP, Jpeg})
  {
    ParseMimeRoundTrip(f);
  }

  /** How the transcoder prepares its canvas before drawing. */
  datatype Background = OpaqueWhite | Transparent

  /** White fill only when the selector value is exactly the JPEG string;
      every other value clears the canvas. */
  function CanvasBackground(value: string): (b: Background)
    ensures b == OpaqueWhite <==> ParseMime(value) == Some(Jpeg)
  {
    if value == "image/jpeg" then OpaqueWhite else Transparent
  }
}
