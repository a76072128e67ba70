/**
 * The pixel formats of the simulating camera, as values: the names of the
 * PixelType property, what each format means for the image buffer and the
 * dynamic range, the choice a property read reports back, the accepted bit
 * depths, and the automatic widening of an 8-bit format.
 */
module PixelTypes {
  import opened Options
  import opened MMDevice

  datatype PixelType = Mono8 | Mono16 | Rgb32 | Rgb64 | Mono32

  /** The value of the PixelType property for each format. */
  function Name(t: PixelType): string {
    match t
    case Mono8 => "8bit"
    case Mono16 => "16bit"
    case Rgb32 => "32bitRGB"
    case Rgb64 => "64bitRGB"
    case Mono32 => "32bit"
  }

  /** The format a property value names, if any: the chain of comparisons
      the PixelType handler makes. */
  function Parse(s: string): (t: Option<PixelType>)
  {
    if s == "8bit" then Some(Mono8)
    else if s == "16bit" then Some(Mono16)
    else if s == "32bitRGB" then Some(Rgb32)
    else if s == "64bitRGB" then Some(Rgb64)
    else if s == "32bit" then Some(Mono32)
    else None
  }

  /** Parsing is the inverse of naming, in both directions. */
  lemma ParseName(t: PixelType, s: string)
    ensures Parse(Name(t)) == Some(t)
    ensures Parse(s) == Some(t) <==> s == Name(t)
  {
  }

  /** Bytes per pixel of the image buffer. */
  function ByteDepth(t: PixelType): nat {
    match t
    case Mono8 => 1
    case Mono16 => 2
    case Rgb32 => 4
    case Rgb64 => 8
    case Mono32 => 4
  }

  /** The dynamic range the format sets: bits per component. */
  function BitDepth(t: PixelType): nat {
    match t
    case Mono8 => 8
    case Mono16 => 16
    case Rgb32 => 8
    case Rgb64 => 16
    case Mono32 => 32
  }

  /** Colour components per pixel. */
  function Components(t: PixelType): nat {
    match t
    case Rgb32 => 4
    case Rgb64 => 4
    case _ => 1
  }

  /** Every format's components fill its pixel with whole bytes of at least
      the format's bit depth each. */
  lemma FormatLayout(t: PixelType)
    ensures ByteDepth(t) % Components(t) == 0
    ensures 8 * (ByteDepth(t) / Components(t)) >= BitDepth(t)
  {
  }

  /** ResizeImageBuffer's selection of the byte depth from the PixelType
      property: the format's byte depth, or 0 for a name it does not know. */
  function PixelTypeByteDepth(s: string): (d: nat)
  {
    if s == "8bit" then 1
    else if s == "16bit" then 2
    else if s == "32bitRGB" then 4
    else if s == "32bit" then 4
    else if s == "64bitRGB" then 8
    else 0
  }

  /** That selection agrees with the format table. */
  lemma PixelTypeByteDepthAgrees(s: string)
    ensures PixelTypeByteDepth(s) == match Parse(s) case Some(t) => ByteDepth(t) case None => 0
  {
  }

  /** What a read of the PixelType property reports for the image's bytes per
      pixel and component count; None when it leaves the property as it was
      (four bytes with neither one nor four components). */
  function ReportedName(bytesPerPixel: nat, components: nat): (name: Option<string>)
    ensures name.Some? ==> Parse(name.value).Some?
  {
    if bytesPerPixel == 1 then Some(Name(Mono8))
    else if bytesPerPixel == 2 then Some(Name(Mono16))
    else if bytesPerPixel == 4 then
      if components == 4 then Some(Name(Rgb32))
      else if components == 1 then Some(Name(Mono32))
      else None
    else if bytesPerPixel == 8 then Some(Name(Rgb64))
    else Some(Name(Mono8))
  }

  /** Reading the property back after setting a format reports that format. */
  lemma ReportedNameRoundTrip(t: PixelType)
    ensures ReportedName(ByteDepth(t), Components(t)) == Some(Name(t))
  {
  }

  /** The outcome of writing the BitDepth property: bytes per component, the
      stored bit depth and the handler's result. */
  datatype BitDepthSetting = BitDepthSetting(bytesPerComponent: nat, bitDepth: nat, status: Status)

  function ChooseBitDepth(bits: int): (r: BitDepthSetting)
  {
    if bits == 8 then BitDepthSetting(1, 8, Ok)
    else if bits == 10 then BitDepthSetting(2, 10, Ok)
    else if bits == 12 then BitDepthSetting(2, 12, Ok)
    else if bits == 14 then BitDepthSetting(2, 14, Ok)
    else if bits == 16 then BitDepthSetting(2, 16, Ok)
    else if bits == 32 then BitDepthSetting(4, 32, Ok)
    else BitDepthSetting(1, 8, UnknownMode)
  }

  /** Exactly 8, 10, 12, 14, 16 and 32 are accepted and stored, each with the
      fewest whole bytes that hold it; anything else stores 8 in one byte and
      reports an unknown mode. */
  lemma ChooseBitDepthSpec(bits: int)
    ensures var r := ChooseBitDepth(bits);
      && (r.status == Ok <==> bits in {8, 10, 12, 14, 16, 32})
      && (r.status == Ok ==> r.bitDepth == bits && 8 * (r.bytesPerComponent - 1) < bits <= 8 * r.bytesPerComponent)
      && (r.status != Ok ==> r.status == UnknownMode && r.bitDepth == 8 && r.bytesPerComponent == 1)
  {
  }

  /** The PixelType property value and bytes per pixel after a bit depth that
      needs bytesPerComponent bytes: an 8-bit format is widened to 16bit or
      32bit when the bits need it; other formats keep their byte depth; a
      name that is no format gives one byte. */
  function Promote(pixelType: string, bytesPerComponent: nat): (r: (string, nat))
  {
    if pixelType == "8bit" then
      if bytesPerComponent == 2 then ("16bit", 2)
      else if bytesPerComponent == 4 then ("32bit", 4)
      else (pixelType, 1)
    else if pixelType == "16bit" then (pixelType, 2)
    else if pixelType == "32bitRGB" then (pixelType, 4)
    else if pixelType == "32bit" then (pixelType, 4)
    else if pixelType == "64bitRGB" then (pixelType, 8)
    else (pixelType, 1)
  }

  /** Only an 8-bit format changes: to 16bit for two bytes per component,
      to 32bit for four, and not at all otherwise; the bytes per pixel are
      those of the resulting format; a widened format has room for the
      component. */
  lemma PromoteSpec(pixelType: string, bytesPerComponent: nat)
    ensures var r := Promote(pixelType, bytesPerComponent);
      && (r.0 != pixelType ==> pixelType == Name(Mono8))
      && (pixelType == Name(Mono8) && bytesPerComponent == 2 ==> r.0 == Name(Mono16))
      && (pixelType == Name(Mono8) && bytesPerComponent == 4 ==> r.0 == Name(Mono32))
      && (pixelType == Name(Mono8) && bytesPerComponent != 2 && bytesPerComponent != 4 ==> r.0 == Name(Mono8))
      && (Parse(r.0).Some? ==> r.1 == ByteDepth(Parse(r.0).value))
      && (Parse(r.0).None? ==> r.1 == 1)
      && (pixelType == Name(Mono8) && bytesPerComponent in {1, 2, 4} ==> r.1 == bytesPerComponent)
  {
  }

  /** The outcome of writing the PixelType property: components, bytes per
      pixel, bit depth, the value the property is left with, and the result.
      An unknown name falls back to 8bit. */
  datatype PixelTypeSetting = PixelTypeSetting(components: nat, byteDepth: nat, bitDepth: nat, property: string, status: Status)

  function ChoosePixelType(name: string): (r: PixelTypeSetting)
  {
    match Parse(name)
    case Some(t) => PixelTypeSetting(Components(t), ByteDepth(t), BitDepth(t), name, Ok)
    case None => PixelTypeSetting(1, 1, 8, Name(Mono8), UnknownMode)
  }

  /** A known name is applied and reads back as itself; an unknown one
      behaves as 8bit and reports an unknown mode. */
  lemma ChoosePixelTypeSpec(name: string)
    ensures var r := ChoosePixelType(name);
      && (r.status == Ok <==> Parse(name).Some?)
      && ReportedName(r.byteDepth, r.components) == Some(r.property)
      && Parse(r.property).Some?
      && (r.status == Ok ==> r.property == name)
      && (r.status != Ok ==> r.status == UnknownMode && r == ChoosePixelType(Name(Mono8)).(status := UnknownMode))
  {
    match Parse(name)
    case Some(t) =>
      ReportedNameRoundTrip(t);
      ParseName(t, name);
    case None =>
  }
}
