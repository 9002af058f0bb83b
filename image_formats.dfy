/**
 * The image formats PIL reports, the file extensions the core stores them
 * under (`possible_extensions`), and the encoder name a stored extension is
 * saved with (the mapping inside `placeholder`).
 */
module ImageFormats {
  import opened Wrappers
  import opened Raster

  /** `possible_extensions(format)`: the extensions a format may be stored under,
      the preferred one first. An unknown format raises `KeyError`. */
  function PossibleExtensions(format: string): Result<seq<string>, ImageError>
  {
    match format
    case "BMP" => Ok(["bmp"])
    case "GIF" => Ok(["gif"])
    case "JPEG" => Ok(["jpg", "jpe", "jpeg"])
    case "PPM" => Ok(["ppm", "pbm"])
    case "PCX" => Ok(["pcx"])
    case "PNG" => Ok(["png"])
    case "PSD" => Ok(["psd"])
    case "TGA" => Ok(["tga"])
    case "TIFF" => Ok(["tif", "tiff"])
    case _ => Err(KeyError)
  }

  /** The reverse reading of the table: the format an extension belongs to. */
  function FormatOfExtension(ext: string): Option<string>
  {
    if ext == "bmp" then Some("BMP")
    else if ext == "gif" then Some("GIF")
    else if ext in {"jpg", "jpe", "jpeg"} then Some("JPEG")
    else if ext in {"ppm", "pbm"} then Some("PPM")
    else if ext == "pcx" then Some("PCX")
    else if ext == "png" then Some("PNG")
    else if ext == "psd" then Some("PSD")
    else if ext == "tga" then Some("TGA")
    else if ext in {"tif", "tiff"} then Some("TIFF")
    else None
  }

  /** An extension is listed for a format exactly when it belongs to that format:
      no extension is shared by two formats. A format raises `KeyError` exactly
      when no extension belongs to it. */
  lemma ExtensionsBelongToOneFormat(format: string, ext: string)
    ensures (PossibleExtensions(format).Ok? && ext in PossibleExtensions(format).value)
              <==> FormatOfExtension(ext) == Some(format)
    ensures PossibleExtensions(format).Err? <==> forall e :: FormatOfExtension(e) != Some(format)
    ensures PossibleExtensions(format).Err? ==> PossibleExtensions(format).error == KeyError
  {
    var r := PossibleExtensions(format);
    if r.Ok? {
      assert FormatOfExtension(r.value[0]) == Some(format);
    }
  }

  /** Every known format has a preferred extension, which belongs to it. */
  lemma PreferredExtension(format: string)
    requires PossibleExtensions(format).Ok?
    ensures |PossibleExtensions(format).value| > 0
    ensures FormatOfExtension(PossibleExtensions(format).value[0]) == Some(format)
  {
    ExtensionsBelongToOneFormat(format, PossibleExtensions(format).value[0]);
  }

  function LowerChar(c: char): char
  {
    if 'A' <= c <= 'Z' then (c as int - 'A' as int + 'a' as int) as char else c
  }

  /** `str.lower()` on ASCII text. */
  function Lower(s: string): (r: string)
    ensures |r| == |s| && forall i :: 0 <= i < |s| ==> r[i] == LowerChar(s[i])
  {
    if s == [] then [] else [LowerChar(s[0])] + Lower(s[1..])
  }

  /** Lower-casing twice is lower-casing once. */
  lemma LowerIdempotent(s: string)
    ensures Lower(Lower(s)) == Lower(s)
  {
    var once, twice := Lower(s), Lower(Lower(s));
    forall i | 0 <= i < |s| ensures twice[i] == once[i] {
      assert once[i] == LowerChar(s[i]);
    }
  }

  /** The format `placeholder` hands to `save` for a stored extension: the three
      extensions PIL does not accept as format names are translated, any other is
      passed on unchanged (not lower-cased). */
  function EncoderName(originalExt: string): string
  {
    var ext := Lower(originalExt);
    if ext == "jpg" then "JPEG"
    else if ext in {"tiff", "tif"} then "TIFF"
    else originalExt
  }

  /** A translated extension is translated to the format the extension table
      files it under; every other is kept as it was. */
  lemma EncoderNameAgreesWithTable(originalExt: string)
    ensures Lower(originalExt) in {"jpg", "tif", "tiff"} ==>
              FormatOfExtension(Lower(originalExt)) == Some(EncoderName(originalExt))
    ensures Lower(originalExt) !in {"jpg", "tif", "tiff"} ==> EncoderName(originalExt) == originalExt
  {
  }

  /** Translating an encoder name again changes nothing. */
  lemma {:induction false} EncoderNameIdempotent(originalExt: string)
    ensures EncoderName(EncoderName(originalExt)) == EncoderName(originalExt)
  {
    var ext := Lower(originalExt);
    if ext == "jpg" {
      assert Lower("JPEG") == "jpeg";
    } else if ext in {"tiff", "tif"} {
      assert Lower("TIFF") == "tiff";
    }
  }
}
