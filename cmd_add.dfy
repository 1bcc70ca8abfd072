/**
 * The file-type classifier of src/cmd_add.rs. The image kinds stand for the
 * MIME types of the tag library the source uses.
 */
module CmdAdd {
  import opened Text
  import Common

  /** The image MIME types the classifier can report. */
  datatype MimeType = Bmp | Gif | Jpeg | Png | Tiff

  datatype AudioFileType = Audio | Image(mime: MimeType) | Unknown

  /** `try_get_filetype`: classifies an extension, ignoring ASCII case. */
  function TryGetFileType(ext: string): AudioFileType
  {
    match AsciiLower(ext)
    case "3gp" | "aa" | "aac" | "aax" | "act" | "aiff" | "alac" | "amr"
       | "ape" | "au" | "awb" | "dss" | "dvf" | "flac" | "gsm"
       | "iklax" | "ivs" | "m4a" | "m4b" | "m4p" | "mmf" | "movpkg"
       | "mp3" | "mpc" | "msv" | "nmf" | "ogg" | "opus" | "ra" | "raw"
       | "rf64" | "sln" | "tta" | "voc" | "vox" | "wav" | "wma" | "wv"
       | "webm" | "8svx" | "cda"
      => Audio
    case "bmp" => Image(Bmp)
    case "gif" => Image(Gif)
    case "jpg" | "jpeg" | "jfif" | "pjpeg" | "pjp" => Image(Jpeg)
    case "apng" | "png" => Image(Png)
    case "tif" | "tiff" => Image(Tiff)
    case _ => Unknown
  }

  /** The lower-case extensions of each image type. */
  function ImageExtensions(m: MimeType): seq<string>
  {
    match m
    case Bmp => ["bmp"]
    case Gif => ["gif"]
    case Jpeg => ["jpg", "jpeg", "jfif", "pjpeg", "pjp"]
    case Png => ["apng", "png"]
    case Tiff => ["tif", "tiff"]
  }

  /** The two audio lists agree: the classifier says audio exactly when `ext_is_audio_file` does. */
  lemma AudioAgreesWithExtIsAudioFile(ext: string)
    ensures TryGetFileType(ext) == Audio <==> Common.ExtIsAudioFile(ext)
  {
  }

  /** An extension is an image of type `m` exactly when, ignoring ASCII case, it is listed for `m`. */
  lemma ImageMatchesTable(ext: string, m: MimeType)
    ensures TryGetFileType(ext) == Image(m) <==> AsciiLower(ext) in ImageExtensions(m)
  {
    if AsciiLower(ext) in ImageExtensions(m) {
      ImageFromTable(ext, m);
    }
    if TryGetFileType(ext) == Image(m) {
      TableFromImage(ext, m);
    }
  }

  /** A listed image extension, in any case, is classified as its image type. */
  lemma ImageFromTable(ext: string, m: MimeType)
    requires AsciiLower(ext) in ImageExtensions(m)
    ensures TryGetFileType(ext) == Image(m)
  {
  }

  /** An extension classified as an image type is listed for that type. */
  lemma TableFromImage(ext: string, m: MimeType)
    requires TryGetFileType(ext) == Image(m)
    ensures AsciiLower(ext) in ImageExtensions(m)
  {
  }

  /** Everything neither audio nor a listed image is unknown. */
  lemma UnknownOtherwise(ext: string)
    ensures TryGetFileType(ext) == Unknown <==>
              !Common.ExtIsAudioFile(ext) && forall m :: AsciiLower(ext) !in ImageExtensions(m)
  {
    if TryGetFileType(ext) == Unknown {
      forall m ensures AsciiLower(ext) !in ImageExtensions(m) {
        ImageMatchesTable(ext, m);
      }
    } else if TryGetFileType(ext).Image? {
      ImageMatchesTable(ext, TryGetFileType(ext).mime);
    }
  }

  /** No image extension is accepted as audio by `ext_is_audio_file`. */
  lemma ImagesAreNotAudio(ext: string)
    requires TryGetFileType(ext).Image?
    ensures !Common.ExtIsAudioFile(ext)
  {
  }

  /** Case does not matter: an extension and its lower case are classified alike. */
  lemma TryGetFileTypeIgnoresCase(ext: string)
    ensures TryGetFileType(ext) == TryGetFileType(AsciiLower(ext))
  {
    AsciiLowerFixesLowerCase(ext);
  }

  /** Image extensions are recognised whatever their case. */
  lemma TryGetFileTypeImageExamples()
    ensures TryGetFileType("PNG") == Image(Png) && TryGetFileType("jfif") == Image(Jpeg)
    ensures TryGetFileType("Tiff") == Image(Tiff)
  {
    assert AsciiLower("PNG") == "png";
    assert AsciiLower("jfif") == "jfif";
    assert AsciiLower("Tiff") == "tiff";
    ImageMatchesTable("PNG", Png);
    ImageMatchesTable("jfif", Jpeg);
    ImageMatchesTable("Tiff", Tiff);
  }

  /** The empty extension and a video extension are unknown. */
  lemma TryGetFileTypeUnknownExamples()
    ensures TryGetFileType("") == Unknown && TryGetFileType("MP4") == Unknown
  {
    assert AsciiLower("MP4") == "mp4";
  }
}
