/**
  What the metadata-extractor library hands to the resolution engine, as plain values.

  The library itself (ImageMetadataReader.readMetadata, getFirstDirectoryOfType and the
  per-directory tag lookups) is foreign code; each of its answers is an input here.
 */
module Metadata {
  import opened Wrappers

  /** Java's 32-bit `int`, the type of every tag value and dimension. */
  newtype int32 = x: int | -0x8000_0000 <= x < 0x8000_0000

  /** A `java.util.Date`, as the milliseconds since the epoch it holds. */
  type Timestamp = int

  /**
    An integer tag: `containsTag` is false (Absent), `getInt` returns a value (Readable),
    or the tag is there but `getInt` throws a MetadataException (Unconvertible).
   */
  datatype IntTag = Absent | Readable(value: int32) | Unconvertible

  /**
    A date tag: `containsTag` is false (Untagged), or it is true and `getDate` returns
    `parsed`, which is None when the stored text does not parse as a date.
   */
  datatype DateTag = Untagged | Tagged(parsed: Option<Timestamp>)

  /** The first EXIF directory of the file; only its orientation tag is read. */
  datatype ExifBase = ExifBase(orientation: IntTag)

  /** The EXIF sub-IFD: the image-unique-id string tag and the three date tags. */
  datatype ExifSubIfd = ExifSubIfd(
    uniqueId: Option<string>,
    dateTime: DateTag,
    dateTimeOriginal: DateTag,
    dateTimeDigitized: DateTag)

  /** The IPTC directory; `getKeywords` may return null. */
  datatype Iptc = Iptc(keywords: Option<seq<string>>)

  /** The JPEG frame directory; `getImageWidth`/`getImageHeight` are `getInt` lookups. */
  datatype Jpeg = Jpeg(imageWidth: IntTag, imageHeight: IntTag)

  /** Each directory is independently present or absent. */
  datatype DirectorySet = DirectorySet(
    exifBase: Option<ExifBase>,
    exifSubIfd: Option<ExifSubIfd>,
    iptc: Option<Iptc>,
    jpeg: Option<Jpeg>)

  /** The outcome of `ImageMetadataReader.readMetadata`: a directory set, or a thrown exception. */
  datatype Decoded = Decoded(dirs: DirectorySet) | Undecodable

  /** What the raw header probe `SimpleImageInfo.getInfo` reports when it recognises the file. */
  datatype Dimensions = Dimensions(width: int32, height: int32)
}
