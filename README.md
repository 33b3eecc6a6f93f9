# Image-metadata resolution engine, in Dafny

This project models the metadata resolution engine of the quiz parser's image tools: the
class `ImageInformation`, which turns one image file into one immutable record
(orientation, width, height, a delete-tag flag, a unique id and the date taken) or into
no record at all.

The engine works in two tiers:

- **Tier 1, the structured read** (`readImageInformation`). It reads four directories of
  decoded metadata:
  - the orientation comes from the EXIF base directory and defaults to 1;
  - the unique id comes from the EXIF sub-IFD and defaults to `""`;
  - the date comes from a cascade run only when the sub-IFD is there: DateTime, then
    DateTimeOriginal, then DateTimeDigitized, then the file's creation time;
  - the delete flag is an exact, case-insensitive match of the keyword `delete` among the
    IPTC keywords;
  - the dimensions come from the JPEG directory, and a missing JPEG directory throws.
- **Tier 2, the fallback** (`safeReadImageInformation`). Any exception in tier 1 discards
  all of tier 1's work. The raw header probe then either gives dimensions, and the result
  is a minimal record (orientation 1, no delete tag, id `""`, the creation time), or it
  gives nothing, and so does the engine.

Files:

- `wrappers.dfy`: the `Option` datatype that stands for Java's nullable references.
- `metadata.dfy`: the answers of the foreign metadata library as values. Each directory is
  an `Option`. An integer tag is `Absent`, `Readable(v)` or `Unconvertible`, the last
  meaning `getInt` throws. A date tag is `Untagged` or `Tagged(parsed)`, where
  `parsed == None` means `getDate` returned null. `readMetadata` yields `Decoded(dirs)` or
  `Undecodable`. Java's `int` is the newtype `int32`. A `java.util.Date` is a `Timestamp`:
  its milliseconds as an `int`.
- `case_folding.dfy`: `String.equalsIgnoreCase` with ASCII case folding, and its
  characterisation as equality of lower-cased strings.
- `image_information.dfy`: the record and the two tiers.
  - The record is a datatype; its fields are the getters.
  - `getWidthHeightTransposed` is a predicate on the record, compared with the TIFF 6.0
    meaning of the orientation codes.
  - The three imperative Java methods are Dafny methods that follow the Java code step by
    step. Each is proved equal to a declarative function (`ContainsIgnoringCase`,
    `StructuredRead`, `SafeRead`).
  - The lemmas state the precedence rules, the defaults and the all-or-nothing fallback
    in terms of those functions.

A tier-1 failure records its cause, in the order the Java code meets them:
`DecodeFailed`, `OrientationUnreadable`, `NoJpegDirectory`, `DimensionUnreadable`. The
fallback ignores the cause. The "missing JPEG directory" case is therefore an explicit
failure value rather than a null dereference. The behaviour is the same, since the
catch-all takes both into the fallback.

Where the behaviour described for the system and the code differ, the model follows the
code:

- An orientation tag that converts to an integer outside 1 to 8 (0 or 9, say) is kept as
  it is. Only a missing tag or a missing directory gives 1. Such a value is never
  transposed (`TransposedIffRowsRunVertically`).
- A date tag that is present but does not parse never makes tier 1 fail. It is only
  skipped by the cascade (`DateCascadeSteps`).
- A JPEG directory whose width or height tag holds 0 gives a record with that 0. Only a
  missing or unconvertible dimension tag makes tier 1 fail.
- Without a sub-IFD, tier 1 gives no date and does not consult the creation time. With a
  sub-IFD that has no usable date tag, tier 1 gives the creation time. The model keeps
  this asymmetry.

## Model

| member | source | states |
|---|---|---|
| `ImageMetadata.TransposedIffRowsRunVertically` | src/main/java/com/dotosoft/dotoquiz/tools/quizparser/images/metadata/ImageInformation.java:52-54 | transposed exactly when the code's TIFF layout puts row 0 along a vertical side (equivalently, column 0 along a horizontal one), i.e. codes 5 to 8; never for 1 to 4 or for codes with no TIFF meaning |
| `ImageMetadata.ContainsCaseInsensitive` | src/main/java/com/dotosoft/dotoquiz/tools/quizparser/images/metadata/ImageInformation.java:156-163 | the early-return scan answers true iff some element equals the target ignoring case (whole-string; false on the empty list) |
| `ImageMetadata.ContainsIgnoringCaseIffSomeLowerMatches` | src/main/java/com/dotosoft/dotoquiz/tools/quizparser/images/metadata/ImageInformation.java:156-163 | the list contains the target ignoring case iff some element lower-cases to the target's lower-case form |
| `ImageMetadata.DeleteKeywordExamples` | src/main/java/com/dotosoft/dotoquiz/tools/quizparser/images/metadata/ImageInformation.java:144-147 | `["Delete","X"]` and `["x","DELETE"]` contain `delete`; `["deleted"]` and `[]` do not |
| `CaseFolding.CharEqualsIgnoreCaseIffSameLower` | src/main/java/com/dotosoft/dotoquiz/tools/quizparser/images/metadata/ImageInformation.java:158 | two characters match ignoring case iff their ASCII lower-case forms are equal |
| `CaseFolding.EqualsIgnoreCaseIffSameLower` | src/main/java/com/dotosoft/dotoquiz/tools/quizparser/images/metadata/ImageInformation.java:158 | two strings are equal ignoring case iff their lower-cased forms are equal (same length included) |
| `CaseFolding.EqualsIgnoreCaseIsEquivalence` | src/main/java/com/dotosoft/dotoquiz/tools/quizparser/images/metadata/ImageInformation.java:158 | equality ignoring case is reflexive, symmetric and transitive |
| `ImageMetadata.ReadImageInformation` | src/main/java/com/dotosoft/dotoquiz/tools/quizparser/images/metadata/ImageInformation.java:105-154 | the step-by-step reassignments (defaults, guarded overrides, early failure on each throw) give exactly the declarative tier-1 outcome `StructuredRead` |
| `ImageMetadata.Tier1SucceedsIff` | src/main/java/com/dotosoft/dotoquiz/tools/quizparser/images/metadata/ImageInformation.java:106-153 | tier 1 succeeds iff the file decodes, an orientation tag present converts, and the JPEG directory exists with both dimensions readable; the record then has the JPEG dimensions; no JPEG directory always fails |
| `ImageMetadata.Tier1Orientation` | src/main/java/com/dotosoft/dotoquiz/tools/quizparser/images/metadata/ImageInformation.java:111-120 | the tier-1 orientation is the EXIF base tag's value whatever it is, and 1 when the directory or the tag is missing |
| `ImageMetadata.FirstDateOfFour` | src/main/java/com/dotosoft/dotoquiz/tools/quizparser/images/metadata/ImageInformation.java:129-139 | on four candidates the first present one is picked by three successive "still missing" tests |
| `ImageMetadata.FirstDateIsFirstPresent` | src/main/java/com/dotosoft/dotoquiz/tools/quizparser/images/metadata/ImageInformation.java:129-139 | the picked date is `d` iff `d` is at some index before which every candidate is missing; nothing is picked iff all are missing |
| `ImageMetadata.Tier1DateIsFirstAvailable` | src/main/java/com/dotosoft/dotoquiz/tools/quizparser/images/metadata/ImageInformation.java:124-140 | with a sub-IFD, the tier-1 date is the first available of DateTime, DateTimeOriginal, DateTimeDigitized, creation time, and absent iff all four are |
| `ImageMetadata.DateCascadeSteps` | src/main/java/com/dotosoft/dotoquiz/tools/quizparser/images/metadata/ImageInformation.java:129-139 | DateTime wins; DateTimeOriginal is used when DateTime is missing; DateTimeDigitized when both are; the creation time when no tag parses; a present but unparseable tag acts as a missing one |
| `ImageMetadata.Tier1WithoutSubIfd` | src/main/java/com/dotosoft/dotoquiz/tools/quizparser/images/metadata/ImageInformation.java:112-140 | without a sub-IFD the tier-1 date is absent and the id is `""`; with one, the id is its unique-id tag when present and `""` otherwise |
| `ImageMetadata.Tier1DeleteTag` | src/main/java/com/dotosoft/dotoquiz/tools/quizparser/images/metadata/ImageInformation.java:142-148 | no IPTC directory or no keyword list gives false; otherwise the flag holds iff some keyword lower-cases to `delete` |
| `ImageMetadata.SafeReadImageInformation` | src/main/java/com/dotosoft/dotoquiz/tools/quizparser/images/metadata/ImageInformation.java:83-103 | the catch-all method returns exactly `SafeRead` of the tier-1 outcome, a record or None and never an error |
| `ImageMetadata.SafeReadOutcomes` | src/main/java/com/dotosoft/dotoquiz/tools/quizparser/images/metadata/ImageInformation.java:85-102 | a successful tier 1 is returned unchanged; after a failure the probe's dimensions give `(1, w, h, false, "", creationTime)` and a failed probe gives None; None iff tier 1 and the probe both fail |
| `ImageMetadata.FailedTier1DependsOnlyOnProbe` | src/main/java/com/dotosoft/dotoquiz/tools/quizparser/images/metadata/ImageInformation.java:89-100 | any two failed tier-1 reads, whatever their cause and directories, give the same result from the same probe and creation time; the fallback record is never transposed, never tagged, and has id `""` |
| `ImageMetadata.MissingJpegFallsBack` | src/main/java/com/dotosoft/dotoquiz/tools/quizparser/images/metadata/ImageInformation.java:86-97 | a decoded file without a JPEG directory always gets the fallback answer |
| `ImageMetadata.NoMetadataExamples` | src/main/java/com/dotosoft/dotoquiz/tools/quizparser/images/metadata/ImageInformation.java:89-99 | a file with no directories but a recognised header gives the minimal record; an undecodable file with an unrecognised header gives None |

## Left out

- The metadata-extractor library (`ImageMetadataReader.readMetadata`, `getFirstDirectoryOfType`, `containsTag`, `getInt`, `getString`, `getDate`, `getKeywords`) is foreign code. Its answers are the inputs of type `Decoded`. Which EXIF directory `getFirstDirectoryOfType(ExifDirectoryBase.class)` returns is part of that input.
- `SimpleImageInfo.getInfo`, the raw header probe, is not part of this model. Its answer is an `Option<Dimensions>` input. The model assumes it does not throw; an exception there would leave `safeReadImageInformation`.
- `getCreationTime` (ImageInformation.java:164-177) reads file attributes. Its answer is an `Option<Timestamp>` input. Both tiers see the same value, as they read the same unchanged file.
- Exceptions other than the four modelled causes are not modelled. This covers unchecked exceptions inside the library and `Error`s, which the catch-all does not catch.
- A null element inside the IPTC keyword list is not representable. The library never produces one.
- Logging (`log.debug`, `log.warn`) and `toString` are output only and do not affect the result.
- `CaseFolding.EqualsIgnoreCase` folds ASCII letters only. Java's `equalsIgnoreCase` also folds non-ASCII letters, so the model leaves that out.
- `Settings.java` (preferences persistence, command-line parsing, `System.exit`) and `QueryImageCommand.java` (a remote photo-hosting client in a command chain) are plumbing around the engine and are not modelled.
- Determinism needs no lemma: every member takes its collaborators' answers as inputs, so equal inputs give equal results.
