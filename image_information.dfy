/**
  The image-metadata resolution engine of class ImageInformation: one image file becomes
  one immutable ImageInformation record, or no record at all.

  Tier 1 (readImageInformation) reads the structured directories; any exception there
  throws away everything tier 1 computed, and tier 2 (safeReadImageInformation) builds a
  minimal record from the raw header probe, or gives up.

  The file itself is not modelled: a call receives what the foreign collaborators would
  report for it — the decoded directory set, the probe's dimensions and the file's
  creation time.
 */
module ImageMetadata {
  import opened Wrappers
  import opened Metadata
  import opened CaseFolding

  // ---------------------------------------------------------------------------------
  // The record
  // ---------------------------------------------------------------------------------

  /**
    The immutable result. Its fields are the getters of the Java class; the datatype
    constructor takes its arguments in the order of the Java constructor.
   */
  datatype ImageInformation = ImageInformation(
    orientation: int32,
    width: int32,
    height: int32,
    hasDeleteTag: bool,
    uniqueId: string,
    dateTaken: Option<Timestamp>)
  {
    /** Whether width and height must be swapped to display the image upright. */
    predicate WidthHeightTransposed()
    {
      orientation == 6 || orientation == 8 || orientation == 7 || orientation == 5
    }
  }

  /** A side of the displayed image. */
  datatype Side = Top | Bottom | Left | Right
  {
    predicate Vertical()
    {
      this == Left || this == Right
    }
  }

  /** Which displayed sides row 0 and column 0 of the stored image lie along. */
  datatype Layout = Layout(rowZero: Side, columnZero: Side)

  /**
    The meaning of an orientation code as the Orientation tag (274) of TIFF 6.0 defines
    it, which EXIF adopts; codes outside 1 to 8 have no meaning.
   */
  function OrientationLayout(code: int32): Option<Layout>
  {
    if code == 1 then Some(Layout(Top, Left))
    else if code == 2 then Some(Layout(Top, Right))
    else if code == 3 then Some(Layout(Bottom, Right))
    else if code == 4 then Some(Layout(Bottom, Left))
    else if code == 5 then Some(Layout(Left, Top))
    else if code == 6 then Some(Layout(Right, Top))
    else if code == 7 then Some(Layout(Right, Bottom))
    else if code == 8 then Some(Layout(Left, Bottom))
    else None
  }

  /**
    Width and height are transposed exactly when the orientation code is a TIFF code whose
    stored rows run along a vertical side of the displayed image (and so its columns along
    a horizontal one): codes 5 to 8. Codes 1 to 4 and every code with no TIFF meaning are
    not transposed.
   */
  lemma TransposedIffRowsRunVertically(info: ImageInformation)
    ensures info.WidthHeightTransposed() <==>
      OrientationLayout(info.orientation).Some? && OrientationLayout(info.orientation).value.rowZero.Vertical()
    ensures info.WidthHeightTransposed() <==>
      OrientationLayout(info.orientation).Some? && !OrientationLayout(info.orientation).value.columnZero.Vertical()
    ensures 1 <= info.orientation <= 4 ==> !info.WidthHeightTransposed()
    ensures OrientationLayout(info.orientation).None? ==> !info.WidthHeightTransposed()
  {
  }

  // ---------------------------------------------------------------------------------
  // Keyword search
  // ---------------------------------------------------------------------------------

  /** Some element of `l` equals `s`, ignoring case. */
  predicate ContainsIgnoringCase(l: seq<string>, s: string)
  {
    exists i :: 0 <= i < |l| && EqualsIgnoreCase(l[i], s)
  }

  /** containsCaseInsensitive: a scan of the list that stops at the first match. */
  method ContainsCaseInsensitive(l: seq<string>, s: string) returns (found: bool)
    ensures found <==> ContainsIgnoringCase(l, s)
  {
    for i := 0 to |l|
      invariant forall j :: 0 <= j < i ==> !EqualsIgnoreCase(l[j], s)
    {
      if EqualsIgnoreCase(l[i], s) {
        return true;
      }
    }
    return false;
  }

  const DeleteKeyword: string := "delete"

  /** The keyword search is whole-string: a longer keyword never matches, an empty list never does. */
  lemma DeleteKeywordExamples()
    ensures ContainsIgnoringCase(["Delete", "X"], DeleteKeyword)
    ensures ContainsIgnoringCase(["x", "DELETE"], DeleteKeyword)
    ensures !ContainsIgnoringCase(["deleted"], DeleteKeyword)
    ensures !ContainsIgnoringCase([], DeleteKeyword)
  {
    assert EqualsIgnoreCase("Delete", DeleteKeyword);
    assert ["Delete", "X"][0] == "Delete";
    assert EqualsIgnoreCase("DELETE", DeleteKeyword);
    assert ["x", "DELETE"][1] == "DELETE";
  }

  /** The keyword search depends on the keywords only up to ASCII case. */
  lemma {:induction false} ContainsIgnoringCaseIffSomeLowerMatches(l: seq<string>, s: string)
    ensures ContainsIgnoringCase(l, s) <==> exists i :: 0 <= i < |l| && Lower(l[i]) == Lower(s)
  {
    forall i | 0 <= i < |l|
      ensures EqualsIgnoreCase(l[i], s) <==> Lower(l[i]) == Lower(s)
    {
      EqualsIgnoreCaseIffSameLower(l[i], s);
    }
  }

  // ---------------------------------------------------------------------------------
  // Tier 1: the structured read
  // ---------------------------------------------------------------------------------

  /** Why tier 1 threw, in the order the Java code meets the causes. */
  datatype Failure =
    | DecodeFailed           // readMetadata threw
    | OrientationUnreadable  // getInt on the orientation tag threw
    | NoJpegDirectory        // jpegDirectory was null
    | DimensionUnreadable    // getImageWidth or getImageHeight threw

  /** What tier 1 ends with: a record, or an exception. */
  datatype Tier1 = Read(info: ImageInformation) | Failed(cause: Failure)

  const DefaultOrientation: int32 := 1

  /** The orientation tag of the EXIF base directory, Absent when there is no such directory. */
  function OrientationTag(base: Option<ExifBase>): IntTag
  {
    if base.Some? then base.value.orientation else Absent
  }

  /** What `getDate` yields for a date tag, None when the tag is absent or does not parse. */
  function ParsedDate(tag: DateTag): Option<Timestamp>
  {
    if tag.Tagged? then tag.parsed else None
  }

  /** The first present date of a list of candidates. */
  function FirstDate(candidates: seq<Option<Timestamp>>): Option<Timestamp>
  {
    if candidates == [] then None
    else if candidates[0].Some? then candidates[0]
    else FirstDate(candidates[1..])
  }

  /** On four candidates, the first present one is picked by three tests in a row. */
  lemma FirstDateOfFour(a: Option<Timestamp>, b: Option<Timestamp>, c: Option<Timestamp>, d: Option<Timestamp>)
    ensures FirstDate([a, b, c, d]) == if a.Some? then a else if b.Some? then b else if c.Some? then c else d
  {
    assert [d][1..] == [];
    assert FirstDate([d]) == d;
    assert [c, d][1..] == [d];
    assert FirstDate([c, d]) == if c.Some? then c else d;
    assert [b, c, d][1..] == [c, d];
    assert FirstDate([b, c, d]) == if b.Some? then b else FirstDate([c, d]);
    assert [a, b, c, d][1..] == [b, c, d];
  }

  /** The date sources of the sub-IFD cascade, in order of precedence. */
  function DateCandidates(sub: ExifSubIfd, creationTime: Option<Timestamp>): seq<Option<Timestamp>>
  {
    [ParsedDate(sub.dateTime), ParsedDate(sub.dateTimeOriginal), ParsedDate(sub.dateTimeDigitized), creationTime]
  }

  /** The date of tier 1: the cascade runs only when the sub-IFD is there. */
  function ResolvedDate(sub: Option<ExifSubIfd>, creationTime: Option<Timestamp>): Option<Timestamp>
  {
    if sub.Some? then FirstDate(DateCandidates(sub.value, creationTime)) else None
  }

  /** The unique id of tier 1, "" unless the sub-IFD holds the unique-id tag. */
  function ResolvedUniqueId(sub: Option<ExifSubIfd>): string
  {
    if sub.Some? && sub.value.uniqueId.Some? then sub.value.uniqueId.value else ""
  }

  /** The delete flag of tier 1. */
  predicate DeleteTagged(iptc: Option<Iptc>)
  {
    iptc.Some? && iptc.value.keywords.Some? && ContainsIgnoringCase(iptc.value.keywords.value, DeleteKeyword)
  }

  /** Tier 1 as one value: every field resolved, or the first cause of an exception. */
  function StructuredRead(decoded: Decoded, creationTime: Option<Timestamp>): Tier1
  {
    match decoded
    case Undecodable => Failed(DecodeFailed)
    case Decoded(dirs) =>
      var orientationTag := OrientationTag(dirs.exifBase);
      if orientationTag.Unconvertible? then Failed(OrientationUnreadable)
      else if dirs.jpeg.None? then Failed(NoJpegDirectory)
      else if !dirs.jpeg.value.imageWidth.Readable? || !dirs.jpeg.value.imageHeight.Readable? then
        Failed(DimensionUnreadable)
      else
        Read(ImageInformation(
          if orientationTag.Readable? then orientationTag.value else DefaultOrientation,
          dirs.jpeg.value.imageWidth.value,
          dirs.jpeg.value.imageHeight.value,
          DeleteTagged(dirs.iptc),
          ResolvedUniqueId(dirs.exifSubIfd),
          ResolvedDate(dirs.exifSubIfd, creationTime)))
  }

  /**
    readImageInformation, step by step: defaults first, then guarded reassignments per
    directory; a thrown exception is an early return of Failed.
   */
  method ReadImageInformation(decoded: Decoded, creationTime: Option<Timestamp>) returns (outcome: Tier1)
    ensures outcome == StructuredRead(decoded, creationTime)
  {
    if decoded.Undecodable? {
      return Failed(DecodeFailed);
    }
    var dirs := decoded.dirs;

    var orientation := DefaultOrientation;
    var dateTaken: Option<Timestamp> := None;
    var uniqueId := "";

    if dirs.exifBase.Some? {
      match dirs.exifBase.value.orientation
      case Absent =>
      case Unconvertible => return Failed(OrientationUnreadable);
      case Readable(v) => orientation := v;
    }
    assert !OrientationTag(dirs.exifBase).Unconvertible?;
    assert orientation == if OrientationTag(dirs.exifBase).Readable? then OrientationTag(dirs.exifBase).value
      else DefaultOrientation;

    if dirs.exifSubIfd.Some? {
      var sub := dirs.exifSubIfd.value;
      if sub.uniqueId.Some? {
        uniqueId := sub.uniqueId.value;
      }
      if sub.dateTime.Tagged? {
        dateTaken := sub.dateTime.parsed;
      }
      if dateTaken.None? && sub.dateTimeOriginal.Tagged? {
        dateTaken := sub.dateTimeOriginal.parsed;
      }
      if dateTaken.None? && sub.dateTimeDigitized.Tagged? {
        dateTaken := sub.dateTimeDigitized.parsed;
      }
      if dateTaken.None? {
        dateTaken := creationTime;
      }
      FirstDateOfFour(ParsedDate(sub.dateTime), ParsedDate(sub.dateTimeOriginal),
        ParsedDate(sub.dateTimeDigitized), creationTime);
    }
    assert dateTaken == ResolvedDate(dirs.exifSubIfd, creationTime);
    assert uniqueId == ResolvedUniqueId(dirs.exifSubIfd);

    var hasDeleteTag := false;
    if dirs.iptc.Some? && dirs.iptc.value.keywords.Some? {
      var found := ContainsCaseInsensitive(dirs.iptc.value.keywords.value, DeleteKeyword);
      if found {
        hasDeleteTag := true;
      }
    }
    assert hasDeleteTag == DeleteTagged(dirs.iptc);

    if dirs.jpeg.None? {
      return Failed(NoJpegDirectory);
    }
    var jpeg := dirs.jpeg.value;
    if !jpeg.imageWidth.Readable? || !jpeg.imageHeight.Readable? {
      return Failed(DimensionUnreadable);
    }
    var width := jpeg.imageWidth.value;
    var height := jpeg.imageHeight.value;

    return Read(ImageInformation(orientation, width, height, hasDeleteTag, uniqueId, dateTaken));
  }

  /**
    Tier 1 succeeds exactly when the file decodes, the orientation tag (if any) converts,
    and the JPEG directory is there with both dimensions readable; the record then carries
    the JPEG directory's dimensions.
   */
  lemma Tier1SucceedsIff(decoded: Decoded, creationTime: Option<Timestamp>)
    ensures StructuredRead(decoded, creationTime).Read? <==>
      && decoded.Decoded?
      && !OrientationTag(decoded.dirs.exifBase).Unconvertible?
      && decoded.dirs.jpeg.Some?
      && decoded.dirs.jpeg.value.imageWidth.Readable?
      && decoded.dirs.jpeg.value.imageHeight.Readable?
    ensures StructuredRead(decoded, creationTime).Read? ==>
      && StructuredRead(decoded, creationTime).info.width == decoded.dirs.jpeg.value.imageWidth.value
      && StructuredRead(decoded, creationTime).info.height == decoded.dirs.jpeg.value.imageHeight.value
    ensures decoded.Decoded? && decoded.dirs.jpeg.None? ==> StructuredRead(decoded, creationTime).Failed?
  {
  }

  /**
    The orientation of a tier-1 record is the EXIF base directory's orientation tag when
    the directory holds it, whatever its value, and 1 otherwise.
   */
  lemma Tier1Orientation(dirs: DirectorySet, creationTime: Option<Timestamp>)
    requires StructuredRead(Decoded(dirs), creationTime).Read?
    ensures dirs.exifBase.Some? && dirs.exifBase.value.orientation.Readable? ==>
      StructuredRead(Decoded(dirs), creationTime).info.orientation == dirs.exifBase.value.orientation.value
    ensures dirs.exifBase.None? || dirs.exifBase.value.orientation.Absent? ==>
      StructuredRead(Decoded(dirs), creationTime).info.orientation == 1
  {
  }

  /** A first present date sits at an index before which every candidate is absent. */
  lemma {:induction false} FirstDateIsFirstPresent(candidates: seq<Option<Timestamp>>, d: Timestamp)
    ensures FirstDate(candidates).None? <==> forall i :: 0 <= i < |candidates| ==> candidates[i].None?
    ensures FirstDate(candidates) == Some(d) <==>
      exists k :: 0 <= k < |candidates| && candidates[k] == Some(d) &&
        forall j :: 0 <= j < k ==> candidates[j].None?
  {
    if candidates == [] {
    } else if candidates[0].Some? {
      if FirstDate(candidates) == Some(d) {
        assert candidates[0] == Some(d);
      }
    } else {
      var rest := candidates[1..];
      FirstDateIsFirstPresent(rest, d);
      if forall i :: 0 <= i < |rest| ==> rest[i].None? {
        forall i | 0 <= i < |candidates|
          ensures candidates[i].None?
        {
          if i > 0 {
            assert candidates[i] == rest[i - 1];
          }
        }
      }
      if forall i :: 0 <= i < |candidates| ==> candidates[i].None? {
        forall i | 0 <= i < |rest|
          ensures rest[i].None?
        {
          assert rest[i] == candidates[i + 1];
        }
      }
      if FirstDate(candidates) == Some(d) {
        var k :| 0 <= k < |rest| && rest[k] == Some(d) && forall j :: 0 <= j < k ==> rest[j].None?;
        assert candidates[k + 1] == Some(d);
        forall j | 0 <= j < k + 1
          ensures candidates[j].None?
        {
          if j > 0 {
            assert candidates[j] == rest[j - 1];
          }
        }
      }
      if exists k :: 0 <= k < |candidates| && candidates[k] == Some(d) &&
          forall j :: 0 <= j < k ==> candidates[j].None?
      {
        var k :| 0 <= k < |candidates| && candidates[k] == Some(d) &&
          forall j :: 0 <= j < k ==> candidates[j].None?;
        assert k > 0;
        assert rest[k - 1] == Some(d);
        forall j | 0 <= j < k - 1
          ensures rest[j].None?
        {
          assert rest[j] == candidates[j + 1];
        }
      }
    }
  }

  /**
    With the sub-IFD present, the tier-1 date is the first available of DateTime,
    DateTimeOriginal, DateTimeDigitized and the creation time, and it is absent only when
    all four are.
   */
  lemma Tier1DateIsFirstAvailable(dirs: DirectorySet, creationTime: Option<Timestamp>, d: Timestamp)
    requires StructuredRead(Decoded(dirs), creationTime).Read?
    requires dirs.exifSubIfd.Some?
    ensures StructuredRead(Decoded(dirs), creationTime).info.dateTaken == Some(d) <==>
      exists k :: 0 <= k < 4 && DateCandidates(dirs.exifSubIfd.value, creationTime)[k] == Some(d) &&
        forall j :: 0 <= j < k ==> DateCandidates(dirs.exifSubIfd.value, creationTime)[j].None?
    ensures StructuredRead(Decoded(dirs), creationTime).info.dateTaken.None? <==>
      forall k :: 0 <= k < 4 ==> DateCandidates(dirs.exifSubIfd.value, creationTime)[k].None?
  {
    FirstDateIsFirstPresent(DateCandidates(dirs.exifSubIfd.value, creationTime), d);
  }

  /**
    The cascade step by step: a later source is consulted only while the date is still
    missing, a tag that is present but does not parse counts as missing, and the creation
    time is the last resort.
   */
  lemma DateCascadeSteps(sub: ExifSubIfd, creationTime: Option<Timestamp>, d: Timestamp)
    ensures sub.dateTime == Tagged(Some(d)) ==> ResolvedDate(Some(sub), creationTime) == Some(d)
    ensures sub.dateTime.Untagged? && sub.dateTimeOriginal == Tagged(Some(d)) ==>
      ResolvedDate(Some(sub), creationTime) == Some(d)
    ensures sub.dateTime.Untagged? && sub.dateTimeOriginal.Untagged? && sub.dateTimeDigitized == Tagged(Some(d)) ==>
      ResolvedDate(Some(sub), creationTime) == Some(d)
    ensures (ParsedDate(sub.dateTime).None? && ParsedDate(sub.dateTimeOriginal).None? &&
      ParsedDate(sub.dateTimeDigitized).None?) ==> ResolvedDate(Some(sub), creationTime) == creationTime
    ensures ResolvedDate(Some(sub.(dateTime := Tagged(None))), creationTime) ==
      ResolvedDate(Some(sub.(dateTime := Untagged)), creationTime)
    ensures ResolvedDate(Some(sub.(dateTimeOriginal := Tagged(None))), creationTime) ==
      ResolvedDate(Some(sub.(dateTimeOriginal := Untagged)), creationTime)
    ensures ResolvedDate(Some(sub.(dateTimeDigitized := Tagged(None))), creationTime) ==
      ResolvedDate(Some(sub.(dateTimeDigitized := Untagged)), creationTime)
  {
    FirstDateOfFour(ParsedDate(sub.dateTime), ParsedDate(sub.dateTimeOriginal),
      ParsedDate(sub.dateTimeDigitized), creationTime);
  }

  /**
    Without a sub-IFD the tier-1 record has no date — the creation time is not consulted —
    and the empty unique id; with one, the unique id is its tag when present and "" otherwise.
   */
  lemma Tier1WithoutSubIfd(dirs: DirectorySet, creationTime: Option<Timestamp>)
    requires StructuredRead(Decoded(dirs), creationTime).Read?
    ensures dirs.exifSubIfd.None? ==> StructuredRead(Decoded(dirs), creationTime).info.dateTaken.None?
    ensures dirs.exifSubIfd.None? ==> StructuredRead(Decoded(dirs), creationTime).info.uniqueId == ""
    ensures dirs.exifSubIfd.Some? && dirs.exifSubIfd.value.uniqueId.Some? ==>
      StructuredRead(Decoded(dirs), creationTime).info.uniqueId == dirs.exifSubIfd.value.uniqueId.value
    ensures dirs.exifSubIfd.Some? && dirs.exifSubIfd.value.uniqueId.None? ==>
      StructuredRead(Decoded(dirs), creationTime).info.uniqueId == ""
  {
  }

  /**
    The delete flag is false without an IPTC directory or without its keyword list, and
    otherwise tells whether some keyword is "delete" up to ASCII case.
   */
  lemma Tier1DeleteTag(dirs: DirectorySet, creationTime: Option<Timestamp>)
    requires StructuredRead(Decoded(dirs), creationTime).Read?
    ensures dirs.iptc.None? || dirs.iptc.value.keywords.None? ==>
      !StructuredRead(Decoded(dirs), creationTime).info.hasDeleteTag
    ensures dirs.iptc.Some? && dirs.iptc.value.keywords.Some? ==>
      (StructuredRead(Decoded(dirs), creationTime).info.hasDeleteTag <==>
        exists i :: 0 <= i < |dirs.iptc.value.keywords.value| &&
          Lower(dirs.iptc.value.keywords.value[i]) == DeleteKeyword)
  {
    if dirs.iptc.Some? && dirs.iptc.value.keywords.Some? {
      ContainsIgnoringCaseIffSomeLowerMatches(dirs.iptc.value.keywords.value, DeleteKeyword);
      assert Lower(DeleteKeyword) == DeleteKeyword;
    }
  }

  // ---------------------------------------------------------------------------------
  // Tier 2: the fallback
  // ---------------------------------------------------------------------------------

  /** The minimal record built from the probe, or nothing when the probe does not recognise the file. */
  function Fallback(probe: Option<Dimensions>, creationTime: Option<Timestamp>): Option<ImageInformation>
  {
    if probe.Some? then
      Some(ImageInformation(DefaultOrientation, probe.value.width, probe.value.height, false, "", creationTime))
    else None
  }

  /** The final answer given the outcome of tier 1: tier 1's record as it is, or the fallback. */
  function SafeRead(outcome: Tier1, probe: Option<Dimensions>, creationTime: Option<Timestamp>): Option<ImageInformation>
  {
    match outcome
    case Read(info) => Some(info)
    case Failed(_) => Fallback(probe, creationTime)
  }

  /**
    safeReadImageInformation: tier 1 inside a catch-all. The probe's answer and the
    creation time are inputs; the method delivers a record or None and nothing else, so
    no exception leaves it.
   */
  method SafeReadImageInformation(decoded: Decoded, probe: Option<Dimensions>, creationTime: Option<Timestamp>)
    returns (info: Option<ImageInformation>)
    ensures info == SafeRead(StructuredRead(decoded, creationTime), probe, creationTime)
  {
    info := None;
    var outcome := ReadImageInformation(decoded, creationTime);
    match outcome
    case Read(read) =>
      info := Some(read);
    case Failed(_) =>
      if probe.Some? {
        info := Some(ImageInformation(1, probe.value.width, probe.value.height, false, "", creationTime));
      }
  }

  /**
    A successful tier 1 is returned unchanged; after a failure a recognised header gives
    the minimal record (orientation 1, no delete tag, "" as id, the creation time) and an
    unrecognised one gives nothing; nothing is returned only in that last case.
   */
  lemma SafeReadOutcomes(outcome: Tier1, probe: Option<Dimensions>, creationTime: Option<Timestamp>)
    ensures outcome.Read? ==> SafeRead(outcome, probe, creationTime) == Some(outcome.info)
    ensures outcome.Failed? && probe.Some? ==>
      SafeRead(outcome, probe, creationTime) ==
        Some(ImageInformation(1, probe.value.width, probe.value.height, false, "", creationTime))
    ensures outcome.Failed? && probe.None? ==> SafeRead(outcome, probe, creationTime).None?
    ensures SafeRead(outcome, probe, creationTime).None? <==> outcome.Failed? && probe.None?
  {
  }

  /**
    Once tier 1 fails, nothing it read survives: two files whose tier 1 fails, for any
    causes and whatever directories they hold, get the same answer from the same probe
    result and creation time. The fallback record is never transposed and never tagged.
   */
  lemma FailedTier1DependsOnlyOnProbe(d1: Decoded, d2: Decoded, probe: Option<Dimensions>, creationTime: Option<Timestamp>)
    requires StructuredRead(d1, creationTime).Failed?
    requires StructuredRead(d2, creationTime).Failed?
    ensures SafeRead(StructuredRead(d1, creationTime), probe, creationTime) ==
      SafeRead(StructuredRead(d2, creationTime), probe, creationTime)
    ensures SafeRead(StructuredRead(d1, creationTime), probe, creationTime) == Fallback(probe, creationTime)
    ensures Fallback(probe, creationTime).Some? ==>
      && !Fallback(probe, creationTime).value.WidthHeightTransposed()
      && !Fallback(probe, creationTime).value.hasDeleteTag
      && Fallback(probe, creationTime).value.uniqueId == ""
  {
  }

  /** A structured container with no JPEG directory always takes the fallback path. */
  lemma MissingJpegFallsBack(dirs: DirectorySet, probe: Option<Dimensions>, creationTime: Option<Timestamp>)
    requires dirs.jpeg.None?
    ensures SafeRead(StructuredRead(Decoded(dirs), creationTime), probe, creationTime) == Fallback(probe, creationTime)
  {
  }

  /**
    A file with no structured metadata at all: with a recognisable header the result is the
    minimal record, without one there is no result.
   */
  lemma NoMetadataExamples(w: int32, h: int32, creationTime: Option<Timestamp>)
    ensures SafeRead(StructuredRead(Decoded(DirectorySet(None, None, None, None)), creationTime),
      Some(Dimensions(w, h)), creationTime) == Some(ImageInformation(1, w, h, false, "", creationTime))
    ensures SafeRead(StructuredRead(Undecodable, creationTime), None, creationTime) == None
  {
  }
}
