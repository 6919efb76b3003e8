/**
 * `check_image_valid_and_has_exif`: admit a path by its extension, open it,
 * decide whether it carries metadata and, on request, fill the 16-field
 * metadata record. The image decoder is not modelled: what it yields for the
 * path is an input, and the method reports whether it would have opened the file.
 */
module Metadata {
  import opened Wrappers
  import opened Sequences
  import opened ExifValues
  import opened GpsConversion
  import opened TagResolution
  import opened Admission

  /** The entries of the info dictionary: no key occurs twice, as in any Python dict. */
  type InfoEntries = info: seq<(string, ExifValue)> | forall i, j :: 0 <= i < j < |info| ==> info[i].0 != info[j].0

  /**
   * What opening the file yields: a failure (corrupt file, I/O error), or the
   * EXIF entries in order (None when reading them raised) and the info map.
   */
  datatype Decoded =
    | Undecodable
    | Image(exif: Option<seq<(int, ExifValue)>>, info: InfoEntries)

  /** The info keys that suggest metadata, compared after lowering. */
  const MetaKeys: seq<string> := ["exif", "comment", "text", "description", "author", "meta"]

  predicate IsMetaKey(key: string) {
    Lower(key) in MetaKeys
  }

  /** `has_meta` of `systemproper.py` lines 257-276. */
  function HasMeta(exif: Option<seq<(int, ExifValue)>>, info: InfoEntries): (b: bool)
    ensures b <==> (exif.Some? && exif.value != [])
                   || (exists i :: 0 <= i < |info| && IsMetaKey(info[i].0))
                   || (exists i :: 0 <= i < |info| && Truthy(info[i].1))
  {
    var hasExif := exif.Some? && |exif.value| > 0;
    var infoHasMeta := Any(info, (e: (string, ExifValue)) => IsMetaKey(e.0))
                       || Any(info, (e: (string, ExifValue)) => Truthy(e.1));
    hasExif || infoHasMeta
  }

  /** The record of `systemproper.py` lines 280-297, one field per key. */
  datatype ImageMetadata = ImageMetadata(
    dateTaken: Option<ExifValue>,
    programName: Option<ExifValue>,
    dateAcquired: Option<ExifValue>,
    copyright: Option<ExifValue>,
    imageId: Option<ExifValue>,
    cameraMaker: Option<ExifValue>,
    cameraModel: Option<ExifValue>,
    lensMaker: Option<ExifValue>,
    lensModel: Option<ExifValue>,
    exifVersion: Option<ExifValue>,
    latitude: Option<real>,
    latitudeRef: Option<ExifValue>,
    longitude: Option<real>,
    longitudeRef: Option<ExifValue>,
    altitude: Option<real>,
    altitudeRef: Option<ExifValue>)

  /** Every field None. */
  const EmptyMetadata: ImageMetadata :=
    ImageMetadata(None, None, None, None, None, None, None, None, None, None, None, None, None, None, None, None)

  /** The six GPS fields of the record. */
  datatype GpsFields = GpsFields(
    latitude: Option<real>,
    latitudeRef: Option<ExifValue>,
    longitude: Option<real>,
    longitudeRef: Option<ExifValue>,
    altitude: Option<real>,
    altitudeRef: Option<ExifValue>)

  const NoGps: GpsFields := GpsFields(None, None, None, None, None, None)

  function GpsOf(m: ImageMetadata): GpsFields {
    GpsFields(m.latitude, m.latitudeRef, m.longitude, m.longitudeRef, m.altitude, m.altitudeRef)
  }

  /** `d.get(name)` */
  function Get(d: map<Key, ExifValue>, name: string): Option<ExifValue> {
    if Name(name) in d then Some(d[Name(name)]) else None
  }

  /** Python's `a or b` over two lookups: `a` when it is present and truthy, else `b`. */
  function Or(a: Option<ExifValue>, b: Option<ExifValue>): Option<ExifValue> {
    if a.Some? && Truthy(a.value) then a else b
  }

  /** What storing a hemisphere or altitude reference gives: bytes are decoded strictly, which may raise. */
  datatype Stored = Stored(value: Option<ExifValue>) | DecodeRaised

  /** `ref.decode() if isinstance(ref, bytes) else ref` */
  function StoredRef(ref: Option<ExifValue>, codec: Codec): (st: Stored)
    // only bytes can raise, and they raise exactly when the strict decode fails
    ensures st.DecodeRaised? <==> ref.Some? && ref.value.Bytes? && codec.decodeStrict(ref.value.b).None?
    // decoded bytes are stored as their text, anything else as it is
    ensures st.Stored? && ref.Some? && ref.value.Bytes? ==> st.value == Some(Str(codec.decodeStrict(ref.value.b).value))
    ensures !(ref.Some? && ref.value.Bytes?) ==> st == Stored(ref)
  {
    match ref
    case Some(Bytes(b)) =>
      (match codec.decodeStrict(b)
       case Some(s) => Stored(Some(Str(s)))
       case None => DecodeRaised)
    case _ => Stored(ref)
  }

  /**
   * The GPS fields that `systemproper.py` lines 326-348 leave, from the GPS directory by name: the
   * assignments run in record order and stop at the first reference whose bytes
   * do not decode, the remaining fields keeping None.
   */
  function GpsSpec(g: map<Key, ExifValue>, codec: Codec): (r: GpsFields)
    // nothing is invented: a field has a value only when its tag is in the directory
    ensures r.latitude.Some? ==> Name("GPSLatitude") in g
    ensures r.latitudeRef.Some? ==> Name("GPSLatitudeRef") in g
    ensures r.longitude.Some? ==> Name("GPSLongitude") in g
    ensures r.longitudeRef.Some? ==> Name("GPSLongitudeRef") in g
    ensures r.altitude.Some? ==> Name("GPSAltitude") in g
    ensures r.altitudeRef.Some? ==> Name("GPSAltitudeRef") in g
  {
    var lat, latRef := Get(g, "GPSLatitude"), Get(g, "GPSLatitudeRef");
    var lon, lonRef := Get(g, "GPSLongitude"), Get(g, "GPSLongitudeRef");
    var alt, altRef := Get(g, "GPSAltitude"), Get(g, "GPSAltitudeRef");
    var latDec := if lat.Some? then DmsToDecimal(lat.value, latRef, codec) else None;
    var lonDec := if lon.Some? then DmsToDecimal(lon.value, lonRef, codec) else None;
    var altVal := if alt.Some? then RatToReal(alt.value, codec) else None;
    match (StoredRef(latRef, codec), StoredRef(lonRef, codec), StoredRef(altRef, codec))
    case (DecodeRaised, _, _) => GpsFields(latDec, None, None, None, None, None)
    case (Stored(a), DecodeRaised, _) => GpsFields(latDec, a, lonDec, None, None, None)
    case (Stored(a), Stored(b), DecodeRaised) => GpsFields(latDec, a, lonDec, b, altVal, None)
    case (Stored(a), Stored(b), Stored(c)) => GpsFields(latDec, a, lonDec, b, altVal, c)
  }

  /** `systemproper.py` line 312: a GPS sub-directory is processed only when present and truthy. */
  predicate GpsPresent(exif: map<Key, ExifValue>) {
    Get(exif, "GPSInfo").Some? && Truthy(Get(exif, "GPSInfo").value)
  }

  /** The record `systemproper.py` lines 280-348 produce from the EXIF dictionary by name. */
  function ExtractedRecord(exif: map<Key, ExifValue>, gpsTable: map<int, string>, codec: Codec): ImageMetadata {
    var gps := if GpsPresent(exif) then GpsSpec(GpsMap(Get(exif, "GPSInfo").value, gpsTable), codec) else NoGps;
    ImageMetadata(
      Or(Get(exif, "DateTimeOriginal"), Get(exif, "DateTime")),
      Get(exif, "Software"),
      Get(exif, "DateTimeDigitized"),
      Get(exif, "Copyright"),
      Get(exif, "ImageUniqueID"),
      Get(exif, "Make"),
      Get(exif, "Model"),
      Get(exif, "LensMake"),
      Get(exif, "LensModel"),
      Get(exif, "ExifVersion"),
      gps.latitude, gps.latitudeRef, gps.longitude, gps.longitudeRef, gps.altitude, gps.altitudeRef)
  }

  /** `systemproper.py` lines 280-348 as they run: the record starts all None and is overwritten field by field. */
  method ExtractMetadata(exif: map<Key, ExifValue>, gpsTable: map<int, string>, codec: Codec)
    returns (meta: ImageMetadata)
    ensures meta == ExtractedRecord(exif, gpsTable, codec)
  {
    meta := EmptyMetadata;
    meta := meta.(dateTaken := Or(Get(exif, "DateTimeOriginal"), Get(exif, "DateTime")));
    meta := meta.(programName := Get(exif, "Software"));
    meta := meta.(dateAcquired := Get(exif, "DateTimeDigitized"));
    meta := meta.(copyright := Get(exif, "Copyright"));
    meta := meta.(imageId := Get(exif, "ImageUniqueID"));
    meta := meta.(cameraMaker := Get(exif, "Make"));
    meta := meta.(cameraModel := Get(exif, "Model"));
    meta := meta.(lensMaker := Get(exif, "LensMake"));
    meta := meta.(lensModel := Get(exif, "LensModel"));
    meta := meta.(exifVersion := Get(exif, "ExifVersion"));

    // the try block of `systemproper.py` lines 311-350; the only statements in it that can raise are the strict decodes
    var gpsRaw := Get(exif, "GPSInfo");
    if gpsRaw.Some? && Truthy(gpsRaw.value) {
      var gps := ResolveGpsTags(gpsRaw.value, gpsTable);
      var lat, latRef := Get(gps, "GPSLatitude"), Get(gps, "GPSLatitudeRef");
      var lon, lonRef := Get(gps, "GPSLongitude"), Get(gps, "GPSLongitudeRef");
      var alt, altRef := Get(gps, "GPSAltitude"), Get(gps, "GPSAltitudeRef");
      var latDec := if lat.Some? then DmsToDecimal(lat.value, latRef, codec) else None;
      var lonDec := if lon.Some? then DmsToDecimal(lon.value, lonRef, codec) else None;
      var altVal: Option<real> := None;
      if alt.Some? {
        altVal := RatToReal(alt.value, codec);
      }

      meta := meta.(latitude := latDec);
      var stored := StoredRef(latRef, codec);
      if stored.DecodeRaised? { return; }
      meta := meta.(latitudeRef := stored.value);
      meta := meta.(longitude := lonDec);
      stored := StoredRef(lonRef, codec);
      if stored.DecodeRaised? { return; }
      meta := meta.(longitudeRef := stored.value);
      meta := meta.(altitude := altVal);
      stored := StoredRef(altRef, codec);
      if stored.DecodeRaised? { return; }
      meta := meta.(altitudeRef := stored.value);
    }
  }

  /** The EXIF dictionary by name that `systemproper.py` lines 257-266 build; empty when reading the entries raised. */
  function ExifDict(exif: Option<seq<(int, ExifValue)>>, mainTable: map<int, string>): map<Key, ExifValue> {
    match exif
    case Some(raw) => Resolved(raw, MainRenamer(mainTable))
    case None => map[]
  }

  function MainRenamer(mainTable: map<int, string>): int -> Key {
    id => MainName(id, mainTable)
  }

  /** The result: a pair without extraction, a triple with it; a triple's None is the empty dict `{}`. */
  datatype CheckResult =
    | Checked(isValid: bool, hasMeta: bool)
    | Extracted(isValid: bool, hasMeta: bool, meta: Option<ImageMetadata>)

  /** `(False, False)`, or `(False, False, {})` when extracting. */
  function Rejected(extract: bool): CheckResult {
    if extract then Extracted(false, false, None) else Checked(false, false)
  }

  /** `check_image_valid_and_has_exif(path, extract_metadata)` */
  method CheckImageValidAndHasExif(path: string, extract: bool, platform: Platform, image: Decoded,
                                   tables: TagTables, codec: Codec)
    returns (result: CheckResult, admitted: bool)
    // the file is opened only when the extension is allowed
    ensures admitted <==> Admitted(path, platform)
    ensures !admitted ==> result == Rejected(extract)
    // a decode failure looks exactly like a refused extension
    ensures admitted && image.Undecodable? ==> result == Rejected(extract)
    ensures admitted && image.Image? && !extract ==> result == Checked(true, HasMeta(image.exif, image.info))
    ensures admitted && image.Image? && extract ==>
              result == Extracted(true, HasMeta(image.exif, image.info),
                                  Some(ExtractedRecord(ExifDict(image.exif, tables.main), tables.gps, codec)))
  {
    var ext := SplitExt(Lower(path), platform);
    if ext !in ValidExts {
      return Rejected(extract), false;
    }
    admitted := true;
    if image.Undecodable? {
      return Rejected(extract), admitted;
    }

    var hasExif := false;
    var exifDict: map<Key, ExifValue> := map[];
    if image.exif.Some? && |image.exif.value| > 0 {
      hasExif := true;
      exifDict := ResolveTags(image.exif.value, MainRenamer(tables.main));
    }
    assert exifDict == ExifDict(image.exif, tables.main);

    var infoHasMeta := Any(image.info, (e: (string, ExifValue)) => IsMetaKey(e.0));
    if Any(image.info, (e: (string, ExifValue)) => Truthy(e.1)) {
      infoHasMeta := true;
    }
    var hasMeta := hasExif || infoHasMeta;
    if !extract {
      return Checked(true, hasMeta), admitted;
    }

    var meta := ExtractMetadata(exifDict, tables.gps, codec);
    result := Extracted(true, hasMeta, Some(meta));
  }

  /** Whatever the GPS directory holds, and whether or not its processing fails, the other ten fields are the plain lookups. */
  lemma NonGpsFieldsSurvive(exif: map<Key, ExifValue>, gps: ExifValue, gpsTable: map<int, string>, codec: Codec)
    ensures var m, n := ExtractedRecord(exif[Name("GPSInfo") := gps], gpsTable, codec),
                        ExtractedRecord(exif - {Name("GPSInfo")}, gpsTable, codec);
            m.dateTaken == n.dateTaken && m.programName == n.programName && m.dateAcquired == n.dateAcquired &&
            m.copyright == n.copyright && m.imageId == n.imageId && m.cameraMaker == n.cameraMaker &&
            m.cameraModel == n.cameraModel && m.lensMaker == n.lensMaker && m.lensModel == n.lensModel &&
            m.exifVersion == n.exifVersion
    ensures GpsOf(ExtractedRecord(exif - {Name("GPSInfo")}, gpsTable, codec)) == NoGps
  {
  }

  /**
   * The latitude is assigned before any statement of the try block can raise. A
   * reference whose bytes fail to decode leaves its own field and every later GPS
   * field None, and the fields before it keep their values; when every reference
   * decodes, all six fields hold the computed values.
   */
  lemma GpsFailureContainment(g: map<Key, ExifValue>, codec: Codec)
    ensures var lat := Get(g, "GPSLatitude");
            GpsSpec(g, codec).latitude == (if lat.Some? then DmsToDecimal(lat.value, Get(g, "GPSLatitudeRef"), codec) else None)
    ensures var r, latRef := GpsSpec(g, codec), StoredRef(Get(g, "GPSLatitudeRef"), codec);
            latRef.DecodeRaised? ==>
              r.latitudeRef == None && r.longitude == None && r.longitudeRef == None &&
              r.altitude == None && r.altitudeRef == None
    ensures var r, latRef, lonRef := GpsSpec(g, codec), StoredRef(Get(g, "GPSLatitudeRef"), codec),
                                     StoredRef(Get(g, "GPSLongitudeRef"), codec);
            var lon := Get(g, "GPSLongitude");
            !latRef.DecodeRaised? && lonRef.DecodeRaised? ==>
              r.latitudeRef == latRef.value &&
              r.longitude == (if lon.Some? then DmsToDecimal(lon.value, Get(g, "GPSLongitudeRef"), codec) else None) &&
              r.longitudeRef == None && r.altitude == None && r.altitudeRef == None
    ensures var r, latRef, lonRef, altRef := GpsSpec(g, codec), StoredRef(Get(g, "GPSLatitudeRef"), codec),
                                             StoredRef(Get(g, "GPSLongitudeRef"), codec),
                                             StoredRef(Get(g, "GPSAltitudeRef"), codec);
            var lon, alt := Get(g, "GPSLongitude"), Get(g, "GPSAltitude");
            !latRef.DecodeRaised? && !lonRef.DecodeRaised? ==>
              r.latitudeRef == latRef.value &&
              r.longitude == (if lon.Some? then DmsToDecimal(lon.value, Get(g, "GPSLongitudeRef"), codec) else None) &&
              r.longitudeRef == lonRef.value &&
              r.altitude == (if alt.Some? then RatToReal(alt.value, codec) else None) &&
              r.altitudeRef == (if altRef.DecodeRaised? then None else altRef.value)
  {
  }

  /** A decoded file with a model name and a two-component latitude: the latitude is absent, the model survives. */
  lemma MalformedTripleExample(codec: Codec)
    ensures var exif := map[Name("Model") := Str("X100"),
                            Name("GPSInfo") := Dict([(Id(1), Str("N")), (Id(2), Tuple([Pair(40, 1), Pair(26, 1)]))])];
            var m := ExtractedRecord(exif, StandardTables.gps, codec);
            m.cameraModel == Some(Str("X100")) && m.latitude == None && m.latitudeRef == Some(Str("N")) &&
            m.longitude == None
  {
    var entries := [(Id(1), Str("N")), (Id(2), Tuple([Pair(40, 1), Pair(26, 1)]))];
    assert AnyIdKey(entries) by { assert entries[0].0.Id?; }
    var g := GpsMap(Dict(entries), StandardTables.gps);
    var rename := GpsRenamer(StandardTables.gps);
    assert rename(entries[0].0) == Name("GPSLatitudeRef");
    assert rename(entries[1].0) == Name("GPSLatitude");
    ResolvedLastWins(entries, rename, 0);
    ResolvedLastWins(entries, rename, 1);
    ResolvedHas(entries, rename, Name("GPSLongitude"));
    assert Get(g, "GPSLatitude") == Some(Tuple([Pair(40, 1), Pair(26, 1)]));
    assert Get(g, "GPSLatitudeRef") == Some(Str("N"));
    assert Get(g, "GPSLongitude") == None;
  }
}
