/**
 * The two numeric helpers of the metadata extractor: a rational (or anything
 * numeric) to a number, and a GPS degrees/minutes/seconds triple with its
 * hemisphere reference to signed decimal degrees. GPSLatitude and GPSLongitude
 * are three RATIONALs and GPSLatitudeRef/GPSLongitudeRef one of N/S or E/W, as
 * the GPS attribute tags of the Exif standard (CIPA DC-008, section 4.6.6) lay
 * them out.
 */
module GpsConversion {
  import opened Wrappers
  import opened ExifValues

  /**
   * `_rat_to_float`: a 2-element tuple or list is a (numerator, denominator)
   * pair whose zero denominator yields the numerator; an object with a numerator
   * and a denominator is divided out; anything else goes through `float()`.
   * Every exception becomes None.
   */
  function RatToReal(r: ExifValue, codec: Codec): (x: Option<real>)
    // the zero-denominator guard: (n, 0) is n, not a division by zero
    ensures r.Tuple? && |r.items| == 2 && r.items[0].Num? && r.items[1].Num? ==>
              x == Some(if r.items[1].x == 0.0 then r.items[0].x else r.items[0].x / r.items[1].x)
    ensures r.RationalObj? && r.den != 0 ==> x == Some(r.num as real / r.den as real)
    ensures r.Num? ==> x == Some(r.x)
    // only numbers, text, rationals and pairs can convert
    ensures x.Some? ==> r.Num? || r.RationalObj? || r.Str? || r.Bytes? || (r.Tuple? && |r.items| == 2)
    // bytes with a byte outside ASCII, or an ASCII separator, never convert, whatever `float()` of text accepts
    ensures r.Bytes? && !FloatableBytes(r.b) ==> x == None
  {
    match r
    case Tuple(items) =>
      if |items| != 2 then None
      else if EqualsZero(items[1]) then Float(items[0], codec)
      else (
        match (Float(items[0], codec), Float(items[1], codec))
        case (Some(n), Some(d)) => if d == 0.0 then None else Some(n / d)
        case _ => None)
    case RationalObj(n, d) => if d == 0 then None else Some(n as real / d as real)
    case _ => Float(r, codec)
  }

  /** A non-breaking space pads a number in text, but not in bytes: `b'\xa01'` gives no value. */
  lemma PaddedBytesAbsent(codec: Codec)
    ensures RatToReal(Bytes([0xA0, 0x31]), codec) == None
    ensures RatToReal(Tuple([Bytes([0x31, 0x85]), Num(1.0)]), codec) == None
  {
    assert !FloatableBytes([0xA0, 0x31]) by { assert [0xA0, 0x31][0] as int == 0xA0; }
    assert !FloatableBytes([0x31, 0x85]) by { assert [0x31, 0x85][1] as int == 0x85; }
  }

  /** `ref.upper() in ("S", "W")`; U+017F LATIN SMALL LETTER LONG S upper-cases to "S". */
  predicate UpperIsSouthOrWest(s: string) {
    |s| == 1 &&
    var n := s[0] as int;
    n == 0x53 || n == 0x73 || n == 0x17F || n == 0x57 || n == 0x77
  }

  /** Whether a hemisphere reference turns a coordinate negative: S or W, after decoding bytes. */
  function IsSouthOrWest(ref: Option<ExifValue>, codec: Codec): (negative: bool)
    // a missing, numeric or other non-text reference never turns a coordinate negative
    ensures negative ==> ref.Some? && (ref.value.Str? || ref.value.Bytes?)
    // a one-character text reference turns it negative iff that character is s, S, w, W or U+017F
    ensures ref.Some? && ref.value.Str? && |ref.value.s| == 1 ==>
              (negative <==> ref.value.s[0] in {'s', 'S', 'w', 'W', '\U{017F}'})
    // "South", "SW" or "" never does: the upper case must be the single letter S or W
    ensures ref.Some? && ref.value.Str? && |ref.value.s| != 1 ==> !negative
  {
    match ref
    case Some(Bytes(b)) => UpperIsSouthOrWest(codec.decodeLenient(b))
    case Some(Str(s)) => UpperIsSouthOrWest(s)
    case _ => false
  }

  /** The i-th component of a DMS triple, converted; None if it is missing or does not convert. */
  function Component(dms: ExifValue, i: nat, codec: Codec): Option<real> {
    match Item(dms, i)
    case Some(v) => RatToReal(v, codec)
    case None => None
  }

  function Abs(x: real): real { if x < 0.0 then -x else x }

  /** degrees + minutes/60 + seconds/3600 */
  function DecimalDegrees(deg: real, minute: real, sec: real): real {
    deg + minute / 60.0 + sec / 3600.0
  }

  /**
   * `_dms_to_decimal`: None for an empty or short triple or one whose first three
   * components do not all convert; otherwise the decimal degrees, forced negative
   * by an S or W reference.
   */
  function DmsToDecimal(dms: ExifValue, ref: Option<ExifValue>, codec: Codec): (dec: Option<real>)
    ensures (Len(dms).None? || Len(dms).value < 3) ==> dec.None?
    ensures dec.Some? <==>
              Truthy(dms) && Len(dms).Some? && Len(dms).value >= 3 &&
              Component(dms, 0, codec).Some? && Component(dms, 1, codec).Some? && Component(dms, 2, codec).Some?
    ensures dec.Some? && IsSouthOrWest(ref, codec) ==> dec.value <= 0.0
    ensures dec.Some? && !IsSouthOrWest(ref, codec) ==>
              dec.value == DecimalDegrees(Component(dms, 0, codec).value, Component(dms, 1, codec).value,
                                          Component(dms, 2, codec).value)
  {
    if !Truthy(dms) then None
    else
      match Len(dms)
      case None => None
      case Some(n) =>
        if n < 3 then None
        else
          match (Component(dms, 0, codec), Component(dms, 1, codec), Component(dms, 2, codec))
          case (Some(deg), Some(minute), Some(sec)) =>
            var dec := DecimalDegrees(deg, minute, sec);
            Some(if IsSouthOrWest(ref, codec) then -Abs(dec) else dec)
          case _ => None
  }

  /** The hemisphere only decides the sign: an S or W reference gives exactly -|x| of what N or E gives. */
  lemma HemisphereNegates(dms: ExifValue, codec: Codec, south: Option<ExifValue>, north: Option<ExifValue>)
    requires IsSouthOrWest(south, codec) && !IsSouthOrWest(north, codec)
    ensures DmsToDecimal(dms, south, codec).Some? == DmsToDecimal(dms, north, codec).Some?
    ensures DmsToDecimal(dms, north, codec).Some? ==>
              DmsToDecimal(dms, south, codec).value == -Abs(DmsToDecimal(dms, north, codec).value)
  {
  }

  /** Components beyond the third are ignored. */
  lemma {:induction false} ExtraComponentsIgnored(items: seq<ExifValue>, extra: seq<ExifValue>,
                                                  ref: Option<ExifValue>, codec: Codec)
    requires |items| >= 3
    ensures DmsToDecimal(Tuple(items + extra), ref, codec) == DmsToDecimal(Tuple(items), ref, codec)
  {
    var whole := items + extra;
    assert whole[0] == items[0] && whole[1] == items[1] && whole[2] == items[2];
  }

  /** A reference held as bytes decides the sign exactly as its decoded text does. */
  lemma BytesRefAsText(dms: ExifValue, b: seq<byte>, codec: Codec)
    ensures DmsToDecimal(dms, Some(Bytes(b)), codec) == DmsToDecimal(dms, Some(Str(codec.decodeLenient(b))), codec)
  {
  }

  /** (40, 26, 46) as rational pairs: +40.4461... with N, its exact negation with S (and with "s"). */
  lemma WorkedExample(codec: Codec)
    ensures DmsToDecimal(Tuple([Pair(40, 1), Pair(26, 1), Pair(46, 1)]), Some(Str("N")), codec) == Some(72803.0 / 1800.0)
    ensures DmsToDecimal(Tuple([Pair(40, 1), Pair(26, 1), Pair(46, 1)]), Some(Str("S")), codec) == Some(-72803.0 / 1800.0)
    ensures DmsToDecimal(Tuple([Pair(40, 1), Pair(26, 1), Pair(46, 1)]), Some(Str("s")), codec) == Some(-72803.0 / 1800.0)
    ensures 40.4461 < 72803.0 / 1800.0 < 40.4462
  {
    var dms := Tuple([Pair(40, 1), Pair(26, 1), Pair(46, 1)]);
    assert Item(dms, 0) == Some(Pair(40, 1)) && Item(dms, 1) == Some(Pair(26, 1)) && Item(dms, 2) == Some(Pair(46, 1));
  }

  /** A two-component triple never converts, whatever its components. */
  lemma ShortTripleAbsent(a: ExifValue, b: ExifValue, ref: Option<ExifValue>, codec: Codec)
    ensures DmsToDecimal(Tuple([a, b]), ref, codec) == None
  {
  }
}
