/**
 * Values as the image decoder hands them to the metadata extractor, and the few
 * Python built-ins the extractor applies to them: truth value, `float()`, `len()`,
 * indexing and `v == 0`.
 */
module ExifValues {
  import opened Wrappers

  newtype byte = x: int | 0 <= x < 256

  /** A key of a decoded directory: a numeric tag id, or a tag name once resolved. */
  datatype Key = Id(n: int) | Name(s: string)

  /** A decoded EXIF value. */
  datatype ExifValue =
    | Num(x: real)                           // an int, float or bool
    | RationalObj(num: int, den: int)        // an object with numerator and denominator (IFDRational)
    | Str(s: string)
    | Bytes(b: seq<byte>)
    | Tuple(items: seq<ExifValue>)           // a tuple or list; a rational pair is Tuple([Num(n), Num(d)])
    | Dict(entries: seq<(Key, ExifValue)>)   // a dict, its entries in insertion order
    | Other                                  // any other object: truthy, neither numeric nor text

  /**
   * The conversions of Python's runtime that the model takes as given:
   * `float()` of a string, `bytes.decode("utf-8", errors="ignore")` and the strict
   * `bytes.decode()`, which raises (None) on a malformed sequence.
   */
  datatype Codec = Codec(
    parse: string -> Option<real>,
    decodeLenient: seq<byte> -> string,
    decodeStrict: seq<byte> -> Option<string>)

  /** The rational pair `(num, den)` as a decoder that yields tuples returns it. */
  function Pair(num: int, den: int): ExifValue {
    Tuple([Num(num as real), Num(den as real)])
  }

  /** Python's `bool(v)`. */
  predicate Truthy(v: ExifValue) {
    match v
    case Num(x) => x != 0.0
    case RationalObj(n, d) => n != 0 || d == 0   // a zero denominator makes the value NaN, which is truthy
    case Str(s) => s != []
    case Bytes(b) => b != []
    case Tuple(items) => items != []
    case Dict(entries) => entries != []
    case Other => true
  }

  /** Python's `v == 0`. */
  predicate EqualsZero(v: ExifValue) {
    match v
    case Num(x) => x == 0.0
    case RationalObj(n, d) => n == 0 && d != 0
    case _ => false
  }

  /**
   * Whether `float()` of a bytes object reads it as text. It works on the raw bytes:
   * a byte of 0x80 or above never belongs to a number, and only the ASCII white
   * space tab, line feed, vertical tab, form feed, carriage return and space is
   * stripped, so the separators 0x1C-0x1F, which `float()` of a string strips, make
   * it raise too.
   */
  predicate FloatableBytes(b: seq<byte>) {
    forall i :: 0 <= i < |b| ==> b[i] < 0x80 && !(0x1C <= b[i] <= 0x1F)
  }

  /** The text of a bytes object, one character per byte; `float()` reads it only when the bytes are floatable. */
  function BytesText(b: seq<byte>): (t: string)
    ensures |t| == |b|
  {
    seq(|b|, i requires 0 <= i < |b| => b[i] as char)
  }

  /** Python's `float(v)`; None where the call raises. */
  function Float(v: ExifValue, codec: Codec): (x: Option<real>)
    ensures v.Num? ==> x == Some(v.x)
    ensures v.RationalObj? && v.den != 0 ==> x == Some(v.num as real / v.den as real)
    ensures v.Tuple? || v.Dict? || v.Other? ==> x == None
    // bytes convert only through their ASCII text: b'\xa01' raises although '\xa01' is 1.0
    ensures v.Bytes? && (exists i :: 0 <= i < |v.b| && (v.b[i] >= 0x80 || 0x1C <= v.b[i] <= 0x1F)) ==> x == None
    ensures v.Bytes? && x.Some? ==> x == codec.parse(BytesText(v.b))
  {
    match v
    case Num(x) => Some(x)
    case RationalObj(n, d) => if d == 0 then None else Some(n as real / d as real)
    case Str(s) => codec.parse(s)
    case Bytes(b) => if FloatableBytes(b) then codec.parse(BytesText(b)) else None
    case _ => None
  }

  /** `dict(entries)`: later entries overwrite earlier ones with the same key. */
  function AsMap(entries: seq<(Key, ExifValue)>): map<Key, ExifValue> {
    if entries == [] then map[]
    else AsMap(entries[..|entries| - 1])[entries[|entries| - 1].0 := entries[|entries| - 1].1]
  }

  /** Python's `len(v)`; None where `v` has no length. */
  function Len(v: ExifValue): Option<nat> {
    match v
    case Str(s) => Some(|s|)
    case Bytes(b) => Some(|b|)
    case Tuple(items) => Some(|items|)
    case Dict(entries) => Some(|AsMap(entries)|)
    case _ => None
  }

  /** Python's `v[i]`; None where indexing raises. */
  function Item(v: ExifValue, i: nat): (r: Option<ExifValue>)
    ensures r.Some? && !v.Dict? ==> Len(v).Some? && i < Len(v).value
  {
    match v
    case Str(s) => if i < |s| then Some(Str([s[i]])) else None
    case Bytes(b) => if i < |b| then Some(Num(b[i] as real)) else None
    case Tuple(items) => if i < |items| then Some(items[i]) else None
    case Dict(entries) =>
      var m := AsMap(entries);
      if Id(i) in m then Some(m[Id(i)]) else None
    case _ => None
  }
}
