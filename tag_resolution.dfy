/**
 * Resolving numeric tag ids to tag names through the main EXIF table and the
 * GPS table. The source fills a dictionary entry by entry; `Resolved` is the
 * dictionary that loop leaves, and `ResolveTags` is the loop.
 */
module TagResolution {
  import opened Wrappers
  import opened ExifValues

  /** The two lookup tables, id to name (Pillow's `ExifTags.TAGS` and `ExifTags.GPSTAGS`). */
  datatype TagTables = TagTables(main: map<int, string>, gps: map<int, string>)

  /** The entries of the standard tables that the extractor looks up (ids from the Exif standard). */
  const StandardTables: TagTables := TagTables(
    map[0x010F := "Make", 0x0110 := "Model", 0x0131 := "Software", 0x0132 := "DateTime",
        0x8298 := "Copyright", 0x8825 := "GPSInfo", 0x9000 := "ExifVersion",
        0x9003 := "DateTimeOriginal", 0x9004 := "DateTimeDigitized", 0xA420 := "ImageUniqueID",
        0xA433 := "LensMake", 0xA434 := "LensModel"],
    map[0 := "GPSVersionID", 1 := "GPSLatitudeRef", 2 := "GPSLatitude", 3 := "GPSLongitudeRef",
        4 := "GPSLongitude", 5 := "GPSAltitudeRef", 6 := "GPSAltitude"])

  /** `_EXIF_TAGS.get(tag_id, tag_id)` */
  function MainName(id: int, table: map<int, string>): Key {
    if id in table then Name(table[id]) else Id(id)
  }

  /** `_GPS_TAGS.get(k, k)`: the table has only numeric keys, so a name stays as it is. */
  function GpsName(k: Key, table: map<int, string>): Key {
    match k
    case Id(n) => if n in table then Name(table[n]) else k
    case Name(_) => k
  }

  function GpsRenamer(table: map<int, string>): Key -> Key {
    k => GpsName(k, table)
  }

  /** The dictionary built by `for k, v in items: d[rename(k)] = v`, starting empty. */
  function Resolved<K>(entries: seq<(K, ExifValue)>, rename: K -> Key): map<Key, ExifValue> {
    if entries == [] then map[]
    else
      var last := entries[|entries| - 1];
      Resolved(entries[..|entries| - 1], rename)[rename(last.0) := last.1]
  }

  /** The loop of `systemproper.py` lines 260-262 and 318-320. */
  method ResolveTags<K>(entries: seq<(K, ExifValue)>, rename: K -> Key) returns (d: map<Key, ExifValue>)
    ensures d == Resolved(entries, rename)
  {
    d := map[];
    var i := 0;
    while i < |entries|
      invariant 0 <= i <= |entries|
      invariant d == Resolved(entries[..i], rename)
    {
      assert entries[..i + 1][..i] == entries[..i];
      d := d[rename(entries[i].0) := entries[i].1];
      i := i + 1;
    }
    assert entries[..i] == entries;
  }

  /** A name is present exactly when some entry renames to it. */
  lemma {:induction false} ResolvedHas<K>(entries: seq<(K, ExifValue)>, rename: K -> Key, k: Key)
    ensures k in Resolved(entries, rename) <==> exists i :: 0 <= i < |entries| && rename(entries[i].0) == k
  {
    if entries != [] {
      var n := |entries| - 1;
      var init := entries[..n];
      ResolvedHas(init, rename, k);
      if k in Resolved(init, rename) {
        var i :| 0 <= i < n && rename(init[i].0) == k;
        assert init[i] == entries[i];
      }
      if i :| 0 <= i < n && rename(entries[i].0) == k {
        assert init[i] == entries[i];
      }
    }
  }

  /** A name holds the value of the LAST entry renamed to it: later ids overwrite earlier ones with the same name. */
  lemma {:induction false} ResolvedLastWins<K>(entries: seq<(K, ExifValue)>, rename: K -> Key, i: int)
    requires 0 <= i < |entries|
    requires forall j :: i < j < |entries| ==> rename(entries[j].0) != rename(entries[i].0)
    ensures rename(entries[i].0) in Resolved(entries, rename)
    ensures Resolved(entries, rename)[rename(entries[i].0)] == entries[i].1
  {
    var n := |entries| - 1;
    if i < n {
      var init := entries[..n];
      assert init[i] == entries[i];
      forall j | i < j < n ensures rename(init[j].0) != rename(init[i].0) {
        assert init[j] == entries[j];
      }
      ResolvedLastWins(init, rename, i);
    }
  }

  /** Renaming that agrees on every key of the entries builds the same dictionary. */
  lemma {:induction false} ResolvedAgrees<K>(entries: seq<(K, ExifValue)>, f: K -> Key, g: K -> Key)
    requires forall i :: 0 <= i < |entries| ==> f(entries[i].0) == g(entries[i].0)
    ensures Resolved(entries, f) == Resolved(entries, g)
  {
    if entries != [] {
      var n := |entries| - 1;
      forall i | 0 <= i < n ensures f(entries[..n][i].0) == g(entries[..n][i].0) {
        assert entries[..n][i] == entries[i];
      }
      ResolvedAgrees(entries[..n], f, g);
    }
  }

  /** `dict(entries)` is the same fold with no renaming. */
  lemma {:induction false} AsMapIsResolved(entries: seq<(Key, ExifValue)>)
    ensures AsMap(entries) == Resolved(entries, k => k)
  {
    if entries != [] {
      AsMapIsResolved(entries[..|entries| - 1]);
    }
  }

  predicate AnyIdKey(entries: seq<(Key, ExifValue)>) {
    exists i :: 0 <= i < |entries| && entries[i].0.Id?
  }

  /** The GPS directory by name (`systemproper.py` lines 314-324); a value that is not a dict yields an empty map. */
  function GpsMap(gpsRaw: ExifValue, table: map<int, string>): map<Key, ExifValue> {
    match gpsRaw
    case Dict(entries) =>
      if AnyIdKey(entries) then Resolved(entries, GpsRenamer(table)) else AsMap(entries)
    case _ => map[]
  }

  /** `systemproper.py` lines 314-324 as they run: rename only if some key is numeric, else copy. */
  method ResolveGpsTags(gpsRaw: ExifValue, table: map<int, string>) returns (gps: map<Key, ExifValue>)
    ensures gps == GpsMap(gpsRaw, table)
  {
    gps := map[];
    if gpsRaw.Dict? {
      var entries := gpsRaw.entries;
      var anyNumericKey := AnyIdKey(entries);
      if anyNumericKey {
        gps := ResolveTags(entries, GpsRenamer(table));
      } else {
        gps := AsMap(entries);
      }
    }
  }

  /**
   * The test for a numeric key only saves work: renaming through the GPS table
   * leaves a directory whose keys are all names exactly as copying it does.
   */
  lemma GpsMapIsRenaming(entries: seq<(Key, ExifValue)>, table: map<int, string>)
    ensures GpsMap(Dict(entries), table) == Resolved(entries, GpsRenamer(table))
  {
    if !AnyIdKey(entries) {
      AsMapIsResolved(entries);
      ResolvedAgrees(entries, k => k, GpsRenamer(table));
    }
  }

  /** With the standard table, ids 0x0110 and 0x9003 become Model and DateTimeOriginal, GPS id 2 becomes GPSLatitude, an unknown id stays numeric and a name stays a name. */
  lemma StandardNames()
    ensures MainName(0x0110, StandardTables.main) == Name("Model")
    ensures MainName(0x9003, StandardTables.main) == Name("DateTimeOriginal")
    ensures MainName(0x0001, StandardTables.main) == Id(1)
    ensures GpsName(Id(2), StandardTables.gps) == Name("GPSLatitude")
    ensures GpsName(Name("GPSLatitude"), StandardTables.gps) == Name("GPSLatitude")
  {
  }
}
