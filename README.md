# Image metadata admission and subscription form — a Dafny model

This project models two pieces of a small photo-privacy tool and its landing page.

- **Image admission and metadata extraction** (`systemproper.py`). A path is accepted as an image only when its lower-cased extension is `.jpg`, `.jpeg` or `.heic`. The file is then decoded. The image is said to carry metadata when it has an EXIF block, or when its info map has a metadata-like key or any truthy value. On request, a fixed 16-field record is filled:
  - ten plain EXIF lookups, with "Date Taken" falling back from DateTimeOriginal to DateTime;
  - latitude, longitude and altitude, converted from Exif rationals;
  - the three hemisphere and altitude references.
  
  The folder listing filter and the password strength score from the same file are modelled too.
- **Subscription form** (`thchoish-lp/src/pages/LandingPage.jsx`). `SubscribeBlock.onSubmit` trims and validates an e-mail address. It then tries EmailJS and the subscription backend in turn and ends in success when either accepted the address.

Modules:

| file | module | what it holds |
|---|---|---|
| `wrappers.dfy` | `Wrappers` | `Option` (Python `None`, JavaScript `null`/`undefined`) |
| `sequences.dfy` | `Sequences` | `Any`, `LastIndex`, `EndsWith` |
| `exif_values.dfy` | `ExifValues` | the dynamically typed EXIF values and the Python built-ins applied to them: truthiness, `float()`, `len()`, indexing, `dict()` |
| `gps_conversion.dfy` | `GpsConversion` | `_rat_to_float` and `_dms_to_decimal` |
| `tag_resolution.dfy` | `TagResolution` | tag-id-to-name resolution, as a fold and as the loop that runs it |
| `admission.dfy` | `Admission` | `os.path.splitext`, the extension allow-list, the folder filter |
| `password.dfy` | `Password` | `password_is_strong` |
| `metadata.dfy` | `Metadata` | `has_meta`, the metadata record, `check_image_valid_and_has_exif` |
| `subscribe.dfy` | `Subscribe` | `trim`, the e-mail pattern, the `SubscribeBlock` component and its `onSubmit` |

Inputs the model takes instead of computing them:

- **Image decoding** is an input. `Decoded` is either a decode failure, or the EXIF entries in file order (`None` when reading them raised) together with the entries of the info map. Those entries have distinct keys, as a Python dictionary's do (`InfoEntries`).
- **Pillow's tag tables** are the parameter `TagTables`. `StandardTables` holds the entries the extractor looks up, with their ids from the Exif standard.
- **Text conversions** go through `Codec`:
  - Python's `float()` on text;
  - the lenient UTF-8 decode used for hemisphere references;
  - the strict UTF-8 decode used when storing references, which may raise.
- **The Unicode character classes** used by the password score are the parameter `CharClasses`. `Ascii` is one instance of it.
- **The two network calls of the form** are inputs: `EmailJsReply` and `FetchReply` say how each call settled.

Where the behaviour described for the tool and the code disagree, the model follows the code:

- "Date Acquired" is DateTimeDigitized alone. The code has no fallback to DateTime for it.
- A reference stored as bytes that is not valid UTF-8 raises inside the GPS `try` block (`systemproper.py:327-348`). Every GPS field after it keeps `None`, so failures are not contained per field. The latitude is always kept, because it is assigned first. The ten non-GPS fields are never affected. `Metadata.GpsFailureContainment` and `Metadata.NonGpsFieldsSurvive` state this.
- The info map counts as metadata when any value is truthy (`bool(v)`), not merely non-empty.
- With extraction requested, a refused or undecodable file gives `(False, False, {})`. The third element is an empty dictionary, not a record of sixteen `None`s.
- A refused extension and a decode failure give the same result. The out-parameter `admitted` of `CheckImageValidAndHasExif` tells them apart.

## Model

| member | source | states |
|---|---|---|
| `ExifValues.Float` | systemproper.py:208-213 | `float()` of a number is that number, of a rational with non-zero denominator the quotient, and of a tuple, dictionary or other object it raises (None); bytes with a byte of 0x80 or above, or one of the separators 0x1C-0x1F, raise, and other bytes convert only as their ASCII text does |
| `GpsConversion.RatToReal` | systemproper.py:205-219 | a (num, den) pair gives num/den, and a zero denominator gives the numerator instead of raising; a rational object gives its quotient; only numbers, text, rationals and pairs convert; bytes outside ASCII never convert; every failure is None |
| `GpsConversion.PaddedBytesAbsent` | systemproper.py:205-219 | `b'\xa01'` and the pair `(b'1\x85', 1.0)` give no value: `float()` raises on them, and so does the `float(str(r))` fallback |
| `GpsConversion.DmsToDecimal` | systemproper.py:221-237 | a value is produced exactly when the triple is truthy, has a length of at least 3, and its first three components convert; it then equals deg + min/60 + sec/3600, and is non-positive for an S or W reference |
| `GpsConversion.IsSouthOrWest` | systemproper.py:231-234 | only a text or bytes reference can turn a coordinate negative; a one-character text reference does so iff it is s, S, w, W or U+017F (the characters whose upper case is S or W); a text reference of any other length, such as "South", "SW" or "", never does |
| `GpsConversion.HemisphereNegates` | systemproper.py:233-236 | an S/W reference gives exactly the negated absolute value of what an N/E reference gives, and fails exactly when that fails |
| `GpsConversion.ExtraComponentsIgnored` | systemproper.py:223-227 | components after the third never change the result |
| `GpsConversion.BytesRefAsText` | systemproper.py:233-235 | a reference held as bytes decides the sign as its leniently decoded text does |
| `GpsConversion.WorkedExample` | systemproper.py:221-237 | (40/1, 26/1, 46/1) is 72803/1800 (about 40.4461) with "N", and its negation with "S" and with "s" |
| `GpsConversion.ShortTripleAbsent` | systemproper.py:223-224 | a two-component triple never yields a coordinate |
| `TagResolution.ResolveTags` | systemproper.py:260-262 | the renaming loop leaves exactly the fold `Resolved` of the entries |
| `TagResolution.ResolvedHas` | systemproper.py:260-262 | a name is present iff some entry renames to it |
| `TagResolution.ResolvedLastWins` | systemproper.py:318-320 | a name holds the value of the last entry renamed to it: later ids overwrite earlier ones with the same name |
| `TagResolution.AsMapIsResolved` | systemproper.py:322 | `dict(entries)` is the same fold without renaming |
| `TagResolution.ResolveGpsTags` | systemproper.py:314-324 | the GPS directory by name: renamed through the GPS table when some key is numeric, copied otherwise, empty when it is not a dictionary |
| `TagResolution.GpsMapIsRenaming` | systemproper.py:315-322 | the numeric-key test only saves work: copying a directory with no numeric key gives the same map as renaming it |
| `TagResolution.StandardNames` | systemproper.py:239-240 | through the standard tables, ids resolve to Model, DateTimeOriginal and GPSLatitude, an unknown id stays numeric, and a name stays a name |
| `Admission.SplitExt` | systemproper.py:243 | the extension is empty or starts with the final dot of the path, ends the path, and contains no further dot or separator |
| `Admission.Admitted` | systemproper.py:242-248 | every path the single-file check admits also passes the folder filter of line 518 |
| `Admission.KeepsName` | systemproper.py:518 | a kept name has at least four characters, the length of the shortest allowed extension |
| `Admission.AdmittedIff` | systemproper.py:242-248 | a path is admitted iff its lower-cased form ends with an allowed extension and the final component has a non-dot character before it |
| `Admission.UpperCaseAdmitted` | systemproper.py:243 | extensions are compared after lower-casing ("a/b.HEIC" is admitted) |
| `Admission.DirectoryDotIgnored` | systemproper.py:243 | a dot in a directory name is not an extension ("a.jpg/b" is refused) |
| `Admission.LastExtensionCounts` | systemproper.py:243-248 | only the last extension counts ("b.jpg.png" is refused) |
| `Admission.FolderFilter` | systemproper.py:518 | a name is kept iff it is listed and its lower-cased form ends with an allowed extension |
| `Admission.FolderFilterConcat` | systemproper.py:518 | filtering keeps the listing order: filtering a concatenation concatenates the filtered parts |
| `Admission.FilterAdmitsMore` | systemproper.py:518 | the converse fails: ".jpg" and "..JPG" pass the folder filter, but the single-file check refuses them |
| `Password.Score` | systemproper.py:77-84 | the score is at most 5: one point for length and one per class |
| `Password.PasswordIsStrong` | systemproper.py:76-85 | length alone never makes a password strong: a strong one has at least two classes, and three classes always make it strong |
| `Password.ThreeClassesAreStrong` | systemproper.py:81-85 | lower case, upper case and a digit are strong at any length |
| `Password.EmptyIsWeak` | systemproper.py:76-85 | the empty password is weak |
| `Password.StrongByLength` | systemproper.py:77-85 | below 12 characters, strong iff at least three classes occur; from 12 on, iff at least two do |
| `Password.AppendKeepsStrong` | systemproper.py:76-85 | appending characters never makes a strong password weak |
| `Password.StrongIsAtLeastThreeLong` | systemproper.py:81-85 | with disjoint classes, a strong password has at least three characters |
| `Password.OverlappingClassesShortStrong` | systemproper.py:81-85 | without disjointness, a lower-case non-alphanumeric character next to an upper-case one is strong at length 2 |
| `Password.AsciiExamples` | systemproper.py:76-85 | ASCII classes are disjoint; "abC1" is strong; "abcdefgh" is weak; "abcdefghijk!" is strong |
| `Metadata.HasMeta` | systemproper.py:252-275 | metadata is present iff the EXIF entries are non-empty, some info key lower-cases to a metadata name, or some info value is truthy |
| `Metadata.ExtractMetadata` | systemproper.py:280-350 | the field-by-field assignments leave exactly `ExtractedRecord`: ten lookups with the Date Taken fallback, then the GPS fields up to the first reference that fails to decode |
| `Metadata.NonGpsFieldsSurvive` | systemproper.py:299-350 | whatever the GPS directory holds, and whether or not its processing fails, the ten non-GPS fields equal those of the same file without GPS data, whose GPS fields are all None |
| `Metadata.StoredRef` | systemproper.py:343-348 | only a bytes reference can raise, and it raises exactly when its strict decode fails; decoded bytes are stored as their text, anything else as it is |
| `Metadata.GpsSpec` | systemproper.py:326-348 | no GPS field has a value unless its tag is in the GPS directory |
| `Metadata.GpsFailureContainment` | systemproper.py:326-348 | the latitude is always the computed value; a latitude, longitude or altitude reference that fails to decode leaves its own field and every later GPS field None while the fields before it keep their values; when every reference decodes, all six fields are the computed values |
| `Metadata.MalformedTripleExample` | systemproper.py:311-350 | a two-component latitude leaves the latitude absent, while the camera model and the latitude reference are kept |
| `Metadata.CheckImageValidAndHasExif` | systemproper.py:204-355 | the file is opened iff the extension is allowed; a refused or undecodable file gives `(False, False)` or `(False, False, {})`; otherwise `(True, has_meta)`, plus the extracted record when requested |
| `Subscribe.Trim` | thchoish-lp/src/pages/LandingPage.jsx:68 | the result is a slice of the input with only white space around it, and has no white space at either end |
| `Subscribe.TrimRemovesPadding` | thchoish-lp/src/pages/LandingPage.jsx:68 | trimming white space around a text with no edge white space returns exactly that text |
| `Subscribe.TrimIdempotent` | thchoish-lp/src/pages/LandingPage.jsx:68 | trimming twice is trimming once |
| `Subscribe.EmailPattern` | thchoish-lp/src/pages/LandingPage.jsx:72-73 | a string that matches has at least five characters, as the shortest match "x@y.z" does |
| `Subscribe.MatchIsWellFormed` | thchoish-lp/src/pages/LandingPage.jsx:72-73 | a match has no white space, exactly one '@' with text before it, and a '.' after it that neither follows the '@' directly nor ends the string |
| `Subscribe.WellFormedMatches` | thchoish-lp/src/pages/LandingPage.jsx:72-73 | every string with those properties matches |
| `Subscribe.EmailPatternCharacterized` | thchoish-lp/src/pages/LandingPage.jsx:72-73 | the pattern accepts exactly the strings with no white space, exactly one '@' with text before it, and a '.' after it that neither follows the '@' directly nor ends the string |
| `Subscribe.EmailExamples` | thchoish-lp/src/pages/LandingPage.jsx:72-73 | "a@b.co" matches; "a@b" and "a@@b.co" do not |
| `Subscribe.ValidatedEmailCharacterized` | thchoish-lp/src/pages/LandingPage.jsx:68-73 | an address is used iff the field has a value whose trimmed form is well formed, and the trimmed form is what is used |
| `Subscribe.Validate` | thchoish-lp/src/pages/LandingPage.jsx:68-73 | the two early returns leave exactly the validated address |
| `Subscribe.Trace` | thchoish-lp/src/pages/LandingPage.jsx:75-133 | every EmailJS request and every backend request of a submission carries the trimmed, validated address |
| `Subscribe.TraceOutcome` | thchoish-lp/src/pages/LandingPage.jsx:75-133 | an invalid address only sets the status to invalid; a valid one ends with `sending` false and the status success iff one of the two channels succeeded, error otherwise |
| `Subscribe.RequestsRunWhileSending` | thchoish-lp/src/pages/LandingPage.jsx:75-124 | a valid address first sets the status to sending and `sending` to true, and every EmailJS or backend request is made in that state |
| `Subscribe.DeliveriesAttempted` | thchoish-lp/src/pages/LandingPage.jsx:89-133 | EmailJS is called iff the address is valid and both ids are set; the backend is called iff the address is valid and the base URL is non-empty; the form is reset iff the submission succeeded |
| `Subscribe.ChannelFailureIsolated` | thchoish-lp/src/pages/LandingPage.jsx:89-124 | a channel that threw and one that answered without success lead to the same actions |
| `Subscribe.SubscribeBlock.constructor` | thchoish-lp/src/pages/LandingPage.jsx:43-44 | the component starts with status null and not sending |
| `Subscribe.SubscribeBlock.TryDeliveries` | thchoish-lp/src/pages/LandingPage.jsx:89-124 | each channel is tried when configured; the success flags are exactly "status 200" and "response ok"; the status and `sending` are not touched |
| `Subscribe.SubscribeBlock.Settle` | thchoish-lp/src/pages/LandingPage.jsx:126-133 | `sending` is switched off, then the status becomes success or error, and the form is reset only on success |
| `Subscribe.SubscribeBlock.OnSubmit` | thchoish-lp/src/pages/LandingPage.jsx:66-134 | the handler performs exactly the actions of `SubmitTrace`, and its new status and `sending` are what replaying them gives |

## Left out

- The GUI, the file dialogs, the texture and thumbnail code, and every other function of `systemproper.py` are not part of this model. So is the rest of `LandingPage.jsx`: rendering, animation and the scroll listener.
- The image decoder (`Image.open`, `getexif`, `img.info`) is an input. An exception the model cannot raise is not modelled. One example is a non-string key in the info map, whose `lower()` would fail and make the whole call return the refusal.
- The folder filter returns the kept names. The `os.path.abspath(os.path.join(folder, f))` applied to each of them, and the directory listing itself, are file-system I/O.
- `GpsConversion.RatToReal`: the NaN that a rational object with denominator 0 gives through `float(str(r))` is modelled as None (no value). It is the only value the `float(str(r))` fallback can add, because `float()` of a number, a rational, text or bytes is already modelled, and `str()` of bytes, a tuple or a dictionary never reads as a number. Real numbers have no NaN.
- `ExifValues.Float`: Python floats are modelled as exact reals. Rounding and overflow are not modelled.
- `bytearray` references are treated like `bytes`. The code decodes a `bytearray` in `_dms_to_decimal`, but stores it undecoded in the record.
- `Admission.Lower` lower-cases ASCII letters only. It serves both the admission test and `Metadata.IsMetaKey` (`k.lower()`, `systemproper.py:269`), and the result of neither changes. Only two non-ASCII characters lower-case into ASCII letters: U+212A (KELVIN SIGN) becomes "k" and U+0130 becomes "i" followed by U+0307. No allowed extension contains a "k". ".heic" contains an "i", but no allowed extension contains U+0307, which the lowered U+0130 always brings after its "i". None of the names exif, comment, text, description, author and meta contains a "k", and none contains U+0307, so a key holding U+0130 never lowers to one of them.
- `GpsConversion.UpperIsSouthOrWest` knows the characters whose upper case is exactly "S" or "W": s, S, U+017F, w and W.
- `Password.StrongIsAtLeastThreeLong` requires disjoint character classes. Python's Unicode classes are not disjoint: U+0345 is lower case and not alphanumeric. For them `Password.OverlappingClassesShortStrong` shows that the bound fails.
- Only the observable effects of the two network calls are modelled: which calls are made, with what address, and how each settled. Their payloads, the EmailJS public key initialisation, and the console logging are not modelled. Nor is the interleaving of two submissions, which the disabled button prevents while one is in flight.
- JavaScript strings are modelled as sequences of characters, not UTF-16 code units. The pattern has no `u` flag, so `[^\s@]` matches one code unit. Both halves of a surrogate pair satisfy it, and the accepted language is the same.
