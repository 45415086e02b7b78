/**
  Saving and loading converted animations (ascii-animation-player/src/storage.py).

  The file system is a map from paths to the files `save` leaves there. The
  serializers are not modelled byte for byte: a pickle file holds the
  document as written, a JSON file the document as JSON reads it back
  (tuples come back as lists), and a NumPy archive the frames as UTF-8
  bytes next to the JSON of the two mappings. A reader fails on a file of
  another format or behind another compressor.
*/
module Storage {
  import opened Wrappers
  import opened Config
  import opened Utf8

  /** The dictionary `save` writes and `load` returns. */
  datatype Document = Document(
    frames: seq<string>,
    config: map<string, Value>,
    metadata: map<string, Value>,
    version: string)

  datatype Format = Pickle | Json

  /** The open function chosen for a path: builtin open, gzip, lzma or bz2. */
  datatype Opener = Plain | Gzip | Lzma | Bz2

  /** `np.savez_compressed`'s arrays: frames as byte strings, the mappings as JSON text, the version. */
  datatype NpzArchive = NpzArchive(
    frames: seq<seq<byte>>,
    config: map<string, Value>,
    metadata: map<string, Value>,
    version: string)

  datatype StoredFile = Serialized(format: Format, opener: Opener, doc: Document) | Archive(archive: NpzArchive)

  type Disk = map<string, StoredFile>

  datatype SaveError = UnknownStorageFormat(format: string)

  datatype LoadError = FileNotFound(path: string) | NotReadableAs(reader: string)

  const Version: string := "1.0"

  /** The caller's metadata mapping, which `save` updates in place when it is not empty. */
  class Dict {
    var entries: map<string, Value>

    constructor (entries: map<string, Value>)
      ensures this.entries == entries
    {
      this.entries := entries;
    }
  }

  // ---------------------------------------------------------------- the document

  /** The three keys `save` writes into the metadata. */
  function FrameMetadata(frameCount: int, fps: int, width: int, height: int): map<string, Value>
  {
    map["frame_count" := IntValue(frameCount), "fps" := IntValue(fps),
        "dimensions" := TupleValue([IntValue(width), IntValue(height)])]
  }

  /** `metadata.update(...)`: the three keys overwrite, every other key stays. */
  function Injected(metadata: map<string, Value>, frameCount: int, fps: int, width: int, height: int): map<string, Value>
  {
    metadata + FrameMetadata(frameCount, fps, width, height)
  }

  /** The document `save` builds: `metadata or {}` updated with the frame metadata. */
  function BuildDocument(frames: seq<string>, config: map<string, Value>, metadata: map<string, Value>,
                         fps: int, width: int, height: int): Document
  {
    Document(frames, config, Injected(metadata, |frames|, fps, width, height), Version)
  }

  /**
    The saved document keeps the frames and the config, is version 1.0, and
    its metadata holds exactly the caller's keys plus the three frame keys:
    those three with the frame count, the target fps and the (width, height)
    pair, every other key with the caller's value.
  */
  lemma DocumentShape(frames: seq<string>, config: map<string, Value>, metadata: map<string, Value>,
                      fps: int, width: int, height: int)
    ensures var d := BuildDocument(frames, config, metadata, fps, width, height);
      && d.frames == frames && d.config == config && d.version == "1.0"
      && d.metadata.Keys == metadata.Keys + {"frame_count", "fps", "dimensions"}
      && d.metadata["frame_count"] == IntValue(|frames|)
      && d.metadata["fps"] == IntValue(fps)
      && d.metadata["dimensions"] == TupleValue([IntValue(width), IntValue(height)])
      && (forall k :: k in metadata && k !in {"frame_count", "fps", "dimensions"} ==> d.metadata[k] == metadata[k])
  {
  }

  // ---------------------------------------------------------------- where save writes

  predicate EndsWith(s: string, suffix: string)
  {
    |suffix| <= |s| && s[|s| - |suffix|..] == suffix
  }

  /** The opener `_save_pickle` and `_save_json` use for a compression setting; None writes nothing. */
  function CompressionOpener(compression: string): Option<Opener>
  {
    if compression == "none" then Some(Plain)
    else if compression == "gzip" then Some(Gzip)
    else if compression == "lzma" then Some(Lzma)
    else if compression == "bz2" then Some(Bz2)
    else None
  }

  /** The extension a compressor appends to the output path. */
  function Extension(o: Opener): string
  {
    match o
    case Plain => ""
    case Gzip => ".gz"
    case Lzma => ".xz"
    case Bz2 => ".bz2"
  }

  /** NumPy's savez: ".npz" is appended unless the path already ends with it. */
  function NpzPath(path: string): (r: string)
    ensures EndsWith(r, ".npz")
  {
    if EndsWith(path, ".npz") then path else path + ".npz"
  }

  /** `[frame.encode('utf-8') for frame in frames]`. */
  function EncodeFrames(frames: seq<string>): seq<seq<byte>>
  {
    seq(|frames|, i requires 0 <= i < |frames| => Encode(frames[i]))
  }

  /** What `_save_npz` writes: each frame UTF-8 encoded, the rest as it is. */
  function ToArchive(doc: Document): NpzArchive
  {
    NpzArchive(EncodeFrames(doc.frames), doc.config, doc.metadata, doc.version)
  }

  /**
    The format dispatch of `save` after the document is built: the path and
    file written, nothing (an unknown compression under pickle or JSON), or
    the ValueError for an unknown storage format.
  */
  function SaveOutcome(doc: Document, outputPath: string, storageFormat: string, compression: string)
    : Result<Option<(string, StoredFile)>, SaveError>
  {
    if storageFormat == "pickle" || storageFormat == "json" then
      var format := if storageFormat == "pickle" then Pickle else Json;
      match CompressionOpener(compression)
      case None => Ok(None)
      case Some(o) => Ok(Some((outputPath + Extension(o), Serialized(format, o, doc))))
    else if storageFormat == "npz" then
      Ok(Some((NpzPath(outputPath), Archive(ToArchive(doc)))))
    else Err(UnknownStorageFormat(storageFormat))
  }

  /**
    `save` fails exactly on a storage format other than pickle, json and
    npz; pickle and JSON write to the output path plus the compressor's
    extension, and nothing under an unknown compression; npz ignores the
    compression and writes to the output path with ".npz" ensured.
  */
  lemma SaveOutcomeCases(doc: Document, outputPath: string, storageFormat: string, compression: string)
    ensures var r := SaveOutcome(doc, outputPath, storageFormat, compression);
      && (r.Err? <==> storageFormat !in {"pickle", "json", "npz"})
      && (storageFormat in {"pickle", "json"} ==>
            (r == Ok(None) <==> compression !in {"none", "gzip", "lzma", "bz2"}))
      && (storageFormat in {"pickle", "json"} && compression == "none" ==> r.value.value.0 == outputPath)
      && (storageFormat in {"pickle", "json"} && compression == "gzip" ==> r.value.value.0 == outputPath + ".gz")
      && (storageFormat in {"pickle", "json"} && compression == "lzma" ==> r.value.value.0 == outputPath + ".xz")
      && (storageFormat in {"pickle", "json"} && compression == "bz2" ==> r.value.value.0 == outputPath + ".bz2")
      && (storageFormat == "npz" ==>
            r == Ok(Some((NpzPath(outputPath), Archive(ToArchive(doc)))))
            && (EndsWith(outputPath, ".npz") ==> NpzPath(outputPath) == outputPath))
  {
  }

  // ---------------------------------------------------------------- load

  /** The last index of `c` in `s`, or -1 (Python's `rfind`). */
  function LastIndexOf(s: string, c: char): (i: int)
    ensures -1 <= i < |s|
  {
    if s == [] then -1
    else if s[|s| - 1] == c then |s| - 1
    else LastIndexOf(s[..|s| - 1], c)
  }

  /** The final component of a path: what follows the last '/'. */
  function PathName(path: string): string
  {
    path[LastIndexOf(path, '/') + 1..]
  }

  /** `Path(path).suffix`: from the name's last '.', unless that dot opens or ends the name. */
  function Suffix(path: string): string
  {
    var name := PathName(path);
    var i := LastIndexOf(name, '.');
    if 0 < i < |name| - 1 then name[i..] else ""
  }

  /** The open function `_load_pickle` and `_load_json` choose from the path's ending. */
  function OpenerOf(path: string): Opener
  {
    if EndsWith(path, ".gz") then Gzip
    else if EndsWith(path, ".xz") then Lzma
    else if EndsWith(path, ".bz2") then Bz2
    else Plain
  }

  /** JSON's reading of what it wrote: tuples come back as lists. */
  function JsonValue(v: Value): Value
  {
    match v
    case TupleValue(items) => ListValue(seq(|items|, i requires 0 <= i < |items| => JsonValue(items[i])))
    case ListValue(items) => ListValue(seq(|items|, i requires 0 <= i < |items| => JsonValue(items[i])))
    case _ => v
  }

  function JsonMap(m: map<string, Value>): map<string, Value>
  {
    map k | k in m :: JsonValue(m[k])
  }

  /** Writing JSON and reading it back twice gives what doing it once gives. */
  lemma {:induction false} JsonValueIdempotent(v: Value)
    ensures JsonValue(JsonValue(v)) == JsonValue(v)
  {
    match v
    case TupleValue(items) =>
      forall i | 0 <= i < |items| ensures JsonValue(JsonValue(items[i])) == JsonValue(items[i]) {
        JsonValueIdempotent(items[i]);
      }
    case ListValue(items) =>
      forall i | 0 <= i < |items| ensures JsonValue(JsonValue(items[i])) == JsonValue(items[i]) {
        JsonValueIdempotent(items[i]);
      }
    case _ =>
  }

  /** Only tuples change under JSON: a value without one reads back as itself. */
  predicate TupleFree(v: Value)
  {
    match v
    case TupleValue(_) => false
    case ListValue(items) => forall i :: 0 <= i < |items| ==> TupleFree(items[i])
    case _ => true
  }

  lemma {:induction false} JsonValueKeepsTupleFree(v: Value)
    ensures TupleFree(v) <==> JsonValue(v) == v
  {
    match v
    case TupleValue(items) =>
    case ListValue(items) =>
      if TupleFree(v) {
        forall i | 0 <= i < |items| ensures JsonValue(items[i]) == items[i] {
          JsonValueKeepsTupleFree(items[i]);
        }
      } else {
        var i :| 0 <= i < |items| && !TupleFree(items[i]);
        JsonValueKeepsTupleFree(items[i]);
        assert JsonValue(v).items[i] == JsonValue(items[i]);
      }
    case _ =>
  }

  /** The document a JSON reader returns. */
  function JsonDocument(doc: Document): Document
  {
    Document(doc.frames, JsonMap(doc.config), JsonMap(doc.metadata), doc.version)
  }

  /** The frames `_load_npz` decodes: NumPy drops trailing zero bytes, then strict UTF-8. */
  function DecodeFrames(frames: seq<seq<byte>>): Option<seq<string>>
  {
    if frames == [] then Some([])
    else match Decode(StripTrailingNul(frames[0]))
      case None => None
      case Some(f) =>
        match DecodeFrames(frames[1..])
        case None => None
        case Some(rest) => Some([f] + rest)
  }

  /** `_load_pickle`: the document of a pickle file, opened with the opener its path selects. */
  function LoadPickle(opener: Opener, path: string, disk: Disk): Result<Document, LoadError>
  {
    if path !in disk then Err(FileNotFound(path))
    else match disk[path]
      case Serialized(Pickle, o, doc) => if o == opener then Ok(doc) else Err(NotReadableAs("pickle"))
      case _ => Err(NotReadableAs("pickle"))
  }

  /** `_load_json`: the document of a JSON file, opened with the opener its path selects. */
  function LoadJson(opener: Opener, path: string, disk: Disk): Result<Document, LoadError>
  {
    if path !in disk then Err(FileNotFound(path))
    else match disk[path]
      case Serialized(Json, o, doc) => if o == opener then Ok(JsonDocument(doc)) else Err(NotReadableAs("json"))
      case _ => Err(NotReadableAs("json"))
  }

  /** `_load_npz`: frames decoded, the two mappings read back from JSON, the version as text. */
  function LoadNpz(path: string, disk: Disk): Result<Document, LoadError>
  {
    if path !in disk then Err(FileNotFound(path))
    else match disk[path]
      case Archive(a) =>
        (match DecodeFrames(a.frames)
         case None => Err(NotReadableAs("utf-8"))
         case Some(frames) => Ok(Document(frames, JsonMap(a.config), JsonMap(a.metadata), a.version)))
      case _ => Err(NotReadableAs("npz"))
  }

  /** The four branches of `load`'s suffix test. */
  datatype SuffixKind = PickleSuffix | JsonSuffix | NpzSuffix | OtherSuffix

  function Classify(suffix: string): SuffixKind
  {
    if suffix == ".pkl" || suffix == ".pickle" then PickleSuffix
    else if suffix == ".json" then JsonSuffix
    else if suffix == ".npz" then NpzSuffix
    else OtherSuffix
  }

  /**
    `load` once the path's suffix has been classified and its ending has
    chosen the opener: the reader the suffix names, or for any other suffix
    pickle, then JSON, then NumPy, the first that succeeds (the last one's
    error when none does).
  */
  function LoadAs(kind: SuffixKind, opener: Opener, path: string, disk: Disk): Result<Document, LoadError>
  {
    match kind
    case PickleSuffix => LoadPickle(opener, path, disk)
    case JsonSuffix => LoadJson(opener, path, disk)
    case NpzSuffix => LoadNpz(path, disk)
    case OtherSuffix =>
      match LoadPickle(opener, path, disk)
      case Ok(d) => Ok(d)
      case Err(_) =>
        match LoadJson(opener, path, disk)
        case Ok(d) => Ok(d)
        case Err(_) => LoadNpz(path, disk)
  }

  /** `load`. */
  function Load(path: string, disk: Disk): Result<Document, LoadError>
  {
    LoadAs(Classify(Suffix(path)), OpenerOf(path), path, disk)
  }

  /** The suffix kinds under which `load` tries a format's reader: its own, or one that names no format. */
  predicate Admits(kind: SuffixKind, format: Format)
  {
    match format
    case Pickle => kind == PickleSuffix || kind == OtherSuffix
    case Json => kind == JsonSuffix || kind == OtherSuffix
  }

  /** What a reader of the format returns for a serialized document. */
  function ReadBack(format: Format, doc: Document): Document
  {
    match format
    case Pickle => doc
    case Json => JsonDocument(doc)
  }

  /**
    Once the suffix is classified and the opener chosen, a pickle or JSON
    file loads exactly when the opener is the one it was written with and
    the suffix kind lets `load` try its format; it then reads back as that
    format returns it.
  */
  lemma LoadAsSerialized(kind: SuffixKind, opener: Opener, path: string, disk: Disk, format: Format, o: Opener, doc: Document)
    requires path in disk && disk[path] == Serialized(format, o, doc)
    ensures LoadAs(kind, opener, path, disk).Ok? <==> o == opener && Admits(kind, format)
    ensures LoadAs(kind, opener, path, disk).Ok? ==> LoadAs(kind, opener, path, disk).value == ReadBack(format, doc)
  {
    assert LoadNpz(path, disk).Err?;
    match format
    case Pickle =>
      assert LoadJson(opener, path, disk).Err?;
    case Json =>
      assert LoadPickle(opener, path, disk).Err?;
  }

  /**
    A pickle or JSON file loads exactly when the path's ending selects the
    opener it was written with and its suffix lets `load` try its format;
    it then reads back as that format returns it.
  */
  lemma LoadSerialized(path: string, disk: Disk, format: Format, o: Opener, doc: Document)
    requires path in disk && disk[path] == Serialized(format, o, doc)
    ensures Load(path, disk).Ok? <==> o == OpenerOf(path) && Admits(Classify(Suffix(path)), format)
    ensures Load(path, disk).Ok? ==> Load(path, disk).value == ReadBack(format, doc)
  {
    LoadAsSerialized(Classify(Suffix(path)), OpenerOf(path), path, disk, format, o, doc);
  }

  /**
    An archive loads exactly when the suffix lets `load` try NumPy and its
    frames decode; the mappings then read back as JSON returns them.
  */
  lemma LoadArchive(path: string, disk: Disk, a: NpzArchive)
    requires path in disk && disk[path] == Archive(a)
    ensures var kind := Classify(Suffix(path));
      Load(path, disk).Ok? <==> (kind == NpzSuffix || kind == OtherSuffix) && DecodeFrames(a.frames).Some?
    ensures Load(path, disk).Ok? ==>
      Load(path, disk).value == Document(DecodeFrames(a.frames).value, JsonMap(a.config), JsonMap(a.metadata), a.version)
  {
    var opener := OpenerOf(path);
    assert LoadPickle(opener, path, disk).Err? && LoadJson(opener, path, disk).Err?;
  }

  /** A missing file fails whatever the suffix. */
  lemma LoadMissing(path: string, disk: Disk)
    requires path !in disk
    ensures Load(path, disk).Err?
  {
  }

  // ---------------------------------------------------------------- save then load

  lemma LastIndexOfAppend(s: string, t: string, c: char)
    requires forall j :: 0 <= j < |t| ==> t[j] != c
    ensures LastIndexOf(s + t, c) == LastIndexOf(s, c)
    decreases |t|
  {
    if t != [] {
      assert (s + t)[..|s + t| - 1] == s + t[..|t| - 1];
      LastIndexOfAppend(s, t[..|t| - 1], c);
    } else {
      assert s + t == s;
    }
  }

  lemma PathNameAppend(path: string, ext: string)
    requires forall j :: 0 <= j < |ext| ==> ext[j] != '/'
    ensures PathName(path + ext) == PathName(path) + ext
  {
    LastIndexOfAppend(path, ext, '/');
    var slash := LastIndexOf(path, '/');
    assert (path + ext)[slash + 1..] == path[slash + 1..] + ext;
  }

  lemma LastDotIsExtension(name: string, ext: string)
    requires |ext| >= 1 && ext[0] == '.'
    requires forall j :: 1 <= j < |ext| ==> ext[j] != '.'
    ensures LastIndexOf(name + ext, '.') == |name|
  {
    var head, rest := name + ['.'], ext[1..];
    assert LastIndexOf(head, '.') == |name|;
    assert forall j :: 0 <= j < |rest| ==> rest[j] != '.';
    assert name + ext == head + rest;
    LastIndexOfAppend(head, rest, '.');
  }

  /** Appending an extension with no '/' and a single leading '.' gives that extension as suffix, or none. */
  lemma SuffixAfterExtension(path: string, ext: string)
    requires |ext| >= 2 && ext[0] == '.'
    requires forall j :: 0 <= j < |ext| ==> ext[j] != '/'
    requires forall j :: 1 <= j < |ext| ==> ext[j] != '.'
    ensures Suffix(path + ext) == ext || Suffix(path + ext) == ""
  {
    PathNameAppend(path, ext);
    var name := PathName(path);
    LastDotIsExtension(name, ext);
    assert (name + ext)[|name|..] == ext;
  }

  /** A compressor's extension selects that compressor when the file is read. */
  lemma OpenerOfExtension(path: string, o: Opener)
    requires o != Plain
    ensures OpenerOf(path + Extension(o)) == o
  {
    var p := path + Extension(o);
    assert p[|path|..] == Extension(o);
    assert EndsWith(p, Extension(o));
    match o
    case Gzip =>
    case Lzma =>
      assert p[|p| - 2] == 'x';
    case Bz2 =>
      assert p[|p| - 1] == '2';
  }

  /** Every compressed pickle or JSON save loads back, through the suffix-less cascade. */
  lemma CompressedSaveLoads(doc: Document, outputPath: string, storageFormat: string, compression: string, disk: Disk)
    requires storageFormat in {"pickle", "json"} && compression in {"gzip", "lzma", "bz2"}
    ensures var r := SaveOutcome(doc, outputPath, storageFormat, compression);
      r.Ok? && r.value.Some? &&
      var (path, file) := r.value.value;
      Load(path, disk[path := file]) == Ok(ReadBack(if storageFormat == "pickle" then Pickle else Json, doc))
  {
    var format := if storageFormat == "pickle" then Pickle else Json;
    var o := CompressionOpener(compression).value;
    var path := outputPath + Extension(o);
    SuffixAfterExtension(outputPath, Extension(o));
    assert Classify(Suffix(path)) == OtherSuffix;
    OpenerOfExtension(outputPath, o);
    assert SaveOutcome(doc, outputPath, storageFormat, compression) == Ok(Some((path, Serialized(format, o, doc))));
    LoadAsSerialized(OtherSuffix, o, path, disk[path := Serialized(format, o, doc)], format, o, doc);
  }

  /**
    An uncompressed pickle or JSON save loads back exactly when the output
    path neither ends like a compressed file nor carries the suffix of
    another format.
  */
  lemma PlainSaveLoads(doc: Document, outputPath: string, storageFormat: string, disk: Disk)
    requires storageFormat in {"pickle", "json"}
    ensures var r := SaveOutcome(doc, outputPath, storageFormat, "none");
      var format := if storageFormat == "pickle" then Pickle else Json;
      r == Ok(Some((outputPath, Serialized(format, Plain, doc))))
      && (Load(outputPath, disk[outputPath := Serialized(format, Plain, doc)]).Ok?
          <==> OpenerOf(outputPath) == Plain && Admits(Classify(Suffix(outputPath)), format))
  {
    var format := if storageFormat == "pickle" then Pickle else Json;
    assert outputPath + "" == outputPath;
    LoadSerialized(outputPath, disk[outputPath := Serialized(format, Plain, doc)], format, Plain, doc);
  }

  /** A frame the archive keeps intact: one that does not end in U+0000. */
  predicate NoTrailingNul(frame: string)
  {
    frame == [] || frame[|frame| - 1] != '\0'
  }

  lemma DecodeFramesCons(encoded: seq<seq<byte>>, frames: seq<string>)
    requires encoded != [] && frames != []
    ensures DecodeFrames(encoded) == Some(frames)
      <==> Decode(StripTrailingNul(encoded[0])) == Some(frames[0]) && DecodeFrames(encoded[1..]) == Some(frames[1..])
  {
    if DecodeFrames(encoded) == Some(frames) {
      var f := Decode(StripTrailingNul(encoded[0])).value;
      var rest := DecodeFrames(encoded[1..]).value;
      assert [f] + rest == frames;
      assert frames[0] == f && frames[1..] == rest;
    }
    if Decode(StripTrailingNul(encoded[0])) == Some(frames[0]) && DecodeFrames(encoded[1..]) == Some(frames[1..]) {
      assert [frames[0]] + frames[1..] == frames;
    }
  }

  /** The archive's frames decode back to the saved ones exactly when none ends in U+0000. */
  lemma {:induction false} ArchiveFramesRoundTrip(frames: seq<string>)
    ensures DecodeFrames(EncodeFrames(frames)) == Some(frames)
      <==> forall i :: 0 <= i < |frames| ==> NoTrailingNul(frames[i])
  {
    if frames != [] {
      var encoded := EncodeFrames(frames);
      assert encoded[0] == Encode(frames[0]);
      assert encoded[1..] == EncodeFrames(frames[1..]);
      ArchiveFramesRoundTrip(frames[1..]);
      ArchivedFrameRoundTrip(frames[0]);
      DecodeFramesCons(encoded, frames);
      assert (forall i :: 0 <= i < |frames| ==> NoTrailingNul(frames[i]))
        <==> NoTrailingNul(frames[0]) && forall i :: 0 <= i < |frames| - 1 ==> NoTrailingNul(frames[1..][i]) by {
        assert forall i :: 0 <= i < |frames| - 1 ==> frames[1..][i] == frames[i + 1];
      }
    }
  }

  /** `load` tries the NumPy reader on every path `savez` writes. */
  lemma NpzPathIsTried(outputPath: string)
    ensures Classify(Suffix(NpzPath(outputPath))) in {NpzSuffix, OtherSuffix}
  {
    var stem := if EndsWith(outputPath, ".npz") then outputPath[..|outputPath| - 4] else outputPath;
    assert NpzPath(outputPath) == stem + ".npz";
    SuffixAfterExtension(stem, ".npz");
  }

  /**
    An archive save loads back from the path it was written to, whatever the
    compression: frames intact when none ends in U+0000, the mappings as
    JSON reads them back.
  */
  lemma NpzSaveLoads(doc: Document, outputPath: string, compression: string, disk: Disk)
    requires forall i :: 0 <= i < |doc.frames| ==> NoTrailingNul(doc.frames[i])
    ensures var path := NpzPath(outputPath);
      SaveOutcome(doc, outputPath, "npz", compression) == Ok(Some((path, Archive(ToArchive(doc)))))
      && Load(path, disk[path := Archive(ToArchive(doc))]) == Ok(JsonDocument(doc))
  {
    var path := NpzPath(outputPath);
    var a := ToArchive(doc);
    ArchiveFramesRoundTrip(doc.frames);
    NpzPathIsTried(outputPath);
    LoadArchive(path, disk[path := Archive(a)], a);
  }

  // ---------------------------------------------------------------- the storage object

  class AsciiStorage {
    const config: AsciiConfig

    constructor (config: AsciiConfig)
      ensures this.config == config
    {
      this.config := config;
    }

    /**
      `save`: builds the document, writes the caller's non-empty metadata
      mapping in place, then dispatches on the storage format. The metadata
      is updated before the format is checked, so it changes even when the
      format is rejected.
    */
    method Save(frames: seq<string>, outputPath: string, metadata: Dict?, disk: Disk)
      returns (r: Result<Disk, SaveError>)
      modifies metadata
      ensures var given := if metadata != null then old(metadata.entries) else map[];
        var doc := BuildDocument(frames, config.AsDict(), given, config.targetFps, config.width, config.height);
        && r == (match SaveOutcome(doc, outputPath, config.storageFormat, config.compression)
                 case Err(e) => Err(e)
                 case Ok(None) => Ok(disk)
                 case Ok(Some((path, file))) => Ok(disk[path := file]))
        && (metadata != null && given != map[] ==> metadata.entries == doc.metadata)
        && (metadata != null && given == map[] ==> metadata.entries == map[])
    {
      var given: map<string, Value> := map[];
      if metadata != null && metadata.entries != map[] {
        given := metadata.entries;
      }
      var doc := BuildDocument(frames, config.AsDict(), given, config.targetFps, config.width, config.height);
      if metadata != null && metadata.entries != map[] {
        metadata.entries := doc.metadata;
      }
      var format := config.storageFormat;
      if format == "pickle" || format == "json" {
        var written := SaveOutcome(doc, outputPath, format, config.compression);
        r := if written.value.Some? then Ok(disk[written.value.value.0 := written.value.value.1]) else Ok(disk);
      } else if format == "npz" {
        r := Ok(disk[NpzPath(outputPath) := Archive(ToArchive(doc))]);
      } else {
        r := Err(UnknownStorageFormat(format));
      }
    }
  }
}
