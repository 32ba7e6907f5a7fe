/** The file map of the Redis-backed mapper
    (ClientDependency.RedisAndS3/ClientDependencyProviders/RedisXmlFileMapper.cs)
    as values: the records it stores, the index key a record is stored under,
    the version-checked lookup, the blind upsert, the reservation `CreateNewMap`
    makes, and the text the file key is hashed from. The Redis database is a map
    from index keys to records; its JSON encoding is taken to round-trip exactly,
    so records are stored as they are. */
module FileMap {
  import opened Wrappers
  import opened Text

  /** `CompositeFileEntry` as stored: the file key, the compression type
      (`None` for null), the composite file name, the dependent file paths and
      the version. */
  datatype FileRecord = FileRecord(
    fileKey: string,
    compressionType: Option<string>,
    compositeFileName: string,
    dependentFiles: seq<string>,
    version: int)

  /** The Redis database: JSON records by index key. */
  type Store = map<string, FileRecord>

  /** What the mapper throws: an argument exception naming the empty parameter,
      or the null reference of a database asked for without a connection
      string. */
  datatype MapError = ArgumentNull(paramName: string) | NoConnection

  /** The compression a key is built from: null and empty mean none. */
  function EffectiveCompression(compression: Option<string>): string {
    if compression.None? then "" else compression.value
  }

  /** `.{compression}` when a compression is given, nothing otherwise. */
  function CompressionSuffix(compression: Option<string>): (r: string)
    ensures r == [] <==> EffectiveCompression(compression) == []
  {
    var c := EffectiveCompression(compression);
    if c == "" then "" else "." + c
  }

  /** `GetCompositeFileEntryIndexKey`: `{folder}/Maps/{key}.json{suffix}`. */
  function IndexKey(folder: string, key: string, compression: Option<string>): string {
    folder + "/Maps/" + key + ".json" + CompressionSuffix(compression)
  }

  /** The version check of `FindItem`: the record under the index key, if its
      version is the one asked for. */
  function Find(db: Store, folder: string, key: string, version: int, compression: Option<string>): Option<FileRecord> {
    var k := IndexKey(folder, key, compression);
    if k in db && db[k].version == version then Some(db[k]) else None
  }

  /** `CreateUpdateMap`'s write: the record replaces whatever is at its index key. */
  function Upsert(db: Store, folder: string, record: FileRecord): Store {
    db[IndexKey(folder, record.fileKey, record.compressionType) := record]
  }

  /** The placeholder `CreateNewMap` writes: empty compression, empty composite
      file name. */
  function Placeholder(key: string, files: seq<string>, version: int): FileRecord {
    FileRecord(key, Some(""), "", files, version)
  }

  /** `CreateNewMap`'s write: a placeholder only when no record of that version
      is found under the uncompressed key. */
  function Reserve(db: Store, folder: string, key: string, files: seq<string>, version: int): Store {
    if Find(db, folder, key, version, None).Some? then db
    else Upsert(db, folder, Placeholder(key, files, version))
  }

  /** Null and empty compression give the same index key. */
  lemma IndexKeyNullIsEmpty(folder: string, key: string)
    ensures IndexKey(folder, key, None) == IndexKey(folder, key, Some(""))
    ensures IndexKey(folder, key, None) == folder + "/Maps/" + key + ".json"
  {
  }

  /** For file keys without a dot, two index keys in one folder are equal exactly
      when the file keys and the effective compressions are. */
  lemma IndexKeyInjective(folder: string, k1: string, k2: string, c1: Option<string>, c2: Option<string>)
    requires '.' !in k1 && '.' !in k2
    ensures IndexKey(folder, k1, c1) == IndexKey(folder, k2, c2)
        <==> k1 == k2 && EffectiveCompression(c1) == EffectiveCompression(c2)
  {
    if IndexKey(folder, k1, c1) == IndexKey(folder, k2, c2) {
      var p := folder + "/Maps/";
      var s1, s2 := CompressionSuffix(c1), CompressionSuffix(c2);
      var t1, t2 := k1 + ".json" + s1, k2 + ".json" + s2;
      IndexKeySplit(folder, k1, c1);
      IndexKeySplit(folder, k2, c2);
      assert t1 == (p + t1)[|p|..] && t2 == (p + t2)[|p|..];
      KeyBeforeDot(k1, k2, s1, s2);
      assert s1 == t1[|k1| + 5..] && s2 == t2[|k2| + 5..];
      SuffixInjective(c1, c2);
    }
  }

  lemma IndexKeySplit(folder: string, key: string, compression: Option<string>)
    ensures IndexKey(folder, key, compression)
         == (folder + "/Maps/") + (key + ".json" + CompressionSuffix(compression))
  {
    var p := folder + "/Maps/";
    assert key + ".json" + CompressionSuffix(compression) == key + (".json" + CompressionSuffix(compression));
    assert IndexKey(folder, key, compression) == p + key + ".json" + CompressionSuffix(compression);
  }

  /** Equal suffixes name the same compression. */
  lemma SuffixInjective(c1: Option<string>, c2: Option<string>)
    requires CompressionSuffix(c1) == CompressionSuffix(c2)
    ensures EffectiveCompression(c1) == EffectiveCompression(c2)
  {
    var e1, e2 := EffectiveCompression(c1), EffectiveCompression(c2);
    if e1 != [] && e2 != [] {
      assert e1 == CompressionSuffix(c1)[1..];
      assert e2 == CompressionSuffix(c2)[1..];
    }
  }

  /** The file key is everything before the first dot. */
  lemma KeyBeforeDot(k1: string, k2: string, s1: string, s2: string)
    requires '.' !in k1 && '.' !in k2
    requires k1 + ".json" + s1 == k2 + ".json" + s2
    ensures k1 == k2
  {
    var t1, t2 := k1 + ".json" + s1, k2 + ".json" + s2;
    if |k1| < |k2| {
      CharAt(k1 + ".json", s1, |k1|);
      CharAt(k1, ".json", |k1|);
      CharAt(k2 + ".json", s2, |k1|);
      CharAt(k2, ".json", |k1|);
      assert false;
    } else if |k2| < |k1| {
      CharAt(k2 + ".json", s2, |k2|);
      CharAt(k2, ".json", |k2|);
      CharAt(k1 + ".json", s1, |k2|);
      CharAt(k1, ".json", |k2|);
      assert false;
    }
    assert k1 == t1[..|k1|];
    assert k2 == t2[..|k2|];
  }

  /** A file key with a dot can name another key's compressed entry: the
      uncompressed key of `k.json` is the `json`-compressed key of `k`. */
  lemma IndexKeyDotCollision(folder: string, k: string)
    ensures IndexKey(folder, k + ".json", None) == IndexKey(folder, k, Some("json"))
  {
    assert CompressionSuffix(Some("json")) == ".json";
    assert IndexKey(folder, k + ".json", None) == folder + "/Maps/" + (k + ".json") + ".json" + "";
  }

  /** Reading back what `CreateUpdateMap` wrote, with any compression that names
      the same key, finds exactly that record. */
  lemma UpsertThenFind(db: Store, folder: string, record: FileRecord, compression: Option<string>)
    requires EffectiveCompression(compression) == EffectiveCompression(record.compressionType)
    ensures Find(Upsert(db, folder, record), folder, record.fileKey, record.version, compression) == Some(record)
  {
    assert CompressionSuffix(compression) == CompressionSuffix(record.compressionType);
  }

  /** The upsert is blind: a record of another version under the same key is
      gone, and asking for its version misses. */
  lemma UpsertReplacesOtherVersion(db: Store, folder: string, record: FileRecord, version: int, compression: Option<string>)
    requires EffectiveCompression(compression) == EffectiveCompression(record.compressionType)
    requires version != record.version
    ensures Find(Upsert(db, folder, record), folder, record.fileKey, version, compression) == None
  {
    assert CompressionSuffix(compression) == CompressionSuffix(record.compressionType);
  }

  /** An upsert leaves every other file key and compression as it was. */
  lemma UpsertLeavesOthers(db: Store, folder: string, record: FileRecord,
                           key: string, version: int, compression: Option<string>)
    requires '.' !in key && '.' !in record.fileKey
    requires key != record.fileKey || EffectiveCompression(compression) != EffectiveCompression(record.compressionType)
    ensures Find(Upsert(db, folder, record), folder, key, version, compression) == Find(db, folder, key, version, compression)
  {
    IndexKeyInjective(folder, key, record.fileKey, compression, record.compressionType);
  }

  /** After a reservation a record of the version is found under the
      uncompressed key: the one already there, or the placeholder. */
  lemma ReserveThenFind(db: Store, folder: string, key: string, files: seq<string>, version: int)
    ensures var found := Find(Reserve(db, folder, key, files, version), folder, key, version, None);
      found.Some? &&
      found == if Find(db, folder, key, version, None).Some? then Find(db, folder, key, version, None)
               else Some(Placeholder(key, files, version))
  {
    if Find(db, folder, key, version, None).None? {
      UpsertThenFind(db, folder, Placeholder(key, files, version), None);
    }
  }

  /** A second reservation with the same input changes nothing. */
  lemma ReserveIdempotent(db: Store, folder: string, key: string, files: seq<string>, version: int)
    ensures var once := Reserve(db, folder, key, files, version);
      Reserve(once, folder, key, files, version) == once
  {
    ReserveThenFind(db, folder, key, files, version);
  }

  /** A reservation writes nothing but the uncompressed key of its file key. */
  lemma ReserveLeavesOthers(db: Store, folder: string, key: string, files: seq<string>, version: int, k: string)
    requires k != IndexKey(folder, key, None)
    ensures var r := Reserve(db, folder, key, files, version);
      (k in r <==> k in db) && (k in db ==> r[k] == db[k])
  {
    assert IndexKey(folder, key, None) == IndexKey(folder, key, Some(""));
  }

  /** The text `CreateNewMap`'s builder holds: every path followed by `;`. */
  function JoinTerminated(paths: seq<string>): (r: string)
    ensures paths != [] ==> r != [] && r[|r| - 1] == ';'
  {
    if paths == [] then ""
    else JoinTerminated(paths[..|paths| - 1]) + paths[|paths| - 1] + ";"
  }

  /** What the file key is hashed from: the joined paths with the trailing `;`
      trimmed, then the version. */
  function KeyMaterial(paths: seq<string>, version: int): string {
    TrimEnd(JoinTerminated(paths), {';'}) + IntToString(version)
  }

  predicate NoSeparator(paths: seq<string>) {
    forall i :: 0 <= i < |paths| ==> ';' !in paths[i]
  }

  predicate AllNonEmpty(paths: seq<string>) {
    forall i :: 0 <= i < |paths| ==> paths[i] != []
  }

  /** The character at a position of a concatenation. */
  lemma CharAt(a: string, b: string, i: int)
    ensures 0 <= i < |a| + |b| ==> (a + b)[i] == if i < |a| then a[i] else b[i - |a|]
  {
  }

  /** Splitting at the last separator: a text that is a separator-terminated
      prefix followed by a separator-free rest splits only one way. */
  lemma SplitAtLastSeparator(a1: string, x1: string, a2: string, x2: string)
    requires a1 == [] || a1[|a1| - 1] == ';'
    requires a2 == [] || a2[|a2| - 1] == ';'
    requires ';' !in x1 && ';' !in x2
    requires a1 + x1 == a2 + x2
    ensures a1 == a2 && x1 == x2
  {
    var s := a1 + x1;
    if |a1| < |a2| {
      CharAt(a1, x1, |a2| - 1);
      CharAt(a2, x2, |a2| - 1);
      assert false;
    } else if |a2| < |a1| {
      CharAt(a1, x1, |a1| - 1);
      CharAt(a2, x2, |a1| - 1);
      assert false;
    }
    assert a1 == s[..|a1|] && a2 == (a2 + x2)[..|a2|];
    assert x1 == s[|a1|..] && x2 == (a2 + x2)[|a2|..];
  }

  /** Paths without `;` are recovered from their joined text. */
  lemma {:induction false} JoinTerminatedInjective(p1: seq<string>, p2: seq<string>)
    requires NoSeparator(p1) && NoSeparator(p2)
    requires JoinTerminated(p1) == JoinTerminated(p2)
    ensures p1 == p2
  {
    if p1 != [] && p2 != [] {
      var i1, i2 := p1[..|p1| - 1], p2[..|p2| - 1];
      var x1, x2 := p1[|p1| - 1], p2[|p2| - 1];
      var a1, a2 := JoinTerminated(i1), JoinTerminated(i2);
      var s := JoinTerminated(p1);
      assert a1 + x1 == s[..|s| - 1];
      assert a2 + x2 == s[..|s| - 1];
      SplitAtLastSeparator(a1, x1, a2, x2);
      assert NoSeparator(i1) by { assert forall i :: 0 <= i < |i1| ==> i1[i] == p1[i]; }
      assert NoSeparator(i2) by { assert forall i :: 0 <= i < |i2| ==> i2[i] == p2[i]; }
      JoinTerminatedInjective(i1, i2);
      assert p1 == i1 + [x1] && p2 == i2 + [x2];
    }
  }

  /** When the last path is not empty, the trimming removes exactly the final
      separator. */
  lemma TrimJoined(paths: seq<string>)
    requires paths != [] && paths[|paths| - 1] != [] && ';' !in paths[|paths| - 1]
    ensures var j := JoinTerminated(paths);
      TrimEnd(j, {';'}) == j[..|j| - 1]
  {
    var j := JoinTerminated(paths);
    var last := paths[|paths| - 1];
    assert j[..|j| - 1] == JoinTerminated(paths[..|paths| - 1]) + last;
    assert j[..|j| - 1][|j| - 2] == last[|last| - 1];
  }

  /** For one version, non-empty paths without `;` give distinct key material
      unless the path lists are equal. */
  lemma KeyMaterialInjective(p1: seq<string>, p2: seq<string>, version: int)
    requires NoSeparator(p1) && NoSeparator(p2) && AllNonEmpty(p1) && AllNonEmpty(p2)
    requires KeyMaterial(p1, version) == KeyMaterial(p2, version)
    ensures p1 == p2
  {
    var j1, j2 := JoinTerminated(p1), JoinTerminated(p2);
    var t1, t2 := TrimEnd(j1, {';'}), TrimEnd(j2, {';'});
    var d := IntToString(version);
    assert t1 == (t1 + d)[..|t1|] && t2 == (t2 + d)[..|t2|];
    assert t1 == t2;
    if p1 != [] {
      TrimJoined(p1);
      JoinedHeadNonEmpty(p1);
    }
    if p2 != [] {
      TrimJoined(p2);
      JoinedHeadNonEmpty(p2);
    }
    if p1 != [] && p2 != [] {
      assert j1 == t1 + [';'] && j2 == t2 + [';'];
      JoinTerminatedInjective(p1, p2);
    }
  }

  /** The joined text of non-empty paths is longer than its final separator. */
  lemma {:induction false} JoinedHeadNonEmpty(paths: seq<string>)
    requires paths != [] && AllNonEmpty(paths)
    ensures |JoinTerminated(paths)| >= 2
  {
    assert paths[|paths| - 1] != [];
  }

  /** An empty path at the end of the list leaves the key material unchanged. */
  lemma TrailingEmptyPathIgnored(paths: seq<string>, version: int)
    ensures KeyMaterial(paths + [""], version) == KeyMaterial(paths, version)
  {
    var j := JoinTerminated(paths);
    assert (paths + [""])[..|paths|] == paths;
    assert JoinTerminated(paths + [""]) == j + [';'];
    assert (j + [';'])[..|j|] == j;
  }

  /** The version is appended without a separator, so a version's leading
      digit can be moved to the end of the last path: `["a1"]` with version 2
      and `["a"]` with version 12 give the same key material. */
  lemma VersionDigitMovesIntoPath(p: string, d: nat, v: nat)
    requires p != [] && ';' !in p && 1 <= d <= 9 && v <= 9
    ensures KeyMaterial([p + [DigitChar(d)]], v) == KeyMaterial([p], 10 * d + v)
  {
    var x, y := DigitChar(d), DigitChar(v);
    SinglePathTrimmed(p);
    SinglePathTrimmed(p + [x]);
    TwoDigits(d, v);
    assert (p + [x]) + [y] == p + [x, y];
  }

  lemma TwoDigits(d: nat, v: nat)
    requires 1 <= d <= 9 && v <= 9
    ensures IntToString(v) == [DigitChar(v)]
    ensures IntToString(10 * d + v) == [DigitChar(d), DigitChar(v)]
  {
    assert (10 * d + v) / 10 == d && (10 * d + v) % 10 == v;
    assert NatToString(10 * d + v) == NatToString(d) + [DigitChar(v)];
    assert NatToString(d) == [DigitChar(d)];
  }

  /** The key material of one path starts with that path, trimmed of nothing. */
  lemma SinglePathTrimmed(p: string)
    requires p != [] && ';' !in p
    ensures TrimEnd(JoinTerminated([p]), {';'}) == p
  {
    assert [p][..0] == [];
    TrimJoined([p]);
  }
}
