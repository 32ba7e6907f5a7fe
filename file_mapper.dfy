/** The mapper and the entry objects of
    ClientDependency.RedisAndS3/ClientDependencyProviders/RedisXmlFileMapper.cs:
    the static folder, database number, connection string and Redis database
    become fields of one mapper object, and `CompositeFileEntry` keeps its
    fetched bytes in a field of its own. */
module FileMapper {
  import opened Wrappers
  import opened Text
  import opened FileMap
  import S3Paths
  import S3Provider

  const FileMapVirtualFolderDefault: string := "~/ClientDependency/Data"

  /** A config section of the mapper: absent keys are null values. */
  type MapperConfig = map<string, string>

  const MapPathKey := "mapPath"
  const DbNumKey := "dbNum"
  const ConnectionKey := "redisCacheConnection"

  /** The static settings of the mapper. */
  datatype MapperSettings = MapperSettings(folder: string, databaseNumber: int, cacheConnection: string)

  /** The folder after `Initialize`: a configured `mapPath` is taken unless the
      folder was changed at run time and the configured one is the default. */
  function ConfiguredFolder(folder: string, config: MapperConfig): string {
    if MapPathKey in config && (folder == FileMapVirtualFolderDefault || config[MapPathKey] != FileMapVirtualFolderDefault)
    then config[MapPathKey]
    else folder
  }

  /** The database number after `Initialize`: a `dbNum` that parses as a 32-bit
      integer, otherwise the old number. */
  function ConfiguredDatabase(databaseNumber: int, config: MapperConfig): int {
    if DbNumKey in config && TryParseInt32(config[DbNumKey]).Some? then TryParseInt32(config[DbNumKey]).value
    else databaseNumber
  }

  /** The connection string after `Initialize`: a non-empty configured one. */
  function ConfiguredConnection(connection: string, config: MapperConfig): string {
    if ConnectionKey in config && config[ConnectionKey] != "" then config[ConnectionKey] else connection
  }

  function ConfigureMapper(s: MapperSettings, config: Option<MapperConfig>): MapperSettings {
    if config.None? then s
    else MapperSettings(
      ConfiguredFolder(s.folder, config.value),
      ConfiguredDatabase(s.databaseNumber, config.value),
      ConfiguredConnection(s.cacheConnection, config.value))
  }

  /** Initializing twice with the same section is initializing once. */
  lemma ConfigureMapperIdempotent(s: MapperSettings, config: Option<MapperConfig>)
    ensures ConfigureMapper(ConfigureMapper(s, config), config) == ConfigureMapper(s, config)
  {
  }

  /** A folder set at run time survives a section that names the default
      folder, and is replaced by any other configured folder. */
  lemma ConfiguredFolderKeepsRuntimeChoice(folder: string, config: MapperConfig)
    requires MapPathKey in config
    ensures folder != FileMapVirtualFolderDefault && config[MapPathKey] == FileMapVirtualFolderDefault
        ==> ConfiguredFolder(folder, config) == folder
    ensures config[MapPathKey] != FileMapVirtualFolderDefault ==> ConfiguredFolder(folder, config) == config[MapPathKey]
  {
  }

  /** A 32-bit database number written in the section is the one selected. */
  lemma ConfiguredDatabaseRoundTrip(databaseNumber: int, n: int, config: MapperConfig)
    requires MinInt32 <= n <= MaxInt32
    requires DbNumKey in config && config[DbNumKey] == IntToString(n)
    ensures ConfiguredDatabase(databaseNumber, config) == n
  {
    IntToStringParses(n);
  }

  /** The loop of `CreateNewMap`: every path followed by `;`. */
  method JoinFilePaths(paths: seq<string>) returns (combined: string)
    ensures combined == JoinTerminated(paths)
  {
    combined := "";
    var i := 0;
    while i < |paths|
      invariant 0 <= i <= |paths|
      invariant combined == JoinTerminated(paths[..i])
    {
      assert paths[..i + 1][..i] == paths[..i];
      combined := combined + paths[i] + ";";
      i := i + 1;
    }
    assert paths[..|paths|] == paths;
  }

  /** The mapper; the Redis database it talks to is the map `db`. */
  class RedisXmlFileMapper {
    var fileMapVirtualFolder: string
    var databaseNumber: int
    var cacheConnection: string
    var db: Store
    /** `GenerateHash`, an extension method not part of this model. */
    const generateHash: string -> string

    function Settings(): MapperSettings
      reads this
    {
      MapperSettings(fileMapVirtualFolder, databaseNumber, cacheConnection)
    }

    /** `RedisDatabase()` is only reachable with a connection string. */
    predicate Connected()
      reads this
    {
      cacheConnection != ""
    }

    /** The static state at start-up: the default folder, database -1, the
        application's connection string and the database's current records. */
    constructor (generateHash: string -> string, cacheConnection: string, db: Store)
      ensures Settings() == MapperSettings(FileMapVirtualFolderDefault, -1, cacheConnection)
      ensures this.db == db && this.generateHash == generateHash
    {
      fileMapVirtualFolder := FileMapVirtualFolderDefault;
      databaseNumber := -1;
      this.cacheConnection := cacheConnection;
      this.db := db;
      this.generateHash := generateHash;
    }

    /** `Initialize(name, config)`. */
    method Initialize(config: Option<MapperConfig>)
      modifies this
      ensures Settings() == ConfigureMapper(old(Settings()), config)
      ensures db == old(db)
    {
      if config.None? {
        return;
      }
      var c := config.value;
      if MapPathKey in c {
        if fileMapVirtualFolder == FileMapVirtualFolderDefault || c[MapPathKey] != FileMapVirtualFolderDefault {
          fileMapVirtualFolder := c[MapPathKey];
        }
      }
      if DbNumKey in c {
        var parsed := TryParseInt32(c[DbNumKey]);
        if parsed.Some? {
          databaseNumber := parsed.value;
        }
      }
      if ConnectionKey in c {
        if c[ConnectionKey] != "" {
          cacheConnection := c[ConnectionKey];
        }
      }
    }

    /** `FindItem`: the record of the version under the index key. */
    method FindItem(key: string, version: int, compression: Option<string>) returns (r: Result<Option<FileRecord>, MapError>)
      ensures key == "" ==> r == Failure(ArgumentNull("key"))
      ensures key != "" && !Connected() ==> r == Failure(NoConnection)
      ensures key != "" && Connected() ==> r == Success(Find(db, fileMapVirtualFolder, key, version, compression))
      ensures r.Success? && r.value.Some? ==>
        r.value.value.version == version &&
        IndexKey(fileMapVirtualFolder, key, compression) in db &&
        db[IndexKey(fileMapVirtualFolder, key, compression)] == r.value.value
    {
      if key == "" {
        return Failure(ArgumentNull("key"));
      }
      if !Connected() {
        return Failure(NoConnection);
      }
      var indexKey := IndexKey(fileMapVirtualFolder, key, compression);
      if indexKey !in db {
        return Success(None);
      }
      var item := db[indexKey];
      if item.version == version {
        r := Success(Some(item));
      } else {
        r := Success(None);
      }
    }

    /** `GetCompositeFile`: the map of the record found, its JSON conversion
        being exact. */
    method GetCompositeFile(fileKey: string, version: int, compression: Option<string>) returns (r: Result<Option<FileRecord>, MapError>)
      ensures fileKey == "" ==> r == Failure(ArgumentNull("fileKey"))
      ensures fileKey != "" && !Connected() ==> r == Failure(NoConnection)
      ensures fileKey != "" && Connected() ==> r == Success(Find(db, fileMapVirtualFolder, fileKey, version, compression))
    {
      if fileKey == "" {
        return Failure(ArgumentNull("fileKey"));
      }
      r := FindItem(fileKey, version, compression);
    }

    /** `GetDependentFiles`: the paths of the uncompressed record of the version. */
    method GetDependentFiles(fileKey: string, version: int) returns (r: Result<Option<seq<string>>, MapError>)
      ensures fileKey == "" ==> r == Failure(ArgumentNull("fileKey"))
      ensures fileKey != "" && !Connected() ==> r == Failure(NoConnection)
      ensures fileKey != "" && Connected() ==>
        var found := Find(db, fileMapVirtualFolder, fileKey, version, None);
        r == Success(if found.Some? then Some(found.value.dependentFiles) else None)
    {
      if fileKey == "" {
        return Failure(ArgumentNull("fileKey"));
      }
      var x := FindItem(fileKey, version, None);
      if x.Failure? {
        return Failure(x.error);
      }
      if x.value.Some? {
        r := Success(Some(x.value.value.dependentFiles));
      } else {
        r := Success(None);
      }
    }

    /** `CreateUpdateMap`: the record replaces whatever is at its index key. */
    method CreateUpdateMap(fileKey: string, compressionType: Option<string>, dependentFiles: seq<string>,
                           compositeFile: string, version: int) returns (r: Result<(), MapError>)
      modifies this
      ensures Settings() == old(Settings())
      ensures fileKey == "" ==> r == Failure(ArgumentNull("fileKey")) && db == old(db)
      ensures fileKey != "" && !Connected() ==> r == Failure(NoConnection) && db == old(db)
      ensures fileKey != "" && Connected() ==>
        r == Success(()) &&
        db == Upsert(old(db), fileMapVirtualFolder, FileRecord(fileKey, compressionType, compositeFile, dependentFiles, version))
    {
      if fileKey == "" {
        return Failure(ArgumentNull("fileKey"));
      }
      var entry := FileRecord(fileKey, compressionType, compositeFile, dependentFiles, version);
      if !Connected() {
        return Failure(NoConnection);
      }
      db := db[IndexKey(fileMapVirtualFolder, fileKey, compressionType) := entry];
      r := Success(());
    }

    /** `CreateNewMap`: the file key of the paths and the version, with a
        placeholder reserved for it when no record of the version exists. */
    method CreateNewMap(dependentFiles: seq<string>, version: int) returns (r: Result<string, MapError>)
      modifies this
      ensures Settings() == old(Settings())
      ensures var fileKey := generateHash(KeyMaterial(dependentFiles, version));
        if fileKey == "" then r == Failure(ArgumentNull("key")) && db == old(db)
        else if !Connected() then r == Failure(NoConnection) && db == old(db)
        else r == Success(fileKey) && db == Reserve(old(db), fileMapVirtualFolder, fileKey, dependentFiles, version)
    {
      var combinedFiles := JoinFilePaths(dependentFiles);
      combinedFiles := TrimEnd(combinedFiles, {';'});
      var fileKey := generateHash(combinedFiles + IntToString(version));
      var x := FindItem(fileKey, version, None);
      if x.Failure? {
        return Failure(x.error);
      }
      if x.value.None? {
        var _ := CreateUpdateMap(fileKey, Some(""), dependentFiles, "", version);
      }
      r := Success(fileKey);
    }
  }

  /** `CompositeFileEntry`: a stored record and the bytes fetched for it. */
  class CompositeFileEntry {
    const fileKey: string
    const compressionType: Option<string>
    const compositeFileName: string
    const dependentFiles: seq<string>
    const version: int
    /** `m_FileBytes`: `None` until a fetch succeeds. */
    var fileBytes: Option<S3Paths.Bytes>
    /** How many times the bucket has been read for this entry. */
    ghost var fetches: nat

    constructor (key: string, compressionType: Option<string>, file: string, filePaths: seq<string>, version: int)
      ensures Record() == FileRecord(key, compressionType, file, filePaths, version)
      ensures fileBytes == None && fetches == 0
    {
      fileKey := key;
      this.compressionType := compressionType;
      compositeFileName := file;
      dependentFiles := filePaths;
      this.version := version;
      fileBytes := None;
      fetches := 0;
    }

    function Record(): FileRecord {
      FileRecord(fileKey, compressionType, compositeFileName, dependentFiles, version)
    }

    /** `GetCompositeFileBytes`: nothing without S3 settings, the cached bytes
        when there are some, nothing for an entry without a composite file,
        and otherwise one read of the bucket whose bytes are kept, a failed read
        leaving the cache empty. */
    method GetCompositeFileBytes(s3: S3Provider.CompositeS3FileProcessor, serviceUp: bool, store: S3Provider.ObjectStore)
      returns (r: Option<S3Paths.Bytes>)
      modifies this
      ensures !s3.HasS3Settings() ==> r == None && fileBytes == old(fileBytes) && fetches == old(fetches)
      ensures s3.HasS3Settings() && old(fileBytes).Some? ==>
        r == old(fileBytes) && fileBytes == old(fileBytes) && fetches == old(fetches)
      ensures s3.HasS3Settings() && old(fileBytes).None? && compositeFileName == "" ==>
        r == None && fileBytes == None && fetches == old(fetches)
      ensures s3.HasS3Settings() && old(fileBytes).None? && compositeFileName != "" ==>
        fetches == old(fetches) + 1 && r == fileBytes &&
        fileBytes == FetchedBytes(S3Paths.ReadS3(s3.Settings(), store.objects, compositeFileName, serviceUp))
    {
      if !s3.HasS3Settings() {
        return None;
      }
      if fileBytes.None? {
        if compositeFileName == "" {
          return None;
        }
        var read := s3.ReadS3File(compositeFileName, serviceUp, store);
        fetches := fetches + 1;
        fileBytes := FetchedBytes(read);
      }
      r := fileBytes;
    }

    /** `HasFileBytes`: whether the cache holds bytes after a fetch attempt. */
    method HasFileBytes(s3: S3Provider.CompositeS3FileProcessor, serviceUp: bool, store: S3Provider.ObjectStore)
      returns (b: bool)
      modifies this
      ensures b == fileBytes.Some?
      ensures !s3.HasS3Settings() || old(fileBytes).Some? || compositeFileName == "" ==>
        fileBytes == old(fileBytes) && fetches == old(fetches)
      ensures s3.HasS3Settings() && old(fileBytes).None? && compositeFileName != "" ==>
        fetches == old(fetches) + 1 &&
        fileBytes == FetchedBytes(S3Paths.ReadS3(s3.Settings(), store.objects, compositeFileName, serviceUp))
    {
      var _ := GetCompositeFileBytes(s3, serviceUp, store);
      b := fileBytes.Some?;
    }
  }

  /** What a read leaves in the cache: the bytes of a successful read, nothing
      when the read threw. */
  function FetchedBytes(read: Result<Option<S3Paths.Bytes>, S3Paths.S3Error>): Option<S3Paths.Bytes> {
    if read.Success? then read.value else None
  }
}
