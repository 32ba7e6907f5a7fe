# ClientDependency Redis and S3 providers, modelled in Dafny

This project models the two providers that let ClientDependency keep its composite
files outside the web server:

- `RedisXmlFileMapper` keeps the file map in Redis. A file key is hashed from the
  dependent file paths and the version. Each entry (a `CompositeFileEntry`)
  records the composite file built for that key and compression. Entries are
  stored as JSON under the index key `{folder}/Maps/{fileKey}.json[.{compression}]`.
- `CompositeS3FileProcessorProvider` writes composite files to an S3 bucket and
  reads them back. It validates its configuration, names each saved file
  `{version}-{guid}.{ext}`, and stores it under a path made from the base path
  and that name.

The model abstracts both remote stores as maps:

- The Redis database is a `map<string, FileRecord>`. JSON is taken to round-trip
  exactly, so records are stored as they are.
- The bucket is a `map<ObjectKey, Bytes>` held by an `ObjectStore` object. Whether
  the S3 service answers is a boolean parameter.

The static fields of each provider become the fields of one object:
`RedisXmlFileMapper` and `CompositeS3FileProcessor`. Their methods update those
fields in place. `CompositeFileEntry` is a class whose byte cache is a field the
fetch assigns.

Files:

- `wrappers.dfy`: `Option` and `Result`.
- `text.dfy` (module `Text`): the .NET string operations the providers use.
  These are `TrimStart`/`TrimEnd` of a character set, `Replace` for a character
  and for a string, ASCII `ToLower`, `int.ToString`, `int.TryParse` and
  `Path.GetFileName`.
- `s3_provider.dfy`:
  - Module `S3Paths`: settings, names, paths and the read as values, with the lemmas.
  - Module `S3Provider`: the provider and bucket objects.
- `file_map.dfy` (module `FileMap`): records, index keys, the version-checked
  lookup, the upsert, the reservation and the file key's text, with the lemmas.
- `file_mapper.dfy` (module `FileMapper`): the mapper object, its configuration,
  the path-joining loop, and the `CompositeFileEntry` object.

Three points of the code that the model follows closely:

- **Read failures are rethrown.** `ReadS3File` does not swallow read failures.
  It rethrows each one wrapped in a new exception
  (CompositeS3FileProcessorProvider.cs lines 206-210). Only
  `CompositeFileEntry.GetCompositeFileBytes` catches them. `S3Paths.ReadS3`
  returns `ReadFailed(path)`, and `FileMapper.CompositeFileEntry.GetCompositeFileBytes`
  turns that into an empty cache.
- **Saving does not check the credentials.** `SaveCompositeFile` checks only
  `PersistCompositeFiles`. `Initialize` sets the base path only after all four
  required settings are set (lines 44-64). So, starting from the unset state,
  missing credentials always mean a null base path. The path derivation at line 89
  then throws an unwrapped null reference before any upload.
  `S3Paths.ReachableBasePathOnlyWhenConfigured` proves this invariant by induction.
- **Conversion failures are caught late.** `FindItem` does not catch
  deserialisation failures. `GetCompositeFile` catches only around
  `ToCompositeFileMap`. `GetDependentFiles` catches only around reading
  `DependentFiles` (RedisXmlFileMapper.cs lines 141-151). Neither covers
  `FindItem`. JSON is outside the model, so none of these paths can fail here.

## Model

| member | source | states |
|---|---|---|
| FileMap.CompressionSuffix | ClientDependency.RedisAndS3/ClientDependencyProviders/RedisXmlFileMapper.cs:281-285 | the suffix is empty exactly when the compression is null or empty |
| FileMap.IndexKeyNullIsEmpty | ClientDependency.RedisAndS3/ClientDependencyProviders/RedisXmlFileMapper.cs:279-287 | null and empty compression give the same index key, `{folder}/Maps/{key}.json` |
| FileMap.IndexKeyInjective | ClientDependency.RedisAndS3/ClientDependencyProviders/RedisXmlFileMapper.cs:279-287 | for file keys without a dot, two index keys in one folder are equal if and only if the file keys and the effective compressions are equal |
| FileMap.UpsertThenFind | ClientDependency.RedisAndS3/ClientDependencyProviders/RedisXmlFileMapper.cs:238-245 | after the upsert, looking up the same key, version and effective compression returns exactly the written record (name, files, version) |
| FileMap.UpsertReplacesOtherVersion | ClientDependency.RedisAndS3/ClientDependencyProviders/RedisXmlFileMapper.cs:262-276 | the upsert is blind: a lookup of any other version under the same index key then misses |
| FileMap.UpsertLeavesOthers | ClientDependency.RedisAndS3/ClientDependencyProviders/RedisXmlFileMapper.cs:244-245 | for dot-free file keys, an upsert changes no lookup for another file key or another compression |
| FileMap.IndexKeyDotCollision | ClientDependency.RedisAndS3/ClientDependencyProviders/RedisXmlFileMapper.cs:279-287 | a file key with a dot can collide: the uncompressed key of `k.json` is the `json`-compressed key of `k` |
| FileMap.ReserveThenFind | ClientDependency.RedisAndS3/ClientDependencyProviders/RedisXmlFileMapper.cs:190-201 | after a reservation a record of the version is found under the uncompressed key: the earlier one if there was one, otherwise the placeholder with empty compression and empty composite name |
| FileMap.ReserveIdempotent | ClientDependency.RedisAndS3/ClientDependencyProviders/RedisXmlFileMapper.cs:190-201 | a second reservation with the same input leaves the store unchanged |
| FileMap.ReserveLeavesOthers | ClientDependency.RedisAndS3/ClientDependencyProviders/RedisXmlFileMapper.cs:190-201 | a reservation writes no key other than the uncompressed index key of its file key |
| FileMap.JoinTerminated | ClientDependency.RedisAndS3/ClientDependencyProviders/RedisXmlFileMapper.cs:179-185 | the joined text of a non-empty path list ends in `;` |
| FileMap.JoinTerminatedInjective | ClientDependency.RedisAndS3/ClientDependencyProviders/RedisXmlFileMapper.cs:179-185 | paths without `;` can be recovered from their joined text |
| FileMap.KeyMaterialInjective | ClientDependency.RedisAndS3/ClientDependencyProviders/RedisXmlFileMapper.cs:179-188 | for one version, lists of non-empty paths without `;` give the same hashed text only when the lists are equal |
| FileMap.TrailingEmptyPathIgnored | ClientDependency.RedisAndS3/ClientDependencyProviders/RedisXmlFileMapper.cs:185-188 | trimming every trailing `;` makes an empty last path vanish, so the lists `ps + [""]` and `ps` get the same file key |
| FileMap.VersionDigitMovesIntoPath | ClientDependency.RedisAndS3/ClientDependencyProviders/RedisXmlFileMapper.cs:186-188 | the version is appended without a separator, so `[p + d]` with version `v` and `[p]` with version `10d + v` get the same file key |
| FileMapper.JoinFilePaths | ClientDependency.RedisAndS3/ClientDependencyProviders/RedisXmlFileMapper.cs:179-185 | the builder loop yields every path followed by `;`, in order |
| FileMapper.ConfigureMapperIdempotent | ClientDependency.RedisAndS3/ClientDependencyProviders/RedisXmlFileMapper.cs:62-97 | initializing twice with the same section leaves the same folder, database number and connection string as initializing once |
| FileMapper.ConfiguredFolderKeepsRuntimeChoice | ClientDependency.RedisAndS3/ClientDependencyProviders/RedisXmlFileMapper.cs:69-78 | a `mapPath` equal to the default does not override a folder changed at run time; any other `mapPath` is taken |
| FileMapper.ConfiguredDatabaseRoundTrip | ClientDependency.RedisAndS3/ClientDependencyProviders/RedisXmlFileMapper.cs:80-88 | a `dbNum` written as a 32-bit integer is recorded as exactly that database number |
| FileMapper.RedisXmlFileMapper.constructor | ClientDependency.RedisAndS3/ClientDependencyProviders/RedisXmlFileMapper.cs:26-57 | start-up state: the default folder `~/ClientDependency/Data` and database -1 |
| FileMapper.RedisXmlFileMapper.Initialize | ClientDependency.RedisAndS3/ClientDependencyProviders/RedisXmlFileMapper.cs:62-97 | a null section changes nothing; otherwise the folder, the database number (only on a successful parse) and the connection string (only when non-empty) are updated as `ConfigureMapper` says, and the database is untouched |
| FileMapper.RedisXmlFileMapper.FindItem | ClientDependency.RedisAndS3/ClientDependencyProviders/RedisXmlFileMapper.cs:256-277 | an empty key is an argument error; without a connection string the database cannot be reached; otherwise the result is the stored record under the index key when its version is the one asked for, and absent otherwise |
| FileMapper.RedisXmlFileMapper.GetCompositeFile | ClientDependency.RedisAndS3/ClientDependencyProviders/RedisXmlFileMapper.cs:113-128 | an empty file key is an argument error naming `fileKey`; otherwise the version-checked record under the key and compression |
| FileMapper.RedisXmlFileMapper.GetDependentFiles | ClientDependency.RedisAndS3/ClientDependencyProviders/RedisXmlFileMapper.cs:136-153 | an empty file key is an argument error; otherwise the dependent files of the uncompressed record of that version, or absent |
| FileMapper.RedisXmlFileMapper.CreateUpdateMap | ClientDependency.RedisAndS3/ClientDependencyProviders/RedisXmlFileMapper.cs:230-246 | an empty file key is an argument error and nothing is written; otherwise the store becomes the upsert of a record with exactly the given fields |
| FileMapper.RedisXmlFileMapper.CreateNewMap | ClientDependency.RedisAndS3/ClientDependencyProviders/RedisXmlFileMapper.cs:173-204 | the result is the hash of the trimmed joined paths followed by the version, whether or not a record existed; the store becomes the reservation of that key; an empty hash is the argument error of `FindItem` |
| FileMapper.CompositeFileEntry.constructor | ClientDependency.RedisAndS3/ClientDependencyProviders/RedisXmlFileMapper.cs:292-299 | the entry holds exactly the given fields and no bytes |
| FileMapper.CompositeFileEntry.GetCompositeFileBytes | ClientDependency.RedisAndS3/ClientDependencyProviders/RedisXmlFileMapper.cs:329-352 | without S3 settings: nothing returned, cache kept, no read; with cached bytes: those bytes, no read; with an empty composite name: nothing, no read; otherwise exactly one read, whose bytes are cached and returned, a failed read leaving the cache empty |
| FileMapper.CompositeFileEntry.HasFileBytes | ClientDependency.RedisAndS3/ClientDependencyProviders/RedisXmlFileMapper.cs:317-324 | the cache and the read count change exactly as in `GetCompositeFileBytes` (kept, with no read, without S3 settings, with cached bytes or with an empty name; otherwise one read whose bytes are kept); the result is true exactly when the cache then holds bytes, so bytes cached earlier count even when S3 settings are now missing |
| S3Paths.CredentialsIgnoreBucket | ClientDependency.RedisAndS3/ClientDependencyProviders/CompositeS3FileProcessorProvider.cs:28-34 | `HasS3Settings` depends on the access key, secret key and region only; bucket name and base path play no part |
| S3Paths.ConfigureNull | ClientDependency.RedisAndS3/ClientDependencyProviders/CompositeS3FileProcessorProvider.cs:41-42 | a null config changes nothing and throws nothing |
| S3Paths.ConfigureAssignsInOrder | ClientDependency.RedisAndS3/ClientDependencyProviders/CompositeS3FileProcessorProvider.cs:44-58 | a required setting takes its configured value exactly when it and every setting checked before it are present, so fields assigned before a failing check keep their new values |
| S3Paths.ConfigureSucceedsWhenComplete | ClientDependency.RedisAndS3/ClientDependencyProviders/CompositeS3FileProcessorProvider.cs:44-58 | configuration succeeds if and only if all four required settings are present |
| S3Paths.ConfigureSuccess | ClientDependency.RedisAndS3/ClientDependencyProviders/CompositeS3FileProcessorProvider.cs:44-64 | a successful configuration enables persistence and leaves a non-empty base path |
| S3Paths.UnsetHasNoBasePath | ClientDependency.RedisAndS3/ClientDependencyProviders/CompositeS3FileProcessorProvider.cs:22-26 | the start-up settings have no base path, so a set base path implying credentials and a bucket holds there |
| S3Paths.ConfigureSetsBasePathLast | ClientDependency.RedisAndS3/ClientDependencyProviders/CompositeS3FileProcessorProvider.cs:44-64 | every configuration, failed or not, keeps the base path unset until the credentials and the bucket are set, since it is assigned after all four checks |
| S3Paths.ReachableBasePathOnlyWhenConfigured | ClientDependency.RedisAndS3/ClientDependencyProviders/CompositeS3FileProcessorProvider.cs:37-65 | after any sequence of `Initialize` calls from start-up, a set base path comes with the credentials and the bucket, so a save without credentials meets a null base path at line 89 |
| S3Paths.ReadOfFileName | ClientDependency.RedisAndS3/ClientDependencyProviders/CompositeS3FileProcessorProvider.cs:189-210 | with credentials and a base path, a read of any path addresses the object under the storage path of its file name, returning its bytes or the wrapped read failure |
| S3Paths.ConfigureFailureNamesMissing | ClientDependency.RedisAndS3/ClientDependencyProviders/CompositeS3FileProcessorProvider.cs:44-58 | a failed configuration names the first missing required setting (every earlier one is present), and the exception's parameter name starts with that setting's key |
| S3Paths.ReadFailureNamesPath | ClientDependency.RedisAndS3/ClientDependencyProviders/CompositeS3FileProcessorProvider.cs:189-210 | a wrapped read failure only happens with credentials, a base path and a valid file name; it is about the storage path of that name, and its message ends with that path |
| S3Paths.ConfigureKeepsConsistent | ClientDependency.RedisAndS3/ClientDependencyProviders/CompositeS3FileProcessorProvider.cs:37-65 | a configuration, failed or not, keeps the settings consistent (a secret key only with every other setting and a base path) and never disables persistence |
| S3Paths.ExtensionValues | ClientDependency.RedisAndS3/ClientDependencyProviders/CompositeS3FileProcessorProvider.cs:85 | the extension is `js` for JavaScript and `css` for CSS |
| S3Paths.ArtifactNameIsBare | ClientDependency.RedisAndS3/ClientDependencyProviders/CompositeS3FileProcessorProvider.cs:85-88 | a `{version}-{guid}.{ext}` name holds no separator or invalid character, so its file name is itself |
| S3Paths.StoragePathExample | ClientDependency.RedisAndS3/ClientDependencyProviders/CompositeS3FileProcessorProvider.cs:89 | base `Files/` and name `3-abc123.js` give `Files/3/abc123.js` |
| S3Paths.StoragePathInjective | ClientDependency.RedisAndS3/ClientDependencyProviders/CompositeS3FileProcessorProvider.cs:89 | distinct bare names are stored under distinct paths of one base |
| S3Paths.DistinctGuidsDistinctPaths | ClientDependency.RedisAndS3/ClientDependencyProviders/CompositeS3FileProcessorProvider.cs:85-89 | two saves of one version and type with different GUIDs never write to the same path |
| S3Paths.SaveThenRead | ClientDependency.RedisAndS3/ClientDependencyProviders/CompositeS3FileProcessorProvider.cs:185-190 | reading the saved name, or any path ending in it, addresses the uploaded object and returns its bytes |
| S3Paths.ConsistentReadNeverNull | ClientDependency.RedisAndS3/ClientDependencyProviders/CompositeS3FileProcessorProvider.cs:189-190 | with settings reached by configuration, a read never dereferences a null base path |
| S3Provider.CompositeS3FileProcessor.constructor | ClientDependency.RedisAndS3/ClientDependencyProviders/CompositeS3FileProcessorProvider.cs:22-26 | every setting starts null |
| S3Provider.CompositeS3FileProcessor.Initialize | ClientDependency.RedisAndS3/ClientDependencyProviders/CompositeS3FileProcessorProvider.cs:37-65 | the new settings and the outcome are `Configure` of the old settings; consistency and enabled persistence are preserved |
| S3Provider.CompositeS3FileProcessor.SaveCompositeFile | ClientDependency.RedisAndS3/ClientDependencyProviders/CompositeS3FileProcessorProvider.cs:77-112 | persistence off: nothing uploaded, no name; null base path: null reference; otherwise the object at the storage path of `{version}-{guid}.{ext}` becomes the contents and the name is returned, or nothing changes and the write failure is wrapped with that path |
| S3Provider.CompositeS3FileProcessor.ReadS3File | ClientDependency.RedisAndS3/ClientDependencyProviders/CompositeS3FileProcessorProvider.cs:185-211 | the result is `ReadS3`: nothing without settings, an argument error for invalid path characters, the stored bytes, or the read failure wrapped with the path; never a null reference once configured |
| Text.TrimEndSpec | ClientDependency.RedisAndS3/ClientDependencyProviders/CompositeS3FileProcessorProvider.cs:89 | `TrimEnd` removes exactly the longest suffix of the given characters |
| Text.TrimStartSpec | ClientDependency.RedisAndS3/ClientDependencyProviders/CompositeS3FileProcessorProvider.cs:89 | `TrimStart` removes exactly the longest prefix of the given characters |
| Text.GetFileName | ClientDependency.RedisAndS3/ClientDependencyProviders/CompositeS3FileProcessorProvider.cs:189 | `Path.GetFileName` fails exactly on invalid path characters; otherwise it returns a separator-free suffix of the path that is the whole path or follows a separator |
| Text.IntToStringParses | ClientDependency.RedisAndS3/ClientDependencyProviders/RedisXmlFileMapper.cs:84 | `int.TryParse` of the decimal form of a 32-bit integer gives that integer |

## Left out

- **Redis connection management.** The `Lazy<ConnectionMultiplexer>` connects once, with the connection string current at first use. The model only distinguishes an empty connection string, which makes `RedisDatabase()` dereference null (`NoConnection`). The database number is recorded, but the model has a single database map.
- **JSON.** `JsonConvert` is taken to round-trip `CompositeFileEntry` records exactly, since the type has a public constructor and marks every stored field. `ToCompositeFileMap` is taken to convert exactly too, so `GetCompositeFile` returns the record itself and its catch is never reached; the `GetCompositeFile` line below says why that conversion is doubtful.
- FileMapper.RedisXmlFileMapper.CreateUpdateMap: serialising an entry (RedisXmlFileMapper.cs line 245) also reads its public `HasFileBytes` property. `CompositeFileEntry` does not opt out of that property, so the read runs `GetCompositeFileBytes`. With S3 settings present and a non-empty composite name, that is one S3 read whose bytes are thrown away. A failed read also logs an error. The stored JSON gains a `HasFileBytes` field that deserialisation ignores. The model makes no such read.
- FileMapper.RedisXmlFileMapper.GetCompositeFile: `ToCompositeFileMap` (line 360) serialises the entry the same way, so it also makes that discarded S3 read. The model makes no such read. The model also assumes that `ToCompositeFileMap` succeeds and copies every field of the record. `CompositeFileMap` is not part of this model, and the comment at RedisXmlFileMapper.cs line 355 says its constructor is internal, which makes this doubtful. Json.NET uses a constructor with parameters only if it is public or marked for it. If the conversion throws, the catch at lines 124-127 makes `GetCompositeFile` return null for every record it finds. If it instead runs a non-public constructor with no parameters, the fields with private setters stay unset. Either way the program would not return the record that `GetCompositeFile`'s contract gives.
- **`GenerateHash`.** It is not part of this model. It is a function-valued field of the mapper, so only determinism follows.
- **Base-class behaviour.** The `base.Initialize` calls and the rest of the base providers are not part of this model. `PersistCompositeFiles` is a constructor parameter.
- **HTTP context checks.** `Initialize(HttpContextBase)` and the null checks of `http` in `CreateNewMap` are not modelled, because the context is not modelled.
- **AWS calls.** The client, `TransferUtility`, region lookup and stream copying are reduced to one boolean: whether the service answers. An upload or read then succeeds when the service answers, credentials and region are set, a bucket is named, and (for reads) the object exists.
- **GUID and version.** `Guid.NewGuid()` and `ClientDependencySettings.Instance.Version` are method parameters.
- **`CombineFiles`, `CompressBytes` and the obsolete `WriteFileToStream` overloads.** They delegate to code that is not part of this model.
- **Logging.** Logger calls are not modelled.
- **`FileInfo`.** The saved file is identified by its name; `FullName` appears only in a log message.
- **Nulls.** String arguments other than compression and the base path are non-null. A null `file` given to `ReadS3File` is not modelled. An empty string stands for a null bucket, region or key.
- **Exception texts.** The exceptions of `Initialize` are modelled by the setting they name. `ArgumentNullException(string)` takes its argument as the parameter name, so `S3Paths.ConfigParamName` gives that parameter name, not the exception's message. `S3Paths.WrappedMessage` gives the message of the wrapping exceptions. Logging is left out.
- **Concurrency.** The read-then-write race in `CreateNewMap` is concurrency; the model is single-threaded.
- **Text.ToLower:** covers ASCII letters only. Culture-specific casing does not arise for the two type names.
- **Text.TryParseInt32:** accepts white space, one sign and decimal digits, in the 32-bit range. Culture-specific signs are not modelled. .NET Framework's `int.TryParse` also accepts trailing `'\0'` characters (so `"5\0"` parses to 5). The model rejects them.
