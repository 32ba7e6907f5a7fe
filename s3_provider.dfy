/** The S3-backed composite file processor
    (ClientDependency.RedisAndS3/ClientDependencyProviders/CompositeS3FileProcessorProvider.cs):
    the settings it is configured with, the name a saved composite file gets,
    the bucket path that name is stored under, and the save and read operations
    against a bucket abstracted as a map from object keys to bytes. */
module S3Paths {
  import opened Wrappers
  import opened Text

  type Bytes = seq<bv8>

  const DefaultBasePath: string := "ClientDependency/Files/"

  /** The kinds of composite file the handler builds. */
  datatype DependencyType = Javascript | Css

  /** `type.ToString()` of the enumeration. */
  function TypeName(t: DependencyType): string {
    match t
    case Javascript => "Javascript"
    case Css => "Css"
  }

  /** The extension of a saved composite file: the type name in lower case with
      "javascript" shortened to "js". */
  function Extension(t: DependencyType): string {
    Replace(ToLower(TypeName(t)), "javascript", "js")
  }

  lemma ExtensionValues()
    ensures Extension(Javascript) == "js"
    ensures Extension(Css) == "css"
  {
    LowerJavascript();
    ShortenJavascript();
  }

  lemma LowerJavascript()
    ensures ToLower("Javascript") == "javascript"
  {
  }

  lemma ShortenJavascript()
    ensures Replace("javascript", "javascript", "js") == "js"
  {
  }

  /** `Guid.ToString("N")`: 32 lower-case hexadecimal digits. */
  predicate IsGuidN(g: string) {
    |g| == 32 && forall i :: 0 <= i < |g| ==> IsDigit(g[i]) || 'a' <= g[i] <= 'f'
  }

  /** The name of a saved composite file: `{version}-{guid}.{ext}`. */
  function ArtifactName(version: int, guid: string, ext: string): string {
    IntToString(version) + "-" + guid + "." + ext
  }

  /** The bucket path of a file: the base path without leading or trailing `/`,
      then `/`, then the file name with every `-` turned into `/`. */
  function StoragePath(basePath: string, fileName: string): string {
    TrimEnd(TrimStart(basePath, {'/'}), {'/'}) + "/" + ReplaceChar(fileName, '-', '/')
  }

  /** The static settings of the provider; `""` stands for a null or empty
      string, `None` for a null base path. */
  datatype S3Settings = S3Settings(
    bucketName: string,
    bucketRegion: string,
    accessKey: string,
    secretKey: string,
    basePath: Option<string>)

  /** The settings before any configuration: every field null. */
  const Unset: S3Settings := S3Settings("", "", "", "", None)

  /** `HasS3Settings`: persistence is on when the access key, the secret key and
      the region are all given. */
  predicate HasCredentials(s: S3Settings) {
    s.accessKey != "" && s.secretKey != "" && s.bucketRegion != ""
  }

  /** What configuration from `Unset` always keeps: the secret key, assigned
      last, is only ever set together with every other setting. */
  predicate Consistent(s: S3Settings) {
    s.secretKey != "" ==>
      s.bucketName != "" && s.bucketRegion != "" && s.accessKey != "" &&
      s.basePath.Some? && s.basePath.value != ""
  }

  /** The bucket can be written or read: the service answers, the client has
      credentials and a region, and a bucket is named. */
  predicate ServiceAccepts(s: S3Settings, serviceUp: bool) {
    serviceUp && HasCredentials(s) && s.bucketName != ""
  }

  /** The key of an object in the bucket store. */
  datatype ObjectKey = ObjectKey(bucket: string, path: string)

  /** What a failing operation raises: a null dereference, the argument
      exception of `Path.GetFileName`, or the exception that wraps a failed
      write or read of the object at `path`. */
  datatype S3Error = NullReference | InvalidPath | WriteFailed(path: string) | ReadFailed(path: string)

  /** The message of a wrapping exception. */
  function WrappedMessage(e: S3Error): string
    requires e.WriteFailed? || e.ReadFailed?
  {
    if e.WriteFailed? then "Error writing ClientDependency file to s3 bucket " + e.path
    else "Error reading ClientDependency file from s3 bucket " + e.path
  }

  /** `ReadS3File(file)`: `None` when persistence is off; otherwise the bytes
      stored under the path of the file's name, every failure of the read being
      rethrown wrapped. */
  function ReadS3(s: S3Settings, objects: map<ObjectKey, Bytes>, file: string, serviceUp: bool): (r: Result<Option<Bytes>, S3Error>)
  {
    if !HasCredentials(s) then Success(None)
    else match GetFileName(file)
      case Failure(_) => Failure(InvalidPath)
      case Success(name) =>
        if s.basePath.None? then Failure(NullReference)
        else
          var key := ObjectKey(s.bucketName, StoragePath(s.basePath.value, name));
          if ServiceAccepts(s, serviceUp) && key in objects then Success(Some(objects[key]))
          else Failure(ReadFailed(key.path))
  }

  /** A configuration section: absent keys are null values. */
  type Config = map<string, string>

  predicate Present(c: Config, k: string) {
    k in c && c[k] != ""
  }

  /** The names of the settings in the provider's config section. */
  const BucketNameKey := "bucketName"
  const BucketRegionKey := "bucketRegion"
  const AccessKeyKey := "accessKey"
  const SecretKeyKey := "secretKey"
  const BasePathKey := "s3BasePath"

  /** The settings `Initialize` requires, in the order it checks them. */
  const RequiredSettings: seq<string> := [BucketNameKey, BucketRegionKey, AccessKeyKey, SecretKeyKey]

  /** The exception `Initialize` throws for the missing required setting `key`. */
  datatype ConfigError = ArgumentNull(key: string)

  /** The text the exception is built with; `ArgumentNullException(string)`
      takes it as the parameter name, not as the message. */
  function ConfigParamName(e: ConfigError): string {
    e.key + " is empty in the CompositeFileProcessor entry for ClientDependency"
  }

  datatype Configured = Configured(settings: S3Settings, result: Result<(), ConfigError>)

  /** The position of the first required setting missing from `c`, or 4. */
  function FirstMissing(c: Config): (n: nat)
    ensures n <= 4
  {
    if !Present(c, BucketNameKey) then 0
    else if !Present(c, BucketRegionKey) then 1
    else if !Present(c, AccessKeyKey) then 2
    else if !Present(c, SecretKeyKey) then 3
    else 4
  }

  /** `Initialize(name, config)` as a whole: nothing without a config section;
      otherwise every required setting before the first missing one takes its
      configured value, the missing one is named in the exception, and only when
      none is missing does the base path change, to the configured one or the
      default. */
  function Configure(s: S3Settings, config: Option<Config>): Configured {
    if config.None? then Configured(s, Success(()))
    else
      var c := config.value;
      var n := FirstMissing(c);
      var settings := S3Settings(
        if n > 0 then c[BucketNameKey] else s.bucketName,
        if n > 1 then c[BucketRegionKey] else s.bucketRegion,
        if n > 2 then c[AccessKeyKey] else s.accessKey,
        if n > 3 then c[SecretKeyKey] else s.secretKey,
        if n == 4 then Some(if Present(c, BasePathKey) then c[BasePathKey] else DefaultBasePath)
        else s.basePath);
      Configured(settings, if n == 4 then Success(()) else Failure(ArgumentNull(RequiredSettings[n])))
  }

  /** The `i`-th required setting of `s`, in checking order. */
  function RequiredField(s: S3Settings, i: nat): string
    requires i < 4
  {
    if i == 0 then s.bucketName
    else if i == 1 then s.bucketRegion
    else if i == 2 then s.accessKey
    else s.secretKey
  }

  /** The required settings up to and including the `i`-th are all given. */
  predicate PresentUpTo(c: Config, i: nat)
    requires i < 4
  {
    forall j :: 0 <= j <= i ==> Present(c, RequiredSettings[j])
  }

  /** The check order of `Initialize`: a required setting takes its configured
      value exactly when it and every setting checked before it are present, and
      keeps its old value otherwise. */
  lemma ConfigureAssignsInOrder(s: S3Settings, c: Config, i: nat)
    requires i < 4
    ensures RequiredField(Configure(s, Some(c)).settings, i)
         == if PresentUpTo(c, i) then c[RequiredSettings[i]] else RequiredField(s, i)
  {
    var n := FirstMissing(c);
    if i < n {
      assert PresentUpTo(c, i);
    } else {
      assert !Present(c, RequiredSettings[n]);
    }
  }

  /** `Initialize` succeeds exactly when all four required settings are present. */
  lemma ConfigureSucceedsWhenComplete(s: S3Settings, c: Config)
    ensures Configure(s, Some(c)).result.Success? <==> PresentUpTo(c, 3)
  {
    var n := FirstMissing(c);
    if n < 4 {
      assert !Present(c, RequiredSettings[n]);
    }
  }

  /** Without a config section nothing changes and nothing is thrown. */
  lemma ConfigureNull(s: S3Settings)
    ensures Configure(s, None) == Configured(s, Success(()))
  {
  }

  /** A successful configuration turns persistence on and leaves consistent
      settings with a non-empty base path. */
  lemma ConfigureSuccess(s: S3Settings, c: Config)
    requires Configure(s, Some(c)).result.Success?
    ensures var t := Configure(s, Some(c)).settings;
      HasCredentials(t) && Consistent(t) && t.bucketName == c[BucketNameKey]
  {
  }

  /** A failed configuration names the first missing required setting, and the
      exception's parameter name starts with that setting's key. */
  lemma ConfigureFailureNamesMissing(s: S3Settings, c: Config)
    requires Configure(s, Some(c)).result.Failure?
    ensures var e := Configure(s, Some(c)).result.error;
      exists i :: 0 <= i < 4 && e.key == RequiredSettings[i] && !Present(c, e.key) &&
        (i > 0 ==> PresentUpTo(c, i - 1))
    ensures var e := Configure(s, Some(c)).result.error;
      |e.key| <= |ConfigParamName(e)| && ConfigParamName(e)[..|e.key|] == e.key
  {
    var n := FirstMissing(c);
    assert Configure(s, Some(c)).result.error.key == RequiredSettings[n];
  }

  /** Configuration, failed or not, keeps settings consistent, and never turns
      persistence off once it is on. */
  lemma ConfigureKeepsConsistent(s: S3Settings, config: Option<Config>)
    requires Consistent(s)
    ensures Consistent(Configure(s, config).settings)
    ensures HasCredentials(s) ==> HasCredentials(Configure(s, config).settings)
  {
    if config.Some? {
      var c := config.value;
      var t := Configure(s, config).settings;
      if FirstMissing(c) < 4 {
        assert t.secretKey == s.secretKey && t.basePath == s.basePath;
      } else {
        assert t.basePath.Some? && t.basePath.value != "";
      }
    }
  }

  /** The base path is only ever set together with the credentials and the
      bucket: it is assigned after every required check has passed. */
  predicate BasePathOnlyWhenConfigured(s: S3Settings) {
    s.basePath.Some? ==> HasCredentials(s) && s.bucketName != ""
  }

  /** The start-up settings have no base path, so they meet the invariant. */
  lemma UnsetHasNoBasePath()
    ensures Unset.basePath.None? && BasePathOnlyWhenConfigured(Unset)
  {
  }

  /** Every configuration keeps the base path unset until the credentials and the
      bucket are set. */
  lemma ConfigureSetsBasePathLast(s: S3Settings, config: Option<Config>)
    requires BasePathOnlyWhenConfigured(s)
    ensures BasePathOnlyWhenConfigured(Configure(s, config).settings)
  {
    if config.Some? {
      var t := Configure(s, config).settings;
      if FirstMissing(config.value) < 4 {
        assert t.basePath == s.basePath;
      } else {
        assert HasCredentials(t);
      }
    }
  }

  /** The settings after `Initialize` has been called with each section of
      `configs` in turn. */
  function ConfigureAll(s: S3Settings, configs: seq<Option<Config>>): S3Settings
    decreases |configs|
  {
    if configs == [] then s else ConfigureAll(Configure(s, configs[0]).settings, configs[1..])
  }

  /** In every state reached from start-up through `Initialize`, a set base path
      comes with the credentials and the bucket; so a save without credentials
      always meets a null base path. */
  lemma {:induction false} ReachableBasePathOnlyWhenConfigured(configs: seq<Option<Config>>)
    ensures BasePathOnlyWhenConfigured(ConfigureAll(Unset, configs))
  {
    UnsetHasNoBasePath();
    ConfigureAllKeeps(Unset, configs);
  }

  lemma {:induction false} ConfigureAllKeeps(s: S3Settings, configs: seq<Option<Config>>)
    requires BasePathOnlyWhenConfigured(s)
    ensures BasePathOnlyWhenConfigured(ConfigureAll(s, configs))
    decreases |configs|
  {
    if configs != [] {
      ConfigureSetsBasePathLast(s, configs[0]);
      ConfigureAllKeeps(Configure(s, configs[0]).settings, configs[1..]);
    }
  }

  /** The bucket name and the base path play no part in `HasS3Settings`. */
  lemma CredentialsIgnoreBucket(s: S3Settings, bucketName: string, basePath: Option<string>)
    ensures HasCredentials(s.(bucketName := bucketName, basePath := basePath)) == HasCredentials(s)
  {
  }

  /** The worked example of the path rule. */
  lemma StoragePathExample()
    ensures StoragePath("Files/", "3-abc123.js") == "Files/3/abc123.js"
  {
    ExampleBaseTrimmed();
    ExampleNameRewritten();
  }

  lemma ExampleBaseTrimmed()
    ensures TrimEnd(TrimStart("Files/", {'/'}), {'/'}) == "Files"
  {
    assert TrimStart("Files/", {'/'}) == "Files/";
  }

  lemma ExampleNameRewritten()
    ensures ReplaceChar("3-abc123.js", '-', '/') == "3/abc123.js"
  {
  }

  /** A character that may appear in a bare file name. */
  predicate IsBareChar(c: char) {
    !IsPathSeparator(c) && !IsInvalidPathChar(c)
  }

  predicate IsBare(s: string) {
    forall i :: 0 <= i < |s| ==> IsBareChar(s[i])
  }

  lemma BareConcat(a: string, b: string)
    requires IsBare(a) && IsBare(b)
    ensures IsBare(a + b)
  {
    forall i | 0 <= i < |a + b|
      ensures IsBareChar((a + b)[i])
    {
      if i >= |a| { assert (a + b)[i] == b[i - |a|]; }
    }
  }

  /** Both extensions are bare names. */
  lemma ExtensionIsBare(t: DependencyType)
    ensures IsBare(Extension(t))
  {
    ExtensionValues();
  }

  /** A saved name holds no path separator and no character `Path.GetFileName`
      rejects, so it is its own file name. */
  lemma ArtifactNameIsBare(version: int, guid: string, ext: string)
    requires IsGuidN(guid) && IsBare(ext)
    ensures IsBare(ArtifactName(version, guid, ext))
    ensures GetFileName(ArtifactName(version, guid, ext)) == Success(ArtifactName(version, guid, ext))
    ensures FileNamePart(ArtifactName(version, guid, ext)) == ArtifactName(version, guid, ext)
  {
    var v := IntToString(version);
    assert IsBare(v);
    assert IsBare(guid);
    BareConcat(v, "-");
    BareConcat(v + "-", guid);
    BareConcat(v + "-" + guid, ".");
    BareConcat(v + "-" + guid + ".", ext);
    GetFileNameOfBareName(ArtifactName(version, guid, ext));
  }

  /** Distinct bare names are stored under distinct paths. */
  lemma StoragePathInjective(basePath: string, n1: string, n2: string)
    requires IsBare(n1) && IsBare(n2)
    requires StoragePath(basePath, n1) == StoragePath(basePath, n2)
    ensures n1 == n2
  {
    var b := TrimEnd(TrimStart(basePath, {'/'}), {'/'}) + "/";
    var r1, r2 := ReplaceChar(n1, '-', '/'), ReplaceChar(n2, '-', '/');
    assert r1 == (b + r1)[|b|..];
    assert r2 == (b + r2)[|b|..];
    assert '/' !in n1 && '/' !in n2 by {
      assert !IsBareChar('/');
    }
    ReplaceCharInjective(n1, n2, '-', '/');
  }

  /** Names that differ only in their GUID differ. */
  lemma ArtifactNamesDiffer(version: int, g1: string, g2: string, ext: string)
    requires |g1| == |g2| && g1 != g2
    ensures ArtifactName(version, g1, ext) != ArtifactName(version, g2, ext)
  {
    var p := IntToString(version) + "-";
    var i :| 0 <= i < |g1| && g1[i] != g2[i];
    assert ArtifactName(version, g1, ext)[|p| + i] == g1[i];
    assert ArtifactName(version, g2, ext)[|p| + i] == g2[i];
  }

  /** Two saves of the same version and type with different GUIDs never write to
      the same path. */
  lemma DistinctGuidsDistinctPaths(basePath: string, version: int, g1: string, g2: string, t: DependencyType)
    requires IsGuidN(g1) && IsGuidN(g2) && g1 != g2
    ensures StoragePath(basePath, ArtifactName(version, g1, Extension(t)))
         != StoragePath(basePath, ArtifactName(version, g2, Extension(t)))
  {
    var ext := Extension(t);
    ExtensionIsBare(t);
    ArtifactNamesDiffer(version, g1, g2, ext);
    ArtifactNameIsBare(version, g1, ext);
    ArtifactNameIsBare(version, g2, ext);
    var n1, n2 := ArtifactName(version, g1, ext), ArtifactName(version, g2, ext);
    if StoragePath(basePath, n1) == StoragePath(basePath, n2) {
      StoragePathInjective(basePath, n1, n2);
    }
  }

  /** Reading a saved name, or any path that ends in it, addresses the object the
      save uploaded and returns its bytes. */
  lemma SaveThenRead(s: S3Settings, objects: map<ObjectKey, Bytes>, contents: Bytes,
                     version: int, guid: string, t: DependencyType, directory: string)
    requires HasCredentials(s) && s.bucketName != "" && s.basePath.Some?
    requires IsGuidN(guid)
    requires directory == [] || IsPathSeparator(directory[|directory| - 1])
    requires forall i :: 0 <= i < |directory| ==> !IsInvalidPathChar(directory[i])
    ensures var name := ArtifactName(version, guid, Extension(t));
      ReadS3(s, objects[ObjectKey(s.bucketName, StoragePath(s.basePath.value, name)) := contents], directory + name, true)
        == Success(Some(contents))
  {
    var ext := Extension(t);
    var name := ArtifactName(version, guid, ext);
    ExtensionIsBare(t);
    ArtifactNameIsBare(version, guid, ext);
    FileNameOfJoin(directory, name);
    var key := ObjectKey(s.bucketName, StoragePath(s.basePath.value, name));
    ReadOfFileName(s, objects[key := contents], directory + name, name, true);
  }

  /** A read addresses the object under the storage path of the file's name. */
  lemma ReadOfFileName(s: S3Settings, objects: map<ObjectKey, Bytes>, file: string, name: string, serviceUp: bool)
    requires HasCredentials(s) && s.basePath.Some?
    requires GetFileName(file) == Success(name)
    ensures var key := ObjectKey(s.bucketName, StoragePath(s.basePath.value, name));
      ReadS3(s, objects, file, serviceUp)
        == if ServiceAccepts(s, serviceUp) && key in objects then Success(Some(objects[key]))
           else Failure(ReadFailed(key.path))
  {
  }

  /** A path made of a directory and a bare name has that name as its file name. */
  lemma FileNameOfJoin(directory: string, name: string)
    requires directory == [] || IsPathSeparator(directory[|directory| - 1])
    requires forall i :: 0 <= i < |directory| ==> !IsInvalidPathChar(directory[i])
    requires IsBare(name)
    ensures GetFileName(directory + name) == Success(name)
  {
    var file := directory + name;
    forall i | 0 <= i < |file|
      ensures !IsInvalidPathChar(file[i])
    {
      if i >= |directory| { assert file[i] == name[i - |directory|]; }
    }
    FileNamePartOfJoin(directory, name);
  }

  lemma {:induction false} FileNamePartOfJoin(directory: string, name: string)
    requires directory == [] || IsPathSeparator(directory[|directory| - 1])
    requires forall i :: 0 <= i < |name| ==> !IsPathSeparator(name[i])
    ensures FileNamePart(directory + name) == name
  {
    if name == [] {
      assert directory + name == directory;
    } else {
      var path := directory + name;
      var init := name[..|name| - 1];
      assert path[..|path| - 1] == directory + init;
      FileNamePartOfJoin(directory, init);
      assert name == init + [name[|name| - 1]];
    }
  }

  /** A wrapped read failure is about the storage path of the file's name, and
      its message ends with that path. */
  lemma ReadFailureNamesPath(s: S3Settings, objects: map<ObjectKey, Bytes>, file: string, serviceUp: bool)
    requires ReadS3(s, objects, file, serviceUp).Failure?
    requires ReadS3(s, objects, file, serviceUp).error.ReadFailed?
    ensures HasCredentials(s) && s.basePath.Some? && GetFileName(file).Success?
    ensures ReadS3(s, objects, file, serviceUp).error.path == StoragePath(s.basePath.value, GetFileName(file).value)
    ensures var e := ReadS3(s, objects, file, serviceUp).error; var m := WrappedMessage(e);
      |e.path| <= |m| && m[|m| - |e.path|..] == e.path
  {
  }

  /** Settings reached by configuration never hit the null base path on a read. */
  lemma ConsistentReadNeverNull(s: S3Settings, objects: map<ObjectKey, Bytes>, file: string, serviceUp: bool)
    requires Consistent(s)
    ensures ReadS3(s, objects, file, serviceUp) != Failure(NullReference)
  {
  }
}

/** The provider object: its static settings become the fields of one object,
    and the bucket an object of its own that saving updates. */
module S3Provider {
  import opened Wrappers
  import opened Text
  import opened S3Paths

  /** The bucket as the provider sees it: bytes by bucket and path. */
  class ObjectStore {
    var objects: map<ObjectKey, Bytes>

    constructor (objects: map<ObjectKey, Bytes>)
      ensures this.objects == objects
    {
      this.objects := objects;
    }
  }

  /** The provider; its static settings are the fields of one object. */
  class CompositeS3FileProcessor {
    var bucketName: string
    var bucketRegion: string
    var accessKey: string
    var secretKey: string
    var s3BasePath: Option<string>
    /** `PersistCompositeFiles`, set up by the base provider. */
    const persistCompositeFiles: bool

    function Settings(): S3Settings
      reads this
    {
      S3Settings(bucketName, bucketRegion, accessKey, secretKey, s3BasePath)
    }

    predicate HasS3Settings()
      reads this
    {
      HasCredentials(Settings())
    }

    constructor (persistCompositeFiles: bool)
      ensures Settings() == Unset && this.persistCompositeFiles == persistCompositeFiles
    {
      bucketName, bucketRegion, accessKey, secretKey := "", "", "", "";
      s3BasePath := None;
      this.persistCompositeFiles := persistCompositeFiles;
    }

    method Initialize(config: Option<Config>) returns (r: Result<(), ConfigError>)
      modifies this
      ensures Configured(Settings(), r) == Configure(old(Settings()), config)
      ensures old(Consistent(Settings())) ==> Consistent(Settings())
      ensures old(HasS3Settings()) && old(Consistent(Settings())) ==> HasS3Settings()
    {
      if Consistent(Settings()) { ConfigureKeepsConsistent(Settings(), config); }
      if config.None? {
        return Success(());
      }
      var c := config.value;
      if Present(c, BucketNameKey) { bucketName := c[BucketNameKey]; }
      else { return Failure(ArgumentNull(BucketNameKey)); }
      if Present(c, BucketRegionKey) { bucketRegion := c[BucketRegionKey]; }
      else { return Failure(ArgumentNull(BucketRegionKey)); }
      if Present(c, AccessKeyKey) { accessKey := c[AccessKeyKey]; }
      else { return Failure(ArgumentNull(AccessKeyKey)); }
      if Present(c, SecretKeyKey) { secretKey := c[SecretKeyKey]; }
      else { return Failure(ArgumentNull(SecretKeyKey)); }
      if Present(c, BasePathKey) { s3BasePath := Some(c[BasePathKey]); }
      else { s3BasePath := Some(DefaultBasePath); }
      r := Success(());
    }

    /** `SaveCompositeFile`: the GUID and the settings' version are inputs, and
        `serviceUp` is whether the S3 service answers. The result is the saved
        file's name, `None` when persistence is off. */
    method SaveCompositeFile(fileContents: Bytes, t: DependencyType, version: int, guid: string,
                             serviceUp: bool, store: ObjectStore)
      returns (r: Result<Option<string>, S3Error>)
      requires IsGuidN(guid)
      modifies store
      ensures !persistCompositeFiles ==> r == Success(None) && store.objects == old(store.objects)
      ensures persistCompositeFiles && s3BasePath.None? ==>
        r == Failure(NullReference) && store.objects == old(store.objects)
      ensures persistCompositeFiles && s3BasePath.Some? ==>
        var name := ArtifactName(version, guid, Extension(t));
        var key := ObjectKey(bucketName, StoragePath(s3BasePath.value, name));
        if ServiceAccepts(Settings(), serviceUp) then
          r == Success(Some(name)) && store.objects == old(store.objects)[key := fileContents]
        else
          r == Failure(WriteFailed(key.path)) && store.objects == old(store.objects)
    {
      if !persistCompositeFiles {
        return Success(None);
      }
      var ext := Extension(t);
      var fName := IntToString(version) + "-" + guid + "." + ext;
      var fi := FileNamePart(fName);
      ExtensionIsBare(t);
      ArtifactNameIsBare(version, guid, ext);
      if s3BasePath.None? {
        return Failure(NullReference);
      }
      var urlPath := TrimEnd(TrimStart(s3BasePath.value, {'/'}), {'/'}) + "/" + ReplaceChar(fi, '-', '/');
      if ServiceAccepts(Settings(), serviceUp) {
        store.objects := store.objects[ObjectKey(bucketName, urlPath) := fileContents];
      } else {
        return Failure(WriteFailed(urlPath));
      }
      r := Success(Some(fi));
    }

    /** `ReadS3File`: `serviceUp` is whether the S3 service answers. */
    method ReadS3File(file: string, serviceUp: bool, store: ObjectStore) returns (r: Result<Option<Bytes>, S3Error>)
      ensures r == ReadS3(Settings(), store.objects, file, serviceUp)
      ensures HasS3Settings() && Consistent(Settings()) ==> r != Failure(NullReference)
    {
      if !HasS3Settings() {
        return Success(None);
      }
      var fName := GetFileName(file);
      if fName.Failure? {
        return Failure(InvalidPath);
      }
      if s3BasePath.None? {
        return Failure(NullReference);
      }
      var url := TrimEnd(TrimStart(s3BasePath.value, {'/'}), {'/'}) + "/" + ReplaceChar(fName.value, '-', '/');
      var key := ObjectKey(bucketName, url);
      if ServiceAccepts(Settings(), serviceUp) && key in store.objects {
        r := Success(Some(store.objects[key]));
      } else {
        r := Failure(ReadFailed(url));
      }
    }
  }
}
