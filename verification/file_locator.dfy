/**
 * The resource file locator of the Maven plugin: turns a configured path into a
 * local file, either the path itself when it names an existing regular file or a
 * copy that the resource manager materialises under a name derived from the path.
 */
module Locator {
  import opened Wrappers
  import Base64

  datatype File = File(path: string)

  /** A SHA-256 digest: always 32 bytes. */
  type Digest = d: seq<Base64.byte> | |d| == 32 witness seq(32, i => 0)

  /**
   * The two library functions the name derivation calls, whose internals are not
   * modelled: SHA-256 of the UTF-8 bytes of a string (MessageDigest), and the
   * extension of a path (FileUtils.extension), possibly empty.
   */
  datatype Libraries = Libraries(sha256: string -> Digest, extension: string -> string)

  /** What the resource manager does when asked to copy a resource to a named output file. */
  datatype Resolution =
    | Resolved(file: File)
    | ResourceNotFound            // ResourceNotFoundException
    | FileResourceCreationFailed  // FileResourceCreationException

  type ResourceManager = (string, string) -> Resolution

  /** The two RuntimeExceptions locateFile throws, by what they carry. */
  datatype LocateError =
    | UnableToLocateFile(path: string)
    | UnableToCreateTemporaryFile(outputFile: string)

  /** The calls locateFile makes to the world outside the model, in order. */
  datatype Effect =
    | CheckedLocalFile(path: string)
    | CalledResourceManager(path: string, outputFile: string)

  datatype Located = Located(result: Result<Option<File>, LocateError>, effects: seq<Effect>)

  const TmpResourceFilePrefix: string := "spotless-resource-"

  predicate IsNullOrEmpty(path: Option<string>)
  {
    path.None? || path.value == ""
  }

  /** The output file name for a resource that is not a local file: a fixed prefix,
      the Base64 of the path's digest, a dot, and the path's extension. */
  function TmpOutputFileName(libs: Libraries, path: string): (name: string)
    ensures |name| == |TmpResourceFilePrefix| + 44 + 1 + |libs.extension(path)|
    ensures name[..18] == TmpResourceFilePrefix
    ensures name[18..62] == Base64.Encode(libs.sha256(path))
    ensures name[62] == '.'
    ensures name[63..] == libs.extension(path)
  {
    TmpResourceFilePrefix + Base64.Encode(libs.sha256(path)) + "." + libs.extension(path)
  }

  /** The layout of every output file name: the prefix (18 characters), 43 alphabet
      characters and one `=` (the digest's encoding), the dot, then the extension. */
  lemma TmpOutputFileNameShape(libs: Libraries, path: string)
    ensures var name := TmpOutputFileName(libs, path);
      && |name| == 18 + 44 + 1 + |libs.extension(path)|
      && name[..18] == TmpResourceFilePrefix
      && name[18..62] == Base64.Encode(libs.sha256(path))
      && (forall i :: 18 <= i < 61 ==> Base64.IsAlphabetChar(name[i]))
      && name[61] == '='
      && name[62] == '.'
      && name[63..] == libs.extension(path)
  {
    var encoded := Base64.Encode(libs.sha256(path));
    Base64.EncodeDigestShape(libs.sha256(path));
    var name := TmpOutputFileName(libs, path);
    assert forall i :: 18 <= i < 62 ==> name[i] == encoded[i - 18];
  }

  /** Paths whose digests differ get different output file names. */
  lemma TmpOutputFileNameInjective(libs: Libraries, p: string, q: string)
    requires libs.sha256(p) != libs.sha256(q)
    ensures TmpOutputFileName(libs, p) != TmpOutputFileName(libs, q)
  {
    TmpOutputFileNameShape(libs, p);
    TmpOutputFileNameShape(libs, q);
    Base64.EncodeInjective(libs.sha256(p), libs.sha256(q));
  }

  /**
   * The locator, with the fields the Java constructor sets once: the resource
   * manager, the base and build directories it is given, and the data directory
   * it derives from the plugin's own install location (an input here).
   */
  datatype FileLocator = FileLocator(resourceManager: ResourceManager, baseDir: File, buildDir: File, dataDir: File)
  {
    /** The base directory the locator was constructed with. */
    function GetBaseDir(): (d: File)
      ensures d == baseDir
    {
      baseDir
    }

    /** The build directory the locator was constructed with. */
    function GetBuildDir(): (d: File)
      ensures d == buildDir
    {
      buildDir
    }

    /** The data directory the locator derived when it was constructed. */
    function GetDataDir(): (d: File)
      ensures d == dataDir
    {
      dataDir
    }

    /**
     * locateFile. `isRegularFile` says whether a path names an existing regular
     * file on the local file system.
     */
    function LocateFile(path: Option<string>, isRegularFile: string -> bool, libs: Libraries): (r: Located)
      ensures r.result == Ok(None) <==> IsNullOrEmpty(path)
      ensures IsNullOrEmpty(path) ==> r.effects == []
      ensures !IsNullOrEmpty(path) && isRegularFile(path.value) ==>
        r == Located(Ok(Some(File(path.value))), [CheckedLocalFile(path.value)])
      ensures !IsNullOrEmpty(path) && !isRegularFile(path.value) ==>
        var p, name := path.value, TmpOutputFileName(libs, path.value);
        && r.effects == [CheckedLocalFile(p), CalledResourceManager(p, name)]
        && (resourceManager(p, name).Resolved? ==> r.result == Ok(Some(resourceManager(p, name).file)))
        && (resourceManager(p, name).ResourceNotFound? ==> r.result == Err(UnableToLocateFile(p)))
        && (resourceManager(p, name).FileResourceCreationFailed? ==> r.result == Err(UnableToCreateTemporaryFile(name)))
    {
      if IsNullOrEmpty(path) then
        Located(Ok(None), [])
      else if isRegularFile(path.value) then
        Located(Ok(Some(File(path.value))), [CheckedLocalFile(path.value)])
      else
        var outputFile := TmpOutputFileName(libs, path.value);
        var effects := [CheckedLocalFile(path.value), CalledResourceManager(path.value, outputFile)];
        match resourceManager(path.value, outputFile)
        case Resolved(file) => Located(Ok(Some(file)), effects)
        case ResourceNotFound => Located(Err(UnableToLocateFile(path.value)), effects)
        case FileResourceCreationFailed => Located(Err(UnableToCreateTemporaryFile(outputFile)), effects)
    }
  }

  /** The resource manager calls made while locating a file. */
  function ResourceManagerCalls(effects: seq<Effect>): (calls: seq<Effect>)
    ensures forall e :: e in calls ==> e in effects && e.CalledResourceManager?
    ensures forall e :: e in effects && e.CalledResourceManager? ==> e in calls
    ensures |calls| <= |effects|
  {
    if effects == [] then []
    else (if effects[0].CalledResourceManager? then [effects[0]] else []) + ResourceManagerCalls(effects[1..])
  }

  /** The resource manager is consulted at most once, and exactly when the path is
      given and is not a local regular file; it is asked for the derived name. */
  lemma {:induction false} ResourceManagerCalledOnlyForNonLocalPaths(
      locator: FileLocator, path: Option<string>, isRegularFile: string -> bool, libs: Libraries)
    ensures var calls := ResourceManagerCalls(locator.LocateFile(path, isRegularFile, libs).effects);
      && |calls| <= 1
      && (|calls| == 1 <==> !IsNullOrEmpty(path) && !isRegularFile(path.value))
      && (|calls| == 1 ==> calls[0] == CalledResourceManager(path.value, TmpOutputFileName(libs, path.value)))
  {
    var effects := locator.LocateFile(path, isRegularFile, libs).effects;
    if !IsNullOrEmpty(path) {
      assert ResourceManagerCalls([CheckedLocalFile(path.value)]) == [];
      if !isRegularFile(path.value) {
        var call := CalledResourceManager(path.value, TmpOutputFileName(libs, path.value));
        assert effects[1..] == [call];
        assert ResourceManagerCalls([call]) == [call];
      }
    }
  }

  /** A returned file is either the local file the path names, or the resource manager's
      copy under the derived name. */
  lemma LocatedFileOrigin(locator: FileLocator, path: Option<string>, isRegularFile: string -> bool, libs: Libraries, file: File)
    requires locator.LocateFile(path, isRegularFile, libs).result == Ok(Some(file))
    ensures path.Some? && path.value != ""
    ensures (isRegularFile(path.value) && file == File(path.value))
         || (!isRegularFile(path.value)
             && locator.resourceManager(path.value, TmpOutputFileName(libs, path.value)) == Resolved(file))
  {
  }

  /** The two failures are told apart: the not-found error names the path, the
      creation error names the derived output file. */
  lemma LocateErrorsAreDistinct(locator: FileLocator, path: Option<string>, isRegularFile: string -> bool, libs: Libraries)
    requires locator.LocateFile(path, isRegularFile, libs).result.Err?
    ensures path.Some? && !isRegularFile(path.value)
    ensures var err := locator.LocateFile(path, isRegularFile, libs).result.error;
      var outcome := locator.resourceManager(path.value, TmpOutputFileName(libs, path.value));
      && (err.UnableToLocateFile? <==> outcome.ResourceNotFound?)
      && (err.UnableToCreateTemporaryFile? <==> outcome.FileResourceCreationFailed?)
      && (err.UnableToLocateFile? ==> err.path == path.value)
      && (err.UnableToCreateTemporaryFile? ==>
            err.outputFile == TmpOutputFileName(libs, path.value) && err.outputFile[..18] == TmpResourceFilePrefix)
  {
    TmpOutputFileNameShape(libs, path.value);
  }
}
