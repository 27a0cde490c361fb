/**
 * SecretsLoaderEnvironmentPostProcessor: at bootstrap, when the flag
 * `secrets.provider.enabled` is "true", every regular file under the directory
 * `secrets.directory.path` becomes a property (key: the file's base name with
 * every '-' replaced by '_'; value: the whole file content), and the resulting
 * map is installed as source "mountedSecretsProperties" at the front of the
 * environment's property-source chain.
 *
 * The filesystem is a value: each directory path maps to the entries of its
 * recursive walk, in walk order, the starting directory itself left out, and
 * to whether the path is a symbolic link to that directory.
 */
module SecretsLoader {
  import opened Wrappers
  import opened PropertySources

  const DirectoryProperty := "secrets.directory.path"
  const EnabledProperty := "secrets.provider.enabled"
  const SourceName := "mountedSecretsProperties"

  /** What Files.isRegularFile (which follows symbolic links) makes of an entry. */
  datatype EntryKind = RegularFile | Directory | Other

  /** What Files.readString yields for a file: its text, or an I/O or decoding failure. */
  datatype FileContent = Readable(text: string) | Unreadable

  /** One entry of the walk: the sub-directories leading to it from the
      secrets directory, its base name, its kind and its content. */
  datatype WalkEntry = WalkEntry(parents: seq<string>, name: string, kind: EntryKind, content: FileContent)

  /** A path that names a directory: whether the path itself is a symbolic
      link to the directory, and the recursive walk of the directory's
      contents in walk order, the directory itself left out. */
  datatype SecretsDirectory = SecretsDirectory(isLink: bool, entries: seq<WalkEntry>)

  /** Path to directory; a path absent from the map is not a directory
      (Files.isDirectory follows links, so a link to a directory is one). */
  type FileSystem = map<string, SecretsDirectory>

  datatype LoadError =
    | MissingEnabledFlag                              // String.concat(null) in the log line
    | MissingDirectoryPath                            // Paths.get(null)
    | NotADirectory(path: string)                     // "Secrets path is not a directory"
    | EmptyDirectory(path: string)                    // "Secrets directory is empty"
    | UnreadableSecret(parents: seq<string>, name: string) // "Failed to read secret from file"

  // ---------------------------------------------------------------------------
  // Boolean.parseBoolean

  function ToUpper(c: char): char
  {
    if 'a' <= c <= 'z' then (c as int - 32) as char else c
  }

  function ToLower(c: char): char
  {
    if 'A' <= c <= 'Z' then (c as int + 32) as char else c
  }

  /** Character comparison of String.equalsIgnoreCase. */
  predicate CharsEqualIgnoreCase(a: char, b: char)
  {
    a == b || ToUpper(a) == ToUpper(b) || ToLower(ToUpper(a)) == ToLower(ToUpper(b))
  }

  predicate EqualsIgnoreCase(a: string, b: string)
  {
    |a| == |b| && forall i :: 0 <= i < |a| ==> CharsEqualIgnoreCase(a[i], b[i])
  }

  function Lowercased(s: string): (r: string)
    ensures |r| == |s| && forall i :: 0 <= i < |s| ==> r[i] == ToLower(s[i])
  {
    seq(|s|, i requires 0 <= i < |s| => ToLower(s[i]))
  }

  /** Boolean.parseBoolean ("true".equalsIgnoreCase(s)): the flag enables the
      loader exactly when it is present and lower-cases to "true". */
  function ParseBoolean(s: Option<string>): (enabled: bool)
    ensures enabled <==> s.Some? && Lowercased(s.value) == "true"
  {
    s.Some? && EqualsIgnoreCase(s.value, "true")
  }

  lemma ParseBooleanExamples()
    ensures ParseBoolean(Some("true")) && ParseBoolean(Some("TRUE")) && ParseBoolean(Some("True"))
    ensures !ParseBoolean(None) && !ParseBoolean(Some("yes")) && !ParseBoolean(Some("1"))
    ensures !ParseBoolean(Some("true ")) && !ParseBoolean(Some(""))
  {
  }

  // ---------------------------------------------------------------------------
  // Key normalization: key.replace("-", "_")

  function NormalizeKey(key: string): (r: string)
    ensures |r| == |key|
    ensures forall i :: 0 <= i < |key| ==> r[i] == (if key[i] == '-' then '_' else key[i])
  {
    if key == [] then []
    else [if key[0] == '-' then '_' else key[0]] + NormalizeKey(key[1..])
  }

  /** A normalized key holds no '-'. */
  lemma NormalizedKeyHasNoHyphen(key: string)
    ensures '-' !in NormalizeKey(key)
  {
  }

  /** A key without '-' is left as it is. */
  lemma NormalizeKeyWithoutHyphen(key: string)
    requires '-' !in key
    ensures NormalizeKey(key) == key
  {
  }

  lemma NormalizeKeyIdempotent(key: string)
    ensures NormalizeKey(NormalizeKey(key)) == NormalizeKey(key)
  {
  }

  predicate IsSeparator(c: char)
  {
    c == '-' || c == '_'
  }

  /** Names that agree except where one holds '-' and the other '_'. */
  ghost predicate SameUpToSeparators(a: string, b: string)
  {
    |a| == |b| && forall i :: 0 <= i < |a| ==> a[i] == b[i] || (IsSeparator(a[i]) && IsSeparator(b[i]))
  }

  /** Two names collide once normalized exactly when they agree up to
      separators. */
  lemma NormalizedKeysCollideIff(a: string, b: string)
    ensures NormalizeKey(a) == NormalizeKey(b) <==> SameUpToSeparators(a, b)
  {
  }

  // ---------------------------------------------------------------------------
  // verifySecretsDirectory

  /** The number of entries directly in the directory (File.listFiles().length). */
  function TopLevelCount(walk: seq<WalkEntry>): (n: nat)
    ensures n <= |walk|
    ensures n > 0 <==> exists i :: 0 <= i < |walk| && walk[i].parents == []
  {
    if walk == [] then 0
    else
      assert forall i :: 1 <= i < |walk| ==> walk[i] == walk[1..][i - 1];
      (if walk[0].parents == [] then 1 else 0) + TopLevelCount(walk[1..])
  }

  /** The path must be a directory and must hold at least one entry of any kind. */
  function VerifySecretsDirectory(path: string, fs: FileSystem): (r: Outcome<LoadError>)
    ensures r == Pass <==> path in fs && exists i :: 0 <= i < |fs[path].entries| && fs[path].entries[i].parents == []
    ensures path !in fs ==> r == Fail(NotADirectory(path))
    ensures r.Fail? && path in fs ==> r == Fail(EmptyDirectory(path))
  {
    if path !in fs then Fail(NotADirectory(path))
    else if TopLevelCount(fs[path].entries) == 0 then Fail(EmptyDirectory(path))
    else Pass
  }

  /** What Files.walk yields below the start path.  Without FOLLOW_LINKS a
      start path that is a link is yielded alone and not descended into; being
      a directory, it is filtered out like the start directory always is. */
  function Walk(dir: SecretsDirectory): seq<WalkEntry>
  {
    if dir.isLink then [] else dir.entries
  }

  // ---------------------------------------------------------------------------
  // processSecretFile and the walk

  /** The (base name, content) pair of a file, or the failure to read it. */
  function ProcessSecretFile(file: WalkEntry): (r: Result<(string, string), LoadError>)
    ensures r.Ok? <==> file.content.Readable?
    ensures r.Ok? ==> r.value.0 == file.name && file.content == Readable(r.value.1)
    ensures r.Err? ==> r.error == UnreadableSecret(file.parents, file.name)
  {
    match file.content
    case Readable(text) => Ok((file.name, text))
    case Unreadable => Err(UnreadableSecret(file.parents, file.name))
  }

  /** The property key a file contributes. */
  function KeyOf(file: WalkEntry): string
  {
    NormalizeKey(file.name)
  }

  /** The map built by the walk's forEach: regular files only, in walk order,
      a later put overwriting an earlier one; the first unreadable file aborts. */
  function MountedProperties(walk: seq<WalkEntry>): (r: Result<map<string, string>, LoadError>)
    ensures r.Ok? ==> forall k :: k in r.value ==> '-' !in k
    ensures r.Err? ==> r.error.UnreadableSecret?
  {
    if walk == [] then Ok(map[])
    else
      var file := walk[|walk| - 1];
      match MountedProperties(walk[..|walk| - 1])
      case Err(e) => Err(e)
      case Ok(m) =>
        if file.kind != RegularFile then Ok(m)
        else
          match ProcessSecretFile(file)
          case Err(e) => Err(e)
          case Ok(secret) =>
            NormalizedKeyHasNoHyphen(secret.0);
            Ok(m[NormalizeKey(secret.0) := secret.1])
  }

  /** The keys of the map are exactly the normalized names of the regular files. */
  lemma {:induction false} MountedPropertiesKeys(walk: seq<WalkEntry>, m: map<string, string>)
    requires MountedProperties(walk) == Ok(m)
    ensures forall k :: k in m <==> exists i :: 0 <= i < |walk| && walk[i].kind == RegularFile && KeyOf(walk[i]) == k
  {
    if walk != [] {
      var init := walk[..|walk| - 1];
      var file := walk[|walk| - 1];
      var m' := MountedProperties(init).value;
      MountedPropertiesKeys(init, m');
      assert forall i :: 0 <= i < |init| ==> init[i] == walk[i];
    }
  }

  /** Last write wins: a regular file that no later regular file collides with
      supplies the value of its key, unchanged. */
  lemma {:induction false} MountedPropertiesLastWins(walk: seq<WalkEntry>, m: map<string, string>, i: nat)
    requires MountedProperties(walk) == Ok(m)
    requires i < |walk| && walk[i].kind == RegularFile
    requires forall j :: i < j < |walk| && walk[j].kind == RegularFile ==> KeyOf(walk[j]) != KeyOf(walk[i])
    ensures KeyOf(walk[i]) in m && walk[i].content == Readable(m[KeyOf(walk[i])])
  {
    var init := walk[..|walk| - 1];
    var file := walk[|walk| - 1];
    var m' := MountedProperties(init).value;
    if i < |walk| - 1 {
      assert forall j :: 0 <= j < |init| ==> init[j] == walk[j];
      MountedPropertiesLastWins(init, m', i);
    }
  }

  /** Every key of the map holds the content of the last regular file, in walk
      order, whose name normalizes to it. */
  lemma {:induction false} MountedPropertiesValues(walk: seq<WalkEntry>, m: map<string, string>, k: string)
    requires MountedProperties(walk) == Ok(m)
    requires k in m
    ensures exists i :: 0 <= i < |walk| && walk[i].kind == RegularFile && KeyOf(walk[i]) == k
                        && walk[i].content == Readable(m[k])
                        && forall j :: i < j < |walk| && walk[j].kind == RegularFile ==> KeyOf(walk[j]) != k
  {
    var last := |walk| - 1;
    var init := walk[..last];
    var m' := MountedProperties(init).value;
    if walk[last].kind == RegularFile && KeyOf(walk[last]) == k {
      assert walk[last].content == Readable(m[k]);
    } else {
      assert forall j :: 0 <= j < |init| ==> init[j] == walk[j];
      MountedPropertiesValues(init, m', k);
      var i :| 0 <= i < |init| && init[i].kind == RegularFile && KeyOf(init[i]) == k
               && init[i].content == Readable(m'[k])
               && forall j :: i < j < |init| && init[j].kind == RegularFile ==> KeyOf(init[j]) != k;
      assert walk[i] == init[i];
    }
  }

  /** No partial secret sets: building the map fails exactly when some regular
      file is unreadable, and the error names the first such file. */
  lemma {:induction false} MountedPropertiesFailure(walk: seq<WalkEntry>)
    ensures MountedProperties(walk).Err? <==>
            exists i :: 0 <= i < |walk| && walk[i].kind == RegularFile && walk[i].content == Unreadable
    ensures MountedProperties(walk).Err? ==>
            exists i :: 0 <= i < |walk| && walk[i].kind == RegularFile && walk[i].content == Unreadable
                        && MountedProperties(walk).error == UnreadableSecret(walk[i].parents, walk[i].name)
                        && forall j :: 0 <= j < i && walk[j].kind == RegularFile ==> walk[j].content != Unreadable
  {
    if walk != [] {
      var init := walk[..|walk| - 1];
      MountedPropertiesFailure(init);
      assert forall j :: 0 <= j < |init| ==> init[j] == walk[j];
    }
  }

  /** A walk with no regular file yields the empty map. */
  lemma {:induction false} NoRegularFilesNoSecrets(walk: seq<WalkEntry>)
    requires forall i :: 0 <= i < |walk| ==> walk[i].kind != RegularFile
    ensures MountedProperties(walk) == Ok(map[])
  {
    if walk != [] {
      NoRegularFilesNoSecrets(walk[..|walk| - 1]);
    }
  }

  /** Once a prefix of the walk fails, the whole walk fails with the same error. */
  lemma {:induction false} FailureIsFinal(walk: seq<WalkEntry>, n: nat)
    requires n <= |walk| && MountedProperties(walk[..n]).Err?
    ensures MountedProperties(walk) == MountedProperties(walk[..n])
  {
    if n < |walk| {
      assert walk[..|walk| - 1][..n] == walk[..n];
      FailureIsFinal(walk[..|walk| - 1], n);
    } else {
      assert walk[..n] == walk;
    }
  }

  // ---------------------------------------------------------------------------
  // postProcessEnvironment

  /** The enabled branch of postProcessEnvironment: read the directory path,
      check the directory, build the map from the walk and add it first. */
  function Install(chain: seq<PropertySource>, fs: FileSystem): (r: Result<seq<PropertySource>, LoadError>)
    ensures Lookup(chain, DirectoryProperty) == None ==> r == Err(MissingDirectoryPath)
    ensures r.Ok? <==> Lookup(chain, DirectoryProperty).Some?
                       && VerifySecretsDirectory(Lookup(chain, DirectoryProperty).value, fs) == Pass
                       && MountedProperties(Walk(fs[Lookup(chain, DirectoryProperty).value])).Ok?
    ensures r.Ok? ==> |r.value| >= 1 && r.value[1..] == RemoveNamed(chain, SourceName)
                      && r.value[0] == PropertySource(SourceName, MountedProperties(Walk(fs[Lookup(chain, DirectoryProperty).value])).value)
  {
    match Lookup(chain, DirectoryProperty)
    case None => Err(MissingDirectoryPath)
    case Some(path) =>
      match VerifySecretsDirectory(path, fs)
      case Fail(e) => Err(e)
      case Pass =>
        match MountedProperties(Walk(fs[path]))
        case Err(e) => Err(e)
        case Ok(m) => Ok(Prepended(chain, PropertySource(SourceName, m)))
  }

  /** The chain postProcessEnvironment leaves behind, or the error it raises.
      The log line built before the flag is tested concatenates the flag's
      value, so an absent flag fails; the loader's own errors arise only when
      enabled, and the only change it ever makes is the secrets source put in
      front. */
  function PostProcess(chain: seq<PropertySource>, fs: FileSystem): (r: Result<seq<PropertySource>, LoadError>)
    ensures r == Err(MissingEnabledFlag) <==> Lookup(chain, EnabledProperty) == None
    ensures r.Err? && r.error != MissingEnabledFlag ==> ParseBoolean(Lookup(chain, EnabledProperty))
    ensures r.Ok? ==> r.value == chain || (|r.value| >= 1 && r.value[0].name == SourceName && r.value[1..] == RemoveNamed(chain, SourceName))
  {
    match Lookup(chain, EnabledProperty)
    case None => Err(MissingEnabledFlag)
    case Some(flag) => if ParseBoolean(Some(flag)) then Install(chain, fs) else Ok(chain)
  }

  /** The loader as its flag handling evidently intends: an absent flag, which
      Boolean.parseBoolean reads as false, disables it like any other value. */
  function PostProcessIntended(chain: seq<PropertySource>, fs: FileSystem): (r: Result<seq<PropertySource>, LoadError>)
    ensures r.Err? ==> ParseBoolean(Lookup(chain, EnabledProperty))
    ensures r.Ok? ==> r.value == chain || (|r.value| >= 1 && r.value[0].name == SourceName && r.value[1..] == RemoveNamed(chain, SourceName))
  {
    if ParseBoolean(Lookup(chain, EnabledProperty)) then Install(chain, fs) else Ok(chain)
  }

  /** Enabled, with a valid directory, the loader succeeds exactly when the
      walk's map can be built, and then the source it puts first holds exactly
      that map; the code as written and the intended loader agree here. */
  lemma LoadedSourceIsTheWalksMap(chain: seq<PropertySource>, fs: FileSystem, path: string)
    requires ParseBoolean(Lookup(chain, EnabledProperty))
    requires Lookup(chain, DirectoryProperty) == Some(path) && VerifySecretsDirectory(path, fs) == Pass
    ensures PostProcess(chain, fs) == PostProcessIntended(chain, fs)
    ensures PostProcess(chain, fs).Ok? <==> MountedProperties(Walk(fs[path])).Ok?
    ensures PostProcess(chain, fs).Ok? ==>
            PostProcess(chain, fs).value == Prepended(chain, PropertySource(SourceName, MountedProperties(Walk(fs[path])).value))
  {
  }

  /** A walk whose regular files are all readable builds its map, and a
      regular file no later regular file collides with supplies its key. */
  lemma ReadableWalkLoads(walk: seq<WalkEntry>, i: nat)
    requires forall j :: 0 <= j < |walk| && walk[j].kind == RegularFile ==> walk[j].content.Readable?
    requires i < |walk| && walk[i].kind == RegularFile
    requires forall j :: i < j < |walk| && walk[j].kind == RegularFile ==> KeyOf(walk[j]) != KeyOf(walk[i])
    ensures MountedProperties(walk).Ok? && KeyOf(walk[i]) in MountedProperties(walk).value
    ensures walk[i].content == Readable(MountedProperties(walk).value[KeyOf(walk[i])])
  {
    MountedPropertiesFailure(walk);
    MountedPropertiesLastWins(walk, MountedProperties(walk).value, i);
  }

  /** Enabled, with a valid directory that is not a link and whose regular files
      are all readable, the load succeeds; every regular file that no later
      regular file collides with is then visible through the new chain under its
      normalized name, with its exact content, ahead of every other source. */
  lemma LoadedSecretResolves(chain: seq<PropertySource>, fs: FileSystem, path: string, i: nat)
    requires ParseBoolean(Lookup(chain, EnabledProperty))
    requires Lookup(chain, DirectoryProperty) == Some(path) && VerifySecretsDirectory(path, fs) == Pass
    requires !fs[path].isLink
    requires forall j :: 0 <= j < |fs[path].entries| && fs[path].entries[j].kind == RegularFile ==>
                         fs[path].entries[j].content.Readable?
    requires i < |fs[path].entries| && fs[path].entries[i].kind == RegularFile
    requires forall j :: i < j < |fs[path].entries| && fs[path].entries[j].kind == RegularFile ==>
                         KeyOf(fs[path].entries[j]) != KeyOf(fs[path].entries[i])
    ensures PostProcess(chain, fs).Ok?
    ensures Lookup(PostProcess(chain, fs).value, KeyOf(fs[path].entries[i])) == Some(fs[path].entries[i].content.text)
  {
    var walk := fs[path].entries;
    assert Walk(fs[path]) == walk;
    ReadableWalkLoads(walk, i);
    var m := MountedProperties(walk).value;
    LoadedSourceIsTheWalksMap(chain, fs, path);
    PrependedSourceResolves(chain, PropertySource(SourceName, m), KeyOf(walk[i]));
  }

  /** As written, an absent flag aborts the bootstrap, where the intended
      loader would leave the chain as it is. */
  lemma AbsentFlagAborts(chain: seq<PropertySource>, fs: FileSystem)
    requires Lookup(chain, EnabledProperty) == None
    ensures PostProcess(chain, fs) == Err(MissingEnabledFlag)
    ensures PostProcessIntended(chain, fs) == Ok(chain)
  {
  }

  /** Intended: disabled (absent flag included), the loader changes nothing,
      whatever the filesystem holds. */
  lemma IntendedDisabledLoaderIsNoOp(chain: seq<PropertySource>, fs: FileSystem)
    requires !ParseBoolean(Lookup(chain, EnabledProperty))
    ensures PostProcessIntended(chain, fs) == Ok(chain)
  {
  }

  /** With the flag present, the code as written and the intended loader agree,
      so every property below holds of both. */
  lemma IntendedAgreesWhenFlagPresent(chain: seq<PropertySource>, fs: FileSystem)
    requires Lookup(chain, EnabledProperty).Some?
    ensures PostProcess(chain, fs) == PostProcessIntended(chain, fs)
  {
  }

  /** Disabled by a present flag that is not "true", the loader changes
      nothing, whatever the filesystem holds. */
  lemma DisabledLoaderIsNoOp(chain: seq<PropertySource>, fs: FileSystem)
    requires Lookup(chain, EnabledProperty).Some? && !ParseBoolean(Lookup(chain, EnabledProperty))
    ensures PostProcess(chain, fs) == Ok(chain)
  {
  }

  /** Enabled, a bad directory is reported before any file is read: the
      outcome is the validation error whatever the files hold. */
  lemma ValidationPrecedesReading(chain: seq<PropertySource>, fs: FileSystem, path: string)
    requires ParseBoolean(Lookup(chain, EnabledProperty))
    requires Lookup(chain, DirectoryProperty) == Some(path)
    requires path !in fs || forall i :: 0 <= i < |fs[path].entries| ==> fs[path].entries[i].parents != []
    ensures PostProcess(chain, fs) == Err(if path !in fs then NotADirectory(path) else EmptyDirectory(path))
  {
  }

  /** A directory whose entries are all sub-directories passes validation and
      installs an empty secrets source. */
  lemma OnlySubdirectoriesYieldEmptySource(chain: seq<PropertySource>, fs: FileSystem, path: string)
    requires ParseBoolean(Lookup(chain, EnabledProperty))
    requires Lookup(chain, DirectoryProperty) == Some(path)
    requires path in fs && |fs[path].entries| > 0 && fs[path].entries[0].parents == []
    requires forall i :: 0 <= i < |fs[path].entries| ==> fs[path].entries[i].kind == Directory
    ensures PostProcess(chain, fs) == Ok(Prepended(chain, PropertySource(SourceName, map[])))
  {
    NoRegularFilesNoSecrets(Walk(fs[path]));
  }

  /** A secrets path that is a link to a non-empty directory passes validation,
      which follows the link, but the walk does not follow it: an empty secrets
      source is installed. */
  lemma SymlinkedDirectoryYieldsEmptySource(chain: seq<PropertySource>, fs: FileSystem, path: string)
    requires ParseBoolean(Lookup(chain, EnabledProperty))
    requires Lookup(chain, DirectoryProperty) == Some(path)
    requires path in fs && fs[path].isLink
    requires |fs[path].entries| > 0 && fs[path].entries[0].parents == []
    ensures PostProcess(chain, fs) == Ok(Prepended(chain, PropertySource(SourceName, map[])))
  {
  }

  /** An unreadable regular file in the walk fails the whole load: no source is added. */
  lemma UnreadableFileAddsNoSource(chain: seq<PropertySource>, fs: FileSystem, path: string, i: nat)
    requires ParseBoolean(Lookup(chain, EnabledProperty))
    requires Lookup(chain, DirectoryProperty) == Some(path)
    requires path in fs && !fs[path].isLink && i < |fs[path].entries|
    requires fs[path].entries[i].kind == RegularFile && fs[path].entries[i].content == Unreadable
    ensures PostProcess(chain, fs).Err?
  {
    MountedPropertiesFailure(fs[path].entries);
  }

  /** After a successful enabled load, the secrets source comes first, the old
      chain follows in its order, a key with a secret resolves to the secret and
      every other key resolves as before. */
  lemma {:induction false} InstalledSecretsTakePrecedence(chain: seq<PropertySource>, fs: FileSystem, result: seq<PropertySource>, key: string)
    requires ParseBoolean(Lookup(chain, EnabledProperty))
    requires forall s :: s in chain ==> s.name != SourceName
    requires PostProcess(chain, fs) == Ok(result)
    ensures |result| == |chain| + 1 && result[0].name == SourceName && result[1..] == chain
    ensures Lookup(result, key) == if key in result[0].properties then Some(result[0].properties[key])
                                   else Lookup(chain, key)
  {
    PrependedTakesPrecedence(chain, result[0], key);
  }

  /** postProcessEnvironment: the loader, changing the environment's chain in
      place exactly as PostProcess specifies, or leaving it untouched when it
      fails. */
  method PostProcessEnvironment(environment: Environment, fs: FileSystem) returns (outcome: Outcome<LoadError>)
    requires environment.Valid()
    modifies environment
    ensures environment.Valid()
    ensures PostProcess(old(environment.propertySources), fs).Ok? ==>
              outcome == Pass && environment.propertySources == PostProcess(old(environment.propertySources), fs).value
    ensures PostProcess(old(environment.propertySources), fs).Err? ==>
              outcome == Fail(PostProcess(old(environment.propertySources), fs).error)
              && environment.propertySources == old(environment.propertySources)
  {
    ghost var chain := environment.propertySources;
    var secretsProviderProperty := environment.GetProperty(EnabledProperty);
    var enabled := ParseBoolean(secretsProviderProperty);
    if secretsProviderProperty.None? {
      // the log message appends the flag's value with String.concat, which rejects null
      return Fail(MissingEnabledFlag);
    }
    if !enabled {
      return Pass;
    }
    assert PostProcess(chain, fs) == Install(chain, fs);
    var secretsDir := environment.GetProperty(DirectoryProperty);
    if secretsDir.None? {
      return Fail(MissingDirectoryPath);
    }
    var path := secretsDir.value;
    var verified := VerifySecretsDirectory(path, fs);
    if verified.Fail? {
      return verified;
    }
    var walk := Walk(fs[path]);
    var mounted := ReadMountedProperties(walk);
    if mounted.Err? {
      return Fail(mounted.error);
    }
    AddPropertiesToEnvironment(environment, mounted.value);
    outcome := Pass;
  }

  /** The walk's filter and forEach: a loop that puts each regular file's
      normalized name and content into the map, stopping at the first file
      that cannot be read. */
  method ReadMountedProperties(walk: seq<WalkEntry>) returns (r: Result<map<string, string>, LoadError>)
    ensures r == MountedProperties(walk)
  {
    var mounted: map<string, string> := map[];
    var i := 0;
    while i < |walk|
      invariant 0 <= i <= |walk|
      invariant MountedProperties(walk[..i]) == Ok(mounted)
    {
      assert walk[..i + 1][..i] == walk[..i];
      var file := walk[i];
      if file.kind == RegularFile {
        var secret := ProcessSecretFile(file);
        if secret.Err? {
          FailureIsFinal(walk, i + 1);
          return Err(secret.error);
        }
        mounted := mounted[NormalizeKey(secret.value.0) := secret.value.1];
      }
      i := i + 1;
    }
    assert walk[..i] == walk;
    r := Ok(mounted);
  }

  /** addPropertiesToEnvironment: install the map as the first source. */
  method AddPropertiesToEnvironment(environment: Environment, mounted: map<string, string>)
    requires environment.Valid()
    modifies environment
    ensures environment.Valid()
    ensures environment.propertySources == Prepended(old(environment.propertySources), PropertySource(SourceName, mounted))
  {
    environment.AddFirst(PropertySource(SourceName, mounted));
  }
}
