# Mounted secrets loader and global exception handler

A Dafny model of two parts of the bestcafe shop service.

**SecretsLoaderEnvironmentPostProcessor** runs once at bootstrap. It reads the flag
`secrets.provider.enabled` from the environment and logs its value. It parses the flag with
`Boolean.parseBoolean`. When the flag is set, it reads `secrets.directory.path` and checks that
the path is a directory with at least one entry. It then walks the directory recursively. Every
regular file becomes a property: the key is the file's base name with every `-` replaced by `_`,
and the value is the whole content. Later files overwrite earlier ones with the same key. The map is
installed with `addFirst` as source `mountedSecretsProperties`, which puts it ahead of every other
property source. Any failure aborts the bootstrap.

**GlobalExceptionHandler** maps a failure that escapes a controller to a status and a reason:
JSON or XML parse failures give 400 "Bad Request", a missing resource gives 404
"Resource not found", and anything else gives 500 "Internal Server Error". It builds an
`ErrorResponse(timestamp, status, error, message, path)` around that pair.

Files:

- `wrappers.dfy`: `Option`, `Result` and `Outcome`.
- `property_sources.dfy`: the property-source chain. Values are sequences of named maps with
  first-match `Lookup`. The mutable environment is the class `Environment`, with `GetProperty` and
  `AddFirst` (which stands for `getPropertySources().addFirst`).
- `secrets_loader.dfy`: the loader.
  - The filesystem is a value of type `map<string, SecretsDirectory>`. For each directory path it
    records whether the path is a symbolic link to the directory, and the entries of the directory's
    recursive walk in walk order.
  - Each entry records its parent directories, its base name, its kind (as `Files.isRegularFile`
    sees it) and its content or read failure.
  - Walk order is an input, not a choice the model makes.
  - `PostProcess` is the pure specification of the loader. `PostProcessEnvironment` is the
    imperative loader, and `ReadMountedProperties` is its loop that fills the map. Both are proved to
    agree with the specification.
- `exception_handler.dfy`: the three handlers, the record construction and Spring's choice of
  handler as a case split.

The model follows the code in the places where a reader might expect something else:

- Two files whose names normalize to the same key do not give two entries. The last one in walk
  order wins.
- The directory check is `Files.isDirectory`, so an existing regular file at the path fails too.
- A directory that holds only empty sub-directories passes the emptiness check, because
  `listFiles` counts sub-directories. It installs an empty source.
- A secrets path that is a symbolic link to a directory passes the checks, which follow the link.
  The walk does not follow it, so an empty source is installed.
- An absent flag aborts the bootstrap (see Findings).

## Model

| member | source | states |
|---|---|---|
| PropertySources.Lookup | src/main/java/com/bestcafe/shop/config/SecretsLoaderEnvironmentPostProcessor.java:38-43 | a lookup finds nothing exactly when no source defines the key, and whatever it finds is a value some source holds for the key |
| PropertySources.LookupFirstMatch | src/main/java/com/bestcafe/shop/config/SecretsLoaderEnvironmentPostProcessor.java:38-43 | `getProperty` returns the value of the first source in the chain that defines the key |
| PropertySources.Environment.GetProperty | src/main/java/com/bestcafe/shop/config/SecretsLoaderEnvironmentPostProcessor.java:38-43 | the environment's property is absent exactly when no source defines it, and otherwise is the first defining source's value |
| PropertySources.RemoveNamed | src/main/java/com/bestcafe/shop/config/SecretsLoaderEnvironmentPostProcessor.java:70 | removing a name leaves no source of that name, keeps every source of another name, adds nothing, and leaves a chain without that name unchanged |
| PropertySources.RemoveNamedDropsOnlyThatSource | src/main/java/com/bestcafe/shop/config/SecretsLoaderEnvironmentPostProcessor.java:70 | when only the source at position p bears the name, exactly that source is removed and the others keep their order |
| PropertySources.Prepended | src/main/java/com/bestcafe/shop/config/SecretsLoaderEnvironmentPostProcessor.java:70 | after `addFirst` the new source is first, followed by exactly the old sources of other names |
| PropertySources.PrependedKeepsNamesDistinct | src/main/java/com/bestcafe/shop/config/SecretsLoaderEnvironmentPostProcessor.java:70 | `addFirst` keeps source names unique and puts the new source first |
| PropertySources.PrependedTakesPrecedence | src/main/java/com/bestcafe/shop/config/SecretsLoaderEnvironmentPostProcessor.java:68-70 | after `addFirst` into a chain without that name, the old chain follows the new source in its old order; keys of the new source resolve to its values and other keys resolve as before |
| PropertySources.PrependedSourceResolves | src/main/java/com/bestcafe/shop/config/SecretsLoaderEnvironmentPostProcessor.java:70 | after `addFirst`, a key the new source defines resolves to the new source's value, whatever the chain held before |
| PropertySources.PrependedReplacesSameName | src/main/java/com/bestcafe/shop/config/SecretsLoaderEnvironmentPostProcessor.java:68-70 | `addFirst` of a name already in the chain replaces that source; other keys resolve along the old chain without it |
| PropertySources.Environment.AddFirst | src/main/java/com/bestcafe/shop/config/SecretsLoaderEnvironmentPostProcessor.java:69-70 | the environment's new chain is the old chain with the new source prepended, and names stay unique |
| SecretsLoader.ParseBoolean | src/main/java/com/bestcafe/shop/config/SecretsLoaderEnvironmentPostProcessor.java:38-42 | the loader is enabled exactly when the flag is present and lower-cases to "true" |
| SecretsLoader.ParseBooleanExamples | src/main/java/com/bestcafe/shop/config/SecretsLoaderEnvironmentPostProcessor.java:39 | "true", "TRUE" and "True" enable; absent, "yes", "1", "true " and "" do not |
| SecretsLoader.NormalizeKey | src/main/java/com/bestcafe/shop/config/SecretsLoaderEnvironmentPostProcessor.java:57 | the key keeps its length, every `-` becomes `_` and every other character is kept |
| SecretsLoader.NormalizedKeyHasNoHyphen | src/main/java/com/bestcafe/shop/config/SecretsLoaderEnvironmentPostProcessor.java:57 | a normalized key contains no `-` |
| SecretsLoader.NormalizeKeyWithoutHyphen | src/main/java/com/bestcafe/shop/config/SecretsLoaderEnvironmentPostProcessor.java:57 | a key without `-` is unchanged |
| SecretsLoader.NormalizeKeyIdempotent | src/main/java/com/bestcafe/shop/config/SecretsLoaderEnvironmentPostProcessor.java:57 | normalizing twice is the same as normalizing once |
| SecretsLoader.NormalizedKeysCollideIff | src/main/java/com/bestcafe/shop/config/SecretsLoaderEnvironmentPostProcessor.java:57-58 | two file names map to the same key exactly when they differ only in `-` versus `_` |
| SecretsLoader.TopLevelCount | src/main/java/com/bestcafe/shop/config/SecretsLoaderEnvironmentPostProcessor.java:88 | the `listFiles` count is positive exactly when some entry sits directly in the directory |
| SecretsLoader.VerifySecretsDirectory | src/main/java/com/bestcafe/shop/config/SecretsLoaderEnvironmentPostProcessor.java:84-91 | passes exactly for a directory with at least one top-level entry; a non-directory fails as "not a directory" first, otherwise "empty" |
| SecretsLoader.ProcessSecretFile | src/main/java/com/bestcafe/shop/config/SecretsLoaderEnvironmentPostProcessor.java:74-82 | a readable file gives (base name, content unchanged); an unreadable one gives an error naming the file |
| SecretsLoader.MountedProperties | src/main/java/com/bestcafe/shop/config/SecretsLoaderEnvironmentPostProcessor.java:51-62 | the map built from the walk has no key containing `-`, and its only failure is an unreadable file |
| SecretsLoader.MountedPropertiesKeys | src/main/java/com/bestcafe/shop/config/SecretsLoaderEnvironmentPostProcessor.java:51-59 | the keys of the loaded map are exactly the normalized base names of the regular files in the walk |
| SecretsLoader.MountedPropertiesLastWins | src/main/java/com/bestcafe/shop/config/SecretsLoaderEnvironmentPostProcessor.java:51-59 | a regular file with no later regular file of the same normalized key supplies that key's value, unchanged |
| SecretsLoader.ReadableWalkLoads | src/main/java/com/bestcafe/shop/config/SecretsLoaderEnvironmentPostProcessor.java:51-59 | a walk whose regular files are all readable builds its map, and a file no later regular file collides with supplies its key with its exact content |
| SecretsLoader.MountedPropertiesValues | src/main/java/com/bestcafe/shop/config/SecretsLoaderEnvironmentPostProcessor.java:51-59 | every loaded value is the content of the last regular file in walk order whose name normalizes to its key |
| SecretsLoader.MountedPropertiesFailure | src/main/java/com/bestcafe/shop/config/SecretsLoaderEnvironmentPostProcessor.java:51-63 | loading fails exactly when some regular file is unreadable, and the error names the first such file in walk order |
| SecretsLoader.NoRegularFilesNoSecrets | src/main/java/com/bestcafe/shop/config/SecretsLoaderEnvironmentPostProcessor.java:53 | entries other than regular files contribute nothing |
| SecretsLoader.FailureIsFinal | src/main/java/com/bestcafe/shop/config/SecretsLoaderEnvironmentPostProcessor.java:54-62 | once a file fails to read, the rest of the walk cannot change the outcome |
| SecretsLoader.ReadMountedProperties | src/main/java/com/bestcafe/shop/config/SecretsLoaderEnvironmentPostProcessor.java:51-62 | the loop over the walk computes exactly the map (or the first read failure) that `MountedProperties` specifies |
| SecretsLoader.Install | src/main/java/com/bestcafe/shop/config/SecretsLoaderEnvironmentPostProcessor.java:43-63 | the enabled branch: an absent path fails; the load succeeds exactly when the path is present, the directory is valid and the walk's map can be built; success puts a `mountedSecretsProperties` source holding exactly that map first, followed by the old chain without a source of that name |
| SecretsLoader.PostProcess | src/main/java/com/bestcafe/shop/config/SecretsLoaderEnvironmentPostProcessor.java:32-66 | an absent flag fails, the other errors arise only when enabled, and the only change ever made is the secrets source put in front; `LoadedSourceIsTheWalksMap` states what that source holds and when the load succeeds |
| SecretsLoader.AbsentFlagAborts | src/main/java/com/bestcafe/shop/config/SecretsLoaderEnvironmentPostProcessor.java:38-40 | with no flag, the code as written fails with `MissingEnabledFlag`, while the intended loader leaves the chain unchanged |
| SecretsLoader.PostProcessIntended | src/main/java/com/bestcafe/shop/config/SecretsLoaderEnvironmentPostProcessor.java:38-42 | the intended loader fails only when enabled, and otherwise only puts the secrets source in front; `LoadedSourceIsTheWalksMap` states what that source holds and when the load succeeds |
| SecretsLoader.LoadedSourceIsTheWalksMap | src/main/java/com/bestcafe/shop/config/SecretsLoaderEnvironmentPostProcessor.java:42-70 | enabled with a valid directory, both loaders agree; they succeed exactly when the walk's map can be built, and the new chain is then `addFirst` of a source holding exactly that map |
| SecretsLoader.LoadedSecretResolves | src/main/java/com/bestcafe/shop/config/SecretsLoaderEnvironmentPostProcessor.java:42-70 | enabled with a valid directory that is not a link and has only readable regular files, the load succeeds, and each regular file that no later file collides with resolves, through the new chain, to its exact content under its normalized name |
| SecretsLoader.IntendedDisabledLoaderIsNoOp | src/main/java/com/bestcafe/shop/config/SecretsLoaderEnvironmentPostProcessor.java:38-42 | the intended loader leaves the chain unchanged when disabled, absent flag included, whatever the filesystem holds |
| SecretsLoader.IntendedAgreesWhenFlagPresent | src/main/java/com/bestcafe/shop/config/SecretsLoaderEnvironmentPostProcessor.java:38-42 | with the flag present, the code as written and the intended loader give the same result |
| SecretsLoader.DisabledLoaderIsNoOp | src/main/java/com/bestcafe/shop/config/SecretsLoaderEnvironmentPostProcessor.java:38-42 | when the flag is present but not "true", the chain is unchanged whatever the filesystem holds, so no path is read or checked |
| SecretsLoader.ValidationPrecedesReading | src/main/java/com/bestcafe/shop/config/SecretsLoaderEnvironmentPostProcessor.java:43-51 | when enabled, a non-directory or an empty directory is reported before any file is read, whatever the files hold |
| SecretsLoader.OnlySubdirectoriesYieldEmptySource | src/main/java/com/bestcafe/shop/config/SecretsLoaderEnvironmentPostProcessor.java:48-63 | a directory holding only sub-directories passes validation and installs an empty secrets source |
| SecretsLoader.SymlinkedDirectoryYieldsEmptySource | src/main/java/com/bestcafe/shop/config/SecretsLoaderEnvironmentPostProcessor.java:44-63 | a secrets path that links to a non-empty directory passes validation and installs an empty secrets source |
| SecretsLoader.UnreadableFileAddsNoSource | src/main/java/com/bestcafe/shop/config/SecretsLoaderEnvironmentPostProcessor.java:60-63 | an unreadable regular file in the walk fails the load, so no source is added |
| SecretsLoader.InstalledSecretsTakePrecedence | src/main/java/com/bestcafe/shop/config/SecretsLoaderEnvironmentPostProcessor.java:63-70 | after a successful load, `mountedSecretsProperties` is first and the old chain follows unchanged; secret keys resolve to the secret and other keys resolve as before |
| SecretsLoader.PostProcessEnvironment | src/main/java/com/bestcafe/shop/config/SecretsLoaderEnvironmentPostProcessor.java:32-66 | the imperative loader leaves the chain that `PostProcess` specifies, or reports its error and leaves the chain untouched |
| SecretsLoader.AddPropertiesToEnvironment | src/main/java/com/bestcafe/shop/config/SecretsLoaderEnvironmentPostProcessor.java:68-72 | the secrets map becomes the first source, named `mountedSecretsProperties` |
| ExceptionHandler.ErrorResponseEntity | src/main/java/com/bestcafe/shop/exception/GlobalExceptionHandler.java:36-49 | the record's status equals the response's status; the reason, message (null included) and request description pass through unchanged |
| ExceptionHandler.HandleJsonException | src/main/java/com/bestcafe/shop/exception/GlobalExceptionHandler.java:21-24 | 400 with "Bad Request" |
| ExceptionHandler.HandleNotFoundException | src/main/java/com/bestcafe/shop/exception/GlobalExceptionHandler.java:26-29 | 404 with "Resource not found" |
| ExceptionHandler.HandleGlobalException | src/main/java/com/bestcafe/shop/exception/GlobalExceptionHandler.java:31-34 | 500 with "Internal Server Error" |
| ExceptionHandler.Handle | src/main/java/com/bestcafe/shop/exception/GlobalExceptionHandler.java:17-34 | every failure gets a response whose (status, reason) pair comes from the table and whose message and path are passed through |
| ExceptionHandler.ClassificationTable | src/main/java/com/bestcafe/shop/exception/GlobalExceptionHandler.java:21-34 | JSON/XML parse failures get 400, no-resource-found gets 404 and every other failure gets 500, each in both directions |
| ExceptionHandler.OnlyThreeOutcomes | src/main/java/com/bestcafe/shop/exception/GlobalExceptionHandler.java:17-48 | the only (code, reason) pairs produced are (400, "Bad Request"), (404, "Resource not found") and (500, "Internal Server Error") |

## Findings

| source | as written | input that shows it | evidently intended | confidence | as-written member | corrected member |
|---|---|---|---|---|---|---|
| src/main/java/com/bestcafe/shop/config/SecretsLoaderEnvironmentPostProcessor.java:40 | the log line appends the flag's value with `String.concat`, which throws `NullPointerException` for null, before the flag is tested, so bootstrap aborts | an environment with no `secrets.provider.enabled` property | an absent flag disables the loader, as `Boolean.parseBoolean(null) == false` on line 39 and the `if` on line 42 suggest | not executed | SecretsLoader.AbsentFlagAborts | SecretsLoader.IntendedDisabledLoaderIsNoOp |

`PostProcess` and `PostProcessEnvironment` model the code as written. `PostProcessIntended` is the
corrected loader. The two agree whenever the flag is present (`IntendedAgreesWhenFlagPresent`), so
the loading and precedence properties above hold of both.

## Left out

- Logging: the `DeferredLog` messages and the `replayTo` initializer are not modelled. The one log line with an observable effect is modelled: line 40, which fails on an absent flag (`MissingEnabledFlag`).
- Real filesystem access (`Files.walk`, `Files.readString`, `Files.isDirectory`, `listFiles`, UTF-8 decoding) is replaced by the filesystem value. A read or decoding failure is the `Unreadable` content of an entry.
- Walk: encodes how `Files.walk` behaves without `FOLLOW_LINKS` (a start path that is a symbolic link is yielded alone, and the start path is filtered out as a directory) rather than stating a promise of its own. Its visible consequence is stated by `SymlinkedDirectoryYieldsEmptySource`.
- Walk order is an input. Failures of the walk itself are not modelled: an `IOException` opening the walk, an `UncheckedIOException` while iterating, or `listFiles` returning null. Each of these aborts the bootstrap like the modelled errors do. Symbolic links below the start path appear in the walk as entries of the kind `Files.isRegularFile` gives them, and are not descended into.
- `Paths.get` path syntax and normalization are not modelled. A path is looked up in the filesystem map as it is written. An absent path property gives `MissingDirectoryPath`, which stands for the `NullPointerException` of `Paths.get(null)`.
- ParseBoolean: case folding is modelled for ASCII letters only. `String.equalsIgnoreCase` uses Unicode case mapping, but no non-ASCII character folds to 't', 'r', 'u' or 'e'.
- The environment and `MutablePropertySources` belong to Spring and are not part of this model's sources. Their `addFirst` (remove any source of the same name, then insert at the front) and first-match `getProperty` are modelled from Spring's documented behaviour.
- Lookup: every source is an exact-key map of strings. The relaxed name matching of the system-environment source (`SECRETS_PROVIDER_ENABLED` answering `secrets.provider.enabled`), type conversion and placeholder resolution are not modelled.
- Spring's `@ExceptionHandler` resolution, `ResponseEntity` and `HttpStatus` internals and JSON serialization are framework plumbing. The case split in `Handle` stands in for them.
- `LocalDateTime.now()` is a clock read. It is the `now` parameter and is only passed through.
- The body of `ErrorResponse` is not part of this model. It is modelled as the five-field record its constructor call implies.
- `WebRequest.getDescription(false)` is the `description` parameter.
