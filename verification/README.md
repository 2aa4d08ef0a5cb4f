# Spotless Maven plugin: resource locator and formatter lifecycle, in Dafny

This project models two support classes of the Spotless Maven plugin and proves properties about them.

- **`FileLocator`** (module `Locator`, file `file_locator.dfy`) resolves a configured path to a local file:
  - a null or empty path gives no file;
  - a path naming an existing regular file is returned as that file;
  - any other path goes to the resource manager. The manager copies the resource to an output file whose name is derived from the path: `"spotless-resource-" + Base64(SHA-256(path)) + "." + extension(path)`.

  Its getters return the directories fixed at construction.
- **Base64** (module `Base64`, file `base64.dfy`) is the basic encoding of section 4 of RFC 4648, as `java.util.Base64.getEncoder()` produces it. It comes with a reference decoder, used only to prove that encoding is injective.
- **`FormattersHolder`** (module `Formatters`, file `formatters_holder.dfy`) owns the formatters built from a map of formatter factories to file suppliers:
  - `create` builds one formatter per entry, all or nothing. When a factory throws a `RuntimeException`, `create` closes the key objects of the map built so far (a later formatter equal to an earlier one is not among them, see below) and rethrows the factory's error. An `Exception` from that rollback close is attached to the factory's error as a suppressed error. A `java.lang.Error` from it is not caught, and is thrown in place of the factory's error.
  - The static `close(Set)` calls `close()` on every formatter even after failures. The first exception is the reported error and every later one joins its suppressed list.
  - The instance `close()` wraps such an exception in a new `RuntimeException`.

`Wrappers` (file `wrappers.dfy`) holds `Option` (a possibly-null reference) and `Result` (returns or throws).

## How the Java is modelled

- The world outside the model is passed in as values:
  - the SHA-256 digest of a string's UTF-8 bytes and `FileUtils.extension` are arrows in `Libraries`; a digest is a 32-byte sequence;
  - the resource manager is an arrow from (path, output file name) to its outcome;
  - "exists and is a regular file" is a predicate on paths;
  - each factory's build outcome is a field of its entry;
  - each formatter's `close()` outcome is an arrow from formatters to an optional throwable.
- `LocateFile` also returns the calls it makes outside the model: the local-file check and the resource manager call. This lets the contracts say when each happens.
- Java exceptions are `Throwable` values with a class, an origin, a cause and a suppressed list. The class tells which `catch` clauses apply:
  - `RuntimeException`;
  - another `Exception` (`CheckedException`);
  - `java.lang.Error` (`JavaError`).

  This matters because the code catches selectively. `create` catches only `RuntimeException` (FormattersHolder.java:45). Any other throwable from a factory leaves `create` with no rollback. The rollback in `create` (FormattersHolder.java:48) and the two `close` methods (FormattersHolder.java:69, 79) catch only `Exception`. A `java.lang.Error` from one formatter's `close()` therefore ends the static close loop at once, and is thrown as it is.
- `Throwable.addSuppressed` mutates the exception in place. Here it is a value update (`AddSuppressed`).
- The static close iterates a `Set` in an unspecified order. The method picks each next formatter with `:|` and returns `closed`, the `close()` calls it made, in order. Its contracts are stated relative to that order.
- `create` receives the factory map as a sequence of entries, in the order the map iterates.
- The holder's map is a `HashMap`. The model therefore exposes a `set` and a `map`, and promises no order.
- A formatter has an identity and an equality key. The key stands for what `Formatter.equals` and `hashCode` compare, so two distinct formatter objects can be equal.
- The holder's map is keyed by equality key, with one binding per key: the key object the map holds and its file supplier. `put` follows `HashMap.put`: when an equal key is already held, that key object stays and only its value is replaced. A later formatter equal to an earlier one is therefore not in the key set, and no `close` ever reaches it.

## Where the comments and the code differ

- The doc comment of `locateFile` (FileLocator.java:51) says the resource is copied to a "randomly-named" file. The name is in fact a deterministic function of the path (FileLocator.java:105-110), and the model says so.

## Model

| member | source | states |
|---|---|---|
| `Base64.EncodeSextet` | plugin-maven/src/main/java/com/diffplug/spotless/maven/FileLocator.java:108 | each 6-bit value maps to a character of the RFC 4648 alphabet, and that character decodes back to the value |
| `Base64.Encode` | plugin-maven/src/main/java/com/diffplug/spotless/maven/FileLocator.java:108 | the encoding of n bytes is 4·⌈n/3⌉ characters long |
| `Base64.DecodeEncode` | plugin-maven/src/main/java/com/diffplug/spotless/maven/FileLocator.java:108 | decoding gives back every encoded byte sequence |
| `Base64.EncodeInjective` | plugin-maven/src/main/java/com/diffplug/spotless/maven/FileLocator.java:108 | distinct byte sequences have distinct encodings |
| `Base64.EncodeAlphabet` | plugin-maven/src/main/java/com/diffplug/spotless/maven/FileLocator.java:108 | an encoding is alphabet characters followed by exactly PadCount(n) `=` characters (0, 2 or 1 for n mod 3 = 0, 1, 2) |
| `Base64.EncodeDigestShape` | plugin-maven/src/main/java/com/diffplug/spotless/maven/FileLocator.java:107-108 | a 32-byte digest encodes to 44 characters: 43 from the alphabet, then one `=` |
| `Locator.TmpOutputFileName` | plugin-maven/src/main/java/com/diffplug/spotless/maven/FileLocator.java:105-110 | the output name is the prefix `spotless-resource-`, then the Base64 encoding of the path's digest (44 characters), then a `.`, then the path's extension, and nothing else |
| `Locator.TmpOutputFileNameShape` | plugin-maven/src/main/java/com/diffplug/spotless/maven/FileLocator.java:105-110 | the output name is the 18-character prefix, the 44-character encoding of the path's digest (ending in a single `=`), a `.` that is there even for an empty extension, and the extension; its length is 18 + 44 + 1 + \|extension\| |
| `Locator.TmpOutputFileNameInjective` | plugin-maven/src/main/java/com/diffplug/spotless/maven/FileLocator.java:105-110 | two paths whose digests differ get different output names |
| `Locator.FileLocator.LocateFile` | plugin-maven/src/main/java/com/diffplug/spotless/maven/FileLocator.java:53-72 | the result is "no file" exactly for a null or empty path, and then nothing outside is consulted; an existing regular file is returned as itself after one file-system check and no resource manager call; otherwise the resource manager is called once, with the path and its output name; its file is returned, "not found" becomes an error carrying the path, and "creation failed" becomes an error carrying the output name |
| `Locator.ResourceManagerCalledOnlyForNonLocalPaths` | plugin-maven/src/main/java/com/diffplug/spotless/maven/FileLocator.java:54-65 | the resource manager is called at most once; it is called exactly when the path is non-empty and not a local regular file, and then with (path, output name) |
| `Locator.LocatedFileOrigin` | plugin-maven/src/main/java/com/diffplug/spotless/maven/FileLocator.java:58-65 | a returned file is either the local file the path names, or the file the resource manager produced for the derived name |
| `Locator.LocateErrorsAreDistinct` | plugin-maven/src/main/java/com/diffplug/spotless/maven/FileLocator.java:63-71 | an error only arises from the resource manager; each error kind corresponds to exactly one manager failure; the not-found error names the path, and the creation error names the output file, which starts with the prefix |
| `Locator.FileLocator.GetBaseDir` | plugin-maven/src/main/java/com/diffplug/spotless/maven/FileLocator.java:80-82 | returns the base directory the locator was constructed with |
| `Locator.FileLocator.GetBuildDir` | plugin-maven/src/main/java/com/diffplug/spotless/maven/FileLocator.java:90-92 | returns the build directory the locator was constructed with |
| `Locator.FileLocator.GetDataDir` | plugin-maven/src/main/java/com/diffplug/spotless/maven/FileLocator.java:101-103 | returns the data directory fixed when the locator was constructed |
| `Formatters.FirstFailure` | plugin-maven/src/main/java/com/diffplug/spotless/maven/FormattersHolder.java:38-45 | the index of the first entry whose factory throws: every earlier factory built a formatter |
| `Formatters.FormattersHolder.constructor` | plugin-maven/src/main/java/com/diffplug/spotless/maven/FormattersHolder.java:31-33 | the holder keeps the map it is given |
| `Formatters.FormattersHolder.Create` | plugin-maven/src/main/java/com/diffplug/spotless/maven/FormattersHolder.java:35-55 | the factories called are logged as each call is made: they are the entries' factories in order, up to and including the first that throws, and none after it; with no failure a holder with the built map is returned; on a RuntimeException the static close runs over the key objects of the map built so far, and the factory's error is thrown with an Exception from that close suppressed into it, while a java.lang.Error from that close is thrown instead; on any other throwable the throwable is thrown as it is, with no rollback |
| `Formatters.FormattersHolder.CloseAll` | plugin-maven/src/main/java/com/diffplug/spotless/maven/FormattersHolder.java:74-90 | close() is called on each formatter of the set at most once; either every formatter is visited, or the loop stops right after the first java.lang.Error; what is thrown is that Error, or else the first exception carrying every later one in call order, or nothing |
| `Formatters.FormattersHolder.Close` | plugin-maven/src/main/java/com/diffplug/spotless/maven/FormattersHolder.java:65-72 | makes the static close's calls over the held formatters; succeeds exactly when the static close does; an Exception from it is rethrown as a new RuntimeException whose cause it is; a java.lang.Error passes through |
| `Formatters.MergeAppend` | plugin-maven/src/main/java/com/diffplug/spotless/maven/FormattersHolder.java:80-84 | a new close failure becomes the error when there is none, and is otherwise appended to the error's suppressed list |
| `Formatters.ClosesEveryFormatterOnce` | plugin-maven/src/main/java/com/diffplug/spotless/maven/FormattersHolder.java:76-86 | when no close() throws a java.lang.Error, the static close calls close() on every formatter of the set, exactly once each, even after failures |
| `Formatters.FailuresCount` | plugin-maven/src/main/java/com/diffplug/spotless/maven/FormattersHolder.java:77-85 | one recorded failure per formatter whose close() throws: none dropped, none repeated |
| `Formatters.CloseReportsEveryFailure` | plugin-maven/src/main/java/com/diffplug/spotless/maven/FormattersHolder.java:75-89 | when no close() throws a java.lang.Error, nothing is thrown exactly when no close() fails, the empty set included; otherwise the thrown error is the first failure, and its suppressed list is its own followed by every later failure in call order, one per failing formatter |
| `Formatters.FirstFailureIsPrimary` | plugin-maven/src/main/java/com/diffplug/spotless/maven/FormattersHolder.java:80-82 | the thrown error is the one the first failing close() in call order threw, with its own suppressed list kept at the front |
| `Formatters.RollbackAttachesOneError` | plugin-maven/src/main/java/com/diffplug/spotless/maven/FormattersHolder.java:45-51 | after a rollback with no java.lang.Error, the thrown error is the factory's error, with the same class, origin and cause; when a rollback close failed, it gains exactly one suppressed error: the first close failure, which carries the remaining ones; otherwise it is unchanged |
| `Formatters.BuildMapKeys` | plugin-maven/src/main/java/com/diffplug/spotless/maven/FormattersHolder.java:42-43 | the built map has a binding for exactly the equality keys of the built formatters, and every key object it holds is one of the built formatters |
| `Formatters.BuildMapKeepsFirstObject` | plugin-maven/src/main/java/com/diffplug/spotless/maven/FormattersHolder.java:43 | the key object held for an equality key is the formatter of the first entry with that key: a later equal put does not replace the key |
| `Formatters.BuildMapSendsToLastFiles` | plugin-maven/src/main/java/com/diffplug/spotless/maven/FormattersHolder.java:43 | the files held for an equality key are those of the last entry with that key: a later equal put replaces the value |
| `Formatters.CreateMapsEachFormatterToItsFiles` | plugin-maven/src/main/java/com/diffplug/spotless/maven/FormattersHolder.java:38-44 | when no two built formatters are equal, the key set is exactly the built formatters and each one is bound to itself and the files of the entry that built it |
| `Formatters.LaterEqualFormatterIsNotHeld` | plugin-maven/src/main/java/com/diffplug/spotless/maven/FormattersHolder.java:42-43 | a formatter equal to, but distinct from, one built earlier is not in the holder's key set |
| `Formatters.LaterEqualFormatterIsNeverClosed` | plugin-maven/src/main/java/com/diffplug/spotless/maven/FormattersHolder.java:43-78 | such a formatter is never closed: a close run over the key set (the rollback at line 47, or the instance close at line 68) makes no close() call on it |
| `Formatters.RollbackClosesEveryBuiltFormatter` | plugin-maven/src/main/java/com/diffplug/spotless/maven/FormattersHolder.java:45-47 | on a caught factory failure with no java.lang.Error while closing, the rollback calls close() exactly once on every key object of the map built before the failing entry, and on no other; when no two of those formatters are equal, that is every formatter built before the failing entry |
| `Formatters.FormattersHolder.GetFormatters` | plugin-maven/src/main/java/com/diffplug/spotless/maven/FormattersHolder.java:57-59 | the formatters are exactly the key objects of the held map, one per equality key, so no two of them are equal |
| `Formatters.FormattersHolder.GetFormattersWithFiles` | plugin-maven/src/main/java/com/diffplug/spotless/maven/FormattersHolder.java:61-63 | returns the held map, whose key set is what getFormatters returns |

## Left out

- The null checks of the constructor (`Objects.requireNonNull`, FileLocator.java:43-45) are not modelled: they throw a NullPointerException on a null resource manager, base directory or build directory, and the `FileLocator` datatype cannot hold null.
- findDataDir (FileLocator.java:123-129) reads the plugin jar's code source by reflection and walks up parent directories. The model takes the data directory as a value given at construction.
- SHA-256, MessageDigest and the UTF-8 encoding of the path are a single given arrow returning 32 bytes. Their internals are not modelled. The `NoSuchAlgorithmException` path (FileLocator.java:116-117) is a JVM environment failure and is not modelled.
- FileUtils.extension is a given arrow. Its internals belong to a library that is not part of this model.
- The ResourceManager transport (classpath or URL fetching, and writing the file) is not modelled. Only its outcome is: a file, not-found, or creation-failed. A null return from it is not modelled either.
- File-system checks (`exists() && isFile()`) are a given predicate. `java.io.File` path normalisation is not modelled: `File(path)` carries the path string unchanged.
- The message text and the underlying cause of the two RuntimeExceptions are not modelled. Only the path or output file name each one carries is kept.
- FormatterConfig is passed unchanged to every factory, and what factories and formatters do is not modelled. The model keeps only build success or failure and close success or failure.
- Java exception messages and the identity of exception objects are not modelled. In particular, `addSuppressed` throwing on self-suppression, and another holder of the same exception object seeing its suppressed list grow, are not represented.
- The holder's map is an immutable value. Java's getFormattersWithFiles hands out the mutable HashMap, and a caller's changes to it would change what a later close visits. This aliasing is not modelled.
- The iteration order of the factory map and of the holder's key set is not modelled. `create` takes the entries in whatever order the map yields them. The static close's visit order is an arbitrary choice, reported as `closed`.
