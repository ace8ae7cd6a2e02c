# memory-limiter, modelled in Dafny

memory-limiter is a PHP library that sets the runtime's `memory_limit` from
the memory that is actually free for the current process. Its engine,
`AvailableMemoryReader`, tries three sources in a fixed order:

1. the cgroup v2 figures: `memory.max` minus `memory.current`, used only when
   a numeric limit is configured and the difference is positive;
2. the `MemAvailable` field of `/proc/meminfo`;
3. the `MemTotal` field of `/proc/meminfo`.

If none of them gives a figure, it throws `FailedToDetermineAvailableMemoryException`.

Meminfo is read through a memoizing `CachedFileReader`, so the second field
lookup does not read an existing meminfo file again. The memo is emptied once a meminfo figure
is returned.

`MemoryLimiter` wraps the engine. It can skip the whole operation inside a
Kubernetes container, which `RuntimeEnvironmentDetector` recognises by two
signs together: an environment variable named `KUBERNETES_…` and the secrets
directory. It can also scale the figure to a percentage, which must lie
strictly between 0 and 100. Then it writes the result to `memory_limit`.

The model has one module per part of the library:

- `Common`: PHP's `null` as `Option`, and the two exceptions a caller sees, as `Result`.
- `Text`: PHP's `trim`, `explode` with a one-character delimiter, `str_starts_with`, `is_numeric` and the `(int)` cast, written out on strings.
- `Filesystem`: the plain reader over a snapshot of the files (`path → raw content`), and the caching reader with its memo.
- `Meminfo`: the `/proc/meminfo` line scan and the `"<n> kB"` conversion.
- `AvailableMemoryReader`: the cgroup readers, the meminfo lookups and `determineAvailableMemoryBytes`.
- `RuntimeEnvironmentDetector`: the Kubernetes heuristic, over the variable names and the secrets-path check.
- `MemoryLimiter`: `setMemoryLimitToCurrentlyAvailableMemory`, with `memory_limit` as a sink.
- `Scenarios`: the situations the library's test-suite describes, stated as lemmas.

The meminfo lookup and the determination return more than their value. They
also return the memo afterwards and the list of files that reached the
filesystem. The cgroup probe returns its value with the files it read, and the
two cgroup file readers return the bare value. This trace lets the model state
which files are not read, and which are read at most once.

## Model

| member | source | states |
|---|---|---|
| Filesystem.Read | src/Filesystem/NativeFileReader.php:12-25 | the plain reader gives `None` exactly when the file is missing; otherwise it gives content with nothing left to trim, and hands on content that has nothing to trim unchanged |
| Filesystem.ReadStripsPadding | src/Filesystem/FileReader.php:13 | the plain reader's content is the file's own, with only trimmable characters cut away around it |
| Filesystem.GetFileContent | src/Filesystem/CachedFileReader.php:24-31 | the file is fetched exactly when the memo has no non-null entry for it; a fetch hands on the plain reader's answer; otherwise the stored string is returned and the memo is unchanged; only the entry for that path changes |
| Filesystem.ClearCache | src/Filesystem/CachedFileReader.php:33-36 | after clearing, no path is served from the memo |
| Filesystem.FirstReadDelegates | src/Filesystem/CachedFileReader.php:26-30 | the first read of a path returns exactly what the plain reader returns |
| Filesystem.PresentResultIsSticky | src/Filesystem/CachedFileReader.php:26-30 | once a string is stored, later reads return it without a fetch, even after the file has changed |
| Filesystem.AbsentResultIsRefetched | src/Filesystem/CachedFileReader.php:26 | a `null` result is not served from the memo, so the next read fetches again and sees the current files |
| Filesystem.ClearCacheRefetches | tests/Filesystem/CachedFileReaderTest.php:58-76 | after `clearCache`, the next read fetches and sees the current content |
| Filesystem.ConsistentReadIsTransparent | src/Filesystem/CachedFileReader.php:24-31 | if the memo matches the files, the caching reader answers like the plain reader and keeps the memo matching |
| Filesystem.RepeatedRead | tests/Filesystem/CachedFileReaderTest.php:39-56 | a second read of the same path repeats the first answer, and fetches again exactly when that answer was `null` |
| Text.Trim | src/Filesystem/NativeFileReader.php:24 | the result of `trim` has no trimmable character at either end and is no longer than its input |
| Text.TrimStripsPadding | src/Filesystem/NativeFileReader.php:24 | `trim` returns a piece of its input with only trimmable characters cut away on either side |
| Text.TrimPadded | src/Filesystem/NativeFileReader.php:24 | `trim` removes exactly the whitespace around an already-trimmed string, on both sides |
| Text.TrimLeading | src/AvailableMemoryReader.php:152 | `trim` removes exactly the leading whitespace of a padded meminfo value |
| Text.TrimTrailing | src/Filesystem/NativeFileReader.php:24 | `trim` removes exactly the trailing line break of a pseudo-file's content |
| Text.TrimTrimmed | src/AvailableMemoryReader.php:151 | `trim` leaves an already-trimmed key unchanged |
| Text.TrimIdempotent | src/AvailableMemoryReader.php:151-152 | trimming twice is trimming once |
| Text.Split | src/AvailableMemoryReader.php:142 | `explode` gives at least one piece; no piece contains the delimiter; joining the pieces with the delimiter gives back the input; the piece count is one more than the delimiter count |
| Text.SplitJoin | src/AvailableMemoryReader.php:142-145 | `explode` undoes `implode` on delimiter-free pieces, so a string has only one decomposition into such pieces |
| Text.SplitTwo | src/AvailableMemoryReader.php:169-171 | a string with exactly one delimiter explodes into the two pieces on either side of it |
| Text.SplitInTwo | src/AvailableMemoryReader.php:145-152 | a two-piece explosion is the first piece, the delimiter, then the second piece |
| Text.StartsWith | src/RuntimeEnvironmentDetector.php:30 | `str_starts_with`: a string starts with a prefix exactly when it is that prefix followed by some rest |
| Text.IsNumeric | src/AvailableMemoryReader.php:177 | a numeric token is non-empty, starts with a digit or `-`, has only digits after its first character and ends with a digit; every non-empty run of digits is numeric |
| Text.IntCast | src/AvailableMemoryReader.php:181 | the `(int)` cast (also used on the cgroup files at lines 86 and 101) is negative only for a string starting with `-`, is 0 for a string starting with neither a digit nor `-`, and reads a run of digits in full |
| Text.NumericCast | src/AvailableMemoryReader.php:177-181 | the `(int)` cast of a string that passes `is_numeric` reads every digit, keeping the sign |
| Text.ShowIntRoundTrip | src/AvailableMemoryReader.php:177-181 | a decimal rendering passes `is_numeric` and casts back to the same integer |
| Meminfo.ParseLine | src/AvailableMemoryReader.php:145-152 | a line gives a field exactly when it has exactly one colon; the field is then the trimmed text before it and the trimmed text after it |
| Meminfo.KbToBytes | src/AvailableMemoryReader.php:167-189 | a value converts only if it is a numeric token, one space and `kB`; the result is then 1024 times the cast token, so a multiple of 1024 |
| Meminfo.KbToBytesAccepts | src/AvailableMemoryReader.php:175-185 | every numeric token followed by ` kB` converts to 1024 times its cast value |
| Meminfo.KbRoundTrip | src/AvailableMemoryReader.php:181-185 | `<n> kB`, rendered and converted back, is `n * 1024` bytes |
| Meminfo.KbToBytesRejectsOtherUnits | src/AvailableMemoryReader.php:182-188 | a well-formed number with any unit other than `kB` gives nothing |
| Meminfo.LookupFields | src/AvailableMemoryReader.php:144-159 | a figure found by the line scan is a multiple of 1024 |
| Meminfo.LookupFieldsCarried | src/AvailableMemoryReader.php:144-156 | the line scan only finds a figure on a line whose key is the one asked for |
| Meminfo.Lookup | src/AvailableMemoryReader.php:138-159 | a missing meminfo file gives no figure; a figure found is a whole number of kibibytes |
| Meminfo.LookupNamesField | src/AvailableMemoryReader.php:142-156 | a figure is only ever read from a line of the file whose trimmed key is the one asked for |
| Meminfo.LookupMissingKey | src/AvailableMemoryReader.php:159 | if no line names the key, the lookup gives nothing |
| Meminfo.LookupFirstMatch | src/AvailableMemoryReader.php:154-156 | the first line naming the key decides the lookup, even when its value fails to convert and a later line would succeed |
| Meminfo.LookupJoinedLines | src/AvailableMemoryReader.php:142-144 | looking a key up in newline-joined lines equals scanning those lines |
| Meminfo.RenderedLineParses | src/AvailableMemoryReader.php:145-152 | a line `<key>:<padding><n> kB` parses to that key with value `<n> kB`, whatever the padding |
| Meminfo.RenderedFieldFound | src/AvailableMemoryReader.php:134-160 | meminfo text whose first line naming a key reads `<key>: <n> kB` yields `n * 1024` for that key, whatever the other lines are |
| AvailableMemoryReader.MaxCgroupMemoryBytes | src/AvailableMemoryReader.php:73-87 | `memory.max` is absent exactly when the file is missing, and unset (`max`) exactly when its trimmed content is `max`; otherwise it is the cast content |
| AvailableMemoryReader.CurrentCgroupMemoryUsageBytes | src/AvailableMemoryReader.php:93-102 | usage is `null` exactly when `memory.current` is missing, and otherwise the cast content |
| AvailableMemoryReader.CgroupFileRoundTrip | src/AvailableMemoryReader.php:73-102 | a byte count written with a trailing line break is read back as that count by both cgroup readers |
| AvailableMemoryReader.CgroupAvailableMemoryBytes | src/AvailableMemoryReader.php:107-132 | the cgroup figure is limit minus usage when both are numbers and the difference is positive, and `null` otherwise; it is never zero or negative; an unset limit stops it before usage is read; otherwise the limit is read before the usage |
| AvailableMemoryReader.ProcMeminfoValueInBytes | src/AvailableMemoryReader.php:134-160 | a lookup reads the meminfo file at most once, and only when the memo has no copy; an existing file is memoized; if the memo matches the files, the answer is that of the current file |
| AvailableMemoryReader.MeminfoFallback | src/AvailableMemoryReader.php:48-64 | the meminfo half reads only the meminfo file; its only exception is FailedToDetermine; the memo is emptied on success and left with only the meminfo entry changed on failure |
| AvailableMemoryReader.DetermineAvailableMemoryBytes | src/AvailableMemoryReader.php:36-65 | a usable cgroup figure is returned as it is, without consulting meminfo or touching the memo; otherwise the meminfo fallback runs after the cgroup reads; the only exception is FailedToDetermine |
| AvailableMemoryReader.FallbackOnConsistentCache | src/AvailableMemoryReader.php:48-64 | if the memo matches the files, the fallback answers `MemAvailable`, else `MemTotal`, else FailedToDetermine, from the current meminfo file |
| AvailableMemoryReader.DetermineOnConsistentCache | src/AvailableMemoryReader.php:36-65 | if the memo matches the files, the answer is the cgroup figure, else `MemAvailable`, else `MemTotal`, else FailedToDetermine, and the memo still matches afterwards |
| AvailableMemoryReader.EmptyCacheConsistent | src/Filesystem/CachedFileReader.php:17 | a fresh caching reader matches any files |
| AvailableMemoryReader.DetermineIdempotent | src/AvailableMemoryReader.php:36-65 | two determinations in a row over unchanged files give the same answer |
| AvailableMemoryReader.FallbackFetchesAtMostOnce | src/AvailableMemoryReader.php:48-58 | with the meminfo file present, the fallback's reads are at most the one read of the `MemAvailable` lookup |
| AvailableMemoryReader.FallbackReadsOnce | src/AvailableMemoryReader.php:48-58 | with the meminfo file present, the `MemTotal` lookup reuses the copy stored by the `MemAvailable` lookup |
| AvailableMemoryReader.FallbackAfterCgroupReadsOnce | src/AvailableMemoryReader.php:42-62 | with the cgroup path unusable and the meminfo file present, the cgroup reads followed by the fallback read the meminfo file at most once |
| AvailableMemoryReader.MeminfoReadAtMostOnce | src/AvailableMemoryReader.php:42-62 | with the meminfo file present, one determination reads it at most once |
| AvailableMemoryReader.MissingMeminfoReadTwice | src/AvailableMemoryReader.php:136-140 | a missing meminfo file is never memoized: with the cgroup path unusable, both lookups read it and the call fails |
| AvailableMemoryReader.FailureKeepsStaleMeminfo | src/AvailableMemoryReader.php:51-64 | a failed determination does not empty the memo, so a later call without a cgroup figure fails again whatever the meminfo file now holds |
| AvailableMemoryReader.MeminfoLookupReadsOnlyItsFile | src/AvailableMemoryReader.php:134-160 | a meminfo lookup gives the same answer, memo and reads over any two snapshots that agree on the meminfo file |
| AvailableMemoryReader.FallbackReadsOnlyMeminfo | src/AvailableMemoryReader.php:48-62 | the fallback depends on the files only through the meminfo file |
| AvailableMemoryReader.MeminfoLookupsOnlyReadMeminfo | src/AvailableMemoryReader.php:42-64 | once the cgroup path is unusable, the answer depends on the files only through the meminfo file |
| AvailableMemoryReader.UnsetLimitIgnored | src/AvailableMemoryReader.php:109-117 | an unset (`max`) limit gives the same answer as no cgroup files at all, and `memory.current` is not read |
| AvailableMemoryReader.UnsetLimitSkipsUsage | src/AvailableMemoryReader.php:109-119 | an unset (`max`) limit makes the cgroup path unusable before `memory.current` is read, and no later step reads it either |
| AvailableMemoryReader.ExhaustedCgroupIgnored | src/AvailableMemoryReader.php:125-129 | a cgroup whose usage has reached its limit gives the same answer as no cgroup files at all |
| AvailableMemoryReader.CgroupHeadroomWins | src/AvailableMemoryReader.php:42-46 | a limit above the usage, both written as the kernel writes them, gives limit minus usage; only the two cgroup files are read and the memo is untouched |
| RuntimeEnvironmentDetector.HasKubernetesEnvironmentVariables | src/RuntimeEnvironmentDetector.php:21-36 | true exactly when the environment is an array and some variable name starts with `KUBERNETES_` |
| RuntimeEnvironmentDetector.IsRunningInsideKubernetesContainer | src/RuntimeEnvironmentDetector.php:16-19 | true exactly when a Kubernetes variable is set and the secrets path exists; neither sign alone is enough |
| MemoryLimiter.TruncateTowardZero | src/MemoryLimiter.php:62 | the `(int)` cast of a float lies within one of its argument, on the side of zero |
| MemoryLimiter.ScaleToPercentage | src/MemoryLimiter.php:62 | the scaled limit is the exact share `memoryLimit * (percentage / 100)` rounded toward zero, so it differs from the share by less than one byte |
| MemoryLimiter.ScaleWithinBounds | src/MemoryLimiter.php:55-62 | a valid percentage of a non-negative byte count lies between zero and that count |
| MemoryLimiter.ScaleExample | tests/MemoryLimiterTest.php:89-100 | 10.10 % of 15985380 KiB is 1653271941 bytes |
| MemoryLimiter.SetMemoryLimitToCurrentlyAvailableMemory | src/MemoryLimiter.php:40-74 | skipped exactly when the flag is set and the container is Kubernetes, and then nothing is read or written; otherwise memory is determined first, a failure propagates, an invalid percentage raises with that percentage, and the written limit is the figure or its scaled part; the sink changes exactly when a limit is set; the rejection test of line 56 is checked here against `ValidPercentage`, the documented open interval (0, 100) of line 35, for every percentage except NaN, which reals cannot express |
| Scenarios.KubernetesPodUsesCgroup | tests/AvailableMemoryReaderTest.php:68-78 | a pod with limit 1342177280 and usage 215252992 gets their difference, whatever meminfo says |
| Scenarios.BareMetalUsesMemAvailable | tests/AvailableMemoryReaderTest.php:20-30 | a host without cgroup files whose meminfo reads `MemAvailable:<padding><n> kB` gets `n * 1024` bytes |
| Scenarios.TwoLineScan | src/AvailableMemoryReader.php:144-156 | scanning a `MemTotal` line and then a `MemAvailable` line for `MemAvailable` passes over the first line and converts the second |
| Scenarios.TwoLineText | src/AvailableMemoryReader.php:142-156 | in meminfo text with a `MemTotal` line and then a `MemAvailable` line, the `MemAvailable` lookup skips the first line and reads the second |
| Scenarios.TwoLineHostUsesMemAvailable | tests/AvailableMemoryReaderTest.php:20-30 | a host without cgroup files whose meminfo lists `MemTotal` and then `MemAvailable` gets the `MemAvailable` figure, not the total |
| Scenarios.OldKernelUsesMemTotal | tests/AvailableMemoryReaderTest.php:44-54 | a host whose meminfo has only `MemTotal:<padding><n> kB` gets `n * 1024` bytes |
| Scenarios.NoFilesFails | tests/AvailableMemoryReaderTest.php:80-89 | a host with none of the files fails with FailedToDetermine |

## Behaviour of the code worth knowing

- Memory is determined (src/MemoryLimiter.php:53) before the percentage is
  checked (line 56). So a bad percentage on a host where determination fails
  raises FailedToDetermine, not the percentage exception. The model keeps this order.
- When the cgroup path gives no figure and the memo holds no copy of the
  meminfo file, a missing meminfo file is read twice in one determination. `getFileContent`
  yields `null` for it (src/AvailableMemoryReader.php:136-140), and `isset`
  does not count a stored `null` as memoized (src/Filesystem/CachedFileReader.php:26),
  so the `MemTotal` lookup reads the file again (`MissingMeminfoReadTwice`). With
  the file present, it is read at most once (`MeminfoReadAtMostOnce`).
- A meminfo value is not checked for its sign (src/AvailableMemoryReader.php:177-185).
  A line such as `MemAvailable: -5 kB` passes `is_numeric` and is returned as
  `-5120`. A cgroup figure, by contrast, is always positive (lines 125-129).
  The model returns a negative meminfo value as the code does.
- The memo is emptied only after a meminfo success (src/AvailableMemoryReader.php:51, 59),
  not before the exception at line 64. A reader reused after a failed determination
  therefore keeps the old meminfo content (`FailureKeepsStaleMeminfo`).

## Left out

- The filesystem is a snapshot map from path to raw content. `file_exists` and `file_get_contents` are not modelled: a missing file and an unreadable file both look like an absent path, as the reader makes them.
- `getenv()` and the secrets-directory `file_exists` check are inputs of `Environment`. Variable values are ignored, as in the source.
- `ini_set('memory_limit', …)` is a sink holding the last value written. The `(string)` cast of the integer is not modelled.
- MemoryLimiter.SetMemoryLimitToCurrentlyAvailableMemory: the model takes both arguments explicitly. The source's defaults are skip = `true` and percentage = `null` (src/MemoryLimiter.php:41-42), so a call without arguments skips inside Kubernetes and does not scale. The percentage is an exact real, so it has no NaN. In PHP a NaN percentage passes the check at line 56, because `NAN <= 0` and `NAN >= 100` are both false; line 62 then computes `(int) NAN`, which is 0, and PHP writes 0 to `memory_limit` without raising. The model's promise that every percentage outside (0, 100) raises InvalidPercentage holds only for non-NaN values.
- Logger calls (`notice`, `info`) are not modelled; they change no result.
- The `create()` factories and the constructors are left out. Their default paths are `DefaultPaths`. The constructor accepts any `FileReader` for the two cgroup files (src/AvailableMemoryReader.php:24); the model fixes it to the plain reader that `create()` wires in (line 18). An injected caching reader would memoize `memory.current`, which the model does not cover. The default secrets path, `/var/run/secrets/kubernetes.io`, only matters through whether it exists, which is the `secretsPathExists` field of `Environment`.
- The exception classes under src/Exception are left out. Their messages are not modelled. The internal CgroupMemoryLimitIsMaxException is the `Max` case of `CgroupLimit`.
- Text.IsNumeric: PHP's `is_numeric` also accepts leading whitespace, trailing whitespace (since PHP 8), a `+` sign, decimals and exponents. The model accepts only an optional `-` followed by digits. In the meminfo code the token comes out of `explode(' ', …)`, so a space cannot occur in it, but a tab or other whitespace can: for the value `5\t kB` PHP returns 5120, while the model gives `None`. Decimals and exponents are outside the model.
- Text.IntCast: models the `(int)` cast of a sign and a run of digits. It does not model PHP's leading-whitespace, `+` and exponent handling, nor saturation at `PHP_INT_MAX`.
- MemoryLimiter.TruncateTowardZero: the percentage and the product are exact reals, not IEEE-754 doubles. Rounding differences in `$memoryLimit * ($p / 100)` are not modelled.
- Meminfo.Lookup: its own contract states only the missing-file case and that a figure is whole kibibytes. Which line supplies the figure is stated by `Meminfo.LookupNamesField`, `Meminfo.LookupJoinedLines` and `Meminfo.RenderedFieldFound`.
- RuntimeEnvironmentDetector.HasKubernetesEnvironmentVariables: variable names are modelled as strings. PHP stores an integer-like name (such as `123`) as an integer array key, and `str_starts_with` then throws a TypeError under `strict_types` (src/RuntimeEnvironmentDetector.php:3, 29-30). That TypeError is not modelled; the model treats such a name as a string that does not start with `KUBERNETES_`.
- Meminfo.LookupFields: its own contract states only that a figure found is a multiple of 1024. The scan order is stated by `Meminfo.LookupFirstMatch` and `Meminfo.LookupMissingKey`, which characterise its result.
- 64-bit integer overflow is not modelled; integers are unbounded. In PHP, `* 1024` (src/AvailableMemoryReader.php:185) or `limit - usage` (line 125) past `PHP_INT_MAX` gives a float. Under `declare(strict_types=1)` (line 3), returning that float from the `?int` functions at lines 107 and 167 raises a TypeError, which escapes `determineAvailableMemoryBytes`. That TypeError is not modelled.
- Concurrent changes to the files during one call are not modelled. Each call sees one snapshot. Changes between calls are modelled by passing a different snapshot.
