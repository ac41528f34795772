# java-find, modelled in Dafny

A model of the Java-runtime discovery core of java-find. It finds candidate
`java` executables per platform, keeps the executable ones and removes
duplicates by path. It probes one install with a helper jar to learn its
version and architecture, and it memoises the whole discovery in a
single-flight promise cache.

Modules, one per piece of the source:

- `Wrappers`: `Option`, which stands for `null`/`undefined` and for rejected promises.
- `JsString`: the JavaScript built-ins the core relies on (`\d`, `parseInt`, `trim`, `split`).
- `JavaVersion`: the `JavaVersion` constructor. It is the leftmost match of `(\d+?)\.(\d+?)\.(\d+?)(?:_(\d+))?`, with the lazy groups followed exactly.
- `Install`: the `JavaInstall` class, with its `ensureInfo` state machine over `invalid`, `gotInfo`, `arch` and `version`.
- `Utils`: `flatten`, `permutations` (nested loops) and `PromiseCache`. The cache is a class driven by `Call`, `Complete` and `Fail` events.
- `Candidates`: the fixed per-platform lists, including the Windows typos `(x76)` and `(x66)`, the macOS directory-derived paths and the Windows registry paths.
- `Discovery`: the `getJavas` producer (enumerate, filter executable, unique by path) and its use through `PromiseCache`.

The model follows the code, including where it behaves in ways a caller might not expect:

- If either macOS directory listing fails, the whole macOS enumeration rejects (`Promise.all`). It is not treated as contributing nothing.
- `PromiseCache` has no rejection handler, so a rejected producer promise stays in `currentlyExecutingPromise`. Every later call gets it, and the producer is never retried.
- `getJavas` never calls `ensureInfo` and never drops invalid installs.
- `_gotInfo` is never set to true, so a successful probe does not stop the next `ensureInfo` from probing again.
- The third regex group is lazy, so the patch is a single digit (`"1.8.10"` has patch 1).

## Model

| member | source | states |
|---|---|---|
| `JsString.ParseInt` | index.ts:20-23 | `parseInt` of an n-digit decimal string is below 10^n |
| `JsString.Trim` | index.ts:70 | the result neither starts nor ends with white space, and it is the input minus its leading and trailing white space only |
| `JsString.TrimIdempotent` | index.ts:70 | trimming a trimmed string changes nothing |
| `JsString.Split` | index.ts:71 | `split("\n")` returns at least one piece, and no piece holds the separator |
| `JsString.JoinSplit` | index.ts:71 | joining the pieces of a split with the separator gives back the string |
| `JsString.SplitJoin` | index.ts:71 | splitting a join of separator-free pieces gives back the pieces |
| `JavaVersion.Parse` | index.ts:18-24 | a parsed version always has a single-digit patch |
| `JavaVersion.ParseFailsIffNoMatch` | index.ts:19-20 | parsing fails (the constructor throws) exactly when the regular expression matches nowhere in the string |
| `JavaVersion.ParseIsLeftmostLazyMatch` | index.ts:19-23 | at the leftmost match, with the lazy groups taking their shortest choice, the patch group is one digit, and the result is `parseInt` of the three groups and of the update group |
| `JavaVersion.UpdateIsGreedy` | index.ts:19-23 | the update is the whole digit run after an underscore that directly follows the patch digit |
| `JavaVersion.ParseFull` | index.ts:19-23 | `"1.8.0_151"` gives 1, 8, 0, 151 |
| `JavaVersion.ParseNoUpdate` | index.ts:23 | `"9.0.1"` gives update 0 |
| `JavaVersion.ParseLazyPatch` | index.ts:19-22 | `"1.8.10"` and `"1.8.10_5"` both give patch 1 and update 0 |
| `JavaVersion.ParseCarriageReturn` | index.ts:19-23 | a version line ending in a carriage return still parses to 1, 8, 0, 151 |
| `JavaVersion.ParseTooShort` | index.ts:19-20 | `"1.8"` does not parse |
| `JavaVersion.MatchAt` | index.ts:19-23 | one attempt of the expression anchored at a position; a version it yields has a one-digit patch (`MatchAtLazy` gives the groups) |
| `JavaVersion.MatchAtLazy` | index.ts:19-23 | wherever some split of the three groups starts, the anchored attempt succeeds with the lazy (lexicographically least) split |
| `JavaVersion.Search` | index.ts:19 | `match` scans start positions left to right; a version it yields has a one-digit patch (`SearchFinds` and `SearchSkips` tie it to the expression) |
| `JavaVersion.UpdateAt` | index.ts:19-23 | the optional group `(?:_(\d+))?` and `matches[4] \|\| "0"`; `UpdateIsGreedy` states that it reads the whole digit run after the underscore, and `ParseNoUpdate` that a missing group gives 0 |
| `JavaVersion.SearchFinds` | index.ts:19 | a match starting at or after the search position is found |
| `JavaVersion.SearchSkips` | index.ts:19 | positions where no match starts are passed over without changing the result |
| `Install.ProbeLines` | index.ts:70-71 | the trimmed standard output splits into at least one line, and no line holds a newline |
| `Install.ArchOf` | index.ts:73-84 | the `switch` on line 2 of the output; `HelperOutputLines` states the mapping "32" to x86, "64" to x64 and anything else to unknown for two-line output, and `NoSecondLine` states that a missing second line gives unknown |
| `Install.NoSecondLine` | index.ts:70-84 | output whose trimmed text holds no newline is a single line, and the architecture is unknown |
| `Install.HelperOutputLines` | index.ts:70-84 | output "version\nbits" plus trailing white space reads back as exactly those two lines; "32" gives x86, "64" gives x64, anything else unknown |
| `Install.WindowsHelperOutput` | index.ts:70-84 | CRLF output `"1.8.0_151\r\n64\r\n"` gives the lines `"1.8.0_151\r"` and `"64"`, so the architecture is x64 |
| `Install.JavaInstall.constructor` | index.ts:35-39 | a new install has its path, is neither resolved nor invalid, and has no architecture or version |
| `Install.JavaInstall.EnsureInfo` | index.ts:60-95 | a process is spawned exactly when the install is not invalid. An invalid install stays invalid and nothing changes. An exec error makes it invalid and rejects. Otherwise the architecture comes from line 2, and the version from line 1 or the constructor throws. `gotInfo` stays false |
| `Install.ProbeRepeatedly` | index.ts:60-95 | repeated probes spawn a process every time up to and including the first failure, and never after it; the install is invalid exactly when some probe failed |
| `Utils.Flatten` | utils.ts:69-71 | the flattened length is the sum of the inner lengths |
| `Utils.FlattenAppend` | utils.ts:69-71 | flattening distributes over concatenation |
| `Utils.FlattenAt` | utils.ts:69-71 | element j of inner array i sits at the total length of the arrays before i, plus j |
| `Utils.FlattenContains` | utils.ts:69-71 | x is in the flattened array exactly when it is in some inner array |
| `Utils.Permutations` | utils.ts:37-45 | the nested loops produce the row-by-row cartesian product |
| `Utils.ProductAt` | utils.ts:37-45 | the product has \|a\|·\|b\| elements, with `[a[i], b[j]]` at index i·\|b\|+j |
| `Utils.PromiseCache.constructor` | utils.ts:48-49 | both `cache` and `currentlyExecutingPromise` start null, and the producer has not run |
| `Utils.PromiseCache.Call` | utils.ts:51-66 | a cached value is returned as is; a held promise is shared; only when both are null is the producer invoked, once, and its promise held |
| `Utils.PromiseCache.Complete` | utils.ts:55-62 | the result is cached only if nothing is cached yet (which always holds while a promise is pending); the held promise is cleared |
| `Utils.PromiseCache.Fail` | utils.ts:53-65 | a rejection leaves the rejected promise held and nothing cached |
| `Utils.PromiseCache.CallRepeatedly` | utils.ts:52-53 | while something is cached or held, calls change nothing and all return the same thing |
| `Utils.SingleFlight` | utils.ts:53-64 | callers that arrive while the first run is pending all share its promise, and the producer runs once |
| `Utils.ResultIsCached` | utils.ts:52-58 | after a non-null result every call returns it, and there is no second producer run |
| `Utils.NullIsNotCached` | utils.ts:55-59 | a null result is not cached, so the next call runs the producer again |
| `Utils.RejectionIsPermanent` | utils.ts:53-65 | after a rejection every call returns the same rejected promise, and the producer is never retried |
| `Candidates.All` | index.ts:163 | `Promise.all` rejects exactly when some promise rejects; otherwise it yields every value in order |
| `Candidates.LinuxList` | index.ts:124-128 | the Linux list is `"java"` (the shared default of index.ts:98), `/opt/java/bin/java`, `/usr/bin/java` |
| `Candidates.MacList` | index.ts:136-141 | the macOS list is `"java"`, then the Xcode, applet-plugin and JavaVM-framework paths, as written |
| `Candidates.WindowsList` | index.ts:166-181 | the Windows list is the six `javaw.exe` paths, including `(x76)` and `(x66)` as written, then `"java"`; the registry keys are the JRE key, then the JDK key |
| `Candidates.DirCandidatesLayout` | index.ts:147-161 | each scanned directory yields its two derived paths, in directory order |
| `Candidates.DirCandidates` | index.ts:147-161 | one listing mapped to two joined paths per directory and flattened, rejecting when the listing rejects; `DirCandidatesLayout` states the positions |
| `Candidates.FindJavasMac` | index.ts:143-164 | the macOS enumeration: the fixed four, then the two listings' derived pairs, all through `Promise.all`; its whole layout and when it rejects are stated by `MacLayout` |
| `Candidates.MacLayout` | index.ts:143-164 | macOS rejects exactly when a listing fails. Otherwise there are 4 + 2·\|lib\| + 2·\|sys\| candidates: the fixed four, then the `/Library`-derived pairs, then the `/System`-derived pairs |
| `Candidates.JavawPath` | index.ts:211 | a `JavaHome` not ending in a backslash yields `JavaHome\bin\javaw.exe` |
| `Candidates.FindJavasFromRegistryKey` | index.ts:195-221 | a failing `keys` call contributes nothing; otherwise there is one `javaw.exe` path per `JavaHome`, in order |
| `Candidates.RegistryResults` | index.ts:187-190 | the `forEach` pushes, the 64-bit then the 32-bit view of each key in turn; `FindJavasWindows` is proved to accumulate exactly these |
| `Candidates.KeyCandidates` | index.ts:195-221 | what one key and view contribute; `FindJavasFromRegistryKey` is proved equal to it: nothing on a failing `keys` call, otherwise one `javaw.exe` path per `JavaHome`, in order |
| `Candidates.WindowsCandidates` | index.ts:183-193 | the Windows enumeration as a specification; the loop `FindJavasWindows` is proved equal to it, and `RegistryHomeFound` shows every found `JavaHome` reaches it |
| `Candidates.FindJavasWindows` | index.ts:183-193 | the loop over the registry keys yields the fixed list, then JRE/x64, JRE/x86, JDK/x64, JDK/x86 |
| `Candidates.RegistryHomeFound` | index.ts:183-192 | every `JavaHome` found under either key in either view becomes a candidate, whatever the other lookups do; the fixed seven come first |
| `Discovery.Filter` | index.ts:118 | a path is kept exactly when it is a candidate and executable |
| `Discovery.Enumerate` | index.ts:102-115 | the `switch` on the platform: only macOS can reject, and `"java"` is a candidate on every platform (the lists per platform are stated by `EnumeratePerPlatform`) |
| `Discovery.Unique` | index.ts:119 | `unique` by path; `UniqueFromSpec` states that it keeps every element once, without repeats, in first-occurrence order |
| `Discovery.Discover` | index.ts:117-119 | enumerate, keep the executable paths, deduplicate; its result is characterised by `GetJavasResult` and its rejection by `DiscoverRejects` |
| `Discovery.UniqueFromSpec` | index.ts:119 | deduplication keeps every unseen element once, with no repeats, in the order of first occurrence |
| `Discovery.FilterKeepsOrder` | index.ts:117-118 | filtering preserves the order of first occurrences |
| `Discovery.GetJavas` | index.ts:100-121 | the producer enumerates for the platform, filters and deduplicates, as `Discover` describes |
| `Discovery.GetJavasResult` | index.ts:117-119 | every returned path is an executable candidate; no two are equal; every executable candidate appears exactly once; the order is that of first occurrence |
| `Discovery.DiscoverRejects` | index.ts:143-164 | discovery rejects exactly on macOS with a failed directory listing |
| `Discovery.EnumeratePerPlatform` | index.ts:102-131 | an unknown platform gives only `"java"`; Linux gives exactly the three fixed paths; Windows starts with the fixed seven |
| `Discovery.CachedGetJavas` | index.ts:100-121 | through the cache, discovery runs once. Later calls return the cached list after a success, and the same rejected promise after a failure |

## Left out

- The child process of `ensureInfo` (`execFile`, the 1000 ms timeout, the helper jar path): its outcome is the `ExecResult` argument of `EnsureInfo`.
- What happens after the `JavaVersion` constructor throws inside the `execFile` callback: the model records the `Threw` outcome with `arch` already written, but not the uncaught exception that follows.
- Windows registry access through WinReg: each key and view is an input `KeyLookup`. A subkey without `JavaHome` never calls its callback, so the registry promise never settles; that hang is not modelled.
- `allDirectories` (`readdir`, `stat`) and `canExecute` (`fs.access`): the directory lists and the executability predicate are inputs. The order of `allDirectories` results and of the registry walk depends on callback completion; it is whatever order the input gives.
- Asynchronous scheduling and interleaving: `PromiseCache` is driven by sequential events. `EnsureInfo` merges the call and its `execFile` callback into one step, so two `ensureInfo` calls that overlap before the first callback (both spawn, index.ts:61-63) are not modelled; `ProbeRepeatedly` covers sequential calls only. `Complete` and `Fail` require a pending producer promise, since only a running producer can settle.
- `process.platform` is the `platform` field of `Host`.
- `getJavas` returns `JavaInstall` objects, while the model returns their paths. The shared `defaultJava` object is just the path `"java"`, since only path identity matters.
- Candidates.JoinPath: a helper standing for Node's `path.join`; it only inserts one separator between a directory and a part. `path.join` normalisation (`.`, `..`, repeated separators, win32 turning `/` into `\`) is not modelled.
- JsString.ParseInt: exact on all digit strings. JavaScript numbers lose precision above 2^53, and that rounding is not modelled.
- JavaScript strings are UTF-16 code units; the model's characters are Unicode scalar values.
