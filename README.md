# Preload-icon generator, runtime app config and base-path joining, in Dafny

This project models three pieces of the vben-admin monorepo that hold logic
of their own:

- **The preload-icon generator** (`scripts/iconify/generate-preload-config-icons.mjs`).
  It takes the search tool's output for two patterns: icon fields and
  attributes in configuration, and `createIconifyIcon('prefix:name')` calls.
  From each match line it pulls the first `prefix:name` reference. It drops
  the `svg` prefix and counts references in a `Map`. It groups names by
  prefix in `Set`s. Then it sorts prefixes and names, extracts one icon-set
  subset per prefix, and fails hard when a subset is missing. Before any of
  this it locates the installed icon packages by directory name. It also
  emits a module whose `preloadIconifyConfigIcons` registers every subset
  once, guarded by a `preloaded` flag.
- **`useAppConfig` and `resolveApiURL`** (`packages/effects/hooks/src/use-app-config.ts`).
  `useAppConfig` picks the runtime global configuration in production and
  the build environment otherwise, fills in defaults, and adds a DingTalk
  auth block only when both ids are set. `resolveApiURL` looks up the
  current `host`, then the `hostname`, in a JSON object map of API URLs.
- **`withBase`** (`apps/web-tdesign/src/preferences.ts`). It drops one
  leading `/` from a path and prefixes the deployment base, which defaults
  to `/`.

Layout:

- `common.dfy` holds two modules:
  - `Common`: `Option`, `Result`, `Distinct`, `StartsWith`.
  - `Ordering`: the string order the generator sorts by, and an insertion
    `Sort` proved sorted, a permutation, and insensitive to input order.
- `icon_scan.dfy` (`IconScan`) covers the match lines:
  - `extractIcon` as the leftmost-longest match of `[a-z0-9-]+:[a-z0-9-]+`;
  - `split(/\r?\n/)`, `trim` and `filter(Boolean)`;
  - the exit-status-1 rule of `runRg`;
  - the two `split(':')` calls.
- `icon_collect.dfy` (`IconCollect`) holds the aggregation loops as methods
  with loop invariants, `findPnpmPackageDir`, and the run from the package
  lookups to the built `collections`.
- `preload_module.dfy` (`PreloadModule`) models the emitted module: a class
  with the `preloaded` flag, and the icon registry as a class that records
  `addCollection` calls.
- `app_config.dfy` (`AppConfig`) models `useAppConfig` and `resolveApiURL`
  over a datatype of JavaScript values.
- `preferences.dfy` (`Preferences`) models `withBase`.

Inputs that the source gets from its environment are parameters here:

- the search tool's runs (`SearchRun`);
- the listing of `node_modules/.pnpm` (`seq<DirEntry>`);
- the icon-set files (`map<string, IconSet>`, where a missing key means a
  missing file);
- `getIcons` (a function returning `Option<Subset>`);
- `JSON.parse` (a function returning None when it throws);
- `window`, its `location` and the injected `_VBEN_ADMIN_PRO_APP_CONF_` (`Browser`);
- `BASE_URL` (`Option<string>`).

## Model

| member | source | states |
|---|---|---|
| `IconScan.ExtractIcon` | scripts/iconify/generate-preload-config-icons.mjs:62-65 | The result is None exactly when no substring of the line matches `[a-z0-9-]+:[a-z0-9-]+`. Otherwise it is the match a regex engine reports: the leftmost start, longest at that start. The result is always a well-formed `prefix:name`. |
| `IconScan.FindFrom` | scripts/iconify/generate-preload-config-icons.mjs:63 | The search from a start position finds a match that no match starting at or after that position beats: none starts further left, and none at the same start is longer. None means no match starts at or after the position. |
| `IconScan.SplitJoin` | scripts/iconify/generate-preload-config-icons.mjs:127-134 | For an icon name, `split(':', 1)[0]` and the second piece of `split(':')` are non-empty `[a-z0-9-]` runs. Joining them with `:` gives the name back. |
| `IconScan.JoinSplit` | scripts/iconify/generate-preload-config-icons.mjs:134 | Joining two non-empty `[a-z0-9-]` runs with `:` gives an icon name whose prefix and name split back into the two runs. |
| `IconScan.PrefixOfSplit` | scripts/iconify/generate-preload-config-icons.mjs:127 | `icon.split(':', 1)[0]` is the start of `icon` up to its first colon: it holds no colon and ends where `icon` or its first colon does. |
| `IconScan.NameOfSplit` | scripts/iconify/generate-preload-config-icons.mjs:134 | The second element of `icon.split(':')` is the text after the first colon up to the next colon or the end. It holds no colon, and stands for `undefined` as `""` when `icon` has no colon. |
| `IconScan.SearchOutput` | scripts/iconify/generate-preload-config-icons.mjs:47-58 | `runRg` yields the tool's output on success and the empty string on exit status 1. Any other failure, including no status at all, is an error carrying that status. |
| `IconScan.SplitLines` | scripts/iconify/generate-preload-config-icons.mjs:112 | `split(/\r?\n/)` gives one more piece than there are `\n` characters, and no piece contains `\n`. |
| `IconScan.SplitLinesNoBreak` | scripts/iconify/generate-preload-config-icons.mjs:112 | Text without `\n` is a single piece, the text itself. |
| `IconScan.SplitLinesCrLf` | scripts/iconify/generate-preload-config-icons.mjs:112 | A `\r\n` break ends the first piece, and the `\r` does not stay in it: `a + "\r\n" + b` splits into `a` followed by the pieces of `b`. |
| `IconScan.SplitLinesLf` | scripts/iconify/generate-preload-config-icons.mjs:112 | A bare `\n` after a piece not ending in `\r` ends that piece unchanged: `a + "\n" + b` splits into `a` followed by the pieces of `b`. |
| `IconScan.SplitLinesRoundTrip` | scripts/iconify/generate-preload-config-icons.mjs:112 | On text without `\r`, joining the pieces with `\n` restores the text. |
| `IconScan.Trim` | scripts/iconify/generate-preload-config-icons.mjs:113 | `s.trim()` is no longer than `s`, and is empty or neither starts nor ends with white space. |
| `IconScan.TrimSlice` | scripts/iconify/generate-preload-config-icons.mjs:113 | What `trim` leaves is one contiguous slice of its input, and every character cut off before or after it is white space. |
| `IconScan.TrimKeepsAbsent` | scripts/iconify/generate-preload-config-icons.mjs:113 | Trimming adds no character: one absent from a line is absent from its trim. |
| `IconScan.TrimNonEmpty` | scripts/iconify/generate-preload-config-icons.mjs:113-114 | After `.map(trim).filter(Boolean)` every kept line is non-empty and trimmed at both ends, and no more lines are kept than came in. |
| `IconScan.TrimNonEmptyMembers` | scripts/iconify/generate-preload-config-icons.mjs:113-114 | A string is kept exactly when it is non-empty and is the trim of some input line. |
| `IconScan.TrimNonEmptyAppend` | scripts/iconify/generate-preload-config-icons.mjs:113-114 | Cleaning a concatenation gives the concatenation of the cleaned parts, so every kept line stays, in order, with its repeats. |
| `IconScan.TrimNonEmptySingle` | scripts/iconify/generate-preload-config-icons.mjs:113-114 | One line gives its trim when that is non-empty, and nothing otherwise. |
| `IconScan.MatchLines` | scripts/iconify/generate-preload-config-icons.mjs:111-119 | One search's cleaned lines are at most one per line break plus one, and none is empty or holds a line break. |
| `IconScan.RawMatches` | scripts/iconify/generate-preload-config-icons.mjs:111-121 | `rawMatches` is the cleaned config-search lines followed by the cleaned factory-search lines. It is an error exactly when either search fails. The config search's error wins when it fails; otherwise the factory search's error is the result. |
| `IconCollect.IconOf` | scripts/iconify/generate-preload-config-icons.mjs:125-128 | A line contributes its extracted icon exactly when there is one and its prefix is not `svg`. What it contributes is always that extracted icon, an icon name without the `svg` prefix. |
| `IconCollect.OccurrencesPositive` | scripts/iconify/generate-preload-config-icons.mjs:123-130 | An icon's count is positive exactly when some line contributes it. |
| `IconCollect.OccurrencesAppend` | scripts/iconify/generate-preload-config-icons.mjs:121-130 | Counting over the config matches followed by the factory matches is the sum of the two counts. |
| `IconCollect.CountIcons` | scripts/iconify/generate-preload-config-icons.mjs:123-130 | `icons` has a key exactly when some line contributes it. Each count is the number of lines contributing that key. No key has the `svg` prefix, and every key is a `prefix:name`. The key order lists each key once. |
| `IconCollect.GroupByPrefix` | scripts/iconify/generate-preload-config-icons.mjs:132-137 | Each key's name is filed under its prefix. Every filed name comes from a key with that prefix. Each prefix's names are non-empty and free of repeats. The prefix order lists each grouped prefix once. |
| `IconCollect.GroupingExact` | scripts/iconify/generate-preload-config-icons.mjs:132-137 | When every key is an icon name, `name` is filed under `prefix` exactly when `prefix:name` is a key. |
| `IconCollect.IconNameParts` | scripts/iconify/generate-preload-config-icons.mjs:134 | If `prefix:name` is an icon name, splitting it gives back exactly `prefix` and `name`. |
| `IconCollect.PrefixesExact` | scripts/iconify/generate-preload-config-icons.mjs:132-141 | A prefix is grouped exactly when some raw line contributes an icon with that prefix, and `svg` is never grouped. |
| `IconCollect.NamesExact` | scripts/iconify/generate-preload-config-icons.mjs:132-137 | The names grouped under a prefix are exactly the names `n` for which `prefix:n` has a positive count. |
| `IconCollect.ReferencedNamesSortUnique` | scripts/iconify/generate-preload-config-icons.mjs:145-147 | Any two repeat-free lists of the names referenced under a prefix sort to the same list, so the names handed to `getIcons` are fixed by the lines. |
| `IconCollect.FailureIsFirst` | scripts/iconify/generate-preload-config-icons.mjs:143-154 | When the collections loop stops at some prefix, its error is that of the first failing referenced prefix in sort order, and not every prefix resolves. |
| `IconCollect.SuccessResolves` | scripts/iconify/generate-preload-config-icons.mjs:143-154 | When the collections loop completes, every referenced prefix resolves and each collection is the subset extracted for its prefix's referenced names. |
| `IconCollect.IconCountExact` | scripts/iconify/generate-preload-config-icons.mjs:123-130 | `icons.size` is the number of distinct icons the lines contribute. |
| `IconCollect.OccurrencesSnoc` | scripts/iconify/generate-preload-config-icons.mjs:129 | One more line adds one to the count of the icon it contributes and nothing to any other icon. |
| `IconCollect.SubsetFor` | scripts/iconify/generate-preload-config-icons.mjs:145-153 | One prefix fails with `MissingIconSet` when its icon-set file is absent, and with `EmptySubset` when `getIcons` returns nothing for its sorted names. Otherwise the result is that subset. |
| `IconCollect.BuildCollections` | scripts/iconify/generate-preload-config-icons.mjs:143-154 | On success there is one collection per prefix, in prefix order, each the subset for that prefix. On failure the error is that of some prefix, and every earlier prefix succeeded, so the first failing prefix stops the loop. |
| `IconCollect.Candidates` | scripts/iconify/generate-preload-config-icons.mjs:70-72 | The names kept are exactly those of directory entries named `<prefix>@...`. |
| `IconCollect.FindPnpmPackageDir` | scripts/iconify/generate-preload-config-icons.mjs:67-78 | It fails, naming the package, exactly when no directory entry is named `<prefix>@...`. Otherwise it returns the name of such an entry, and that name is the least of all of them in sort order. |
| `IconCollect.Aggregate` | scripts/iconify/generate-preload-config-icons.mjs:123-154 | It succeeds exactly when every referenced prefix has an icon set and a non-empty subset. On success the emitted prefixes are sorted, appear once each, never include `svg`, and are exactly the referenced prefixes. Each collection is `getIcons` applied to that prefix's icon set and the sorted, repeat-free names referenced under it. The icon count is the number of distinct icons contributed. On failure the error is that of a referenced prefix, and every referenced prefix sorting before it resolves. |
| `IconCollect.Generate` | scripts/iconify/generate-preload-config-icons.mjs:80-154 | A missing `@iconify+json` directory aborts first, then a missing `@iconify+utils` directory. Then a failing search aborts with that search's error. The run succeeds exactly when both packages are found, both searches succeed and every referenced prefix resolves. A success emits what `Aggregate` states about the raw matches, and any other failure is the first failing prefix's error. |
| `Ordering.Sort` | scripts/iconify/generate-preload-config-icons.mjs:139-147 | `toSorted` gives a sorted permutation of its input. |
| `Ordering.SortDeterministic` | scripts/iconify/generate-preload-config-icons.mjs:139-147 | Inputs with the same elements sort to the same sequence, so the output does not depend on `Map`/`Set` insertion order. |
| `Ordering.SortedUnique` | scripts/iconify/generate-preload-config-icons.mjs:139-147 | Two sorted sequences with the same elements are equal. |
| `Ordering.SortKeepsDistinct` | scripts/iconify/generate-preload-config-icons.mjs:145-147 | Sorting the names of a `Set` leaves them free of repeats. |
| `Ordering.SortedHeadLeast` | scripts/iconify/generate-preload-config-icons.mjs:73 | The element at `[0]` of a sorted sequence is below or equal to every element. |
| `Ordering.LexLeTransitive` | scripts/iconify/generate-preload-config-icons.mjs:139-147 | The sort order is transitive. |
| `Ordering.LexLeTotal` | scripts/iconify/generate-preload-config-icons.mjs:139-147 | Any two strings are comparable. |
| `Ordering.LexLeAntisymmetric` | scripts/iconify/generate-preload-config-icons.mjs:139-147 | Strings that are ordered both ways are equal. |
| `PreloadModule.PreloadConfigIcons.constructor` | scripts/iconify/generate-preload-config-icons.mjs:170-171 | The module starts with its embedded collections and with `preloaded` false. |
| `PreloadModule.PreloadConfigIcons.Preload` | scripts/iconify/generate-preload-config-icons.mjs:176-182 | The first call adds every collection once, in order, and sets `preloaded`. A call after that adds nothing and leaves the registry unchanged. |
| `PreloadModule.PreloadTwice` | scripts/iconify/generate-preload-config-icons.mjs:176-182 | Two calls on a fresh module leave the registry as one call does: every collection added exactly once. |
| `PreloadModule.Registry.AddCollection` | scripts/iconify/generate-preload-config-icons.mjs:180 | `addCollection` records the collection after those already added. |
| `AppConfig.ConfigSource` | packages/effects/hooks/src/use-app-config.ts:14-15 | Outside production the source is `env`. In production, reading the global without a `window` fails, as the ReferenceError does. With a `window` the source is the global, unless the global is `null`/`undefined`, in which case it falls back to `env`. |
| `AppConfig.UseAppConfig` | packages/effects/hooks/src/use-app-config.ts:9-38 | It fails exactly in production without a `window`. Otherwise `apiURL` is resolved from the chosen configuration's URL (`''` when unset) and URL map. `auth.dingding` is present exactly when both ids are truthy, and then it holds those ids. With no configuration at all, `apiURL` is `''` and `auth` is empty. |
| `AppConfig.ResolveApiURL` | packages/effects/hooks/src/use-app-config.ts:40-65 | The default comes back when the map is not a non-empty string or there is no `window`. It also comes back when parsing throws or gives anything other than a plain object. Otherwise a non-empty string under `host` wins, then one under `hostname`, then the default. The result is always the default or a non-empty string. |
| `AppConfig.NonProductionIgnoresGlobal` | packages/effects/hooks/src/use-app-config.ts:14-15 | Outside production the result does not depend on the global on `window`. |
| `AppConfig.ProductionGlobalWins` | packages/effects/hooks/src/use-app-config.ts:14-15 | In production with a `window`, a global that is not `null`/`undefined` makes the result independent of `env`. |
| `AppConfig.ProductionNullishGlobalFallsBack` | packages/effects/hooks/src/use-app-config.ts:14-15 | In production with a `window`, a `null`/`undefined` global gives the same result as the non-production path. |
| `Preferences.EffectiveBase` | apps/web-tdesign/src/preferences.ts:5 | An unset or empty `BASE_URL` is `/`. Any other `BASE_URL` is used as it is. The base is never empty. |
| `Preferences.StripLeadingSlash` | apps/web-tdesign/src/preferences.ts:6 | `path.replace(/^\//, '')` is the path itself, or the path with one `/` removed from its front; it is shorter exactly when the path starts with `/`. |
| `Preferences.WithBase` | apps/web-tdesign/src/preferences.ts:3-6 | The result starts with the base. What follows the base is the path with one leading `/` removed, if it had one. |
| `Preferences.SlashInsensitive` | apps/web-tdesign/src/preferences.ts:6 | When `x` does not start with `/`, `withBase('/' + x)` equals `withBase(x)`. |
| `Preferences.OnlyOneSlashStripped` | apps/web-tdesign/src/preferences.ts:6 | `withBase('//' + x)` is the base followed by `'/' + x`. |
| `Preferences.WithBaseInjective` | apps/web-tdesign/src/preferences.ts:6 | Two paths join to the same URL exactly when they agree once one leading `/` is dropped. |

## Left out

- Running `rg` and its arguments (the search patterns, globs, directories and the exclusion of the generated file) are external-process I/O. Each search is an input `SearchRun`, and only the exit-status-1 rule is modelled.
- `getIcons` comes from `@iconify/utils`, whose code is not part of this model. It is a function parameter returning an optional subset, so alias flattening and the contents of a subset are not modelled.
- `loadIconSet`'s file read and JSON parse, `readdirSync`, `writeFileAtomic`, the `eslint --fix`/`prettier` runs, the header and `JSON.stringify` layout of the emitted text, and the final `console.log` summary are filesystem, external tools or text layout. Icon-set files are a map from prefix to data, so an icon-set file that exists but does not parse is not modelled. `Generated.iconCount` carries the summary's icon count.
- `IconCollect.FindPnpmPackageDir`: returns the matching entry's name, not the joined path `node_modules/.pnpm/<name>`. `path.join` is not modelled.
- `Ordering.Sort`: `localeCompare` collation is locale-dependent. It is modelled as plain character-by-character order, which agrees with it on the lower-case `[a-z0-9-]` prefixes and names only up to the locale's ordering of `-` and digits against letters. The same order stands in for the default `toSorted()` of `findPnpmPackageDir`, which compares UTF-16 code units. That differs from Dafny's character order only for characters outside the Basic Multilingual Plane.
- `IconScan.IsJsWhitespace` lists the characters `String.prototype.trim` removes, as fixed by the ECMAScript standard. A future Unicode `Zs` addition is not tracked.
- `IconScan.NameOf`: for a string without a colon JavaScript gives `undefined`. The model gives `""` there. The keys it is applied to always contain a colon (`CountIcons` guarantees it), so this case does not arise.
- `PreloadModule.PreloadConfigIcons.Preload`: `addCollection`'s effect on the icon storage is modelled as a log of the collections handed to it. Network loading of icons outside the subsets is not modelled.
- `AppConfig`: JavaScript numbers are integers here, so `NaN`, `-0` and fractions are not modelled; they matter only to truthiness of ids.
- `AppConfig`: property reads see only own properties. Inherited `Object.prototype` members (`constructor`, `toString`, ...) are never non-empty strings, so every branch of the source comes out the same.
- `AppConfig.ResolveApiURL`: `window.location` is an input (`Browser`), and `JSON.parse` is a function parameter (None when it throws).
- `AppConfig.UseAppConfig`: the ReferenceError thrown when production code runs without a `window` is the result None; its message is not modelled.
- `IconCollect.CountIcons`, `IconCollect.GroupByPrefix`: the order in which `Map` and `Set` yield keys and names is not stated. Prefixes and names are sorted before anything uses them.
- `overridesPreferences` and the other declarative files of the repository (route tables, type shims, constants, Vite and Nitro configuration, HTTP wrappers, the lint orchestrator, the Vercel output bridge) are framework glue with no logic of their own.
