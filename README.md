# Nippy configuration store and `camelize`, modelled in Dafny

Nippy is a small layer for bootstrapping Node.js backend services. Its core is a
hierarchical configuration store:

- `Config` keeps configuration keys as properties of the instance.
- `get` reads a key in dot notation (`"server.port"`) and `set` writes one.
  Both descend into nested objects. `set` puts `{}` where an intermediate
  property is absent or falsy.
- `load(file)` reads `<path>/<file>.json` and `set`s each top-level entry.
- The constructor records `cwd` and `env`, then loads `default.json` and
  `<env>.json`, ignoring any failure.
- `toJSON` exports every stored key except `options`, `cwd` and `env`.
- A module-level registry keeps one instance per configuration path (`init`),
  and `config(key)` reads from the instance for the default path.

The helper `camelize` turns `"foo-bar baz"` into `"fooBarBaz"`.

The model is organised as follows:

| file | module | what it holds |
|---|---|---|
| `json_value.dfy` | `JsonValue` | stored values (JSON without arrays or floats), JavaScript truthiness, errors and results |
| `key_path.dfy` | `KeyPath` | how a dotted key is cut into a head property and the rest; the cut the source's regular expression makes |
| `store.dfy` | `Store` | `_get`/`get` and `_set`/`set` as functions on the map of stored keys, and their properties |
| `loading.dfy` | `Loading` | `load`'s loop and the constructor's bootstrap steps as functions on the store |
| `configuration.dfy` | `Configuration` | the classes: `Config` (a `store` field its methods update) and `Registry` (the `_configs` map) |
| `helpers.dfy` | `Helpers` | `camelize`, its splits, a one-pass reference definition, and its properties |

The reads are functions. The source's state changes are methods on `Config`
and `Registry`, proved against those functions:
- `set` assigns properties in place;
- `load` loops calling `set`;
- the constructor runs its steps in order;
- `toJSON` builds an object in a loop;
- `init` updates `_configs`.

The process (`cwd`, `NODE_ENV`, the module's directory) and the readable
configuration files are parameters:
- `Process` holds the process values;
- `Files` maps each resolved file name to its parsed top-level entries.

### Behaviour of the code worth knowing

- **`env` is optional.** `env` is recorded only when `NODE_ENV` is non-empty, and nothing else sets it (`src/config/config.ts:109`).
- **Environment mapping.** The mapping loop has its `set` commented out, so no environment variable is copied into the store (`src/config/config.ts:135-139`).
- **No fallback in `get`.** `get` takes no fallback argument (`src/config/config.ts:200`).
- **`set` can throw.** It is not total: writing through a truthy string, number or boolean throws a TypeError (the compiled module runs in strict mode).
- **Missing intermediates in `get`.** A read through a missing intermediate does not stop at "not found". `_get` declares `context = this` as a default parameter (`src/config/config.ts:179`), and JavaScript uses the default whenever the argument is `undefined`. So when the head of a key is absent, or is a string, number or boolean, the rest of the key is read again from the instance itself. With no `server` object, `get("server.port")` returns a top-level `port`, and `get("missing.key")` reports `missing.key` as not found only because there is no top-level `key` (`Store.GetRestartsAtRoot`, `Store.GetRestartExamples`). Only an intermediate `null` makes the read throw a TypeError.
- **`init` ignores its options.** `init(path, options)` passes `options` into the constructor's unused second parameter.
- **Default path.** The default path is `cwd` (or the module's directory when `cwd` is empty) with `/config` appended. No environment variable changes it.
- **An instance without a path.** `DEFAULT_OPTIONS` (`src/config/config.ts:27-31`) holds no `path`, so `new Config()`, or `new Config({load_env: false})` before any `init` has merged a path in, has none. `load` then calls `path.join(undefined, file)` for a relative file (`src/config/config.ts:151`). That call throws a TypeError before `load`'s own `try` (`src/config/config.ts:158`), so the error is not turned into `failed to load config file …`. The constructor swallows it, so such an instance loads neither `default.json` nor the environment's file (`Loading.NoPathLoadsNothing`), although the constructor's doc comment (`src/config/config.ts:77-81`) says the default path is used. An explicit `load("x")` on it throws the TypeError (`Loading.LoadFrom`). Only an absolute file name is still read.

## Model

| member | source | states |
|---|---|---|
| KeyPath.IndexFrom | src/config/config.ts:181 | `indexOf(".")` searching from an index: -1 or an index holding `.` |
| KeyPath.IndexOf | src/config/config.ts:181 | `key.indexOf(".")` is -1 or an index of the key holding a dot |
| KeyPath.IndexOfFirst | src/config/config.ts:181 | `key.indexOf(".")` is -1 exactly when the key has no dot; otherwise it holds a dot and no dot comes before it |
| KeyPath.SplitKey | src/config/config.ts:181-184 | a key descends only when its first dot is at an index > 0; the rest is strictly shorter |
| KeyPath.SplitKeyShape | src/config/config.ts:181-184 | a key is one property name iff it has no dot or starts with `.`; otherwise key == head + "." + rest with a non-empty, dot-free head |
| KeyPath.Segments | src/config/config.ts:181-184 | the repeated first-dot cuts give at least one segment, and an unsplit key is its own only segment |
| KeyPath.SegmentsHead | src/config/config.ts:181-184 | the first segment is the head property `_get`/`_set` step into |
| KeyPath.SegmentsRoundTrip | src/config/config.ts:181-184 | joining the segments with dots gives the key back |
| KeyPath.SegmentsAreNames | src/config/config.ts:181-184 | every segment but the last is a non-empty name without a dot |
| KeyPath.LastSegmentIsLeaf | src/config/config.ts:181-184 | the last segment is read or written as one property name |
| KeyPath.SplitKeyExamples | src/config/config.ts:181-184 | `"a.b.c"` descends into `a` with rest `"b.c"` and has segments a, b, c; `".x"` and `"x"` are single keys |
| KeyPath.RegexDotFrom | src/config/config.ts:183 | where `/\.(.*)$/` matches: a dot with no line terminator anywhere after it |
| KeyPath.SplitAsWritten | src/config/config.ts:181-184 | the split as written leaves the key whole exactly when the first-dot split does; its parts join back to the key |
| KeyPath.SplitAsWrittenAgrees | src/config/config.ts:183 | on keys without line terminators the regular-expression split is the first-dot split |
| KeyPath.SplitAsWrittenDiffers | src/config/config.ts:183-184 | `"a.b\nc"` is not split by the regular expression, and `"a.b\nc.d"` is split at its second dot |
| Store.Child | src/config/config.ts:184-188 | `context[name]` is present exactly when the context is an object holding `name`, and is then that property's value |
| Store.Resolve | src/config/config.ts:179-189 | `_get` fails only with a TypeError (a read from `null`); what an `undefined` context reads, restarting at the instance, is stated by Store.GetRestartsAtRoot |
| Store.Report | src/config/config.ts:200-212 | what `get` returns is truthy or `false`; its only errors are the one `_get` threw and `no configuration for "<key>" found` |
| Store.Get | src/config/config.ts:200-212 | `get` returns only truthy values or `false`; it throws a TypeError or `no configuration for "<key>" found` |
| Store.Stepped | src/config/config.ts:226 | what `_set` steps into is truthy: the existing property, or a new `{}` |
| Store.Assigned | src/config/config.ts:241-247 | `set` either succeeds, after which `get` reads the value back (not-found for `null`, `0`, `""`), or throws a TypeError and leaves the store as it was |
| Store.SetIn | src/config/config.ts:222-232 | `_set` fails only with a TypeError |
| Store.ResolveAlongSegments | src/config/config.ts:179-189 | recursing on head and rest reads what walking the key's segments reads |
| Store.SetAlongSegments | src/config/config.ts:222-232 | recursing on head and rest writes what walking the key's segments writes |
| Store.SetWritesOnlyHead | src/config/config.ts:222-232 | `set` adds or replaces only the key's head property; every other stored key keeps its value |
| Store.GetByPath | src/config/config.ts:179-212 | when every proper prefix of the key's segments reaches an object, `get` returns what the segments reach, or throws not-found for nothing, `null`, `0` or `""` |
| Store.GetRestartsAtRoot | src/config/config.ts:179-212 | at the first proper prefix that does not reach an object: `null` throws a TypeError; nothing restarts the read at the instance with the remaining segments; a string, number or boolean gives not-found as the last step and otherwise restarts after the next segment; errors name the whole key |
| Store.GetRestartExamples | src/config/config.ts:179-212 | `get("server.port")` with no `server` reads the top-level `port`; `get("a.b.c")` with a string at `a` reads the top-level `c`; `get("missing.key")` on an empty store is not-found for the whole key |
| Store.SetThenGet | src/config/config.ts:200-247 | after a `set` that returns, `get` on the same key gives the value, or not-found when it is `null`, `0` or `""` |
| Store.SetThenGetSingleKey | src/config/config.ts:200-247 | for a key with no usable dot, `set` always succeeds and `get` returns the value, `false` included, unless it is `null`, `0` or `""` |
| Store.SetSucceedsIff | src/config/config.ts:222-232 | `set` returns iff no proper prefix of the key's segments reaches a truthy string, number or boolean |
| Store.SetFrame | src/config/config.ts:222-232 | every path that parts ways with the key's segments reaches the same thing before and after `set` (siblings at every level) |
| Store.SetIntermediates | src/config/config.ts:226-227 | after `set` each proper prefix of the segments reaches an object: the old object, or a new `{}` in place of an absent or falsy value, plus the next segment |
| Store.SetIntoEmpty | src/config/config.ts:226-227 | `set` on an empty object never throws |
| KeyPath.Tail | src/config/config.ts:181-184 | the key passed on after `i` cuts has exactly the key's segments from the `i`-th on |
| Loading.JsonFile | src/config/config.ts:151-155 | the file `load` reads ends in `.json`, and is the file itself plus `.json` when the file is absolute |
| Loading.FileName | src/config/config.ts:151-155 | a name is resolved unless the options hold no path and the file is relative (where `path.join(undefined, file)` throws); with a path it is the file under the path, and without one an absolute file plus `.json` |
| Loading.LoadFrom | src/config/config.ts:149-169 | `load` throws a TypeError exactly when the options hold no path and the file is relative, leaving the store as it was; otherwise it passes or fails with `failed to load config file <name>`; no stored key is removed |
| Loading.ApplyEntries | src/config/config.ts:162-164 | `load`'s loop only adds top-level properties, each the head of an entry's key; when it completes, every entry's head is stored |
| Loading.Loaded | src/config/config.ts:149-169 | `load` passes or fails with `failed to load config file <name>`; an unreadable file changes nothing; no stored key is removed; a pass stores every entry's head |
| Loading.EnvFileLoaded | src/config/config.ts:120-126 | the environment file's load removes no key, and changes nothing when `get("env")` throws or is not a string, or when the options hold no path and `env` is not an absolute path |
| Loading.Bootstrap | src/config/config.ts:106-126 | the constructor always leaves `cwd` stored, and `env` when `NODE_ENV` is non-empty |
| Loading.DocMap | src/config/config.ts:162-164 | the keys a document writes are exactly its entries' keys |
| Loading.LoadOverwritesTopLevel | src/config/config.ts:162-164 | loading plain keys gives store + document: each top-level key replaced whole, every other key kept, and the loop completes |
| Loading.LoadKeepsOtherKeys | src/config/config.ts:162-164 | a key that heads none of the document's keys is left as it was, whether or not the loop completes |
| Loading.LoadedDocument | src/config/config.ts:149-169 | a readable document of plain keys loads without throwing |
| Loading.LoadDoesNotMerge | src/config/config.ts:162-164 | a later object at a shared top-level key replaces the earlier object; its nested keys are not merged |
| Loading.LoadFailureNamesFile | src/config/config.ts:149-169 | without a path a relative file throws a TypeError and leaves the store unchanged; once the name is resolved every failure is `failed to load config file <name>.json`, an unreadable file leaves the store unchanged, and a throwing `set` keeps the entries before it |
| Loading.DefaultOptions | src/config/config.ts:27-31 | the default options load both files and hold no path |
| Loading.PathOptions | src/config/config.ts:92-104 | `new Config(path)` has that path and loads the default and environment files |
| Loading.ReservedKeysAreSingle | src/config/config.ts:108-109 | `cwd` and `env` are single property names |
| Loading.BootstrapWithoutFiles | src/config/config.ts:106-126 | with no readable files the constructor stores only `cwd`, and `env` when `NODE_ENV` is non-empty; failed loads never escape |
| Loading.NoDefaultEnvironment | src/config/config.ts:109 | with `NODE_ENV` unset and no `env` in the default file, `env` stays unset and `get("env")` throws not-found |
| Loading.EnvFileApplied | src/config/config.ts:119-126 | when `env` names a file of plain keys, that file is applied over the store |
| Loading.NoPathLoadsNothing | src/config/config.ts:112-155 | an instance whose options hold no path, with `NODE_ENV` not an absolute path, stores only `cwd`, and `env` when `NODE_ENV` is non-empty: both loads throw inside the constructor's `try` and read nothing |
| Loading.BootstrapCascade | src/config/config.ts:106-126 | the constructor's store is `cwd` and `env`, then the default file over them, then the environment file over that |
| Configuration.Exported | src/config/config.ts:254-265 | what `toJSON` exports: exactly the stored keys other than `options`, `cwd` and `env`, with their values |
| Configuration.Config.constructor | src/config/config.ts:87-141 | the new instance keeps its options, and its store is the bootstrap steps applied in order |
| Configuration.Config.Set | src/config/config.ts:241-247 | the store becomes what `_set` writes, or stays as it was when `_set` throws, with the error returned |
| Configuration.Config.Load | src/config/config.ts:149-169 | a relative file without a path throws a TypeError before anything is read; otherwise the loop leaves the store and outcome the load function defines for the resolved file |
| Configuration.Config.ToJSON | src/config/config.ts:254-265 | the loop over the stored keys builds exactly the export |
| Configuration.FreshConfigExportsNothing | src/config/config.ts:254-265 | an instance built without readable files exports nothing |
| Configuration.ExportedUnion | src/config/config.ts:254-265 | adding non-reserved keys to the store adds them unchanged to the export |
| Configuration.ExportedAfterLoad | src/config/config.ts:254-265 | after loading plain, non-reserved keys, the export is the old export plus the document |
| Configuration.DefaultPath | src/config/config.ts:11 | the default configuration path ends in `/config` |
| Configuration.Registry.constructor | src/config/config.ts:273 | the registry starts empty |
| Configuration.Registry.Init | src/config/config.ts:287-290 | the same instance for a path already registered, unchanged registry; otherwise a fresh instance, different from every registered one, built from the path and filed under it |
| Configuration.Registry.Lookup | src/config/config.ts:287-300 | `config(key)` is `get(key)` on the instance registered for the default path; the registry is unchanged when that instance exists, and otherwise gains exactly a fresh instance bootstrapped from the default path |
| Helpers.Upper | src/helpers.ts:15 | upper-casing leaves no lower-case ASCII letter and keeps separators and non-separators apart |
| Helpers.Lower | src/helpers.ts:16 | lower-casing leaves no upper-case ASCII letter and keeps separators and non-separators apart |
| Helpers.UpperFirst | src/helpers.ts:15 | a piece keeps its length when its first character is upper-cased |
| Helpers.LowerFirst | src/helpers.ts:16 | the result keeps its length and does not start with an upper-case letter |
| Helpers.Camelize | src/helpers.ts:5-17 | the empty string maps to the empty string; the result never starts with an upper-case letter |
| Helpers.Split | src/helpers.ts:8-14 | the default split has one piece more than separator characters and interleaving them gives the input back; a non-empty string separator's pieces joined with it give the input back; `""` gives one piece per character, the `i`-th holding the `i`-th character |
| Helpers.ConcatUpper | src/helpers.ts:15 | the capitalised pieces after the first are as long as those pieces together (which character ends where: Helpers.ScanIsSplitJoin, Helpers.ScanTextIsSplitJoin) |
| Helpers.JoinCapitalized | src/helpers.ts:15 | the join is as long as the pieces together and starts with the first piece unchanged (the rest of it: Helpers.ScanIsSplitJoin, Helpers.ScanTextIsSplitJoin) |
| Helpers.SplitOnDefault | src/helpers.ts:5-14 | the default split always has at least one piece |
| Helpers.SplitOnDefaultRoundTrip | src/helpers.ts:5-14 | there is one piece more than separator characters, and putting the separators back between the pieces gives the input |
| Helpers.SplitOnDefaultPieces | src/helpers.ts:5-14 | no piece of the default split holds a `-` or white-space character |
| Helpers.ScanIsSplitJoin | src/helpers.ts:15 | capitalising the pieces after the first and joining them is the one-pass scan that drops separators and upper-cases the character after them |
| Helpers.CamelizeIsScan | src/helpers.ts:5-16 | `camelize` with the default separator is the scan with its first character lower-cased |
| Helpers.ScanLength | src/helpers.ts:15 | the scan drops exactly the separator characters |
| Helpers.ScanHasNoSeparator | src/helpers.ts:15 | the scan's output holds no separator character |
| Helpers.ScanWithoutSeparators | src/helpers.ts:15 | the scan leaves a separator-free string unchanged |
| Helpers.LowerFirstIdempotent | src/helpers.ts:16 | lower-casing the first character twice is doing it once |
| Helpers.CamelizeLength | src/helpers.ts:15 | the output is as long as the input minus its separator characters |
| Helpers.CamelizeHasNoSeparator | src/helpers.ts:5-15 | with the default separator the output holds no `-` or white space |
| Helpers.CamelizeWithoutSeparators | src/helpers.ts:15-16 | an input without separators comes back with only its first character lower-cased |
| Helpers.CamelizeIdempotent | src/helpers.ts:5-16 | `camelize(camelize(s)) == camelize(s)` with the default separator |
| Helpers.CamelizeExamples | src/helpers.ts:5-16 | `"a-b"` becomes `"aB"` |
| Helpers.FindFrom | src/helpers.ts:10 | the search for the separator string returns -1 or an index where the separator fits |
| Helpers.FindFromFound | src/helpers.ts:10 | the index found is an occurrence of the separator |
| Helpers.FindFromFirst | src/helpers.ts:10 | no index the search passes over is an occurrence |
| Helpers.SplitTextFrom | src/helpers.ts:10 | the split on a non-empty string from an index always has at least one piece (what the pieces hold: Helpers.SplitOnTextRoundTrip) |
| Helpers.SplitOnText | src/helpers.ts:8-10 | a non-empty string separator gives at least one piece; the empty one gives one piece per character, the `i`-th holding the `i`-th character |
| Helpers.SplitOnTextRoundTrip | src/helpers.ts:8-10 | joining the pieces with the separator gives the input back, and no piece holds the separator |
| Helpers.ScanTextIsSplitJoin | src/helpers.ts:8-15 | splitting on a string and joining capitalised pieces is a left-to-right scan that skips each occurrence and upper-cases the character after it |
| Helpers.CamelizeTextIsScan | src/helpers.ts:8-16 | `camelize` with a string separator is that scan with its first character lower-cased |
| Helpers.CamelizeTextWithoutSeparator | src/helpers.ts:8-16 | an input in which the separator string never occurs comes back with only its first character lower-cased |
| Helpers.CamelizeEmptySeparator | src/helpers.ts:8-16 | with `""` as separator the first character is lower-cased and every other one upper-cased |

## Left out

- Arrays, floating-point numbers and `undefined` as stored values: values are `null`, booleans, integers, strings and objects.
- Properties of strings, numbers and booleans (`"abc".length`, built-in methods): the model reads them as absent, so `get("name.length")` on a stored string reports not-found where the source returns the length.
- Aliasing of nested objects: a stored object is a value. The source stores the very object `set` was given, so a later change to that object shows through the store.
- The instance's own namespace: stored keys are a map beside the instance's fields. In the source they are properties of the instance itself, so `get("options")`, `set("options", …)` or `set("load", …)` reach or shadow the instance's own members. The same holds for a read that restarts at the instance: `get("x.options")` with no `x` returns the options object in the source and not-found in the model.
- The options object: the lodash `merge` in the constructor merges into the shared `DEFAULT_OPTIONS` object and returns it. Every instance therefore holds the same options object, and a later `init(path)` changes the path seen by earlier instances. A string argument also adds its characters as numbered keys. Each model instance keeps its own options record.
- Store.Child, Configuration.Registry.Init: properties objects inherit from `Object.prototype` (`constructor`, `toString`, `__proto__`, …) are not modelled. Nested stored objects and `_configs` are plain objects, so in the source `get("a.constructor")` with `a = {}` returns the `Object` function where the model reports not-found. `set("a.__proto__.x", v)` writes onto `Object.prototype` and `set("a.constructor.x", v)` onto `Object`, where the model stores a new nested object. A loaded top-level key `__proto__` replaces the instance's prototype, and `init("constructor")` returns `Object` instead of a new `Config`.
- Store.Resolve, Store.SetIn: they use the first-dot split on every key, including keys with a line terminator after a dot, where the source's regular expression cuts elsewhere or not at all (see "## Findings").
- Numbers: `Num` holds an unbounded integer. JavaScript numbers are doubles, so a JSON integer above 2^53 is rounded when a file is parsed; truthiness is unaffected.
- Loading.JsonFile: joins the directory and the file with `/` and does not normalise the path as Node's `path.join` does (`..`, duplicate separators).
- File reading and JSON parsing: the readable, parseable files are a parameter (`Files`), and a file that cannot be read or parsed is one missing from it. A JSON file whose top level is not an object (an array, a string) is not modelled.
- `process` itself: `cwd`, `NODE_ENV` and the module's directory are parameters (`Process`), and `process.cwd` is taken to be a function.
- The environment-mapping loop: it has no effect in the source, so the model only keeps the option.
- The second argument of `init`: it is not modelled, because the constructor never uses it.
- Configuration.Config.ToJSON: the `JSON.parse(JSON.stringify(…))` copy is the identity on the modelled values, so it is left out.
- Helpers.Upper, Helpers.Lower: `toUpperCase`/`toLowerCase` are modelled on ASCII letters only; other characters are left unchanged, whereas JavaScript maps every Unicode letter and may change a string's length (`"ß"` becomes `"SS"`).
- Helpers.Camelize: strings are sequences of characters, not UTF-16 code units, so `charAt(0)` on a character outside the Basic Multilingual Plane is not modelled.
- Helpers.Camelize: a `RegExp` separator other than the default `/[-\s]/g` is not modelled, and neither is a separator that is neither a string nor a `RegExp` (the types rule it out).

## Findings

| source | as written | input that shows it | evidently intended | confidence | as-written member | corrected member |
|---|---|---|---|---|---|---|
| src/config/config.ts:183 | `key.split(/\.(.*)$/)` cuts at the first `.` that has no line terminator anywhere after it, or not at all | `"a.b\nc"`: `indexOf` finds a dot at 1 but the pattern does not match, so `_key[1]` is `undefined` and the recursive call throws a TypeError; `"a.b\nc.d"` is cut at its second dot, descending into a property named `"a.b\nc"`; `set("a.b\nc", v)` first writes `{}` under the whole key `"a.b\nc"` (line 226) and then throws | cut at the first dot, the one `indexOf(".")` found, so that the head holds no dot | not executed | KeyPath.SplitAsWrittenDiffers | KeyPath.SplitKeyShape |
