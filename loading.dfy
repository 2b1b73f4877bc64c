/** What `Config.load` and the `Config` constructor do to the stored keys,
    as functions the class's methods are proved against. */
module Loading {
  import opened JsonValue
  import opened KeyPath
  import opened Store

  /** A parsed configuration file: its top-level entries in the order
      `for…in` visits them. */
  type Document = seq<(string, Value)>

  /** The store after `load`'s loop, and whether every `set` in it returned. */
  datatype Applied = Applied(store: map<string, Value>, complete: bool)

  /** `for (let key in json) this.set(key, json[key])`: a `set` that throws
      ends the loop, and the entries written before it stay written. */
  function ApplyEntries(store: map<string, Value>, doc: Document): (r: Applied)
    ensures store.Keys <= r.store.Keys <= store.Keys + Heads(doc)
    ensures r.complete ==> r.store.Keys == store.Keys + Heads(doc)
    decreases |doc|
  {
    if doc == [] then Applied(store, true)
    else match SetIn(store, doc[0].0, doc[0].1)
      case Err(_) => Applied(store, false)
      case Ok(next) =>
        SetWritesOnlyHead(store, doc[0].0, doc[0].1);
        HeadsCons(doc);
        ApplyEntries(next, doc[1..])
  }

  /** The top-level properties a document's keys step into or write. */
  function Heads(doc: Document): set<string> {
    set i | 0 <= i < |doc| :: Head(doc[i].0)
  }

  lemma HeadsCons(doc: Document)
    requires doc != []
    ensures Heads(doc) == {Head(doc[0].0)} + Heads(doc[1..])
  {
    forall k | k in Heads(doc) ensures k in {Head(doc[0].0)} + Heads(doc[1..]) {
      var i :| 0 <= i < |doc| && Head(doc[i].0) == k;
      if i > 0 {
        assert doc[1..][i - 1] == doc[i];
      }
    }
    forall k | k in Heads(doc[1..]) ensures k in Heads(doc) {
      var i :| 0 <= i < |doc[1..]| && Head(doc[1..][i].0) == k;
      assert doc[i + 1] == doc[1..][i];
    }
  }

  /** `path.isAbsolute(file)` for POSIX paths. */
  predicate Absolute(file: string) {
    |file| > 0 && file[0] == '/'
  }

  /** The file `load(file)` reads: `file` itself when it is absolute,
      otherwise `file` under the configuration directory, with `.json` added. */
  function JsonFile(dir: string, file: string): (name: string)
    ensures |name| >= 5 && name[|name| - 5..] == ".json"
    ensures Absolute(file) ==> name[..|name| - 5] == file
  {
    var base := if Absolute(file) then file else dir + "/" + file;
    assert (base + ".json")[|base|..] == ".json";
    assert (base + ".json")[..|base|] == base;
    base + ".json"
  }

  /** The name `load(file)` resolves on an instance whose options hold `dir`
      as `path`, or nothing when the options hold no path and `file` is
      relative: `path.join(undefined, file)` then throws a TypeError before
      any file is read. */
  function FileName(dir: Option<string>, file: string): (name: Option<string>)
    ensures name.None? <==> dir.None? && !Absolute(file)
    ensures dir.Some? ==> name == Some(JsonFile(dir.value, file))
    ensures dir.None? && Absolute(file) ==> name == Some(file + ".json")
  {
    if dir.Some? then Some(JsonFile(dir.value, file))
    else if Absolute(file) then Some(file + ".json")
    else None
  }

  /** `load` once the file name is resolved: the store afterwards and how the
      call ends. A file that cannot be read or parsed, or a `set` that throws,
      ends in `failed to load config file <name>`. */
  function Loaded(store: map<string, Value>, name: string, read: Option<Document>): (r: (map<string, Value>, Outcome))
    ensures r.1 == Pass || r.1 == Fail(LoadFailed(name))
    ensures read.None? ==> r.0 == store
    ensures store.Keys <= r.0.Keys
    ensures r.1 == Pass ==> read.Some? && r.0.Keys == store.Keys + Heads(read.value)
  {
    if read.None? then (store, Fail(LoadFailed(name)))
    else
      var applied := ApplyEntries(store, read.value);
      (applied.store, if applied.complete then Pass else Fail(LoadFailed(name)))
  }

  /** `load(file)` on an instance whose options hold `dir`: the TypeError of
      `path.join` escapes the method untouched, since it is thrown before the
      `try`; every other failure is `failed to load config file <name>`. */
  function LoadFrom(store: map<string, Value>, dir: Option<string>, file: string, files: Files): (r: (map<string, Value>, Outcome))
    ensures r.1 == Pass || r.1 == Fail(TypeError) ||
            (FileName(dir, file).Some? && r.1 == Fail(LoadFailed(FileName(dir, file).value)))
    ensures r.1 == Fail(TypeError) <==> dir.None? && !Absolute(file)
    ensures r.1 == Fail(TypeError) ==> r.0 == store
    ensures store.Keys <= r.0.Keys
  {
    match FileName(dir, file)
    case None => (store, Fail(TypeError))
    case Some(name) => Loaded(store, name, Read(files, name))
  }

  /** A document's entries as a map, a later entry winning over an earlier
      one with the same key. */
  function DocMap(doc: Document): (m: map<string, Value>)
    ensures forall i :: 0 <= i < |doc| ==> doc[i].0 in m
    ensures forall k :: k in m ==> exists i :: 0 <= i < |doc| && doc[i].0 == k
    decreases |doc|
  {
    if doc == [] then map[]
    else
      var rest := DocMap(doc[1..]);
      assert forall k :: k in rest ==> exists i :: 0 <= i < |doc| && doc[i].0 == k by {
        forall k | k in rest
          ensures exists i :: 0 <= i < |doc| && doc[i].0 == k
        {
          var j :| 0 <= j < |doc[1..]| && doc[1..][j].0 == k;
          assert doc[j + 1].0 == k;
        }
      }
      assert forall i :: 1 <= i < |doc| ==> doc[i].0 in rest by {
        forall i | 1 <= i < |doc| ensures doc[i].0 in rest {
          assert doc[1..][i - 1] == doc[i];
        }
      }
      map[doc[0].0 := doc[0].1] + rest
  }

  /** Writing one entry and then a map is writing the map over the entry. */
  lemma UpdateThenUnion(store: map<string, Value>, k: string, v: Value, rest: map<string, Value>)
    ensures store[k := v] + rest == store + (map[k := v] + rest)
  {
  }

  /** Every top-level key names a single property (no usable dot). */
  predicate SingleKeys(doc: Document) {
    forall i :: 0 <= i < |doc| ==> SplitKey(doc[i].0).Leaf?
  }

  /** Loading a document of plain keys overwrites those keys whole and keeps
      every other key: a top-level overwrite, not a deep merge. */
  lemma {:induction false} LoadOverwritesTopLevel(store: map<string, Value>, doc: Document)
    requires SingleKeys(doc)
    ensures ApplyEntries(store, doc) == Applied(store + DocMap(doc), true)
    decreases |doc|
  {
    if doc != [] {
      var (k, v) := doc[0];
      assert SplitKey(k).Leaf?;
      assert SetIn(store, k, v) == Ok(store[k := v]);
      assert ApplyEntries(store, doc) == ApplyEntries(store[k := v], doc[1..]);
      assert SingleKeys(doc[1..]) by {
        forall i | 0 <= i < |doc[1..]| ensures SplitKey(doc[1..][i].0).Leaf? {
          assert doc[1..][i] == doc[i + 1];
        }
      }
      LoadOverwritesTopLevel(store[k := v], doc[1..]);
      assert DocMap(doc) == map[k := v] + DocMap(doc[1..]);
      UpdateThenUnion(store, k, v, DocMap(doc[1..]));
    }
  }

  /** A key that heads none of the document's keys is left as it was,
      present or absent, whether or not the loop completes. */
  lemma {:induction false} LoadKeepsOtherKeys(store: map<string, Value>, doc: Document, k: string)
    requires forall i :: 0 <= i < |doc| ==> Head(doc[i].0) != k
    ensures var after := ApplyEntries(store, doc).store;
      (k in after <==> k in store) && (k in store ==> after[k] == store[k])
    decreases |doc|
  {
    if doc != [] {
      match SetIn(store, doc[0].0, doc[0].1)
      case Err(_) =>
      case Ok(next) =>
        SetWritesOnlyHead(store, doc[0].0, doc[0].1);
        assert forall i :: 0 <= i < |doc[1..]| ==> Head(doc[1..][i].0) != k by {
          forall i | 0 <= i < |doc[1..]| ensures Head(doc[1..][i].0) != k {
            assert doc[1..][i] == doc[i + 1];
          }
        }
        LoadKeepsOtherKeys(next, doc[1..], k);
    }
  }

  /** Loading a readable document of plain keys always passes. */
  lemma LoadedDocument(store: map<string, Value>, name: string, doc: Document)
    requires SingleKeys(doc)
    ensures Loaded(store, name, Some(doc)) == (store + DocMap(doc), Pass)
  {
    LoadOverwritesTopLevel(store, doc);
  }

  /** A later value at a shared top-level key replaces an earlier object
      whole: nested keys it does not repeat are gone. */
  lemma LoadDoesNotMerge(store: map<string, Value>, inner: map<string, Value>)
    requires "test" in store && store["test"] == Obj(map["x" := Num(1)])
    ensures var after := ApplyEntries(store, [("test", Obj(inner))]).store;
      "test" in after && after["test"] == Obj(inner)
  {
    assert Lacks("test", '.');
    SplitKeyShape("test");
    var doc := [("test", Obj(inner))];
    assert SetIn(store, "test", Obj(inner)) == Ok(store["test" := Obj(inner)]);
    assert doc[1..] == [];
    assert ApplyEntries(store, doc) == ApplyEntries(store["test" := Obj(inner)], []);
  }

  /** Once the file name is resolved, every way `load` fails ends in
      `failed to load config file <name>`, naming the resolved `.json` file; a
      file that cannot be read leaves the store as it was, and a `set` that
      throws keeps the entries before it. Without a directory a relative file
      is never read: `load` throws a TypeError and the store is unchanged. */
  lemma {:induction false} LoadFailureNamesFile(store: map<string, Value>, dir: Option<string>, file: string, files: Files)
    ensures var (after, r) := LoadFrom(store, dir, file, files);
      (FileName(dir, file).None? ==> after == store && r == Fail(TypeError)) &&
      (FileName(dir, file).Some? ==>
         var name := FileName(dir, file).value;
         (r.Fail? ==> r == Fail(LoadFailed(name))) &&
         (name !in files ==> after == store && r.Fail?) &&
         (name in files && !ApplyEntries(store, files[name]).complete ==>
            after == ApplyEntries(store, files[name]).store && r.Fail?))
  {
  }

  // ---------------------------------------------------------------------
  // The constructor.

  /** Which environment variables to copy into the store. The loop that
      would copy them has its `set` commented out, so no mapping has an effect. */
  datatype EnvMapping = NoMapping | DefaultMapping | Mapping(vars: map<string, string>)

  /** `ConfigOptions` after merging with the defaults; `path` is `None`
      when neither the defaults nor the caller give one. */
  datatype Options = Options(path: Option<string>, loadDefault: bool, loadEnv: bool, envMapping: EnvMapping)

  /** `DEFAULT_OPTIONS`, what `new Config()` ends up with: both files are to
      be loaded, but there is no path to load them from. */
  function DefaultOptions(): (o: Options)
    ensures o.path.None? && o.loadDefault && o.loadEnv
  {
    Options(None, true, true, DefaultMapping)
  }

  /** The options `new Config(path)` ends up with: the defaults plus `path`. */
  function PathOptions(path: string): (o: Options)
    ensures o.path == Some(path) && o.loadDefault && o.loadEnv
  {
    Options(Some(path), true, true, DefaultMapping)
  }

  /** What the module reads from its process: the working directory,
      `NODE_ENV` ("" when unset) and the module's own directory. */
  datatype Process = Process(cwd: string, nodeEnv: string, moduleDir: string)

  /** The configuration files that can be read and parsed, by full name. */
  type Files = map<string, Document>

  function Read(files: Files, name: string): Option<Document> {
    if name in files then Some(files[name]) else None
  }

  /** `load(this.get("env"))` inside the constructor's `try`: only a string
      names a file; a `get` that throws, a non-string name and a failed load
      are all swallowed, keeping whatever was written before the failure. */
  function EnvFileLoaded(store: map<string, Value>, dir: Option<string>, files: Files): (r: map<string, Value>)
    ensures store.Keys <= r.Keys
    ensures !(Get(store, "env").Ok? && Get(store, "env").value.Str?) ==> r == store
    ensures (dir.None? && Get(store, "env").Ok? && Get(store, "env").value.Str? &&
             !Absolute(Get(store, "env").value.s)) ==> r == store
  {
    match Get(store, "env")
    case Ok(Str(env)) => LoadFrom(store, dir, env, files).0
    case _ => store
  }

  /** The two ways the constructor's second load can go. */
  lemma EnvFileLoadedSteps(store: map<string, Value>, dir: Option<string>, files: Files)
    ensures var env := Get(store, "env");
      (env.Ok? && env.value.Str? ==>
         EnvFileLoaded(store, dir, files) == LoadFrom(store, dir, env.value.s, files).0) &&
      (!(env.Ok? && env.value.Str?) ==> EnvFileLoaded(store, dir, files) == store)
  {
  }

  /** The constructor's steps in order: record `cwd`, record `env` when
      `NODE_ENV` is non-empty, then the default file, then the file named by
      `env`, each applied to what the step before left. */
  function Bootstrap(options: Options, process: Process, files: Files): (r: map<string, Value>)
    ensures "cwd" in r
    ensures process.nodeEnv != "" ==> "env" in r
  {
    var withCwd := map["cwd" := Str(process.cwd)];
    var withEnv := if process.nodeEnv != "" then withCwd["env" := Str(process.nodeEnv)] else withCwd;
    var withDefault := if options.loadDefault then LoadFrom(withEnv, options.path, "default", files).0 else withEnv;
    if options.loadEnv then EnvFileLoaded(withDefault, options.path, files) else withDefault
  }

  lemma ReservedKeysAreSingle()
    ensures SplitKey("cwd").Leaf? && SplitKey("env").Leaf?
    ensures Head("env") == "env"
  {
    assert Lacks("cwd", '.') && Lacks("env", '.');
    SplitKeyShape("cwd");
    SplitKeyShape("env");
  }

  /** Setting `cwd` or `env` to a string stores it under that key and passes. */
  lemma RecordsReserved(store: map<string, Value>, key: string, s: string)
    requires key == "cwd" || key == "env"
    ensures Assigned(store, key, Str(s)) == (store[key := Str(s)], Pass)
  {
    ReservedKeysAreSingle();
  }

  /** Without readable files the constructor records `cwd`, and `env` only
      when `NODE_ENV` is non-empty: a missing file never throws. */
  lemma BootstrapWithoutFiles(options: Options, process: Process)
    ensures Bootstrap(options, process, map[]) ==
              if process.nodeEnv != "" then map["cwd" := Str(process.cwd), "env" := Str(process.nodeEnv)]
              else map["cwd" := Str(process.cwd)]
  {
  }

  /** With `NODE_ENV` unset and no `env` key in the default file, `env` stays
      unset and `get("env")` throws: there is no "production" default. */
  lemma {:induction false} NoDefaultEnvironment(options: Options, process: Process, files: Files)
    requires process.nodeEnv == ""
    requires var f := FileName(options.path, "default");
      f.Some? && f.value in files ==> forall i :: 0 <= i < |files[f.value]| ==> Head(files[f.value][i].0) != "env"
    ensures "env" !in Bootstrap(options, process, files)
    ensures Get(Bootstrap(options, process, files), "env") == Err(NotFound("env"))
  {
    ReservedKeysAreSingle();
    var f := FileName(options.path, "default");
    var withCwd := map["cwd" := Str(process.cwd)];
    var withDefault := if options.loadDefault then LoadFrom(withCwd, options.path, "default", files).0 else withCwd;
    if options.loadDefault && f.Some? && f.value in files {
      LoadKeepsOtherKeys(withCwd, files[f.value], "env");
    }
    assert "env" !in withDefault;
    assert Get(withDefault, "env") == Err(NotFound("env"));
    EnvFileLoadedSteps(withDefault, options.path, files);
    assert Bootstrap(options, process, files) == withDefault;
  }

  /** The constructor's second load: with `env` naming a file of plain keys,
      that file is applied over the store. */
  lemma EnvFileApplied(store: map<string, Value>, dir: string, files: Files, env: string)
    requires "env" in store && store["env"] == Str(env) && env != ""
    requires JsonFile(dir, env) in files && SingleKeys(files[JsonFile(dir, env)])
    ensures EnvFileLoaded(store, Some(dir), files) == store + DocMap(files[JsonFile(dir, env)])
  {
    ReservedKeysAreSingle();
    assert Get(store, "env") == Ok(Str(env));
    LoadedDocument(store, JsonFile(dir, env), files[JsonFile(dir, env)]);
  }

  /** The cascade: `cwd` and `env` first, then the default file over them,
      then the environment's file over that, key by key. */
  lemma {:induction false} BootstrapCascade(options: Options, process: Process, files: Files)
    requires options.loadDefault && options.loadEnv && process.nodeEnv != ""
    requires options.path.Some?
    requires var f := JsonFile(options.path.value, "default");
      f in files && SingleKeys(files[f]) && forall i :: 0 <= i < |files[f]| ==> files[f][i].0 != "env"
    requires var e := JsonFile(options.path.value, process.nodeEnv);
      e in files && SingleKeys(files[e])
    ensures Bootstrap(options, process, files) ==
              map["cwd" := Str(process.cwd), "env" := Str(process.nodeEnv)]
              + DocMap(files[JsonFile(options.path.value, "default")])
              + DocMap(files[JsonFile(options.path.value, process.nodeEnv)])
  {
    var f := JsonFile(options.path.value, "default");
    var withEnv := map["cwd" := Str(process.cwd), "env" := Str(process.nodeEnv)];
    LoadedDocument(withEnv, f, files[f]);
    var withDefault := withEnv + DocMap(files[f]);
    assert "env" !in DocMap(files[f]);
    assert withDefault["env"] == Str(process.nodeEnv);
    EnvFileApplied(withDefault, options.path.value, files, process.nodeEnv);
  }

  /** An instance whose options hold no path, such as `new Config()` with
      `DEFAULT_OPTIONS`, loads no file from its directory: each `load` throws
      the TypeError of `path.join(undefined, file)` inside the constructor's
      `try`, where it is swallowed. Only a `NODE_ENV` that is itself an
      absolute path still names a file. */
  lemma NoPathLoadsNothing(options: Options, process: Process, files: Files)
    requires options.path.None? && !Absolute(process.nodeEnv)
    ensures Bootstrap(options, process, files) ==
              if process.nodeEnv != "" then map["cwd" := Str(process.cwd), "env" := Str(process.nodeEnv)]
              else map["cwd" := Str(process.cwd)]
  {
    ReservedKeysAreSingle();
    assert !Absolute("default");
    var withCwd := map["cwd" := Str(process.cwd)];
    var withEnv := if process.nodeEnv != "" then withCwd["env" := Str(process.nodeEnv)] else withCwd;
    assert Get(withEnv, "env") == if process.nodeEnv != "" then Ok(Str(process.nodeEnv)) else Err(NotFound("env"));
    EnvFileLoadedSteps(withEnv, None, files);
  }
}
