/** The `Config` class and the module's registry of instances by path. */
module Configuration {
  import opened JsonValue
  import opened KeyPath
  import opened Store
  import opened Loading

  /** The keys `toJSON` never exports. */
  const Reserved: set<string> := {"options", "cwd", "env"}

  /** What `toJSON` exports from a store: every stored key but the reserved
      ones, with its value. */
  function Exported(store: map<string, Value>): (json: map<string, Value>)
    ensures json.Keys == store.Keys - Reserved
    ensures forall k :: k in json ==> json[k] == store[k]
  {
    map k | k in store && k !in Reserved :: store[k]
  }

  /** A configuration instance: its options, fixed at construction, and the
      keys stored on it. */
  class Config {
    const options: Options
    var store: map<string, Value>

    /** `new Config(path)`, with the process it runs in and the files it
        can read: the bootstrap steps run in order and nothing escapes. */
    constructor (options: Options, process: Process, files: Files)
      ensures this.options == options
      ensures store == Bootstrap(options, process, files)
    {
      this.options := options;
      store := map[];
      new;
      RecordsReserved(store, "cwd", process.cwd);
      var _ := Set("cwd", Str(process.cwd));
      if process.nodeEnv != "" {
        RecordsReserved(store, "env", process.nodeEnv);
        var _ := Set("env", Str(process.nodeEnv));
      }
      ghost var withEnv := store;
      if options.loadDefault {
        var _ := Load("default", files);
      }
      ghost var withDefault := store;
      if options.loadEnv {
        var env := Get(store, "env");
        if env.Ok? && env.value.Str? {
          var _ := Load(env.value.s, files);
        }
        EnvFileLoadedSteps(withDefault, options.path, files);
      }
    }

    /** `set(key, value)`: the store becomes what `_set` leaves, or stays as
        it was when `_set` throws. */
    method Set(key: string, value: Value) returns (r: Outcome)
      modifies this
      ensures (store, r) == Assigned(old(store), key, value)
    {
      var (written, outcome) := Assigned(store, key, value);
      store := written;
      r := outcome;
    }

    /** `load(file)`: each top-level entry of the file is `set` in turn; the
        first `set` that throws ends the loop and the call. With no `path` in
        the options a relative file throws a TypeError before anything is read. */
    method Load(file: string, files: Files) returns (r: Outcome)
      modifies this
      ensures (store, r) == LoadFrom(old(store), options.path, file, files)
    {
      var resolved := FileName(options.path, file);
      if resolved.None? {
        return Fail(TypeError);
      }
      var name := resolved.value;
      var read := Read(files, name);
      if read.None? {
        return Fail(LoadFailed(name));
      }
      var doc := read.value;
      var i := 0;
      while i < |doc|
        invariant 0 <= i <= |doc|
        invariant ApplyEntries(old(store), doc) == ApplyEntries(store, doc[i..])
      {
        assert doc[i..][0] == doc[i] && doc[i..][1..] == doc[i + 1..];
        var outcome := Set(doc[i].0, doc[i].1);
        if outcome.Fail? {
          return Fail(LoadFailed(name));
        }
        i := i + 1;
      }
      assert doc[i..] == [];
      return Pass;
    }

    /** `toJSON()`: the stored keys but `options`, `cwd` and `env`. The
        stringify-and-parse copy is the identity on these values. */
    method ToJSON() returns (json: map<string, Value>)
      ensures json == Exported(store)
    {
      json := map[];
      var keys := store.Keys;
      while keys != {}
        invariant keys <= store.Keys
        invariant json.Keys == (store.Keys - keys) - Reserved
        invariant forall k :: k in json ==> json[k] == store[k]
        decreases keys
      {
        var k :| k in keys;
        if k !in Reserved {
          json := json[k := store[k]];
        }
        keys := keys - {k};
      }
    }
  }

  /** A fresh instance without readable files exports nothing: `cwd` and
      `env` are the only keys the constructor writes. */
  lemma FreshConfigExportsNothing(options: Options, process: Process)
    ensures Exported(Bootstrap(options, process, map[])) == map[]
  {
    BootstrapWithoutFiles(options, process);
  }

  /** Adding non-reserved keys to a store adds them, unchanged, to its export. */
  lemma ExportedUnion(store: map<string, Value>, m: map<string, Value>)
    requires forall k :: k in m ==> k !in Reserved
    ensures Exported(store + m) == Exported(store) + m
  {
    var lhs := Exported(store + m);
    var rhs := Exported(store) + m;
    assert lhs.Keys == rhs.Keys;
    forall k | k in lhs
      ensures lhs[k] == rhs[k]
    {
      if k in m {
        assert lhs[k] == (store + m)[k] == m[k];
      } else {
        assert lhs[k] == store[k] == Exported(store)[k];
      }
    }
  }

  /** Loading plain, non-reserved keys shows up in `toJSON` exactly. */
  lemma ExportedAfterLoad(store: map<string, Value>, doc: Document)
    requires SingleKeys(doc)
    requires forall i :: 0 <= i < |doc| ==> doc[i].0 !in Reserved
    ensures Exported(ApplyEntries(store, doc).store) == Exported(store) + DocMap(doc)
  {
    LoadOverwritesTopLevel(store, doc);
    forall k | k in DocMap(doc)
      ensures k !in Reserved
    {
      var i :| 0 <= i < |doc| && doc[i].0 == k;
    }
    ExportedUnion(store, DocMap(doc));
  }

  /** The directory `init()` uses when given none: the working directory,
      or the module's own directory when that is empty, with `/config`. */
  function DefaultPath(process: Process): (path: string)
    ensures |path| >= 7 && path[|path| - 7..] == "/config"
  {
    var base := if process.cwd != "" then process.cwd else process.moduleDir;
    assert (base + "/config")[|base|..] == "/config";
    base + "/config"
  }

  /** `_configs`, `init` and `config`: one instance per path. */
  class Registry {
    var configs: map<string, Config>

    /** Every instance was made for the path it is filed under. */
    predicate Valid()
      reads this
    {
      forall p :: p in configs ==> configs[p].options == PathOptions(p)
    }

    constructor ()
      ensures configs == map[] && Valid()
    {
      configs := map[];
    }

    /** `init(path, options)`: the instance already filed under `path`, or a
        new one made from `path` alone and filed. The `options` argument
        reaches the constructor's unused second parameter, so it is not
        modelled. */
    method Init(path: string, process: Process, files: Files) returns (c: Config)
      requires Valid()
      modifies this
      ensures Valid()
      ensures path in old(configs) ==> c == old(configs)[path] && configs == old(configs)
      ensures path !in old(configs) ==>
                fresh(c) && configs == old(configs)[path := c] &&
                c.options == PathOptions(path) && c.store == Bootstrap(PathOptions(path), process, files) &&
                forall p :: p in old(configs) ==> old(configs)[p] != c
      ensures c.options == PathOptions(path)
    {
      if path !in configs {
        var made := new Config(PathOptions(path), process, files);
        configs := configs[path := made];
      }
      c := configs[path];
    }

    /** `config(key)`: `get(key)` on the instance for the default path. */
    method Lookup(key: string, process: Process, files: Files) returns (r: Result<Value>)
      requires Valid()
      modifies this
      ensures Valid()
      ensures DefaultPath(process) in configs
      ensures DefaultPath(process) in old(configs) ==> configs == old(configs)
      ensures DefaultPath(process) !in old(configs) ==>
                var c := configs[DefaultPath(process)];
                fresh(c) && configs == old(configs)[DefaultPath(process) := c] &&
                c.store == Bootstrap(PathOptions(DefaultPath(process)), process, files)
      ensures r == Get(configs[DefaultPath(process)].store, key)
    {
      var c := Init(DefaultPath(process), process, files);
      r := Get(c.store, key);
    }
  }
}
