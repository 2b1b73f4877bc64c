/** The reads and writes of `Config`: `_get`/`get` and `_set`, as functions
    over the map of stored keys. */
module Store {
  import opened JsonValue
  import opened KeyPath

  /** `context[name]`: an object's own property, or nothing. Strings, numbers
      and booleans are modelled as having no properties. */
  function Child(context: Value, name: string): (r: Option<Value>)
    ensures r.Some? <==> context.Obj? && name in context.fields
    ensures r.Some? ==> r.value == context.fields[name]
  {
    match context
    case Obj(fields) => if name in fields then Some(fields[name]) else None
    case _ => None
  }

  /** The object a property read is made on: an `undefined` context is
      replaced by the instance itself, as the default parameter
      `context = this` does for every call that passes `undefined`. */
  function Context(root: map<string, Value>, context: Option<Value>): Value {
    if context.None? then Obj(root) else context.value
  }

  /** `_get(key, context = this)` on an instance whose stored keys are
      `root`: reading from `null` throws a TypeError; a key that splits steps
      into its head property and resolves the rest there, so a head that is
      absent, or a string, number or boolean, passes `undefined` on and the
      rest is resolved from the instance again; any other key reads one
      property. */
  function Resolve(root: map<string, Value>, context: Option<Value>, key: string): (r: Result<Option<Value>>)
    ensures r.Err? ==> r.error == TypeError
    decreases |key|
  {
    var ctx := Context(root, context);
    if ctx == Null then Err(TypeError)
    else match SplitKey(key)
      case Leaf => Ok(Child(ctx, key))
      case Descend(head, rest) => Resolve(root, Child(ctx, head), rest)
  }

  /** What `get(key)` makes of what `_get` returned: `undefined` and falsy
      values other than `false` are reported as not configured. */
  function Report(key: string, found: Result<Option<Value>>): (r: Result<Value>)
    ensures r.Ok? ==> Truthy(r.value) || r.value == Bool(false)
    ensures r.Err? ==> (found.Err? && r.error == found.error) || r.error == NotFound(key)
  {
    match found
    case Err(e) => Err(e)
    case Ok(None) => Err(NotFound(key))
    case Ok(Some(v)) => if Missing(v) then Err(NotFound(key)) else Ok(v)
  }

  /** `get(key)` on an instance whose stored keys are `store`. */
  function Get(store: map<string, Value>, key: string): (r: Result<Value>)
    ensures r.Ok? ==> Truthy(r.value) || r.value == Bool(false)
    ensures r.Err? ==> r.error == TypeError || r.error == NotFound(key)
  {
    Report(key, Resolve(store, Some(Obj(store)), key))
  }

  /** The object `_set` steps into under `head`: the property itself when it
      is truthy, otherwise a new `{}` put in its place. */
  function Stepped(fields: map<string, Value>, head: string): (r: Value)
    ensures Truthy(r)
    ensures r == Obj(map[]) || Child(Obj(fields), head) == Some(r)
  {
    if head in fields && Truthy(fields[head]) then fields[head] else Obj(map[])
  }

  /** `_set(key, value, context)` on an object with properties `fields`: an
      absent or falsy head property is first replaced by `{}`; writing into a
      truthy string, number or boolean throws a TypeError. */
  function SetIn(fields: map<string, Value>, key: string, value: Value): (r: Result<map<string, Value>>)
    ensures r.Err? ==> r.error == TypeError
    decreases |key|
  {
    match SplitKey(key)
    case Leaf => Ok(fields[key := value])
    case Descend(head, rest) =>
      var child := Stepped(fields, head);
      if !child.Obj? then Err(TypeError)
      else
        var inner := SetIn(child.fields, rest, value);
        if inner.Err? then Err(TypeError) else Ok(fields[head := Obj(inner.value)])
  }

  /** `set(key, value)` on a store: the store `_set` leaves and `Pass`, or the
      store as it was and the error `_set` threw. */
  function Assigned(fields: map<string, Value>, key: string, value: Value): (r: (map<string, Value>, Outcome))
    ensures r.1 == Pass || r.1 == Fail(TypeError)
    ensures r.1.Fail? ==> r.0 == fields
    ensures r.1.Pass? ==> Get(r.0, key) == if Missing(value) then Err(NotFound(key)) else Ok(value)
  {
    match SetIn(fields, key, value)
    case Ok(written) => SetThenGet(fields, key, value); (written, Pass)
    case Err(e) => (fields, Fail(e))
  }

  // ---------------------------------------------------------------------
  // The same walks over a key's segments, cut up front.

  /** `_get` stepping through the property names of `path`, the last one
      read, with `undefined` contexts replaced by the instance `root`. */
  function ResolvePath(root: map<string, Value>, context: Option<Value>, path: seq<string>): Result<Option<Value>>
    requires |path| >= 1
    decreases |path|
  {
    var ctx := Context(root, context);
    if ctx == Null then Err(TypeError)
    else if |path| == 1 then Ok(Child(ctx, path[0]))
    else ResolvePath(root, Child(ctx, path[0]), path[1..])
  }

  /** `_set` stepping through the property names of `path`, the last one written. */
  function SetPath(fields: map<string, Value>, path: seq<string>, value: Value): Result<map<string, Value>>
    requires |path| >= 1
    decreases |path|
  {
    if |path| == 1 then Ok(fields[path[0] := value])
    else
      var child := Stepped(fields, path[0]);
      if !child.Obj? then Err(TypeError)
      else
        var inner := SetPath(child.fields, path[1..], value);
        if inner.Err? then Err(TypeError) else Ok(fields[path[0] := Obj(inner.value)])
  }

  /** Splitting the key one step at a time reads what walking its segments reads. */
  lemma {:induction false} ResolveAlongSegments(root: map<string, Value>, context: Option<Value>, key: string)
    ensures Resolve(root, context, key) == ResolvePath(root, context, Segments(key))
    decreases |key|
  {
    match SplitKey(key)
    case Leaf =>
      assert Segments(key) == [key];
    case Descend(head, rest) =>
      var t := Segments(rest);
      var s := [head] + t;
      assert Segments(key) == s;
      assert |s| >= 2 && s[0] == head && s[1..] == t;
      ResolveAlongSegments(root, Child(Context(root, context), head), rest);
  }

  /** Splitting the key one step at a time writes what walking its segments writes. */
  lemma {:induction false} SetAlongSegments(fields: map<string, Value>, key: string, value: Value)
    ensures SetIn(fields, key, value) == SetPath(fields, Segments(key), value)
    decreases |key|
  {
    match SplitKey(key)
    case Leaf =>
      assert Segments(key) == [key];
    case Descend(head, rest) =>
      var t := Segments(rest);
      var s := [head] + t;
      assert Segments(key) == s;
      assert |s| >= 2 && s[0] == head && s[1..] == t;
      var child := Stepped(fields, head);
      if child.Obj? {
        SetAlongSegments(child.fields, rest, value);
      }
  }

  /** Writing along a path changes only the path's first property of the
      object it starts from: that property is present afterwards and every
      other one is untouched. */
  lemma SetPathWritesOnlyHead(fields: map<string, Value>, path: seq<string>, value: Value)
    requires |path| >= 1 && SetPath(fields, path, value).Ok?
    ensures var out := SetPath(fields, path, value).value;
      out.Keys == fields.Keys + {path[0]} &&
      forall k :: k in fields && k != path[0] ==> out[k] == fields[k]
  {
    if |path| > 1 {
      var child := Stepped(fields, path[0]);
      var inner := SetPath(child.fields, path[1..], value);
      assert SetPath(fields, path, value) == Ok(fields[path[0] := Obj(inner.value)]);
    }
  }

  /** `_set` writes only the key's head property of the object it is given. */
  lemma SetWritesOnlyHead(fields: map<string, Value>, key: string, value: Value)
    requires SetIn(fields, key, value).Ok?
    ensures var out := SetIn(fields, key, value).value;
      out.Keys == fields.Keys + {Head(key)} &&
      forall k :: k in fields && k != Head(key) ==> out[k] == fields[k]
  {
    SetAlongSegments(fields, key, value);
    SegmentsHead(key);
    SetPathWritesOnlyHead(fields, Segments(key), value);
  }

  // ---------------------------------------------------------------------
  // Addressing by segments: an independent view of the nested store.

  /** The value reached from `v` by following the property names in `path`. */
  function At(v: Value, path: seq<string>): Option<Value> {
    if path == [] then Some(v)
    else match Child(v, path[0])
      case None => None
      case Some(w) => At(w, path[1..])
  }

  /** Following a non-empty prefix of a path: one step, then the rest of the prefix. */
  lemma AtPrefix(v: Value, path: seq<string>, i: nat)
    requires 0 < i <= |path|
    ensures At(v, path[..i]) == match Child(v, path[0]) case None => None case Some(w) => At(w, path[1..][..i - 1])
  {
    assert path[..i][0] == path[0];
    assert path[..i][1..] == path[1..][..i - 1];
  }

  /** Below the property `_set` steps into, a non-empty path reaches what it
      reached below the old property: the two differ only where the old one
      was absent or falsy, and below those nothing is reachable. */
  lemma SteppedAgreesBelow(fields: map<string, Value>, head: string, path: seq<string>)
    requires path != []
    ensures At(Stepped(fields, head), path) ==
              match Child(Obj(fields), head) case None => None case Some(w) => At(w, path)
  {
  }

  /** What `o` reaches is an object. */
  predicate ReachesObject(o: Option<Value>) {
    o.Some? && o.value.Obj?
  }

  /** Every proper prefix of `path` shorter than `i` reaches an object. */
  predicate ObjectsBefore(v: Value, path: seq<string>, i: nat) {
    forall j :: 0 < j < i && j <= |path| ==> ReachesObject(At(v, path[..j]))
  }

  /** As long as the prefixes walked reach objects, no read restarts: after
      `i` steps the walk goes on from what the first `i` segments reach. */
  lemma {:induction false} ResolvePathShift(root: map<string, Value>, v: Value, path: seq<string>, i: nat)
    requires v.Obj? && 0 < i < |path| && ObjectsBefore(v, path, i)
    ensures ResolvePath(root, Some(v), path) == ResolvePath(root, At(v, path[..i]), path[i..])
    decreases i
  {
    AtPrefix(v, path, 1);
    assert path[1..][..0] == [];
    if i > 1 {
      var w := Child(v, path[0]).value;
      assert ReachesObject(At(v, path[..1]));
      assert ObjectsBefore(w, path[1..], i - 1) by {
        forall j | 0 < j < i - 1 && j <= |path[1..]|
          ensures ReachesObject(At(w, path[1..][..j]))
        {
          AtPrefix(v, path, j + 1);
        }
      }
      ResolvePathShift(root, w, path[1..], i - 1);
      AtPrefix(v, path, i);
      assert path[1..][i - 1..] == path[i..];
    }
  }

  /** When every proper prefix reaches an object, walking the path reads
      what the whole path reaches. */
  lemma {:induction false} ResolvePathAlongObjects(root: map<string, Value>, v: Value, path: seq<string>)
    requires v.Obj? && |path| >= 1 && ObjectsBefore(v, path, |path|)
    ensures ResolvePath(root, Some(v), path) == Ok(At(v, path))
    decreases |path|
  {
    assert path[1..] == [] || |path| > 1;
    if |path| > 1 {
      AtPrefix(v, path, 1);
      assert path[1..][..0] == [];
      assert ReachesObject(At(v, path[..1]));
      var w := Child(v, path[0]).value;
      assert ObjectsBefore(w, path[1..], |path| - 1) by {
        forall j | 0 < j < |path| - 1 && j <= |path[1..]|
          ensures ReachesObject(At(w, path[1..][..j]))
        {
          AtPrefix(v, path, j + 1);
        }
      }
      ResolvePathAlongObjects(root, w, path[1..]);
    }
  }

  /** `get` along the key's segments when every proper prefix of them reaches
      an object: it returns what the segments reach, and reports the key
      missing when that is nothing, `null`, `0` or `""`. */
  lemma GetByPath(store: map<string, Value>, key: string)
    requires ObjectsBefore(Obj(store), Segments(key), |Segments(key)|)
    ensures Get(store, key) ==
              match At(Obj(store), Segments(key))
              case None => Err(NotFound(key))
              case Some(v) => if Missing(v) then Err(NotFound(key)) else Ok(v)
  {
    ResolveAlongSegments(store, Some(Obj(store)), key);
    ResolvePathAlongObjects(store, Obj(store), Segments(key));
  }

  /** A result of `get` with a not-found error renamed to `key`. */
  function Renamed(r: Result<Value>, key: string): Result<Value> {
    if r.Err? && r.error.NotFound? then Err(NotFound(key)) else r
  }

  /** `get` after `i` steps through objects: what is left of the walk, from
      what the first `i` segments reach. */
  lemma GetShift(store: map<string, Value>, key: string, i: nat)
    requires 0 < i < |Segments(key)| && ObjectsBefore(Obj(store), Segments(key), i)
    ensures var s := Segments(key);
      Get(store, key) == Report(key, ResolvePath(store, At(Obj(store), s[..i]), s[i..]))
  {
    ResolveAlongSegments(store, Some(Obj(store)), key);
    ResolvePathShift(store, Obj(store), Segments(key), i);
  }

  /** Reading the last segments of a key from the top is `get` of the key
      those segments make up, with errors naming the whole key. */
  lemma GetFromTop(store: map<string, Value>, key: string, i: nat)
    requires 0 < i < |Segments(key)|
    ensures Report(key, ResolvePath(store, None, Segments(key)[i..])) == Renamed(Get(store, Tail(key, i)), key)
  {
    var t := Tail(key, i);
    var p := Segments(key)[i..];
    assert Segments(t) == p;
    ResolveAlongSegments(store, Some(Obj(store)), t);
    var found := ResolvePath(store, Some(Obj(store)), p);
    assert ResolvePath(store, None, p) == found by {
      assert Context(store, None) == Context(store, Some(Obj(store)));
    }
    assert Get(store, t) == Report(t, found);
    ReportRenamed(key, t, found);
  }

  lemma ReportRenamed(key: string, other: string, found: Result<Option<Value>>)
    requires found.Err? ==> found.error == TypeError
    ensures Renamed(Report(other, found), key) == Report(key, found)
  {
  }

  /** `get` where the `i`-th prefix of the key's segments is the first that
      does not reach an object. Where it reaches `null` the read throws a
      TypeError. Where it reaches nothing, `undefined` is passed on, the
      default parameter puts the instance back, and `get` reads what the
      key's last segments read from the top. Where it reaches a string,
      number or boolean, the next step reads `undefined` from it: the key is
      missing if that was the last step, and otherwise the rest after it is
      read from the top. Errors still name the whole key. */
  lemma GetRestartsAtRoot(store: map<string, Value>, key: string, i: nat)
    requires 0 < i < |Segments(key)|
    requires ObjectsBefore(Obj(store), Segments(key), i)
    requires !ReachesObject(At(Obj(store), Segments(key)[..i]))
    ensures var at := At(Obj(store), Segments(key)[..i]);
      (at == Some(Null) ==> Get(store, key) == Err(TypeError)) &&
      (at.None? ==> Get(store, key) == Renamed(Get(store, Tail(key, i)), key)) &&
      (at.Some? && at.value != Null && i + 1 == |Segments(key)| ==> Get(store, key) == Err(NotFound(key))) &&
      (at.Some? && at.value != Null && i + 1 < |Segments(key)| ==>
         Get(store, key) == Renamed(Get(store, Tail(key, i + 1)), key))
  {
    var s := Segments(key);
    var at := At(Obj(store), s[..i]);
    GetShift(store, key, i);
    if at.None? {
      GetFromTop(store, key, i);
    } else if at.value != Null && i + 1 < |s| {
      assert s[i..][1..] == s[i + 1..];
      assert ResolvePath(store, at, s[i..]) == ResolvePath(store, None, s[i + 1..]);
      GetFromTop(store, key, i + 1);
    }
  }

  /** The restart in examples: with no `server` object, `get("server.port")`
      reads the top-level `port`; a string under `a` makes `get("a.b.c")`
      read the top-level `c`; a missing head leaves `get("missing.key")`
      reporting the whole key missing. */
  lemma GetRestartExamples()
    ensures Get(map["port" := Num(80)], "server.port") == Ok(Num(80))
    ensures Get(map["a" := Str("s"), "c" := Str("y")], "a.b.c") == Ok(Str("y"))
    ensures Get(map[], "missing.key") == Err(NotFound("missing.key"))
  {
    ReadsTopLevelPort();
    ReadsTopLevelC();
    ReportsWholeKey();
  }

  lemma ReadsTopLevelPort()
    ensures Get(map["port" := Num(80)], "server.port") == Ok(Num(80))
  {
    var root := map["port" := Num(80)];
    var k := "server.port";
    assert IndexFrom(k, '.', 6) == 6 && IndexFrom(k, '.', 5) == 6 && IndexFrom(k, '.', 4) == 6;
    assert IndexFrom(k, '.', 3) == 6 && IndexFrom(k, '.', 2) == 6 && IndexFrom(k, '.', 1) == 6;
    assert SplitKey(k) == Descend("server", "port");
    assert IndexFrom("port", '.', 3) == -1 && IndexFrom("port", '.', 1) == -1;
    assert SplitKey("port") == Leaf;
    assert Resolve(root, Some(Obj(root)), k) == Resolve(root, None, "port");
    assert Resolve(root, None, "port") == Ok(Some(Num(80)));
  }

  lemma ReadsTopLevelC()
    ensures Get(map["a" := Str("s"), "c" := Str("y")], "a.b.c") == Ok(Str("y"))
  {
    var root := map["a" := Str("s"), "c" := Str("y")];
    SplitThreeSegments();
    SplitTwoSegments();
    assert IndexFrom("c", '.', 0) == -1;
    assert SplitKey("c") == Leaf;
    assert Resolve(root, Some(Obj(root)), "a.b.c") == Resolve(root, Some(Str("s")), "b.c");
    assert Resolve(root, Some(Str("s")), "b.c") == Resolve(root, None, "c");
    assert Resolve(root, None, "c") == Ok(Some(Str("y")));
  }

  lemma ReportsWholeKey()
    ensures Get(map[], "missing.key") == Err(NotFound("missing.key"))
  {
    var root: map<string, Value> := map[];
    var m := "missing.key";
    assert IndexFrom(m, '.', 7) == 7 && IndexFrom(m, '.', 6) == 7 && IndexFrom(m, '.', 5) == 7;
    assert IndexFrom(m, '.', 4) == 7 && IndexFrom(m, '.', 3) == 7 && IndexFrom(m, '.', 2) == 7;
    assert IndexFrom(m, '.', 1) == 7;
    assert SplitKey(m) == Descend("missing", "key");
    assert IndexFrom("key", '.', 2) == -1 && IndexFrom("key", '.', 0) == -1;
    assert SplitKey("key") == Leaf;
    assert Resolve(root, Some(Obj(root)), m) == Resolve(root, None, "key");
    assert Resolve(root, None, "key") == Ok(None);
  }

  /** Writing along a path and then reading along it gives the value written,
      whatever instance an `undefined` context would fall back to. */
  lemma {:induction false} SetPathThenResolvePath(root: map<string, Value>, fields: map<string, Value>, path: seq<string>, value: Value)
    requires |path| >= 1 && SetPath(fields, path, value).Ok?
    ensures ResolvePath(root, Some(Obj(SetPath(fields, path, value).value)), path) == Ok(Some(value))
    decreases |path|
  {
    var out := SetPath(fields, path, value).value;
    if |path| > 1 {
      var child := Stepped(fields, path[0]);
      var inner := SetPath(child.fields, path[1..], value);
      assert child.Obj? && inner.Ok?;
      SetPathThenResolvePath(root, child.fields, path[1..], value);
      assert out == fields[path[0] := Obj(inner.value)];
      assert Child(Obj(out), path[0]) == Some(Obj(inner.value));
    }
  }

  /** What `set` then `get` with the same key reads back: the stored value,
      unless it is `null`, `0` or `""`, for which `get` reports the key missing. */
  lemma SetThenGet(store: map<string, Value>, key: string, value: Value)
    requires SetIn(store, key, value).Ok?
    ensures Get(SetIn(store, key, value).value, key) ==
              if Missing(value) then Err(NotFound(key)) else Ok(value)
  {
    var out := SetIn(store, key, value).value;
    SetAlongSegments(store, key, value);
    ResolveAlongSegments(out, Some(Obj(out)), key);
    SetPathThenResolvePath(out, store, Segments(key), value);
  }

  /** For a key without a usable dot, `set` always succeeds, and `get`
      returns the value, `false` included, unless it is `null`, `0` or `""`. */
  lemma SetThenGetSingleKey(store: map<string, Value>, key: string, value: Value)
    requires Lacks(key, '.') || key[0] == '.'
    ensures SetIn(store, key, value) == Ok(store[key := value])
    ensures Get(store[key := value], key) == if Missing(value) then Err(NotFound(key)) else Ok(value)
  {
    SplitKeyShape(key);
    SetThenGet(store, key, value);
  }

  /** Where `set` can throw: it succeeds exactly when no proper prefix of the
      key's segments reaches a truthy string, number or boolean. */
  predicate Blocks(o: Option<Value>) {
    o.Some? && Truthy(o.value) && !o.value.Obj?
  }

  /** Some proper prefix of `path` reaches a truthy string, number or boolean. */
  predicate PathBlocked(v: Value, path: seq<string>) {
    exists i :: 0 < i < |path| && Blocks(At(v, path[..i]))
  }

  /** A path is blocked below an object exactly when it is blocked below the
      object `_set` steps into, provided that one is an object itself. */
  lemma PathBlockedStep(fields: map<string, Value>, path: seq<string>)
    requires |path| >= 2 && Stepped(fields, path[0]).Obj?
    ensures PathBlocked(Obj(fields), path) <==> PathBlocked(Stepped(fields, path[0]), path[1..])
  {
    var child := Stepped(fields, path[0]);
    AtPrefix(Obj(fields), path, 1);
    assert path[1..][..0] == [];
    assert !Blocks(At(Obj(fields), path[..1]));
    if PathBlocked(Obj(fields), path) {
      var i :| 0 < i < |path| && Blocks(At(Obj(fields), path[..i]));
      AtPrefix(Obj(fields), path, i);
      SteppedAgreesBelow(fields, path[0], path[1..][..i - 1]);
      assert Blocks(At(child, path[1..][..i - 1]));
    }
    if PathBlocked(child, path[1..]) {
      var j :| 0 < j < |path| - 1 && Blocks(At(child, path[1..][..j]));
      AtPrefix(Obj(fields), path, j + 1);
      SteppedAgreesBelow(fields, path[0], path[1..][..j]);
      assert Blocks(At(Obj(fields), path[..j + 1]));
    }
  }

  lemma {:induction false} SetPathSucceedsIff(fields: map<string, Value>, path: seq<string>, value: Value)
    requires |path| >= 1
    ensures SetPath(fields, path, value).Ok? <==> !PathBlocked(Obj(fields), path)
    decreases |path|
  {
    if |path| == 1 {
      assert !PathBlocked(Obj(fields), path);
    } else {
      var child := Stepped(fields, path[0]);
      AtPrefix(Obj(fields), path, 1);
      assert path[1..][..0] == [];
      if !child.Obj? {
        assert Blocks(At(Obj(fields), path[..1]));
      } else {
        SetPathSucceedsIff(child.fields, path[1..], value);
        PathBlockedStep(fields, path);
      }
    }
  }

  /** `set` throws exactly when some proper prefix of the key's segments
      reaches a truthy string, number or boolean. */
  lemma SetSucceedsIff(fields: map<string, Value>, key: string, value: Value)
    ensures SetIn(fields, key, value).Ok? <==> !PathBlocked(Obj(fields), Segments(key))
  {
    SetAlongSegments(fields, key, value);
    SetPathSucceedsIff(fields, Segments(key), value);
  }

  /** Paths that part ways somewhere. */
  predicate Diverges(p: seq<string>, q: seq<string>) {
    exists i :: 0 <= i < |p| && i < |q| && p[i] != q[i]
  }

  /** Writing along a path leaves whatever a diverging path reaches alone. */
  lemma {:induction false} SetPathFrame(fields: map<string, Value>, path: seq<string>, value: Value, p: seq<string>)
    requires |path| >= 1 && SetPath(fields, path, value).Ok?
    requires Diverges(p, path)
    ensures At(Obj(SetPath(fields, path, value).value), p) == At(Obj(fields), p)
    decreases |path|
  {
    var i :| 0 <= i < |p| && i < |path| && p[i] != path[i];
    if |path| > 1 && p[0] == path[0] {
      var child := Stepped(fields, path[0]);
      assert Diverges(p[1..], path[1..]) by {
        assert p[1..][i - 1] != path[1..][i - 1];
      }
      SetPathFrame(child.fields, path[1..], value, p[1..]);
      SteppedAgreesBelow(fields, path[0], p[1..]);
    }
  }

  /** `set` leaves every sibling alone at every level: whatever a path that
      parts ways with the key's segments reached before, it reaches after. */
  lemma SetFrame(fields: map<string, Value>, key: string, value: Value, p: seq<string>)
    requires SetIn(fields, key, value).Ok?
    requires Diverges(p, Segments(key))
    ensures At(Obj(SetIn(fields, key, value).value), p) == At(Obj(fields), p)
  {
    SetAlongSegments(fields, key, value);
    SetPathFrame(fields, Segments(key), value, p);
  }

  /** The property names of what `o` reaches, when that is an object. */
  function KeysOf(o: Option<Value>): set<string> {
    if o.Some? && o.value.Obj? then o.value.fields.Keys else {}
  }

  lemma {:induction false} SetPathIntermediates(fields: map<string, Value>, path: seq<string>, value: Value, i: nat)
    requires |path| >= 1 && SetPath(fields, path, value).Ok?
    requires 0 < i < |path|
    ensures var after := At(Obj(SetPath(fields, path, value).value), path[..i]);
      after.Some? && after.value.Obj? &&
      after.value.fields.Keys == KeysOf(At(Obj(fields), path[..i])) + {path[i]}
    decreases |path|
  {
    var out := SetPath(fields, path, value).value;
    var child := Stepped(fields, path[0]);
    AtPrefix(Obj(out), path, i);
    AtPrefix(Obj(fields), path, i);
    if i == 1 {
      assert path[1..][..0] == [];
    } else {
      SetPathIntermediates(child.fields, path[1..], value, i - 1);
      SteppedAgreesBelow(fields, path[0], path[1..][..i - 1]);
    }
  }

  /** After `set`, every proper prefix of the key's segments reaches an
      object that holds the next segment: the object that was there, or a
      new `{}` where the prefix reached nothing or a falsy value. */
  lemma SetIntermediates(fields: map<string, Value>, key: string, value: Value, i: nat)
    requires SetIn(fields, key, value).Ok?
    requires 0 < i < |Segments(key)|
    ensures var after := At(Obj(SetIn(fields, key, value).value), Segments(key)[..i]);
      after.Some? && after.value.Obj? &&
      after.value.fields.Keys == KeysOf(At(Obj(fields), Segments(key)[..i])) + {Segments(key)[i]}
  {
    SetAlongSegments(fields, key, value);
    SetPathIntermediates(fields, Segments(key), value, i);
  }

  lemma {:induction false} SetPathIntoEmpty(path: seq<string>, value: Value)
    requires |path| >= 1
    ensures SetPath(map[], path, value).Ok?
    decreases |path|
  {
    if |path| > 1 {
      SetPathIntoEmpty(path[1..], value);
    }
  }

  /** `set` on an empty object never throws: fresh intermediates are objects. */
  lemma SetIntoEmpty(key: string, value: Value)
    ensures SetIn(map[], key, value).Ok?
  {
    SetAlongSegments(map[], key, value);
    SetPathIntoEmpty(Segments(key), value);
  }
}
