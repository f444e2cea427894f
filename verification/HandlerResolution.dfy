/** Which handler runs in the access phase and in the content phase, and what directory sections have to do with it:
    src/module.cpp and src/mod_ruby.c. */
module HandlerResolution {
  import opened Options
  import opened AprTable
  import opened Configuration
  import opened Precedence

  datatype Resolution =
    | Handler(mod: string, cls: string, fn: string)
    | Undefined                   // a `logic_error` is thrown
    | Empty                       // the empty handler, which signifies an error

  const MODULE := "RubyHandlerModule"
  const CLASS := "RubyHandlerClass"
  const METHOD := "RubyHandlerMethod"

  /** A handler is only made of three strings that are there. */
  function Triple(mod: Option<string>, cls: Option<string>, fn: Option<string>): Resolution {
    if mod.Some? && cls.Some? && fn.Some? then Handler(mod.value, cls.value, fn.value) else Undefined
  }

  function Lookup(h: map<string, string>, key: string): Option<string> {
    if key in h then Some(h[key]) else None
  }

  function Declared(h: map<string, string>): Resolution {
    Triple(Lookup(h, MODULE), Lookup(h, CLASS), Lookup(h, METHOD))
  }

  /** What `ruby_request_get_access_handler` finds. */
  function FoundAccess(cfg: ServerConfig, name: Option<string>): Resolution {
    if name.Some? && name.value in cfg.handlers then Declared(cfg.handlers[name.value]) else Empty
  }

  /** What `ruby_request_get_handler` finds in notes with these values. */
  function Found(cfg: ServerConfig, name: Option<string>, mod: Option<string>, cls: Option<string>, fn: Option<string>)
    : Resolution
  {
    if name.Some? then FoundAccess(cfg, name)
    else Triple(Over(cfg.defaultModule, mod), Over(cfg.defaultClass, cls), Over(cfg.defaultMethod, fn))
  }

  function Resolved(notes: seq<Entry>, cfg: ServerConfig): Resolution {
    Found(cfg, Get(notes, HANDLER), Get(notes, DEFAULT_MODULE), Get(notes, DEFAULT_CLASS), Get(notes, DEFAULT_METHOD))
  }

  // ---- What is found, name by name ----

  /** The value of a default: the note, or else the server's field. */
  predicate DefaultIs(notes: seq<Entry>, name: string, field: Option<string>, value: string) {
    Get(notes, name) == Some(value) || (Get(notes, name) == None && field == Some(value))
  }

  predicate NoDefault(notes: seq<Entry>, name: string, field: Option<string>) {
    Get(notes, name) == None && field == None
  }

  /** Without `RubyHandler` the three defaults make the handler. */
  lemma DefaultsMakeHandler(notes: seq<Entry>, cfg: ServerConfig, mod: string, cls: string, fn: string)
    requires Get(notes, "RubyHandler") == None
    requires DefaultIs(notes, "RubyDefaultHandlerModule", cfg.defaultModule, mod)
    requires DefaultIs(notes, "RubyDefaultHandlerClass", cfg.defaultClass, cls)
    requires DefaultIs(notes, "RubyDefaultHandlerMethod", cfg.defaultMethod, fn)
    ensures Resolved(notes, cfg) == Handler(mod, cls, fn)
  {
    hide Get;
  }

  /** If one of them is missing there is none. */
  lemma MissingDefault(notes: seq<Entry>, cfg: ServerConfig)
    requires Get(notes, "RubyHandler") == None
    requires NoDefault(notes, "RubyDefaultHandlerModule", cfg.defaultModule)
      || NoDefault(notes, "RubyDefaultHandlerClass", cfg.defaultClass)
      || NoDefault(notes, "RubyDefaultHandlerMethod", cfg.defaultMethod)
    ensures Resolved(notes, cfg) == Undefined
  {
    hide Get;
  }

  /** The three names a declared handler's hash has to have. */
  predicate Complete(h: map<string, string>) {
    "RubyHandlerModule" in h && "RubyHandlerClass" in h && "RubyHandlerMethod" in h
  }

  /** A declared handler is made of the three names in its hash; without one of them there is none; a name that is not
      declared gives the empty handler. The defaults do not come into it. */
  lemma NamedHandler(notes: seq<Entry>, cfg: ServerConfig, name: string)
    requires Get(notes, "RubyHandler") == Some(name)
    ensures name !in cfg.handlers ==> Resolved(notes, cfg) == Empty
    ensures name in cfg.handlers && !Complete(cfg.handlers[name]) ==> Resolved(notes, cfg) == Undefined
    ensures name in cfg.handlers && Complete(cfg.handlers[name]) ==>
      var h := cfg.handlers[name];
      Resolved(notes, cfg) == Handler(h["RubyHandlerModule"], h["RubyHandlerClass"], h["RubyHandlerMethod"])
  {
    hide Get;
  }

  function ResolvedAccess(notes: seq<Entry>, cfg: ServerConfig): Resolution {
    FoundAccess(cfg, Get(notes, ACCESS))
  }

  /** The same of the access handler, but that without `RubyAccessHandler` it is empty. */
  lemma NamedAccessHandler(notes: seq<Entry>, cfg: ServerConfig)
    ensures Get(notes, "RubyAccessHandler") == None ==> ResolvedAccess(notes, cfg) == Empty
    ensures Get(notes, "RubyAccessHandler").Some? ==>
      var name := Get(notes, "RubyAccessHandler").value;
      && (name !in cfg.handlers ==> ResolvedAccess(notes, cfg) == Empty)
      && (name in cfg.handlers && !Complete(cfg.handlers[name]) ==> ResolvedAccess(notes, cfg) == Undefined)
      && (name in cfg.handlers && Complete(cfg.handlers[name]) ==>
          var h := cfg.handlers[name];
          ResolvedAccess(notes, cfg) == Handler(h["RubyHandlerModule"], h["RubyHandlerClass"], h["RubyHandlerMethod"]))
  {
    hide Get;
  }

  /** `ruby_request_get_handler`, up to the loading: a declared handler's own triple, or without `RubyHandler` the
      defaults, which the notes then record. */
  method GetHandler(notes: Table, cfg: ServerConfig) returns (r: Resolution)
    modifies notes
    ensures r == Resolved(old(notes.entries), cfg)
    ensures notes.entries ==
      if r.Handler? && Get(old(notes.entries), HANDLER).None? then
        Set(Set(Set(old(notes.entries), MODULE, r.mod), CLASS, r.cls), METHOD, r.fn)
      else
        old(notes.entries)
    ensures forall mod, cls, fn ::
      && Get(old(notes.entries), "RubyHandler") == None
      && DefaultIs(old(notes.entries), "RubyDefaultHandlerModule", cfg.defaultModule, mod)
      && DefaultIs(old(notes.entries), "RubyDefaultHandlerClass", cfg.defaultClass, cls)
      && DefaultIs(old(notes.entries), "RubyDefaultHandlerMethod", cfg.defaultMethod, fn) ==>
      r == Handler(mod, cls, fn)
  {
    hide Get, Set;
    var mod, cls, fn := cfg.defaultModule, cfg.defaultClass, cfg.defaultMethod;
    if Get(notes.entries, HANDLER).Some? {
      var name := Get(notes.entries, HANDLER).value;
      if name in cfg.handlers {
        var h := cfg.handlers[name];
        return Triple(Lookup(h, MODULE), Lookup(h, CLASS), Lookup(h, METHOD));
      }
    } else {
      if Get(notes.entries, DEFAULT_MODULE).Some? {
        mod := Get(notes.entries, DEFAULT_MODULE);
      }
      if Get(notes.entries, DEFAULT_CLASS).Some? {
        cls := Get(notes.entries, DEFAULT_CLASS);
      }
      if Get(notes.entries, DEFAULT_METHOD).Some? {
        fn := Get(notes.entries, DEFAULT_METHOD);
      }
      if mod.None? || cls.None? || fn.None? {
        return Undefined;
      }
      notes.SetValue(MODULE, mod.value);
      notes.SetValue(CLASS, cls.value);
      notes.SetValue(METHOD, fn.value);
      return Triple(mod, cls, fn);
    }
    return Empty;
  }

  /** `ruby_request_get_access_handler`, up to the loading. */
  method GetAccessHandler(notes: Table, cfg: ServerConfig) returns (r: Resolution)
    ensures r == ResolvedAccess(notes.entries, cfg)
  {
    if Get(notes.entries, ACCESS).Some? {
      var name := Get(notes.entries, ACCESS).value;
      if name in cfg.handlers {
        var h := cfg.handlers[name];
        return Triple(Lookup(h, MODULE), Lookup(h, CLASS), Lookup(h, METHOD));
      }
    }
    return Empty;
  }

  // ---- The two phases of a request ----

  /** The handlers found, told from the configuration and the notes before the first phase. */
  ghost function AccessHandler(notes: seq<Entry>, cfg: ServerConfig, dir: seq<Entry>): Resolution {
    FoundAccess(cfg, Once(notes, cfg, dir, ACCESS))
  }

  ghost function ContentHandler(notes: seq<Entry>, cfg: ServerConfig, dir: seq<Entry>): Resolution {
    Found(cfg, Twice(notes, cfg, dir, HANDLER), Twice(notes, cfg, dir, DEFAULT_MODULE),
          Twice(notes, cfg, dir, DEFAULT_CLASS), Twice(notes, cfg, dir, DEFAULT_METHOD))
  }

  /** The access handler is named by the topmost layer of one run. */
  lemma AccessClosedForm(notes: seq<Entry>, cfg: ServerConfig, dir: seq<Entry>, once: seq<Entry>)
    requires ConsistentRun(notes, cfg, dir) && IsRun(notes, cfg, dir, once)
    ensures ResolvedAccess(once, cfg) == AccessHandler(notes, cfg, dir)
  {
    hide IsRun, ConsistentRun, Once;
    RunGivesOnce(notes, cfg, dir, once, ACCESS);
  }

  /** The content handler depends on the layers of both runs only, not on any order: the declared handler of the
      topmost layer with `RubyHandler`, or else for each default the topmost layer that has it. */
  lemma ResolvedClosedForm(notes: seq<Entry>, cfg: ServerConfig, dir: seq<Entry>, once: seq<Entry>, twice: seq<Entry>)
    requires ConsistentRuns(notes, cfg, dir) && IsRun(notes, cfg, dir, once) && IsRun(once, cfg, dir, twice)
    ensures Resolved(twice, cfg) == ContentHandler(notes, cfg, dir)
  {
    hide IsRun, ConsistentRuns, Twice;
    RunsGiveTwice(notes, cfg, dir, once, twice, HANDLER);
    RunsGiveTwice(notes, cfg, dir, once, twice, DEFAULT_MODULE);
    RunsGiveTwice(notes, cfg, dir, once, twice, DEFAULT_CLASS);
    RunsGiveTwice(notes, cfg, dir, once, twice, DEFAULT_METHOD);
  }

  /** In the content phase: without `RubyHandler` after both runs, the three defaults make the handler, each being the
      value of its note after both runs or else the server's field. */
  lemma ContentDefaults(notes: seq<Entry>, cfg: ServerConfig, dir: seq<Entry>, mod: string, cls: string, fn: string)
    requires Twice(notes, cfg, dir, "RubyHandler") == None
    requires var v := Twice(notes, cfg, dir, "RubyDefaultHandlerModule");
             v == Some(mod) || (v == None && cfg.defaultModule == Some(mod))
    requires var v := Twice(notes, cfg, dir, "RubyDefaultHandlerClass");
             v == Some(cls) || (v == None && cfg.defaultClass == Some(cls))
    requires var v := Twice(notes, cfg, dir, "RubyDefaultHandlerMethod");
             v == Some(fn) || (v == None && cfg.defaultMethod == Some(fn))
    ensures ContentHandler(notes, cfg, dir) == Handler(mod, cls, fn)
  {
    hide Twice;
  }

  lemma ContentDefaultMissing(notes: seq<Entry>, cfg: ServerConfig, dir: seq<Entry>)
    requires Twice(notes, cfg, dir, "RubyHandler") == None
    requires
      || (Twice(notes, cfg, dir, "RubyDefaultHandlerModule") == None && cfg.defaultModule == None)
      || (Twice(notes, cfg, dir, "RubyDefaultHandlerClass") == None && cfg.defaultClass == None)
      || (Twice(notes, cfg, dir, "RubyDefaultHandlerMethod") == None && cfg.defaultMethod == None)
    ensures ContentHandler(notes, cfg, dir) == Undefined
  {
    hide Twice;
  }

  /** With `RubyHandler` after both runs it is the declared handler of that name. */
  lemma ContentNamed(notes: seq<Entry>, cfg: ServerConfig, dir: seq<Entry>, name: string)
    requires Twice(notes, cfg, dir, "RubyHandler") == Some(name)
    ensures name !in cfg.handlers ==> ContentHandler(notes, cfg, dir) == Empty
    ensures name in cfg.handlers && !Complete(cfg.handlers[name]) ==> ContentHandler(notes, cfg, dir) == Undefined
    ensures name in cfg.handlers && Complete(cfg.handlers[name]) ==>
      var h := cfg.handlers[name];
      ContentHandler(notes, cfg, dir) ==
        Handler(h["RubyHandlerModule"], h["RubyHandlerClass"], h["RubyHandlerMethod"])
  {
    hide Twice;
  }

  /** Where the handlers selected cannot select other ones, one run is as good as two. */
  lemma OneRunIsEnough(notes: seq<Entry>, cfg: ServerConfig, dir: seq<Entry>, once: seq<Entry>, twice: seq<Entry>)
    requires ConsistentRun(notes, cfg, dir) && IsRun(notes, cfg, dir, once) && IsRun(once, cfg, dir, twice)
    requires SelectsAgain(notes, cfg, dir)
    ensures Resolved(twice, cfg) == Resolved(once, cfg)
  {
    hide IsRun, ConsistentRun, Once, SelectsAgain;
    forall key
      ensures Get(twice, key) == Get(once, key)
    {
      SecondPhaseChangesNothing(notes, cfg, dir, once, twice, key);
    }
  }

  lemma OrdersAreRun(notes: seq<Entry>, cfg: ServerConfig, dir: seq<Entry>, o1: seq<string>, o2: seq<string>)
    requires AreOrders(notes, cfg, dir, o1, o2)
    ensures IsRun(notes, cfg, dir, Configured(notes, cfg, dir, o1, o2))
  {
  }

  /** A request: the access hook configures and looks for the access handler; unless that ends the request, the content
      hook configures the same notes again and looks for the handler. An access handler without its three names throws,
      which ends the request; what the access handler itself says, once it is run, is `passes`. */
  method ServeRequest(notes: Table, cfg: ServerConfig, dir: seq<Entry>, passes: bool)
    returns (access: Resolution, content: Option<Resolution>)
    modifies notes
    ensures ConsistentRun(old(notes.entries), cfg, dir) ==> access == AccessHandler(old(notes.entries), cfg, dir)
    ensures content.Some? <==> access == Empty || (access.Handler? && passes)
    ensures content.Some? && ConsistentRuns(old(notes.entries), cfg, dir) ==>
      content == Some(ContentHandler(old(notes.entries), cfg, dir))
  {
    hide Configured, AreOrders, Consistent, ResolvedAccess, Resolved, AccessHandler, ContentHandler, IsRun;
    hide HandlerSettings, AccessSettings, NextHandler, NextAccess;
    ghost var before := notes.entries;
    ghost var o1, o2 := InitConfiguration(notes, cfg, dir);
    ghost var once := notes.entries;
    OrdersAreRun(before, cfg, dir, o1, o2);
    access := GetAccessHandler(notes, cfg);
    if ConsistentRun(before, cfg, dir) {
      AccessClosedForm(before, cfg, dir, once);
    }
    if access == Undefined || (access.Handler? && !passes) {
      return access, None;
    }
    ghost var o3, o4 := InitConfiguration(notes, cfg, dir);
    ghost var twice := notes.entries;
    OrdersAreRun(once, cfg, dir, o3, o4);
    var found := GetHandler(notes, cfg);
    content := Some(found);
    if ConsistentRuns(before, cfg, dir) {
      ResolvedClosedForm(before, cfg, dir, once, twice);
    }
  }

  // ---- Nested directories ----

  /** `merge_dir_conf`: the tables laid over each other and compressed, so that each key keeps its last value. */
  function MergeDir(outer: seq<Entry>, inner: seq<Entry>): seq<Entry> {
    CopyAll([], outer + inner)
  }

  lemma {:induction false} LastConcat(a: seq<Entry>, b: seq<Entry>, key: string)
    ensures Last(a + b, key) == Over(Last(a, key), Last(b, key))
    decreases |b|
  {
    if b == [] {
      assert a + b == a;
    } else {
      assert (a + b)[..|a + b| - 1] == a + b[..|b| - 1];
      LastConcat(a, b[..|b| - 1], key);
    }
  }

  /** The inner directory's value wins. */
  lemma MergeDirValue(outer: seq<Entry>, inner: seq<Entry>, key: string)
    ensures Get(MergeDir(outer, inner), key) == Over(Last(outer, key), Last(inner, key))
  {
    GetCopyAll([], outer + inner, key);
    LastConcat(outer, inner, key);
  }

  // ---- The default directives inside a directory ----

  /** `RubyDefaultHandlerModule`, `-Class` and `-Method` inside a directory store their argument under the name a
      declared handler's hash uses. */
  function DirectoryDefault(dir: seq<Entry>, name: string, arg: string): seq<Entry>
    requires name == MODULE || name == CLASS || name == METHOD
  {
    Set(dir, name, arg)
  }

  predicate ReadForResolution(key: string) {
    key == HANDLER || key == ACCESS || key == DEFAULT_MODULE || key == DEFAULT_CLASS || key == DEFAULT_METHOD
  }

  lemma NamesDiffer(name: string, key: string)
    requires name == MODULE || name == CLASS || name == METHOD
    requires ReadForResolution(key)
    ensures !SameKey(name, key)
  {
    assert |MODULE| == 17 && |CLASS| == 16 && |METHOD| == 17;
    assert |Fold(name)| == |name| && |Fold(key)| == |key|;
    if key == ACCESS {
      assert Fold(name)[4] == 'h' && Fold(key)[4] == 'a';
    }
  }

  lemma {:induction false} LastWithout(t: seq<Entry>, key: string, other: string)
    requires !SameKey(key, other)
    ensures Last(Without(t, key), other) == Last(t, other)
    decreases |t|
  {
    hide Fold;
    if t == [] {
    } else {
      var head := [t[0]];
      LastWithout(t[1..], key, other);
      assert t == head + t[1..];
      LastConcat(head, t[1..], other);
      LastConcat(head, Without(t[1..], key), other);
      assert Last(head, other).Some? ==> SameKey(t[0].key, other);
    }
  }

  lemma LastOther(e: Entry, key: string, other: string)
    requires SameKey(e.key, key) && !SameKey(key, other)
    ensures Last([e], other) == None
  {
  }

  lemma LastSet(t: seq<Entry>, key: string, value: string, other: string)
    requires !SameKey(key, other)
    ensures Last(Set(t, key, value), other) == Last(t, other)
  {
    hide Fold, Last;
    var i := Find(t, key);
    if i == |t| {
      LastConcat(t, [Entry(key, value)], other);
      LastOther(Entry(key, value), key, other);
    } else {
      var a, e, b := t[..i], t[i], t[i + 1..];
      LastOther(e, key, other);
      LastOther(Entry(e.key, value), key, other);
      LastConcat(a + [Entry(e.key, value)], Without(b, key), other);
      LastConcat(a, [Entry(e.key, value)], other);
      LastConcat(a + [e], b, other);
      LastConcat(a, [e], other);
      LastWithout(b, key, other);
      assert t == a + [e] + b;
    }
  }

  /** The layers of the names that resolution reads are the same with the directive and without it. */
  lemma LayersIgnore(cfg: ServerConfig, dir: seq<Entry>, name: string, arg: string, key: string)
    requires name == MODULE || name == CLASS || name == METHOD
    requires ReadForResolution(key)
    ensures Base(cfg, DirectoryDefault(dir, name, arg), key) == Base(cfg, dir, key)
    ensures forall server ::
      Merged(DirectoryDefault(dir, name, arg), ACCESS, server, key) == Merged(dir, ACCESS, server, key)
  {
    hide Get, Set, Last, SameKey;
    NamesDiffer(name, key);
    NamesDiffer(name, DEFAULT_MODULE);
    NamesDiffer(name, DEFAULT_CLASS);
    NamesDiffer(name, DEFAULT_METHOD);
    NamesDiffer(name, HANDLER);
    NamesDiffer(name, ACCESS);
    LastSet(dir, name, arg, key);
    GetSet(dir, name, arg, DEFAULT_MODULE);
    GetSet(dir, name, arg, DEFAULT_CLASS);
    GetSet(dir, name, arg, DEFAULT_METHOD);
    GetSet(dir, name, arg, HANDLER);
    GetSet(dir, name, arg, ACCESS);
  }

  lemma ValuesIgnore(notes: seq<Entry>, cfg: ServerConfig, dir: seq<Entry>, name: string, arg: string, key: string)
    requires name == MODULE || name == CLASS || name == METHOD
    requires ReadForResolution(key)
    ensures Once(notes, cfg, DirectoryDefault(dir, name, arg), key) == Once(notes, cfg, dir, key)
    ensures Twice(notes, cfg, DirectoryDefault(dir, name, arg), key) == Twice(notes, cfg, dir, key)
  {
    hide Get, Base, Merged, HashValue, DirectoryDefault;
    LayersIgnore(cfg, dir, name, arg, HANDLER);
    LayersIgnore(cfg, dir, name, arg, ACCESS);
    LayersIgnore(cfg, dir, name, arg, key);
  }

  /** Contrary to what the manual says of directory settings, a default directive inside a directory changes neither
      the access handler nor the content handler, whatever the notes say before. */
  lemma DirectoryDefaultIsIgnored(notes: seq<Entry>, cfg: ServerConfig, dir: seq<Entry>, name: string, arg: string)
    requires name == MODULE || name == CLASS || name == METHOD
    ensures AccessHandler(notes, cfg, DirectoryDefault(dir, name, arg)) == AccessHandler(notes, cfg, dir)
    ensures ContentHandler(notes, cfg, DirectoryDefault(dir, name, arg)) == ContentHandler(notes, cfg, dir)
  {
    hide Twice, Once, DirectoryDefault;
    ValuesIgnore(notes, cfg, dir, name, arg, ACCESS);
    ValuesIgnore(notes, cfg, dir, name, arg, HANDLER);
    ValuesIgnore(notes, cfg, dir, name, arg, DEFAULT_MODULE);
    ValuesIgnore(notes, cfg, dir, name, arg, DEFAULT_CLASS);
    ValuesIgnore(notes, cfg, dir, name, arg, DEFAULT_METHOD);
  }
}
