/** Configuration of a request: src/module.cpp (`merge_var`, `ruby_request_init_configuration`) and `merge_dir_conf`
    of src/mod_ruby.c. Layered tables are folded into the notes table. */
module Configuration {
  import opened Options
  import opened AprTable

  /** The server configuration; `handlers` holds the hashes of the declared handlers. */
  datatype ServerConfig = ServerConfig(
    handler: Option<string>,
    defaultModule: Option<string>,
    defaultClass: Option<string>,
    defaultMethod: Option<string>,
    options: seq<Entry>,
    handlers: map<string, map<string, string>>)

  const HANDLER := "RubyHandler"
  const ACCESS := "RubyAccessHandler"
  const DEFAULT_MODULE := "RubyDefaultHandlerModule"
  const DEFAULT_CLASS := "RubyDefaultHandlerClass"
  const DEFAULT_METHOD := "RubyDefaultHandlerMethod"

  // ---- The steps ----

  /** Setting every entry of a table in turn. */
  function CopyAll(notes: seq<Entry>, t: seq<Entry>): seq<Entry>
    decreases |t|
  {
    if t == [] then notes
    else Set(CopyAll(notes, t[..|t| - 1]), t[|t| - 1].key, t[|t| - 1].value)
  }

  /** `merge_var`: the directory's value if it has one, otherwise the server's if there is one. */
  function MergeVar(notes: seq<Entry>, dir: seq<Entry>, name: string, server: Option<string>): seq<Entry> {
    if Get(dir, name).Some? then Set(notes, name, Get(dir, name).value)
    else if server.Some? then Set(notes, name, server.value)
    else notes
  }

  /** An order in which a hash may be walked: each key once. */
  ghost predicate IsOrder(order: seq<string>, h: map<string, string>) {
    (forall k :: k in order <==> k in h) && (forall i, j :: 0 <= i < j < |order| ==> order[i] != order[j])
  }

  function Ordered(h: map<string, string>, order: seq<string>): (t: seq<Entry>)
    requires forall k :: k in order ==> k in h
    ensures |t| == |order|
  {
    seq(|order|, i requires 0 <= i < |order| => Entry(order[i], h[order[i]]))
  }

  /** The hash of the handler a note names; none if the note is missing or the name is not declared. */
  function Selected(cfg: ServerConfig, name: Option<string>): map<string, string> {
    if name.Some? && name.value in cfg.handlers then cfg.handlers[name.value] else map[]
  }

  /** The notes when `RubyHandler` has been merged. */
  function BeforeHandler(notes: seq<Entry>, cfg: ServerConfig, dir: seq<Entry>): seq<Entry> {
    var n := CopyAll(CopyAll(notes, cfg.options), dir);
    var n := MergeVar(n, dir, DEFAULT_MODULE, cfg.defaultModule);
    var n := MergeVar(n, dir, DEFAULT_CLASS, cfg.defaultClass);
    var n := MergeVar(n, dir, DEFAULT_METHOD, cfg.defaultMethod);
    MergeVar(n, dir, HANDLER, cfg.handler)
  }

  function HandlerHash(notes: seq<Entry>, cfg: ServerConfig, dir: seq<Entry>): map<string, string> {
    Selected(cfg, Get(BeforeHandler(notes, cfg, dir), HANDLER))
  }

  /** The notes when `RubyAccessHandler` has been merged, from the same field of the server as `RubyHandler`. */
  function BeforeAccess(notes: seq<Entry>, cfg: ServerConfig, dir: seq<Entry>, order: seq<string>): seq<Entry>
    requires forall k :: k in order ==> k in HandlerHash(notes, cfg, dir)
  {
    MergeVar(CopyAll(BeforeHandler(notes, cfg, dir), Ordered(HandlerHash(notes, cfg, dir), order)),
             dir, ACCESS, cfg.handler)
  }

  function AccessHash(notes: seq<Entry>, cfg: ServerConfig, dir: seq<Entry>, order: seq<string>): map<string, string>
    requires forall k :: k in order ==> k in HandlerHash(notes, cfg, dir)
  {
    Selected(cfg, Get(BeforeAccess(notes, cfg, dir, order), ACCESS))
  }

  /** Orders in which the two hashes may be walked. */
  ghost predicate AreOrders(notes: seq<Entry>, cfg: ServerConfig, dir: seq<Entry>, o1: seq<string>, o2: seq<string>) {
    IsOrder(o1, HandlerHash(notes, cfg, dir)) && IsOrder(o2, AccessHash(notes, cfg, dir, o1))
  }

  /** `ruby_request_init_configuration` with the two hashes walked in the given orders. */
  ghost function Configured(notes: seq<Entry>, cfg: ServerConfig, dir: seq<Entry>, o1: seq<string>, o2: seq<string>)
    : seq<Entry>
    requires AreOrders(notes, cfg, dir, o1, o2)
  {
    CopyAll(BeforeAccess(notes, cfg, dir, o1), Ordered(AccessHash(notes, cfg, dir, o1), o2))
  }

  // ---- The methods ----

  lemma CopyNothing(notes: seq<Entry>, t: seq<Entry>)
    ensures CopyAll(notes, t[..0]) == notes
  {
  }

  lemma CopyOneMore(notes: seq<Entry>, t: seq<Entry>, i: nat)
    requires i < |t|
    ensures CopyAll(notes, t[..i + 1]) == Set(CopyAll(notes, t[..i]), t[i].key, t[i].value)
  {
    hide Set;
    assert t[..i + 1][..i] == t[..i];
  }

  /** The iterator loops over an option table. */
  method CopyTable(notes: Table, t: seq<Entry>)
    modifies notes
    ensures notes.entries == CopyAll(old(notes.entries), t)
  {
    hide CopyAll, Set;
    CopyNothing(notes.entries, t);
    var ti := new Iterator(t);
    var more := ti.Next();
    while more
      invariant fresh(ti) && ti.h == t && 0 <= ti.i + (if more then 0 else 1) <= |t|
      invariant if more then ti.i < |t| else ti.i == |t| - 1
      invariant notes.entries == CopyAll(old(notes.entries), t[..ti.i + (if more then 0 else 1)])
      decreases |t| - ti.i, more
    {
      CopyOneMore(old(notes.entries), t, ti.i);
      notes.SetValue(ti.Key(), ti.Data());
      more := ti.Next();
    }
    assert t[..|t|] == t;
  }

  method MergeVariable(notes: Table, dir: seq<Entry>, name: string, server: Option<string>) returns (isSet: bool)
    modifies notes
    ensures notes.entries == MergeVar(old(notes.entries), dir, name, server)
    ensures isSet <==> Get(notes.entries, name).Some?
  {
    if Get(dir, name).Some? {
      notes.SetValue(name, Get(dir, name).value);
    } else {
      if server.Some? {
        notes.SetValue(name, server.value);
      }
    }
    isSet := Get(notes.entries, name).Some?;
  }

  lemma OrderedSnoc(h: map<string, string>, order: seq<string>, key: string, notes: seq<Entry>)
    requires (forall k :: k in order ==> k in h) && key in h
    ensures CopyAll(notes, Ordered(h, order + [key])) == Set(CopyAll(notes, Ordered(h, order)), key, h[key])
  {
    var t := Ordered(h, order + [key]);
    assert t[..|t| - 1] == Ordered(h, order);
  }

  /** The walk over a handler's hash, in whatever order it comes. */
  method CopyHash(notes: Table, h: map<string, string>) returns (ghost order: seq<string>)
    modifies notes
    ensures IsOrder(order, h) && notes.entries == CopyAll(old(notes.entries), Ordered(h, order))
  {
    order := [];
    var left := h.Keys;
    while left != {}
      invariant left <= h.Keys && (forall k :: k in order <==> k in h && k !in left)
      invariant forall i, j :: 0 <= i < j < |order| ==> order[i] != order[j]
      invariant notes.entries == CopyAll(old(notes.entries), Ordered(h, order))
      decreases left
    {
      var key :| key in left;
      left := left - {key};
      notes.SetValue(key, h[key]);
      OrderedSnoc(h, order, key, old(notes.entries));
      order := order + [key];
    }
  }

  lemma OrderKeys(order: seq<string>, h: map<string, string>)
    requires IsOrder(order, h)
    ensures forall k :: k in order ==> k in h
  {
  }

  /** The settings of the handler a note names, if the note is there and the handler is declared. */
  method CopySelected(notes: Table, cfg: ServerConfig, name: string, isSet: bool) returns (ghost order: seq<string>)
    requires isSet <==> Get(notes.entries, name).Some?
    modifies notes
    ensures IsOrder(order, Selected(cfg, old(Get(notes.entries, name))))
    ensures notes.entries ==
      CopyAll(old(notes.entries), Ordered(Selected(cfg, old(Get(notes.entries, name))), order))
  {
    order := [];
    if isSet {
      var handler := Get(notes.entries, name).value;
      if handler in cfg.handlers {
        order := CopyHash(notes, cfg.handlers[handler]);
      }
    }
  }

  method InitConfiguration(notes: Table, cfg: ServerConfig, dir: seq<Entry>)
    returns (ghost o1: seq<string>, ghost o2: seq<string>)
    modifies notes
    ensures AreOrders(old(notes.entries), cfg, dir, o1, o2)
    ensures notes.entries == Configured(old(notes.entries), cfg, dir, o1, o2)
  {
    hide Set, Get, IsOrder, CopyAll;
    ghost var before := notes.entries;
    CopyTable(notes, cfg.options);
    CopyTable(notes, dir);
    var isSet := MergeVariable(notes, dir, DEFAULT_MODULE, cfg.defaultModule);
    isSet := MergeVariable(notes, dir, DEFAULT_CLASS, cfg.defaultClass);
    isSet := MergeVariable(notes, dir, DEFAULT_METHOD, cfg.defaultMethod);
    isSet := MergeVariable(notes, dir, HANDLER, cfg.handler);
    assert notes.entries == BeforeHandler(before, cfg, dir);
    o1 := CopySelected(notes, cfg, HANDLER, isSet);
    isSet := MergeVariable(notes, dir, ACCESS, cfg.handler);
    OrderKeys(o1, HandlerHash(before, cfg, dir));
    assert notes.entries == BeforeAccess(before, cfg, dir, o1);
    o2 := CopySelected(notes, cfg, ACCESS, isSet);
  }

  // ---- Layers ----

  /** The upper value where there is one. */
  function Over(lower: Option<string>, upper: Option<string>): Option<string> {
    if upper.Some? then upper else lower
  }

  /** The last value a table gives a key. */
  function Last(t: seq<Entry>, key: string): Option<string>
    decreases |t|
  {
    if t == [] then None
    else if SameKey(t[|t| - 1].key, key) then Some(t[|t| - 1].value)
    else Last(t[..|t| - 1], key)
  }

  /** What `merge_var` defines. */
  function Merged(dir: seq<Entry>, name: string, server: Option<string>, key: string): Option<string> {
    if !SameKey(name, key) then None
    else if Get(dir, name).Some? then Get(dir, name)
    else server
  }

  lemma {:induction false} GetCopyAll(notes: seq<Entry>, t: seq<Entry>, key: string)
    ensures Get(CopyAll(notes, t), key) == Over(Get(notes, key), Last(t, key))
    decreases |t|
  {
    hide Get, Set, SameKey;
    if t == [] {
    } else {
      GetCopyAll(notes, t[..|t| - 1], key);
      GetSet(CopyAll(notes, t[..|t| - 1]), t[|t| - 1].key, t[|t| - 1].value, key);
    }
  }

  lemma GetMergeVar(notes: seq<Entry>, dir: seq<Entry>, name: string, server: Option<string>, key: string)
    ensures Get(MergeVar(notes, dir, name, server), key) == Over(Get(notes, key), Merged(dir, name, server, key))
  {
    hide Get, Set, SameKey;
    if Get(dir, name).Some? {
      GetSet(notes, name, Get(dir, name).value, key);
    } else if server.Some? {
      GetSet(notes, name, server.value, key);
    }
  }

  /** The values below the handler's own settings: server options, directory options, and the server's fields where
      the directory has no value of its own. */
  function Base(cfg: ServerConfig, dir: seq<Entry>, key: string): Option<string> {
    var v := Over(Last(cfg.options, key), Last(dir, key));
    var v := Over(v, Merged(dir, DEFAULT_MODULE, cfg.defaultModule, key));
    var v := Over(v, Merged(dir, DEFAULT_CLASS, cfg.defaultClass, key));
    var v := Over(v, Merged(dir, DEFAULT_METHOD, cfg.defaultMethod, key));
    Over(v, Merged(dir, HANDLER, cfg.handler, key))
  }

  lemma GetBeforeHandler(notes: seq<Entry>, cfg: ServerConfig, dir: seq<Entry>, key: string)
    ensures Get(BeforeHandler(notes, cfg, dir), key) == Over(Get(notes, key), Base(cfg, dir, key))
  {
    hide Get, Last, Merged, CopyAll, MergeVar;
    GetCopyAll(notes, cfg.options, key);
    var n0 := CopyAll(CopyAll(notes, cfg.options), dir);
    GetCopyAll(CopyAll(notes, cfg.options), dir, key);
    var n1 := MergeVar(n0, dir, DEFAULT_MODULE, cfg.defaultModule);
    GetMergeVar(n0, dir, DEFAULT_MODULE, cfg.defaultModule, key);
    var n2 := MergeVar(n1, dir, DEFAULT_CLASS, cfg.defaultClass);
    GetMergeVar(n1, dir, DEFAULT_CLASS, cfg.defaultClass, key);
    var n3 := MergeVar(n2, dir, DEFAULT_METHOD, cfg.defaultMethod);
    GetMergeVar(n2, dir, DEFAULT_METHOD, cfg.defaultMethod, key);
    GetMergeVar(n3, dir, HANDLER, cfg.handler, key);
  }

  // ---- Hash order ----

  /** No two keys that differ only in case have different values. */
  ghost predicate Consistent(h: map<string, string>) {
    forall a, b :: a in h && b in h && SameKey(a, b) ==> h[a] == h[b]
  }

  /** The value a hash gives a key in any case. */
  ghost function HashValue(h: map<string, string>, key: string): Option<string> {
    if k :| k in h && SameKey(k, key) then Some(h[k]) else None
  }

  lemma {:induction false} LastOrdered(h: map<string, string>, order: seq<string>, key: string)
    requires forall k :: k in order ==> k in h
    ensures Last(Ordered(h, order), key).Some? <==> exists k :: k in order && SameKey(k, key)
    ensures Last(Ordered(h, order), key).Some? ==>
      exists k :: k in order && SameKey(k, key) && Last(Ordered(h, order), key).value == h[k]
    decreases |order|
  {
    hide SameKey;
    if order == [] {
    } else {
      var n := |order| - 1;
      assert Ordered(h, order)[..n] == Ordered(h, order[..n]);
      assert order == order[..n] + [order[n]];
      LastOrdered(h, order[..n], key);
      assert order[n] in order;
    }
  }

  lemma SameKeyTransitive(a: string, b: string, c: string)
    requires SameKey(a, c) && SameKey(b, c)
    ensures SameKey(a, b)
  {
  }

  lemma SameKeyReflexive(a: string)
    ensures SameKey(a, a)
  {
  }

  lemma LastConsistent(h: map<string, string>, order: seq<string>, key: string)
    requires IsOrder(order, h) && Consistent(h)
    ensures Last(Ordered(h, order), key) == HashValue(h, key)
  {
    hide SameKey, Last;
    LastOrdered(h, order, key);
    if Last(Ordered(h, order), key).Some? {
      var k :| k in order && SameKey(k, key) && Last(Ordered(h, order), key).value == h[k];
      assert HashValue(h, key).Some?;
      var k' :| k' in h && SameKey(k', key) && HashValue(h, key) == Some(h[k']);
      SameKeyTransitive(k, k', key);
    } else {
      assert forall k :: k in h ==> k in order;
    }
  }

  /** Some order of a finite set of keys. */
  lemma Enumerate(s: set<string>) returns (order: seq<string>)
    ensures forall k :: k in order <==> k in s
    ensures forall i, j :: 0 <= i < j < |order| ==> order[i] != order[j]
    decreases s
  {
    if s == {} {
      order := [];
    } else {
      var k :| k in s;
      var rest := Enumerate(s - {k});
      order := rest + [k];
    }
  }

  lemma EndingWith(h: map<string, string>, last: string, key: string) returns (order: seq<string>)
    requires last in h && SameKey(last, key)
    ensures IsOrder(order, h) && Last(Ordered(h, order), key) == Some(h[last])
  {
    hide SameKey;
    var rest := Enumerate(h.Keys - {last});
    order := rest + [last];
    assert forall k :: k in order <==> k in rest || k == last;
    var t := Ordered(h, order);
    assert t[|t| - 1] == Entry(last, h[last]);
  }

  /** Every walk of a hash gives the same values exactly when the hash is consistent. */
  lemma HashOrderIndependent(h: map<string, string>)
    ensures Consistent(h) <==>
      forall o1, o2, key :: IsOrder(o1, h) && IsOrder(o2, h) ==> Last(Ordered(h, o1), key) == Last(Ordered(h, o2), key)
  {
    hide SameKey, Last;
    if Consistent(h) {
      forall o1, o2, key | IsOrder(o1, h) && IsOrder(o2, h)
        ensures Last(Ordered(h, o1), key) == Last(Ordered(h, o2), key)
      {
        LastConsistent(h, o1, key);
        LastConsistent(h, o2, key);
      }
    } else {
      var a, b :| a in h && b in h && SameKey(a, b) && h[a] != h[b];
      SameKeyReflexive(b);
      var o1 := EndingWith(h, a, b);
      var o2 := EndingWith(h, b, b);
      assert Last(Ordered(h, o1), b) != Last(Ordered(h, o2), b);
    }
  }
}
