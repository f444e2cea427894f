/** Which setting wins, said of one layer at a time. */
module PrecedenceLaws {
  import opened Options
  import opened AprTable
  import opened Configuration
  import opened Precedence

  /** No handler selected has the key in its hash. */
  ghost predicate LeftToConfiguration(notes: seq<Entry>, cfg: ServerConfig, dir: seq<Entry>, key: string) {
    && HashValue(HandlerSettings(notes, cfg, dir), key) == None
    && HashValue(AccessSettings(notes, cfg, dir), key) == None
  }

  /** A name with a meaning of its own. */
  predicate IsVariable(key: string) {
    || SameKey("RubyDefaultHandlerModule", key)
    || SameKey("RubyDefaultHandlerClass", key)
    || SameKey("RubyDefaultHandlerMethod", key)
    || SameKey("RubyHandler", key)
    || SameKey("RubyAccessHandler", key)
  }

  /** An option of the directory beats one of the server, which beats an earlier note. In a table the last entry of a
      key counts. */
  lemma OptionWins(notes: seq<Entry>, cfg: ServerConfig, dir: seq<Entry>, key: string)
    requires LeftToConfiguration(notes, cfg, dir, key) && !IsVariable(key)
    ensures Last(dir, key).Some? ==> Once(notes, cfg, dir, key) == Last(dir, key)
    ensures Last(dir, key) == None && Last(cfg.options, key).Some? ==>
      Once(notes, cfg, dir, key) == Last(cfg.options, key)
    ensures Last(dir, key) == None && Last(cfg.options, key) == None ==>
      Once(notes, cfg, dir, key) == Get(notes, key)
  {
    hide Get, Last, HashValue, SameKey, HandlerSettings, AccessSettings;
  }

  lemma LastIsLast(t: seq<Entry>, e: Entry, key: string)
    ensures Last([], key) == None
    ensures Last(t + [e], key) == if SameKey(e.key, key) then Some(e.value) else Last(t, key)
  {
    assert (t + [e])[..|t|] == t;
  }

  /** The server's own field of a variable, by its name. The two handlers share one. */
  function Field(cfg: ServerConfig, name: string): Option<string> {
    if name == "RubyDefaultHandlerModule" then cfg.defaultModule
    else if name == "RubyDefaultHandlerClass" then cfg.defaultClass
    else if name == "RubyDefaultHandlerMethod" then cfg.defaultMethod
    else cfg.handler
  }

  predicate IsVariableName(name: string) {
    || name == "RubyDefaultHandlerModule" || name == "RubyDefaultHandlerClass" || name == "RubyDefaultHandlerMethod"
    || name == "RubyHandler" || name == "RubyAccessHandler"
  }

  /** The names of the variables differ in more than case. */
  lemma VariablesDiffer(a: string, b: string)
    requires IsVariableName(a) && IsVariableName(b)
    ensures SameKey(a, b) <==> a == b
  {
    if SameKey(a, b) {
      assert |Fold(a)| == |a| && |Fold(b)| == |b|;
      assert |"RubyDefaultHandlerModule"| == 24 && |"RubyDefaultHandlerClass"| == 23;
      assert |"RubyDefaultHandlerMethod"| == 24 && |"RubyHandler"| == 11 && |"RubyAccessHandler"| == 17;
      assert Fold("RubyDefaultHandlerModule")[19] == 'o' && Fold("RubyDefaultHandlerMethod")[19] == 'e';
    }
  }

  /** A variable of the directory beats the server's field, which beats any option of that name. */
  lemma VariableWins(notes: seq<Entry>, cfg: ServerConfig, dir: seq<Entry>, name: string)
    requires LeftToConfiguration(notes, cfg, dir, name) && IsVariableName(name)
    ensures Get(dir, name).Some? ==> Once(notes, cfg, dir, name) == Get(dir, name)
    ensures Get(dir, name) == None && Field(cfg, name).Some? ==> Once(notes, cfg, dir, name) == Field(cfg, name)
  {
    hide Get, Last, HashValue, SameKey, HandlerSettings, AccessSettings;
    VariablesDiffer("RubyDefaultHandlerModule", name);
    VariablesDiffer("RubyDefaultHandlerClass", name);
    VariablesDiffer("RubyDefaultHandlerMethod", name);
    VariablesDiffer("RubyHandler", name);
    VariablesDiffer("RubyAccessHandler", name);
  }

  /** The handler selected is the one the directory names, or else the server. */
  lemma HandlerSelected(notes: seq<Entry>, cfg: ServerConfig, dir: seq<Entry>, name: string)
    requires Get(dir, "RubyHandler") == Some(name) || (Get(dir, "RubyHandler") == None && cfg.handler == Some(name))
    ensures HandlerSettings(notes, cfg, dir) == if name in cfg.handlers then cfg.handlers[name] else map[]
  {
    hide Get, Last;
    VariablesDiffer("RubyHandler", "RubyHandler");
  }

  /** The access handler selected is the one the directory names, or else the server, in the same field. */
  lemma AccessHandlerSelected(notes: seq<Entry>, cfg: ServerConfig, dir: seq<Entry>, name: string)
    requires
      || Get(dir, "RubyAccessHandler") == Some(name)
      || (Get(dir, "RubyAccessHandler") == None && cfg.handler == Some(name))
    ensures AccessSettings(notes, cfg, dir) == if name in cfg.handlers then cfg.handlers[name] else map[]
  {
    hide Get, Last, HashValue, HandlerSettings;
    VariablesDiffer("RubyAccessHandler", "RubyAccessHandler");
  }

  /** A setting of the access handler beats everything; one of the handler beats everything else but the
      `RubyAccessHandler` variable. */
  lemma SettingWins(notes: seq<Entry>, cfg: ServerConfig, dir: seq<Entry>, key: string)
    ensures var a := HashValue(AccessSettings(notes, cfg, dir), key);
            a.Some? ==> Once(notes, cfg, dir, key) == a
    ensures var h := HashValue(HandlerSettings(notes, cfg, dir), key);
            h.Some? && HashValue(AccessSettings(notes, cfg, dir), key) == None && !SameKey("RubyAccessHandler", key) ==>
            Once(notes, cfg, dir, key) == h
  {
    hide Get, Last, HashValue, SameKey, HandlerSettings, AccessSettings;
  }

  /** What a hash gives a key in any case. */
  lemma SettingOf(h: map<string, string>, key: string)
    requires Consistent(h)
    ensures HashValue(h, key) == None <==> forall k :: k in h ==> !SameKey(k, key)
    ensures forall k :: k in h && SameKey(k, key) ==> HashValue(h, key) == Some(h[k])
  {
    hide SameKey, HashValue;
    forall k | k in h && SameKey(k, key)
      ensures HashValue(h, key) == Some(h[k])
    {
      HashValueIs(h, k, key);
    }
    if forall k :: k in h ==> !SameKey(k, key) {
      NoHashValue(h, key);
    }
  }

  /** The case of a key: letters are the same in both, nothing else is. */
  lemma SameKeyOneChar(a: char, b: char)
    ensures SameKey([a], [b]) <==>
      a == b || ('A' <= a <= 'Z' && b as int == a as int + 32) || ('A' <= b <= 'Z' && a as int == b as int + 32)
  {
    assert Fold([a])[0] == Lower(a) && Fold([b])[0] == Lower(b);
    assert Lower(a) == Lower(b) ==> Fold([a]) == Fold([b]);
  }

  lemma FoldCons(a: char, s: string)
    ensures Fold([a] + s) == [Lower(a)] + Fold(s)
  {
  }

  lemma SameKeyCons(a: char, s: string, b: char, t: string)
    ensures SameKey([a] + s, [b] + t) <==> SameKey([a], [b]) && SameKey(s, t)
  {
    FoldCons(a, s);
    FoldCons(b, t);
    assert Fold([a]) == [Lower(a)] && Fold([b]) == [Lower(b)];
    if Fold([a] + s) == Fold([b] + t) {
      assert Fold([a] + s)[0] == Lower(a) && Fold([b] + t)[0] == Lower(b);
      assert Fold([a] + s)[1..] == Fold(s) && Fold([b] + t)[1..] == Fold(t);
    }
  }
}
