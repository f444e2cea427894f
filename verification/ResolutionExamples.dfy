/** Configurations for which the second run of a request matters: the access handler runs, and its hash names a handler
    for the content phase. */
module ResolutionExamples {
  import opened Options
  import opened AprTable
  import opened Configuration
  import opened Precedence
  import opened HandlerResolution

  /** The names in these hashes. */
  predicate Named(key: string) {
    key == HANDLER || key == ACCESS || key == MODULE || key == CLASS || key == METHOD || key == "X"
  }

  lemma DifferentLengths(a: string, b: string)
    requires SameKey(a, b)
    ensures |a| == |b|
  {
    assert |Fold(a)| == |a| && |Fold(b)| == |b|;
  }

  lemma NamesDistinct(a: string, b: string)
    requires Named(a) && Named(b)
    ensures SameKey(a, b) <==> a == b
  {
    if SameKey(a, b) {
      DifferentLengths(a, b);
      assert |MODULE| == |METHOD| == |ACCESS| == 17 && |CLASS| == 16 && |HANDLER| == 11;
      assert Fold(ACCESS)[4] == 'a' && Fold(MODULE)[4] == 'h' && Fold(METHOD)[4] == 'h';
      assert Fold(MODULE)[12] == 'o' && Fold(METHOD)[12] == 'e';
    }
  }

  /** Among such names case does not matter. */
  lemma NamedHash(h: map<string, string>, key: string)
    requires Named(key) && forall k :: k in h ==> Named(k)
    ensures Consistent(h) && HashValue(h, key) == Lookup(h, key)
  {
    hide SameKey;
    forall a, b | a in h && b in h && SameKey(a, b)
      ensures a == b
    {
      NamesDistinct(a, b);
    }
    NamesDistinct(key, key);
    if key in h {
      HashValueIs(h, key, key);
    } else {
      forall k | k in h
        ensures !SameKey(k, key)
      {
        NamesDistinct(k, key);
      }
      NoHashValue(h, key);
    }
  }

  /** The server says `RubyAccessHandler acc` and nothing else. */
  function Example(handlers: map<string, map<string, string>>): ServerConfig {
    ServerConfig(None, None, None, None, [Entry(ACCESS, "acc")], handlers)
  }

  lemma ExampleBase(handlers: map<string, map<string, string>>, key: string)
    requires Named(key)
    ensures Base(Example(handlers), [], key) == if key == ACCESS then Some("acc") else None
    ensures Get([], key) == None
  {
    hide SameKey;
    NamesDistinct(ACCESS, key);
    assert Last([], key) == None;
    assert Last([Entry(ACCESS, "acc")], key) == if SameKey(ACCESS, key) then Some("acc") else None;
    assert forall name :: Get([], name) == None;
  }

  /** The hash of the access handler, which runs `M::C::check` and names `late`. */
  function CheckHash(): map<string, string> {
    map[MODULE := "m", CLASS := "C", METHOD := "check", HANDLER := "late"]
  }

  ghost predicate ExampleHandlers(handlers: map<string, map<string, string>>) {
    && "acc" in handlers && handlers["acc"] == CheckHash() && "late" in handlers
    && (forall name, k :: name in handlers && k in handlers[name] ==> Named(k))
  }

  /** What such a configuration selects on empty notes, first and then. */
  lemma ExampleSelects(handlers: map<string, map<string, string>>)
    requires ExampleHandlers(handlers)
    ensures var cfg, late := Example(handlers), handlers["late"];
            && HandlerSettings([], cfg, []) == map[] && AccessSettings([], cfg, []) == CheckHash()
            && NextHandler([], cfg, []) == late
            && NextAccess([], cfg, []) == Selected(cfg, Over(Some("acc"), Lookup(late, ACCESS)))
            && ConsistentRuns([], cfg, [])
  {
    hide SameKey, Base, Get, HashValue, Consistent;
    var cfg, late := Example(handlers), handlers["late"];
    ExampleBase(handlers, HANDLER);
    ExampleBase(handlers, ACCESS);
    NamesDistinct(ACCESS, HANDLER);
    NamedHash(map[], ACCESS);
    NamedHash(map[], HANDLER);
    NamedHash(CheckHash(), HANDLER);
    NamedHash(CheckHash(), ACCESS);
    NamedHash(late, ACCESS);
    assert Merged([], ACCESS, None, ACCESS) == None;
    assert HandlerSettings([], cfg, []) == map[];
    assert AccessName([], cfg, []) == Some("acc");
    assert Once([], cfg, [], HANDLER) == Some("late");
    assert Once([], cfg, [], ACCESS) == Some("acc");
    NamedHash(NextAccess([], cfg, []), ACCESS);
  }

  lemma NextIsNamed(handlers: map<string, map<string, string>>)
    requires ExampleHandlers(handlers)
    ensures forall k :: k in NextAccess([], Example(handlers), []) ==> Named(k)
  {
  }

  /** The values after one run and after two, name by name. */
  lemma ExampleValue(handlers: map<string, map<string, string>>, key: string)
    requires ExampleHandlers(handlers) && Named(key)
    ensures var cfg, late := Example(handlers), handlers["late"];
            var base := if key == ACCESS then Some("acc") else None;
            var next := Selected(cfg, Over(Some("acc"), Lookup(late, ACCESS)));
            && Once([], cfg, [], key) == Over(base, Lookup(CheckHash(), key))
            && Twice([], cfg, [], key) ==
              Over(Once([], cfg, [], key), Over(Over(base, Lookup(late, key)), Lookup(next, key)))
  {
    hide SameKey, Base, Get, HashValue, HandlerSettings, AccessSettings, NextHandler, NextAccess, Consistent, Selected;
    var cfg, late := Example(handlers), handlers["late"];
    ExampleSelects(handlers);
    ExampleBase(handlers, key);
    NamedHash(map[], key);
    NamedHash(CheckHash(), key);
    NamedHash(late, key);
    NextIsNamed(handlers);
    NamedHash(NextAccess([], cfg, []), key);
    assert Merged([], ACCESS, None, key) == None by {
      ExampleBase(handlers, ACCESS);
    }
  }

  // ---- A setting that the second run adds ----

  function LateHash(): map<string, string> {
    map[MODULE := "n", CLASS := "D", METHOD := "run", "X" := "1"]
  }

  function LateHandlers(): map<string, map<string, string>> {
    map["acc" := CheckHash(), "late" := LateHash()]
  }

  /** On empty notes the access handler is found and runs, and a setting is missing until the content phase. */
  lemma SecondPhaseExample(once: seq<Entry>, twice: seq<Entry>)
    requires IsRun([], Example(LateHandlers()), [], once) && IsRun(once, Example(LateHandlers()), [], twice)
    ensures ResolvedAccess(once, Example(LateHandlers())) == Handler("m", "C", "check")
    ensures Get(once, "X") == None && Get(twice, "X") == Some("1")
    ensures Resolved(twice, Example(LateHandlers())) == Handler("n", "D", "run")
  {
    hide Get, IsRun, Once, Twice, SameKey, HandlerSettings, AccessSettings, NextHandler, NextAccess;
    ExampleSelects(LateHandlers());
    ExampleValue(LateHandlers(), ACCESS);
    ExampleValue(LateHandlers(), HANDLER);
    ExampleValue(LateHandlers(), "X");
    RunGivesOnce([], Example(LateHandlers()), [], once, ACCESS);
    RunGivesOnce([], Example(LateHandlers()), [], once, "X");
    RunsGiveTwice([], Example(LateHandlers()), [], once, twice, "X");
    RunsGiveTwice([], Example(LateHandlers()), [], once, twice, HANDLER);
  }

  // ---- A handler that the second run moves ----

  function MovingHash(): map<string, string> {
    map[MODULE := "n", CLASS := "D", METHOD := "run", ACCESS := "next"]
  }

  /** The late handler's hash names another access handler, whose hash names yet another handler. */
  function MovingHandlers(): map<string, map<string, string>> {
    map["acc" := CheckHash(), "late" := MovingHash(), "next" := map[HANDLER := "other"], "other" := map[]]
  }

  /** On empty notes the access handler is found and runs; one run of the configuration finds a content handler, and
      after the second one, which the content phase makes, there is none. */
  lemma TwoRunsDiffer(once: seq<Entry>, twice: seq<Entry>)
    requires IsRun([], Example(MovingHandlers()), [], once) && IsRun(once, Example(MovingHandlers()), [], twice)
    ensures ResolvedAccess(once, Example(MovingHandlers())) == Handler("m", "C", "check")
    ensures Resolved(once, Example(MovingHandlers())) == Handler("n", "D", "run")
    ensures Resolved(twice, Example(MovingHandlers())) == Undefined
  {
    hide Consistent;
    hide Get, IsRun, Once, Twice, SameKey, HandlerSettings, AccessSettings, NextHandler, NextAccess;
    ExampleSelects(MovingHandlers());
    ExampleValue(MovingHandlers(), ACCESS);
    ExampleValue(MovingHandlers(), HANDLER);
    RunGivesOnce([], Example(MovingHandlers()), [], once, ACCESS);
    RunGivesOnce([], Example(MovingHandlers()), [], once, HANDLER);
    RunsGiveTwice([], Example(MovingHandlers()), [], once, twice, HANDLER);
  }
}
