/** Which setting wins, what a second phase changes, and which handler is found: src/module.cpp. */
module Precedence {
  import opened Options
  import opened AprTable
  import opened Configuration

  // ---- The notes in closed form ----

  /** The value under which a handler is looked up. */
  function HandlerName(notes: seq<Entry>, cfg: ServerConfig, dir: seq<Entry>): Option<string> {
    Over(Get(notes, HANDLER), Base(cfg, dir, HANDLER))
  }

  /** The settings of the selected handler. */
  function HandlerSettings(notes: seq<Entry>, cfg: ServerConfig, dir: seq<Entry>): map<string, string> {
    Selected(cfg, HandlerName(notes, cfg, dir))
  }

  /** The value of a key when the access handler is looked up. */
  ghost function UpToAccess(notes: seq<Entry>, cfg: ServerConfig, dir: seq<Entry>, key: string): Option<string> {
    var v := Over(Get(notes, key), Base(cfg, dir, key));
    var v := Over(v, HashValue(HandlerSettings(notes, cfg, dir), key));
    Over(v, Merged(dir, ACCESS, cfg.handler, key))
  }

  ghost function AccessName(notes: seq<Entry>, cfg: ServerConfig, dir: seq<Entry>): Option<string> {
    UpToAccess(notes, cfg, dir, ACCESS)
  }

  ghost function AccessSettings(notes: seq<Entry>, cfg: ServerConfig, dir: seq<Entry>): map<string, string> {
    Selected(cfg, AccessName(notes, cfg, dir))
  }

  /** Everything the configuration puts over the notes, for handlers `h` and `a`: the last layer that has the key. */
  ghost function Layers(cfg: ServerConfig, dir: seq<Entry>, h: map<string, string>, a: map<string, string>, key: string)
    : Option<string>
  {
    var v := Over(Base(cfg, dir, key), HashValue(h, key));
    var v := Over(v, Merged(dir, ACCESS, cfg.handler, key));
    Over(v, HashValue(a, key))
  }

  /** The hashes of the handlers selected in a run define each setting once, whatever its case. */
  ghost predicate ConsistentRun(notes: seq<Entry>, cfg: ServerConfig, dir: seq<Entry>) {
    Consistent(HandlerSettings(notes, cfg, dir)) && Consistent(AccessSettings(notes, cfg, dir))
  }

  lemma SettingsSelected(notes: seq<Entry>, cfg: ServerConfig, dir: seq<Entry>, o1: seq<string>)
    requires Consistent(HandlerSettings(notes, cfg, dir)) && IsOrder(o1, HandlerHash(notes, cfg, dir))
    ensures HandlerHash(notes, cfg, dir) == HandlerSettings(notes, cfg, dir)
    ensures forall key :: Get(BeforeAccess(notes, cfg, dir, o1), key) == UpToAccess(notes, cfg, dir, key)
    ensures AccessHash(notes, cfg, dir, o1) == AccessSettings(notes, cfg, dir)
  {
    hide Get, Base, Merged, HashValue, CopyAll, MergeVar, BeforeHandler, Consistent;
    GetBeforeHandler(notes, cfg, dir, HANDLER);
    var h := HandlerHash(notes, cfg, dir);
    forall key
      ensures Get(BeforeAccess(notes, cfg, dir, o1), key) == UpToAccess(notes, cfg, dir, key)
    {
      var n := BeforeHandler(notes, cfg, dir);
      GetBeforeHandler(notes, cfg, dir, key);
      GetCopyAll(n, Ordered(h, o1), key);
      LastConsistent(h, o1, key);
      GetMergeVar(CopyAll(n, Ordered(h, o1)), dir, ACCESS, cfg.handler, key);
    }
  }

  /** Every value of the notes after a run: the topmost of the layers that has the key, or what was there before. The
      orders in which the hashes are walked do not show. */
  lemma ClosedForm(notes: seq<Entry>, cfg: ServerConfig, dir: seq<Entry>, o1: seq<string>, o2: seq<string>, key: string)
    requires ConsistentRun(notes, cfg, dir) && AreOrders(notes, cfg, dir, o1, o2)
    ensures Get(Configured(notes, cfg, dir, o1, o2), key) ==
      Over(Get(notes, key),
           Layers(cfg, dir, HandlerSettings(notes, cfg, dir), AccessSettings(notes, cfg, dir), key))
  {
    hide Get, Base, Merged, HashValue, CopyAll, BeforeAccess, AccessHash, Consistent, HandlerSettings;
    SettingsSelected(notes, cfg, dir, o1);
    var a := AccessSettings(notes, cfg, dir);
    GetCopyAll(BeforeAccess(notes, cfg, dir, o1), Ordered(a, o2), key);
    LastConsistent(a, o2, key);
  }

  // ---- A second phase ----

  /** One run of the configuration, whichever way the hashes are walked. */
  ghost predicate IsRun(notes: seq<Entry>, cfg: ServerConfig, dir: seq<Entry>, after: seq<Entry>) {
    exists o1, o2 :: AreOrders(notes, cfg, dir, o1, o2) && after == Configured(notes, cfg, dir, o1, o2)
  }

  /** A value after one run. */
  ghost function Once(notes: seq<Entry>, cfg: ServerConfig, dir: seq<Entry>, key: string): Option<string> {
    Over(Get(notes, key), Layers(cfg, dir, HandlerSettings(notes, cfg, dir), AccessSettings(notes, cfg, dir), key))
  }

  lemma RunGivesOnce(notes: seq<Entry>, cfg: ServerConfig, dir: seq<Entry>, after: seq<Entry>, key: string)
    requires ConsistentRun(notes, cfg, dir) && IsRun(notes, cfg, dir, after)
    ensures Get(after, key) == Once(notes, cfg, dir, key)
  {
    hide Get, Layers, Configured, AreOrders, Consistent;
    var o1, o2 :| AreOrders(notes, cfg, dir, o1, o2) && after == Configured(notes, cfg, dir, o1, o2);
    ClosedForm(notes, cfg, dir, o1, o2, key);
  }

  // What the second phase does, told from the configuration and the notes before the first.

  /** The settings selected in the second phase. */
  ghost function NextHandler(notes: seq<Entry>, cfg: ServerConfig, dir: seq<Entry>): map<string, string> {
    Selected(cfg, Over(Once(notes, cfg, dir, HANDLER), Base(cfg, dir, HANDLER)))
  }

  ghost function NextAccess(notes: seq<Entry>, cfg: ServerConfig, dir: seq<Entry>): map<string, string> {
    var v := Over(Once(notes, cfg, dir, ACCESS), Base(cfg, dir, ACCESS));
    var v := Over(v, HashValue(NextHandler(notes, cfg, dir), ACCESS));
    Selected(cfg, Over(v, Merged(dir, ACCESS, cfg.handler, ACCESS)))
  }

  /** What the second phase puts over the notes. */
  ghost function Again(notes: seq<Entry>, cfg: ServerConfig, dir: seq<Entry>, key: string): Option<string> {
    Layers(cfg, dir, NextHandler(notes, cfg, dir), NextAccess(notes, cfg, dir), key)
  }

  /** A value after two runs, the second one on the notes the first one left. */
  ghost function Twice(notes: seq<Entry>, cfg: ServerConfig, dir: seq<Entry>, key: string): Option<string> {
    Over(Once(notes, cfg, dir, key), Again(notes, cfg, dir, key))
  }

  /** The same of both runs. */
  ghost predicate ConsistentRuns(notes: seq<Entry>, cfg: ServerConfig, dir: seq<Entry>) {
    && ConsistentRun(notes, cfg, dir)
    && Consistent(NextHandler(notes, cfg, dir)) && Consistent(NextAccess(notes, cfg, dir))
  }

  /** It holds in particular if it holds of every declared handler. */
  lemma AllConsistent(notes: seq<Entry>, cfg: ServerConfig, dir: seq<Entry>)
    requires forall name :: name in cfg.handlers ==> Consistent(cfg.handlers[name])
    ensures ConsistentRuns(notes, cfg, dir)
  {
    hide SameKey, Get, Base, Merged, HashValue, Layers;
  }

  lemma NextSelection(notes: seq<Entry>, cfg: ServerConfig, dir: seq<Entry>, once: seq<Entry>)
    requires ConsistentRun(notes, cfg, dir) && IsRun(notes, cfg, dir, once)
    ensures HandlerSettings(once, cfg, dir) == NextHandler(notes, cfg, dir)
    ensures AccessSettings(once, cfg, dir) == NextAccess(notes, cfg, dir)
  {
    hide Get, Layers, IsRun, Consistent, Base, Merged, HashValue, Once;
    RunGivesOnce(notes, cfg, dir, once, HANDLER);
    RunGivesOnce(notes, cfg, dir, once, ACCESS);
  }

  /** Every value after the access phase and the content phase have both run the configuration. */
  lemma RunsGiveTwice(notes: seq<Entry>, cfg: ServerConfig, dir: seq<Entry>, once: seq<Entry>, twice: seq<Entry>,
                      key: string)
    requires ConsistentRuns(notes, cfg, dir) && IsRun(notes, cfg, dir, once) && IsRun(once, cfg, dir, twice)
    ensures Get(twice, key) == Twice(notes, cfg, dir, key)
  {
    hide Get, Layers, IsRun, Consistent, HandlerSettings, AccessSettings, NextHandler, NextAccess;
    NextSelection(notes, cfg, dir, once);
    RunGivesOnce(notes, cfg, dir, once, key);
    RunGivesOnce(once, cfg, dir, twice, key);
    assert Once(once, cfg, dir, key) == Over(Get(once, key),
      Layers(cfg, dir, HandlerSettings(once, cfg, dir), AccessSettings(once, cfg, dir), key));
    assert Once(notes, cfg, dir, key) == Get(once, key);
  }

  // ---- When the second phase changes nothing ----

  /** Some hash that takes part in one of the two phases has the key. */
  ghost predicate Involved(notes: seq<Entry>, cfg: ServerConfig, dir: seq<Entry>, key: string) {
    || key in HandlerSettings(notes, cfg, dir)
    || key in AccessSettings(notes, cfg, dir)
    || key in NextHandler(notes, cfg, dir)
    || key in NextAccess(notes, cfg, dir)
  }

  /** Among the keys of these few hashes, every value the second phase puts over the notes is in force already. */
  ghost predicate NothingNew(notes: seq<Entry>, cfg: ServerConfig, dir: seq<Entry>) {
    forall key :: Involved(notes, cfg, dir, key) ==>
      Again(notes, cfg, dir, key) == None || Again(notes, cfg, dir, key) == Once(notes, cfg, dir, key)
  }

  lemma NoHashValue(h: map<string, string>, key: string)
    requires forall k :: k in h ==> !SameKey(k, key)
    ensures HashValue(h, key) == None
  {
  }

  // The case of a key matters nowhere.

  lemma GetSameKey(t: seq<Entry>, k: string, key: string)
    requires SameKey(k, key)
    ensures Get(t, k) == Get(t, key)
  {
    FindIs(t, key, Find(t, k));
  }

  lemma {:induction false} LastSameKey(t: seq<Entry>, k: string, key: string)
    requires SameKey(k, key)
    ensures Last(t, k) == Last(t, key)
    decreases |t|
  {
    if t == [] {
    } else {
      LastSameKey(t[..|t| - 1], k, key);
    }
  }

  lemma HashValueIs(h: map<string, string>, k: string, key: string)
    requires Consistent(h) && k in h && SameKey(k, key)
    ensures HashValue(h, key) == Some(h[k])
  {
    hide SameKey;
    var k' :| k' in h && SameKey(k', key) && HashValue(h, key) == Some(h[k']);
    SameKeyTransitive(k, k', key);
  }

  lemma HashValueSameKey(h: map<string, string>, k: string, key: string)
    requires Consistent(h) && SameKey(k, key)
    ensures HashValue(h, k) == HashValue(h, key)
  {
    if x :| x in h && SameKey(x, key) {
      HashValueIs(h, x, key);
      HashValueIs(h, x, k);
    } else {
      NoHashValue(h, key);
      NoHashValue(h, k);
    }
  }

  lemma LayersSameKey(cfg: ServerConfig, dir: seq<Entry>, h: map<string, string>, a: map<string, string>,
                      k: string, key: string)
    requires Consistent(h) && Consistent(a) && SameKey(k, key)
    ensures Layers(cfg, dir, h, a, k) == Layers(cfg, dir, h, a, key)
  {
    hide Get, Last, HashValue, Consistent;
    LastSameKey(cfg.options, k, key);
    LastSameKey(dir, k, key);
    HashValueSameKey(h, k, key);
    HashValueSameKey(a, k, key);
  }

  /** Any other key has the same layers in both phases; a key in other case has the same values. */
  lemma EnoughToAskTheHashes(notes: seq<Entry>, cfg: ServerConfig, dir: seq<Entry>, key: string)
    requires ConsistentRuns(notes, cfg, dir) && NothingNew(notes, cfg, dir)
    ensures Again(notes, cfg, dir, key) == None || Again(notes, cfg, dir, key) == Once(notes, cfg, dir, key)
  {
    hide Get, Base, Merged, HandlerSettings, AccessSettings, NextHandler, NextAccess, SameKey, HashValue;
    var h, a := HandlerSettings(notes, cfg, dir), AccessSettings(notes, cfg, dir);
    var h', a' := NextHandler(notes, cfg, dir), NextAccess(notes, cfg, dir);
    if k :| Involved(notes, cfg, dir, k) && SameKey(k, key) {
      GetSameKey(notes, k, key);
      LayersSameKey(cfg, dir, h, a, k, key);
      LayersSameKey(cfg, dir, h', a', k, key);
    } else {
      NoHashValue(h, key);
      NoHashValue(a, key);
      NoHashValue(h', key);
      NoHashValue(a', key);
    }
  }

  /** Exactly when the second phase changes no value of any key. */
  lemma SecondPhaseExact(notes: seq<Entry>, cfg: ServerConfig, dir: seq<Entry>, once: seq<Entry>, twice: seq<Entry>)
    requires ConsistentRuns(notes, cfg, dir) && IsRun(notes, cfg, dir, once) && IsRun(once, cfg, dir, twice)
    ensures NothingNew(notes, cfg, dir) <==> forall key :: Get(twice, key) == Get(once, key)
  {
    hide Get, Layers, IsRun, Consistent, Involved, Once, Again;
    forall key
      ensures Get(once, key) == Once(notes, cfg, dir, key)
      ensures Get(twice, key) == Over(Get(once, key), Again(notes, cfg, dir, key))
    {
      RunGivesOnce(notes, cfg, dir, once, key);
      RunsGiveTwice(notes, cfg, dir, once, twice, key);
    }
    if NothingNew(notes, cfg, dir) {
      forall key
        ensures Again(notes, cfg, dir, key) == None || Again(notes, cfg, dir, key) == Once(notes, cfg, dir, key)
      {
        EnoughToAskTheHashes(notes, cfg, dir, key);
      }
    }
  }

  // ---- Conditions that are enough, and the late handler ----

  /** The configuration itself defines the key. */
  predicate Pinned(cfg: ServerConfig, dir: seq<Entry>, key: string) {
    Base(cfg, dir, key).Some?
  }

  /** The handlers selected cannot select other ones in the next phase: `RubyHandler` is configured or neither hash
      sets it, and the same of `RubyAccessHandler`, which the handler's hash may also settle. */
  ghost predicate SelectsAgain(notes: seq<Entry>, cfg: ServerConfig, dir: seq<Entry>) {
    var h, a := HandlerSettings(notes, cfg, dir), AccessSettings(notes, cfg, dir);
    && (Pinned(cfg, dir, HANDLER) || (HashValue(h, HANDLER).None? && HashValue(a, HANDLER).None?))
    && (Pinned(cfg, dir, ACCESS) || HashValue(h, ACCESS).Some? || Merged(dir, ACCESS, cfg.handler, ACCESS).Some? ||
        HashValue(a, ACCESS).None?)
  }

  lemma KeysDiffer()
    ensures !SameKey(ACCESS, HANDLER)
  {
    assert Fold(ACCESS)[4] == 'a' && Fold(HANDLER)[4] == 'h';
  }

  lemma SameSelection(notes: seq<Entry>, cfg: ServerConfig, dir: seq<Entry>)
    requires SelectsAgain(notes, cfg, dir)
    ensures NextHandler(notes, cfg, dir) == HandlerSettings(notes, cfg, dir)
    ensures NextAccess(notes, cfg, dir) == AccessSettings(notes, cfg, dir)
  {
    hide Get, Base, HashValue, SameKey;
    KeysDiffer();
    assert Merged(dir, ACCESS, cfg.handler, HANDLER) == None;
  }

  /** Running the configuration again on its own result, as the content phase does after the access phase, changes no
      value, however the hashes are walked each time. */
  lemma SecondPhaseChangesNothing(notes: seq<Entry>, cfg: ServerConfig, dir: seq<Entry>,
                                  once: seq<Entry>, twice: seq<Entry>, key: string)
    requires ConsistentRun(notes, cfg, dir) && IsRun(notes, cfg, dir, once) && IsRun(once, cfg, dir, twice)
    requires SelectsAgain(notes, cfg, dir)
    ensures Get(twice, key) == Get(once, key) == Once(notes, cfg, dir, key)
  {
    hide Get, IsRun, Consistent, Layers, NextHandler, NextAccess, HandlerSettings, AccessSettings, SelectsAgain;
    SameSelection(notes, cfg, dir);
    RunGivesOnce(notes, cfg, dir, once, key);
    RunsGiveTwice(notes, cfg, dir, once, twice, key);
  }

  /** So it is where no declared handler's hash has a `RubyHandler` or `RubyAccessHandler` key. */
  lemma PlainHashesSelectAgain(notes: seq<Entry>, cfg: ServerConfig, dir: seq<Entry>)
    requires forall name, k :: name in cfg.handlers && k in cfg.handlers[name] ==>
      !SameKey(k, HANDLER) && !SameKey(k, ACCESS)
    ensures SelectsAgain(notes, cfg, dir)
  {
    hide SameKey, Get, Base, HashValue;
    var h, a := HandlerSettings(notes, cfg, dir), AccessSettings(notes, cfg, dir);
    NoHashValue(h, HANDLER);
    NoHashValue(h, ACCESS);
    NoHashValue(a, HANDLER);
    NoHashValue(a, ACCESS);
  }

  /** On notes that say nothing about handlers, the only configurations in question are those with no handler of their
      own whose access handler's hash names one. */
  lemma SelectsAgainOnFreshNotes(notes: seq<Entry>, cfg: ServerConfig, dir: seq<Entry>)
    requires Get(notes, HANDLER) == None && Get(notes, ACCESS) == None
    ensures SelectsAgain(notes, cfg, dir) <==>
      Pinned(cfg, dir, HANDLER) || HashValue(AccessSettings(notes, cfg, dir), HANDLER).None?
  {
    hide Get, Base, SameKey;
    var h, a := HandlerSettings(notes, cfg, dir), AccessSettings(notes, cfg, dir);
    if !Pinned(cfg, dir, HANDLER) {
      assert h == map[];
      assert HashValue(h, HANDLER).None? && HashValue(h, ACCESS).None?;
    }
  }

  /** The notes say nothing about handlers, the configuration names none for the content phase, and the access
      handler's hash names `late`, which does not change the access handler in turn. */
  ghost predicate NamesLate(notes: seq<Entry>, cfg: ServerConfig, dir: seq<Entry>, late: string) {
    && Get(notes, HANDLER) == None && Get(notes, ACCESS) == None && !Pinned(cfg, dir, HANDLER)
    && HashValue(AccessSettings(notes, cfg, dir), HANDLER) == Some(late) && late in cfg.handlers
    && (HashValue(cfg.handlers[late], ACCESS) == None || Get(dir, ACCESS).Some?)
  }

  /** A setting of the late handler that its access handler or the configuration gives already, or that the
      directory's `RubyAccessHandler` overrides. */
  ghost predicate InForce(notes: seq<Entry>, cfg: ServerConfig, dir: seq<Entry>, key: string, value: string) {
    || HashValue(AccessSettings(notes, cfg, dir), key).Some?
    || SameKey(ACCESS, key)
    || Over(Get(notes, key), Base(cfg, dir, key)) == Some(value)
  }

  /** The late handler is the one the second phase selects; the access handler stays. */
  lemma LateSelection(notes: seq<Entry>, cfg: ServerConfig, dir: seq<Entry>, late: string)
    requires NamesLate(notes, cfg, dir, late)
    ensures HandlerSettings(notes, cfg, dir) == map[]
    ensures NextHandler(notes, cfg, dir) == cfg.handlers[late]
    ensures NextAccess(notes, cfg, dir) == AccessSettings(notes, cfg, dir)
  {
  }

  lemma LateValue(notes: seq<Entry>, cfg: ServerConfig, dir: seq<Entry>, late: string, key: string)
    requires NamesLate(notes, cfg, dir, late) && ConsistentRuns(notes, cfg, dir)
    ensures key in cfg.handlers[late] ==>
      (Again(notes, cfg, dir, key) == None || Again(notes, cfg, dir, key) == Once(notes, cfg, dir, key) <==>
       InForce(notes, cfg, dir, key, cfg.handlers[late][key]))
    ensures key in AccessSettings(notes, cfg, dir) ==> Again(notes, cfg, dir, key) == Once(notes, cfg, dir, key)
  {
  }

  /** In the one case left on fresh notes: the second phase changes nothing exactly when each setting of the late
      handler is in force without it. */
  lemma LateHandlerExact(notes: seq<Entry>, cfg: ServerConfig, dir: seq<Entry>, late: string,
                         once: seq<Entry>, twice: seq<Entry>)
    requires ConsistentRuns(notes, cfg, dir) && IsRun(notes, cfg, dir, once) && IsRun(once, cfg, dir, twice)
    requires NamesLate(notes, cfg, dir, late)
    ensures (forall key :: Get(twice, key) == Get(once, key)) <==>
      forall key :: key in cfg.handlers[late] ==> InForce(notes, cfg, dir, key, cfg.handlers[late][key])
  {
    hide Get, IsRun, Once, Again, Base, HashValue, SameKey, AccessSettings, NextHandler, NextAccess;
    SecondPhaseExact(notes, cfg, dir, once, twice);
    LateSelection(notes, cfg, dir, late);
    forall key
      ensures key in cfg.handlers[late] ==>
        (Again(notes, cfg, dir, key) == None || Again(notes, cfg, dir, key) == Once(notes, cfg, dir, key) <==>
         InForce(notes, cfg, dir, key, cfg.handlers[late][key]))
      ensures key in AccessSettings(notes, cfg, dir) ==> Again(notes, cfg, dir, key) == Once(notes, cfg, dir, key)
    {
      LateValue(notes, cfg, dir, late, key);
    }
  }

  /** More generally, wherever the access handler's hash names a handler for the next phase: each of that handler's
      settings appears then, unless the access handler selected then has it too. */
  lemma SecondPhaseAddsSettings(notes: seq<Entry>, cfg: ServerConfig, dir: seq<Entry>,
                                late: string, key: string, value: string)
    requires !Pinned(cfg, dir, HANDLER)
    requires HashValue(AccessSettings(notes, cfg, dir), HANDLER) == Some(late) && late in cfg.handlers
    requires HashValue(cfg.handlers[late], key) == Some(value) && !SameKey(ACCESS, key)
    requires HashValue(NextAccess(notes, cfg, dir), key) == None
    ensures Twice(notes, cfg, dir, key) == Some(value)
  {
    hide Get, Base, HashValue, AccessSettings, NextAccess, SameKey;
    KeysDiffer();
    assert Once(notes, cfg, dir, HANDLER) == Some(late);
    assert NextHandler(notes, cfg, dir) == cfg.handlers[late];
  }

  /** There is always a run. */
  lemma RunExists(notes: seq<Entry>, cfg: ServerConfig, dir: seq<Entry>) returns (after: seq<Entry>)
    ensures IsRun(notes, cfg, dir, after)
  {
    hide HandlerHash, AccessHash;
    var o1 := Enumerate(HandlerHash(notes, cfg, dir).Keys);
    var o2 := Enumerate(AccessHash(notes, cfg, dir, o1).Keys);
    assert AreOrders(notes, cfg, dir, o1, o2);
    after := Configured(notes, cfg, dir, o1, o2);
  }
}
