/** The process-lifetime cache of handler objects: `ruby_request_load_handler` of src/module.cpp and `Handler` of
    src/module.hpp. */
module HandlerCache {
  import opened Options

  datatype Triple = Triple(mod: string, cls: string, fn: string)

  function IdOf(t: Triple): (id: string)
    ensures id != ""
  {
    t.mod + "::" + t.cls + "::" + t.fn
  }

  /** Module and method names without a colon; class names may have some. */
  predicate Plain(t: Triple) {
    ':' !in t.mod && ':' !in t.fn
  }

  /** The first colon of an id ends the module, the last one starts the method. */
  lemma IdBounds(t: Triple)
    requires Plain(t)
    ensures var id := IdOf(t);
            && |id| == |t.mod| + |t.cls| + |t.fn| + 4
            && id[|t.mod|] == ':' && (forall i :: 0 <= i < |t.mod| ==> id[i] != ':')
            && id[|id| - |t.fn| - 1] == ':' && (forall i :: |id| - |t.fn| <= i < |id| ==> id[i] != ':')
            && id[..|t.mod|] == t.mod && id[|id| - |t.fn|..] == t.fn
            && id[|t.mod| + 2..|id| - |t.fn| - 2] == t.cls
  {
    var id := IdOf(t);
    var n := |id| - |t.fn|;
    assert id[n..] == t.fn;
    forall i | n <= i < |id|
      ensures id[i] != ':'
    {
      assert id[i] == t.fn[i - n];
    }
    assert id[..|t.mod|] == t.mod;
    forall i | 0 <= i < |t.mod|
      ensures id[i] != ':'
    {
      assert id[i] == t.mod[i];
    }
  }

  /** Ids tell plain triples apart. */
  lemma IdInjective(a: Triple, b: Triple)
    requires Plain(a) && Plain(b)
    ensures IdOf(a) == IdOf(b) <==> a == b
  {
    if IdOf(a) == IdOf(b) {
      IdBounds(a);
      IdBounds(b);
    }
  }

  /** Without that condition they do not: a module name with `::` in it shares its id with a longer class name. */
  lemma IdCollision(mod: string, outer: string, inner: string, fn: string)
    ensures IdOf(Triple(mod + "::" + outer, inner, fn)) == IdOf(Triple(mod, outer + "::" + inner, fn))
    ensures Triple(mod + "::" + outer, inner, fn) != Triple(mod, outer + "::" + inner, fn)
  {
    assert |mod + "::" + outer| != |mod|;
  }

  /** `::` at a place of an id. */
  predicate Separator(id: string, k: nat) {
    k + 2 <= |id| && id[k] == ':' && id[k + 1] == ':'
  }

  /** Another separator in the id of a triple, which can stand beside one of the triple's own two. */
  predicate Ambiguous(t: Triple, k: nat) {
    var p, q := |t.mod|, |t.mod| + 2 + |t.cls|;
    && Separator(IdOf(t), k) && k != p && k != q
    && (k + 2 <= p || p + 2 <= k || k + 2 <= q || q + 2 <= k)
  }

  /** Two separators that do not overlap cut an id into a triple. */
  lemma CutAt(id: string, i: nat, j: nat)
    requires Separator(id, i) && Separator(id, j) && i + 2 <= j
    ensures IdOf(Triple(id[..i], id[i + 2..j], id[j + 2..])) == id
  {
    assert id[i..i + 2] == "::" && id[j..j + 2] == "::";
    assert id == id[..i] + id[i..i + 2] + id[i + 2..j] + id[j..j + 2] + id[j + 2..];
  }

  /** And those of a triple's own id cut it into that triple. */
  lemma CutBack(t: Triple)
    ensures var id, p, q := IdOf(t), |t.mod|, |t.mod| + 2 + |t.cls|;
            Separator(id, p) && Separator(id, q) && t == Triple(id[..p], id[p + 2..q], id[q + 2..])
  {
    var id, p, q := IdOf(t), |t.mod|, |t.mod| + 2 + |t.cls|;
    assert id[..p] == t.mod && id[p + 2..q] == t.cls && id[q + 2..] == t.fn;
    assert id == t.mod + ("::" + t.cls + "::" + t.fn);
    assert id == (t.mod + "::" + t.cls) + ("::" + t.fn);
  }

  lemma SharedIsAmbiguous(t: Triple, u: Triple)
    requires u != t && IdOf(u) == IdOf(t)
    ensures exists k: nat :: Ambiguous(t, k)
  {
    hide IdOf;
    CutBack(t);
    CutBack(u);
    var i, j := |u.mod|, |u.mod| + 2 + |u.cls|;
    assert i != |t.mod| || j != |t.mod| + 2 + |t.cls|;
    assert Ambiguous(t, i) || Ambiguous(t, j);
  }

  lemma AmbiguousIsShared(t: Triple, k: nat) returns (u: Triple)
    requires Ambiguous(t, k)
    ensures u != t && IdOf(u) == IdOf(t)
  {
    hide IdOf;
    CutBack(t);
    var id, p, q := IdOf(t), |t.mod|, |t.mod| + 2 + |t.cls|;
    var i, j := if p + 2 <= k then p else k, if k + 2 <= p then p else if p + 2 <= k then k else q;
    CutAt(id, i, j);
    u := Triple(id[..i], id[i + 2..j], id[j + 2..]);
    assert |u.mod| == i && |u.cls| == j - i - 2;
  }

  /** A triple shares its id with another one exactly when there is such a further separator. */
  lemma IdShared(t: Triple)
    ensures (exists u :: u != t && IdOf(u) == IdOf(t)) <==> exists k: nat :: Ambiguous(t, k)
  {
    hide IdOf, Ambiguous;
    if u :| u != t && IdOf(u) == IdOf(t) {
      SharedIsAmbiguous(t, u);
    }
    if k: nat :| Ambiguous(t, k) {
      var u := AmbiguousIsShared(t, k);
    }
  }

  /** A Ruby object of a class. */
  class RubyObject {
    const cls: string

    constructor (cls: string)
      ensures this.cls == cls
    {
      this.cls := cls;
    }
  }

  /** A handler record; the id is put together when it is first asked for. */
  class Handler {
    const triple: Triple
    var idText: string
    var instance: RubyObject?

    ghost predicate Valid()
      reads this
    {
      idText == "" || idText == IdOf(triple)
    }

    constructor (triple: Triple)
      ensures Valid() && this.triple == triple && instance == null
    {
      this.triple := triple;
      idText := "";
      instance := null;
    }

    method Id() returns (id: string)
      requires Valid()
      modifies this`idText
      ensures Valid() && id == IdOf(triple) && idText == id
    {
      if |idText| == 0 {
        idText := triple.mod + "::" + triple.cls + "::" + triple.fn;
      }
      id := idText;
    }
  }

  datatype Outcome =
    | Loaded(instance: RubyObject)
    | NotDefined            // a null string: `logic_error`
    | RequireFailed
    | ConstructionFailed

  /** A request for a handler: the three strings, if they are there, and how the two calls into Ruby end. */
  datatype Request = Request(
    mod: Option<string>, cls: Option<string>, fn: Option<string>, requireWorks: bool, constructionWorks: bool)
  {
    predicate Defined() {
      mod.Some? && cls.Some? && fn.Some?
    }

    function Asked(): Triple
      requires Defined()
    {
      Triple(mod.value, cls.value, fn.value)
    }

    predicate Unambiguous() {
      Defined() ==> Plain(Asked())
    }

    /** The request gets as far as constructing an object, if none is cached. */
    predicate Makes() {
      Defined() && requireWorks && constructionWorks
    }

    /** How the request ends when the cache is then as given. */
    ghost function OutcomeWith(handlers: map<string, RubyObject>): Outcome {
      if !Defined() then NotDefined
      else if !requireWorks then RequireFailed
      else if IdOf(Asked()) in handlers then Loaded(handlers[IdOf(Asked())])
      else ConstructionFailed
    }
  }

  class Cache {
    var handlers: map<string, RubyObject>

    /** No object is cached under two ids. */
    ghost predicate Valid()
      reads this
    {
      forall id, other :: id in handlers && other in handlers && handlers[id] == handlers[other] ==> id == other
    }

    constructor ()
      ensures Valid() && handlers == map[]
    {
      handlers := map[];
    }

    /** Construct the object a handler needs and remember it. */
    method Make(handler: Handler)
      requires Valid() && handler.Valid() && IdOf(handler.triple) !in handlers
      modifies this, handler
      ensures Valid() && handler.Valid()
      ensures handler.instance != null && handler.instance.cls == handler.triple.cls && fresh(handler.instance)
      ensures handlers == old(handlers)[IdOf(handler.triple) := handler.instance]
    {
      hide IdOf;
      var made := new RubyObject(handler.triple.cls);
      assert made !in handlers.Values;
      handler.instance := made;
      var id := handler.Id();
      handlers := handlers[id := made];
    }

    /** `ruby_request_load_handler`. What is cached stays; an object is made and cached exactly when the request is
        complete, its file loads, its id is new and its class can be constructed; and the request succeeds exactly when
        its file loads and its id is cached afterwards. */
    method Load(r: Request) returns (outcome: Outcome)
      requires Valid()
      modifies this
      ensures Valid()
      ensures
        if r.Makes() && IdOf(r.Asked()) !in old(handlers) then
          && outcome.Loaded? && fresh(outcome.instance) && outcome.instance.cls == r.cls.value
          && handlers == old(handlers)[IdOf(r.Asked()) := outcome.instance]
        else
          handlers == old(handlers)
      ensures outcome == r.OutcomeWith(handlers)
      ensures outcome == NotDefined <==> r.mod == None || r.cls == None || r.fn == None
      ensures outcome == RequireFailed <==> r.mod.Some? && r.cls.Some? && r.fn.Some? && !r.requireWorks
      ensures outcome == ConstructionFailed <==>
        && r.mod.Some? && r.cls.Some? && r.fn.Some? && r.requireWorks && !r.constructionWorks
        && IdOf(r.Asked()) !in old(handlers)
    {
      hide IdOf;
      if r.mod.None? || r.cls.None? || r.fn.None? {
        return NotDefined;
      }
      var handler := new Handler(Triple(r.mod.value, r.cls.value, r.fn.value));
      if !r.requireWorks {
        return RequireFailed;
      }
      var id := handler.Id();
      if id !in handlers {
        if !r.constructionWorks {
          return ConstructionFailed;
        }
        Make(handler);
        return Loaded(handler.instance);
      }
      handler.instance := handlers[id];
      return Loaded(handlers[id]);
    }
  }

  /** The first of the first `n` requests of a run that could make the object for an id. */
  ghost function Maker(requests: seq<Request>, n: nat, id: string): (j: Option<nat>)
    requires n <= |requests|
    ensures j.Some? ==> j.value < n && requests[j.value].Makes() && IdOf(requests[j.value].Asked()) == id
    ensures forall k :: 0 <= k < n && requests[k].Makes() && IdOf(requests[k].Asked()) == id ==> j.Some? && j.value <= k
  {
    if n == 0 then None
    else
      var earlier := Maker(requests, n - 1, id);
      var last := requests[n - 1];
      if earlier.Some? then earlier
      else if last.Makes() && IdOf(last.Asked()) == id then Some(n - 1)
      else None
  }

  /** How request `i` of a run should end, judged by the run alone. */
  ghost predicate Expected(requests: seq<Request>, i: nat, outcome: Outcome)
    requires i < |requests|
  {
    var r := requests[i];
    if !r.Defined() then outcome == NotDefined
    else if !r.requireWorks then outcome == RequireFailed
    else match Maker(requests, i + 1, IdOf(r.Asked()))
      case None => outcome == ConstructionFailed
      case Some(j) => outcome.Loaded? && outcome.instance.cls == requests[j].cls.value
  }

  /** Every request ends as it should, and two that succeed get the same object exactly when their ids are the same. */
  ghost predicate Served(requests: seq<Request>, outcomes: seq<Outcome>) {
    && |outcomes| == |requests|
    && (forall i :: 0 <= i < |requests| ==> Expected(requests, i, outcomes[i]))
    && (forall i, j :: 0 <= i < |requests| && 0 <= j < |requests| && outcomes[i].Loaded? && outcomes[j].Loaded? ==>
        (outcomes[i] == outcomes[j] <==> IdOf(requests[i].Asked()) == IdOf(requests[j].Asked())))
  }

  /** The cache after `n` requests holds one object for each id that has a maker, of the maker's class. */
  ghost predicate Holds(handlers: map<string, RubyObject>, requests: seq<Request>, n: nat)
    requires n <= |requests|
  {
    forall id ::
      var maker := Maker(requests, n, id);
      && (id in handlers <==> maker.Some?)
      && (maker.Some? ==> handlers[id].cls == requests[maker.value].cls.value)
  }

  /** When no module or method name has a colon the ids drop out: each object is of the class asked for, and the same
      object is returned exactly for the same triple. */
  lemma PlainRun(requests: seq<Request>, outcomes: seq<Outcome>)
    requires Served(requests, outcomes) && (forall r :: r in requests ==> r.Unambiguous())
    ensures forall i :: 0 <= i < |requests| && outcomes[i].Loaded? ==>
      requests[i].Defined() && outcomes[i].instance.cls == requests[i].cls.value
    ensures forall i, j :: 0 <= i < |requests| && 0 <= j < |requests| && outcomes[i].Loaded? && outcomes[j].Loaded? ==>
      (outcomes[i] == outcomes[j] <==> requests[i].Asked() == requests[j].Asked())
  {
    hide IdOf, Plain, Maker;
    forall i | 0 <= i < |requests| && outcomes[i].Loaded?
      ensures requests[i].Defined() && outcomes[i].instance.cls == requests[i].cls.value
    {
      assert Expected(requests, i, outcomes[i]);
      var j := Maker(requests, i + 1, IdOf(requests[i].Asked())).value;
      assert requests[i] in requests && requests[j] in requests;
      IdInjective(requests[i].Asked(), requests[j].Asked());
    }
    forall i, j | 0 <= i < |requests| && 0 <= j < |requests| && outcomes[i].Loaded? && outcomes[j].Loaded?
      ensures IdOf(requests[i].Asked()) == IdOf(requests[j].Asked()) <==> requests[i].Asked() == requests[j].Asked()
    {
      assert requests[i] in requests && requests[j] in requests;
      IdInjective(requests[i].Asked(), requests[j].Asked());
    }
  }

  /** One request more: what the cache holds and how the request ends. */
  lemma HoldsNext(handlers: map<string, RubyObject>, after: map<string, RubyObject>, requests: seq<Request>, n: nat)
    requires n < |requests| && Holds(handlers, requests, n)
    requires
      var r := requests[n];
      if r.Makes() && IdOf(r.Asked()) !in handlers then
        var id := IdOf(r.Asked());
        id in after && after[id].cls == r.cls.value && after == handlers[id := after[id]]
      else
        after == handlers
    ensures Holds(after, requests, n + 1) && Expected(requests, n, requests[n].OutcomeWith(after))
  {
    hide IdOf;
  }

  lemma HoldsNothing(requests: seq<Request>)
    ensures Holds(map[], requests, 0)
  {
  }

  /** A whole process: any run of requests, some of them failing. */
  method Serve(requests: seq<Request>) returns (outcomes: seq<Outcome>)
    ensures Served(requests, outcomes)
  {
    hide IdOf, Expected, Holds, Maker;
    var cache := new Cache();
    outcomes := [];
    assert Holds(cache.handlers, requests, 0) by { HoldsNothing(requests); }
    for i := 0 to |requests|
      invariant cache.Valid() && fresh(cache) && |outcomes| == i
      invariant Holds(cache.handlers, requests, i)
      invariant forall j :: 0 <= j < i ==> Expected(requests, j, outcomes[j])
      invariant forall j :: 0 <= j < i && outcomes[j].Loaded? ==> outcomes[j] == requests[j].OutcomeWith(cache.handlers)
    {
      ghost var handlers := cache.handlers;
      var outcome := cache.Load(requests[i]);
      HoldsNext(handlers, cache.handlers, requests, i);
      outcomes := outcomes + [outcome];
    }
  }
}
