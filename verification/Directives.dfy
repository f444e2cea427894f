/** The directives that declare handlers: `set_ruby_handler_declare` and `ruby_handler_set_params` of src/mod_ruby.c.
    The server reads directives in order and stops at the first one that reports an error. */
module Directives {
  import opened Options

  type Handlers = map<string, map<string, string>>

  /** `RubyHandlerDeclare name`, and the directives that set a parameter of a handler. A missing argument is a null
      string; `inDirectory` says that the directive stands inside a directory section. */
  datatype Directive =
    | Declare(inDirectory: bool, name: Option<string>)
    | SetParams(inDirectory: bool, key: string, handler: Option<string>, value: Option<string>)

  datatype Complaint = MissingArguments | WrongPlace | NotRegistered

  /** What a directive reports, the handlers being those declared before it. */
  function Answer(h: Handlers, d: Directive): Option<Complaint> {
    match d
    case Declare(inDirectory, name) => if name.Some? && inDirectory then Some(WrongPlace) else None
    case SetParams(inDirectory, _, handler, value) =>
      if handler.None? || value.None? then Some(MissingArguments)
      else if inDirectory then Some(WrongPlace)
      else if handler.value !in h then Some(NotRegistered)
      else None
  }

  /** A directive that reports an error changes nothing; declaring a handler again keeps its parameters. */
  function After(h: Handlers, d: Directive): Handlers {
    if Answer(h, d).Some? then h
    else match d
      case Declare(_, name) => if name.None? || name.value in h then h else h[name.value := map[]]
      case SetParams(_, key, handler, value) => h[handler.value := h[handler.value][key := value.value]]
  }

  class Server {
    var handlers: Handlers

    constructor ()
      ensures handlers == map[]
    {
      handlers := map[];
    }

    method SetHandlerDeclare(inDirectory: bool, name: Option<string>) returns (complaint: Option<Complaint>)
      modifies this
      ensures complaint == Answer(old(handlers), Declare(inDirectory, name))
      ensures complaint == if name.Some? && inDirectory then Some(WrongPlace) else None
      ensures handlers == After(old(handlers), Declare(inDirectory, name))
    {
      if name.None? {
        return None;
      }
      if inDirectory {
        return Some(WrongPlace);
      }
      if name.value !in handlers {
        handlers := handlers[name.value := map[]];
      }
      return None;
    }

    method HandlerSetParams(inDirectory: bool, key: string, handler: Option<string>, value: Option<string>)
      returns (complaint: Option<Complaint>)
      modifies this
      ensures complaint == Answer(old(handlers), SetParams(inDirectory, key, handler, value))
      ensures complaint == Some(MissingArguments) <==> handler == None || value == None
      ensures complaint == Some(WrongPlace) <==> handler.Some? && value.Some? && inDirectory
      ensures complaint == Some(NotRegistered) <==>
        handler.Some? && value.Some? && !inDirectory && handler.value !in old(handlers)
      ensures handlers == After(old(handlers), SetParams(inDirectory, key, handler, value))
    {
      if handler.None? || value.None? {
        return Some(MissingArguments);
      }
      if inDirectory {
        return Some(WrongPlace);
      }
      if handler.value !in handlers {
        return Some(NotRegistered);
      }
      handlers := handlers[handler.value := handlers[handler.value][key := value.value]];
      return None;
    }
  }

  /** A whole configuration file, read up to the first error; None if there is one. */
  function Configure(ds: seq<Directive>): Option<Handlers>
    decreases |ds|
  {
    if ds == [] then Some(map[])
    else
      var h := Configure(ds[..|ds| - 1]);
      if h.None? || Answer(h.value, ds[|ds| - 1]).Some? then None else Some(After(h.value, ds[|ds| - 1]))
  }

  // ---- The same, read off the file ----

  predicate DeclaresHandler(d: Directive, name: string) {
    d.Declare? && d.name == Some(name)
  }

  /** Directive `i` is in place: complete, outside directories, and after the declaration of the handler it is for. */
  ghost predicate InPlace(ds: seq<Directive>, i: nat)
    requires i < |ds|
  {
    match ds[i]
    case Declare(inDirectory, name) => name.Some? ==> !inDirectory
    case SetParams(inDirectory, _, handler, value) =>
      && handler.Some? && value.Some? && !inDirectory
      && exists j :: 0 <= j < i && DeclaresHandler(ds[j], handler.value)
  }

  ghost predicate AllInPlace(ds: seq<Directive>) {
    forall i :: 0 <= i < |ds| ==> InPlace(ds, i)
  }

  /** The value the last directive for a parameter gives it. */
  function LastParam(ds: seq<Directive>, handler: string, key: string): Option<string>
    decreases |ds|
  {
    if ds == [] then None
    else
      var d := ds[|ds| - 1];
      if d.SetParams? && d.handler == Some(handler) && d.key == key then d.value
      else LastParam(ds[..|ds| - 1], handler, key)
  }

  function ParamOf(params: map<string, string>, key: string): Option<string> {
    if key in params then Some(params[key]) else None
  }

  /** `h` is what the file says: the handlers declared somewhere, each parameter with its last value. */
  ghost predicate Says(ds: seq<Directive>, h: Handlers) {
    && (forall name :: name in h <==> exists i :: 0 <= i < |ds| && DeclaresHandler(ds[i], name))
    && (forall name, key :: name in h ==> ParamOf(h[name], key) == LastParam(ds, name, key))
  }

  lemma InPlaceBefore(ds: seq<Directive>, i: nat)
    requires i < |ds| - 1
    ensures InPlace(ds, i) <==> InPlace(ds[..|ds| - 1], i)
  {
    assert forall j :: 0 <= j <= i ==> ds[..|ds| - 1][j] == ds[j];
  }

  lemma AnswerInPlace(ds: seq<Directive>, h: Handlers)
    requires ds != [] && Says(ds[..|ds| - 1], h)
    ensures Answer(h, ds[|ds| - 1]).None? <==> InPlace(ds, |ds| - 1)
  {
    var front := ds[..|ds| - 1];
    assert forall j :: 0 <= j < |front| ==> front[j] == ds[j];
  }

  /** A handler never declared has no parameters. */
  lemma {:induction false} NoParams(ds: seq<Directive>, name: string, key: string)
    requires AllInPlace(ds)
    requires forall i :: 0 <= i < |ds| ==> !DeclaresHandler(ds[i], name)
    ensures LastParam(ds, name, key) == None
    decreases |ds|
  {
    if ds == [] {
    } else {
      var front := ds[..|ds| - 1];
      forall i | 0 <= i < |front|
        ensures InPlace(front, i)
      {
        InPlaceBefore(ds, i);
      }
      assert InPlace(ds, |ds| - 1);
      NoParams(front, name, key);
    }
  }

  lemma SaysMore(ds: seq<Directive>, h: Handlers)
    requires ds != [] && Says(ds[..|ds| - 1], h) && Answer(h, ds[|ds| - 1]).None?
    requires AllInPlace(ds[..|ds| - 1])
    ensures Says(ds, After(h, ds[|ds| - 1]))
  {
    var n := |ds| - 1;
    var front, d, h' := ds[..n], ds[n], After(h, ds[n]);
    forall name
      ensures name in h' <==> exists i :: 0 <= i < |ds| && DeclaresHandler(ds[i], name)
    {
      assert DeclaresHandler(d, name) ==> name in h';
      if name in h {
        var i :| 0 <= i < n && DeclaresHandler(front[i], name);
        assert DeclaresHandler(ds[i], name);
      }
      if i :| 0 <= i < n && DeclaresHandler(ds[i], name) {
        assert DeclaresHandler(front[i], name);
      }
    }
    forall name, key | name in h'
      ensures ParamOf(h'[name], key) == LastParam(ds, name, key)
    {
      if name !in h {
        NoParams(front, name, key);
      }
    }
  }

  /** Reading the file succeeds exactly when every directive is in place, and then gives what the file says. */
  lemma {:induction false} ConfigureExact(ds: seq<Directive>)
    ensures Configure(ds).Some? <==> AllInPlace(ds)
    ensures Configure(ds).Some? ==> Says(ds, Configure(ds).value)
    decreases |ds|
  {
    if ds == [] {
    } else {
      var n := |ds| - 1;
      var front := ds[..n];
      ConfigureExact(front);
      forall i | 0 <= i < n
        ensures InPlace(ds, i) <==> InPlace(front, i)
      {
        InPlaceBefore(ds, i);
      }
      if Configure(front).Some? {
        AnswerInPlace(ds, Configure(front).value);
        if Answer(Configure(front).value, ds[n]).None? {
          SaysMore(ds, Configure(front).value);
        }
      }
    }
  }
}
