/** APR tables as src/apr_table.cpp uses them: ordered entries whose keys are compared without regard to case.
    `set`, `merge` and `get` are APR's own; the iterator and `join` are the module's. */
module AprTable {
  import opened Options

  datatype Entry = Entry(key: string, value: string)

  function Lower(c: char): char {
    if 'A' <= c <= 'Z' then (c as int + 32) as char else c
  }

  function Fold(s: string): (r: string)
    ensures |r| == |s|
  {
    seq(|s|, i requires 0 <= i < |s| => Lower(s[i]))
  }

  predicate SameKey(a: string, b: string) {
    Fold(a) == Fold(b)
  }

  /** The first entry with a key, or the number of entries. */
  function Find(t: seq<Entry>, key: string): (i: nat)
    ensures i <= |t|
    ensures i < |t| ==> SameKey(t[i].key, key)
    ensures forall j :: 0 <= j < i ==> !SameKey(t[j].key, key)
  {
    if t == [] then 0
    else if SameKey(t[0].key, key) then 0
    else 1 + Find(t[1..], key)
  }

  predicate HasKey(t: seq<Entry>, key: string) {
    Find(t, key) < |t|
  }

  function Get(t: seq<Entry>, key: string): Option<string> {
    if HasKey(t, key) then Some(t[Find(t, key)].value) else None
  }

  /** The entries with other keys. */
  function Without(t: seq<Entry>, key: string): seq<Entry> {
    if t == [] then []
    else if SameKey(t[0].key, key) then Without(t[1..], key)
    else [t[0]] + Without(t[1..], key)
  }

  /** `apr_table_set`: the first entry with the key gets the value, further ones go, a new one comes last. */
  function Set(t: seq<Entry>, key: string, value: string): seq<Entry> {
    var i := Find(t, key);
    if i == |t| then t + [Entry(key, value)]
    else t[..i] + [Entry(t[i].key, value)] + Without(t[i + 1..], key)
  }

  /** `apr_table_merge`: the first entry with the key has the value added behind a comma. */
  function Merge(t: seq<Entry>, key: string, value: string): (r: seq<Entry>)
    ensures |t| <= |r| <= |t| + 1
    ensures |r| == |t| + 1 <==> !HasKey(t, key)
    ensures !HasKey(t, key) ==> r == t + [Entry(key, value)]
  {
    var i := Find(t, key);
    if i == |t| then t + [Entry(key, value)] else t[i := Entry(t[i].key, t[i].value + ", " + value)]
  }

  lemma FindIs(t: seq<Entry>, key: string, i: nat)
    requires i <= |t| && (i < |t| ==> SameKey(t[i].key, key))
    requires forall j :: 0 <= j < i ==> !SameKey(t[j].key, key)
    ensures Find(t, key) == i
  {
  }

  lemma GetNone(t: seq<Entry>, key: string)
    ensures Get(t, key) == None <==> !HasKey(t, key)
  {
  }

  lemma GetAppend(a: seq<Entry>, b: seq<Entry>, key: string)
    ensures Get(a + b, key) == if HasKey(a, key) then Get(a, key) else Get(b, key)
  {
    var i := Find(a, key);
    if i < |a| {
      FindIs(a + b, key, i);
    } else {
      FindIs(a + b, key, |a| + Find(b, key));
    }
  }

  lemma HasKeyAppend(a: seq<Entry>, b: seq<Entry>, key: string)
    ensures HasKey(a + b, key) <==> HasKey(a, key) || HasKey(b, key)
  {
    GetAppend(a, b, key);
    GetNone(a, key);
    GetNone(b, key);
    GetNone(a + b, key);
  }

  lemma {:induction false} GetWithout(t: seq<Entry>, key: string, other: string)
    requires !SameKey(key, other)
    ensures Get(Without(t, key), other) == Get(t, other)
    decreases |t|
  {
    if t == [] {
    } else {
      GetWithout(t[1..], key, other);
      GetAppend([t[0]], t[1..], other);
      GetAppend([t[0]], Without(t[1..], key), other);
      assert t == [t[0]] + t[1..];
      if SameKey(t[0].key, key) {
        FindIs([t[0]], other, 1);
      }
    }
  }

  lemma GetSetOther(a: seq<Entry>, e: Entry, b: seq<Entry>, value: string, key: string, other: string)
    requires SameKey(e.key, key) && !SameKey(key, other)
    ensures Get(a + [Entry(e.key, value)] + Without(b, key), other) == Get(a + [e] + b, other)
  {
    hide Fold, Get;
    var e' := Entry(e.key, value);
    assert Get([e'], other) == Get([e], other) == None && !HasKey([e'], other) && !HasKey([e], other) by {
      FindIs([e'], other, 1);
      FindIs([e], other, 1);
      GetNone([e'], other);
      GetNone([e], other);
    }
    GetAppend(a + [e'], Without(b, key), other);
    GetAppend(a, [e'], other);
    GetAppend(a + [e], b, other);
    GetAppend(a, [e], other);
    HasKeyAppend(a, [e'], other);
    HasKeyAppend(a, [e], other);
    GetWithout(b, key, other);
  }

  /** `set` followed by `get`: the key of the call, in any case, has the new value, every other key its old one. */
  lemma GetSet(t: seq<Entry>, key: string, value: string, other: string)
    ensures Get(Set(t, key, value), other) == if SameKey(key, other) then Some(value) else Get(t, other)
  {
    hide Fold;
    var i := Find(t, key);
    if i == |t| {
      GetAppend(t, [Entry(key, value)], other);
    } else if SameKey(key, other) {
      FindIs(Set(t, key, value), other, i);
    } else {
      GetSetOther(t[..i], t[i], t[i + 1..], value, key, other);
      assert t[..i] + [t[i]] + t[i + 1..] == t;
    }
  }

  /** `merge` followed by `get`: the key of the call, in any case, has the new value behind its old one and a comma, or
      alone if it had none; every other key has its old one. */
  lemma GetMerge(t: seq<Entry>, key: string, value: string, other: string)
    ensures Get(Merge(t, key, value), other) ==
      if !SameKey(key, other) then Get(t, other)
      else if HasKey(t, key) then Some(Get(t, key).value + ", " + value)
      else Some(value)
  {
    hide Fold;
    var i, r := Find(t, key), Merge(t, key, value);
    if i == |t| {
      GetAppend(t, [Entry(key, value)], other);
    } else if SameKey(key, other) {
      FindIs(r, other, i);
    } else {
      FindIs(r, other, Find(t, other));
    }
  }

  // ---- Order ----

  lemma MissesFront(a: seq<Entry>, key: string)
    requires !HasKey(a, key)
    ensures forall j :: 0 <= j < |a| ==> !SameKey(a[j].key, key)
  {
  }

  /** Where the entries stand afterwards: a key that is there keeps its place and its own spelling. */
  lemma SetAndMergeInPlace(a: seq<Entry>, e: Entry, b: seq<Entry>, key: string, value: string)
    requires !HasKey(a, key) && SameKey(e.key, key)
    ensures Set(a + [e] + b, key, value) == a + [Entry(e.key, value)] + Without(b, key)
    ensures Merge(a + [e] + b, key, value) == a + [Entry(e.key, e.value + ", " + value)] + b
  {
    hide SameKey, Without, Find, HasKey;
    var t := a + [e] + b;
    MissesFront(a, key);
    assert forall j :: 0 <= j < |a| ==> t[j] == a[j];
    FindIs(t, key, |a|);
    assert t[|a|] == e && t[..|a|] == a && t[|a| + 1..] == b;
    assert t[|a| := Entry(e.key, e.value + ", " + value)] == a + [Entry(e.key, e.value + ", " + value)] + b;
  }

  /** A new one comes last. */
  lemma SetAndMergeAtEnd(t: seq<Entry>, key: string, value: string)
    requires !HasKey(t, key)
    ensures Set(t, key, value) == Merge(t, key, value) == t + [Entry(key, value)]
  {
  }

  lemma {:induction false} WithoutSnoc(t: seq<Entry>, e: Entry, key: string)
    ensures Without([], key) == []
    ensures Without(t + [e], key) == Without(t, key) + if SameKey(e.key, key) then [] else [e]
    decreases |t|
  {
    hide SameKey;
    if t == [] {
      assert [] + [e] == [e] && [e][1..] == [];
    } else {
      assert (t + [e])[1..] == t[1..] + [e];
      WithoutSnoc(t[1..], e, key);
    }
  }

  function Pair(e: Entry): string {
    e.key + "=" + e.value
  }

  /** `key=value` pieces with the separator between them. */
  function Joined(t: seq<Entry>, sep: string): string {
    if t == [] then ""
    else if |t| == 1 then Pair(t[0])
    else Pair(t[0]) + sep + Joined(t[1..], sep)
  }

  lemma FirstOfJoined(e: Entry, t: seq<Entry>, sep: string)
    ensures Joined([], sep) == "" && Joined([e], sep) == e.key + "=" + e.value
    ensures t != [] ==> Joined([e] + t, sep) == e.key + "=" + e.value + sep + Joined(t, sep)
  {
    assert ([e] + t)[1..] == t;
  }

  /** The cursor over a table's entries; -1 before the first. */
  class Iterator {
    const h: seq<Entry>
    var i: int

    constructor (h: seq<Entry>)
      ensures this.h == h && i == -1
    {
      this.h := h;
      i := -1;
    }

    method Next() returns (ok: bool)
      requires -1 <= i < |h|
      modifies this
      ensures ok <==> old(i) + 1 < |h|
      ensures i == if ok then old(i) + 1 else old(i)
    {
      if i == |h| - 1 {
        return false;
      }
      if |h| > 0 {
        i := i + 1;
        return true;
      }
      return false;
    }

    function Key(): string
      requires 0 <= i < |h|
      reads this
    {
      h[i].key
    }

    function Data(): string
      requires 0 <= i < |h|
      reads this
    {
      h[i].value
    }
  }

  /** The first entries of `total`, each but the very last followed by the separator. */
  function JoinedFront(t: seq<Entry>, sep: string, total: nat): string {
    if t == [] then ""
    else JoinedFront(t[..|t| - 1], sep, total) + Pair(t[|t| - 1]) + if |t| < total then sep else ""
  }

  lemma {:induction false} JoinedSnoc(t: seq<Entry>, e: Entry, sep: string)
    requires t != []
    ensures Joined(t + [e], sep) == Joined(t, sep) + sep + Pair(e)
    decreases |t|
  {
    assert (t + [e])[1..] == t[1..] + [e];
    if |t| == 1 {
    } else {
      JoinedSnoc(t[1..], e, sep);
    }
  }

  lemma {:induction false} JoinedFrontIsPrefix(t: seq<Entry>, sep: string, total: nat)
    requires t != [] && |t| < total
    ensures JoinedFront(t, sep, total) == Joined(t, sep) + sep
    decreases |t|
  {
    hide Pair;
    var front, e := t[..|t| - 1], t[|t| - 1];
    if front == [] {
    } else {
      JoinedFrontIsPrefix(front, sep, total);
      JoinedSnoc(front, e, sep);
      assert t == front + [e];
    }
  }

  lemma JoinedFrontIsJoined(t: seq<Entry>, sep: string)
    ensures JoinedFront(t, sep, |t|) == Joined(t, sep)
  {
    hide Pair;
    if |t| > 1 {
      var front, e := t[..|t| - 1], t[|t| - 1];
      JoinedFrontIsPrefix(front, sep, |t|);
      JoinedSnoc(front, e, sep);
      assert t == front + [e];
    }
  }

  lemma NothingJoined(t: seq<Entry>, sep: string)
    ensures JoinedFront(t[..0], sep, |t|) == ""
  {
  }

  lemma Glue(a: string, b: string, c: string, d: string)
    ensures a + (b + c + d) == a + b + c + d
  {
  }

  lemma JoinedOneMore(t: seq<Entry>, i: nat, sep: string)
    requires i < |t|
    ensures JoinedFront(t[..i + 1], sep, |t|) ==
      JoinedFront(t[..i], sep, |t|) + t[i].key + "=" + t[i].value + if i < |t| - 1 then sep else ""
  {
    assert t[..i + 1][..i] == t[..i];
    Glue(JoinedFront(t[..i], sep, |t|), t[i].key, "=", t[i].value);
  }

  /** The table object. */
  class Table {
    var entries: seq<Entry>

    constructor ()
      ensures entries == []
    {
      entries := [];
    }

    method SetValue(key: string, value: string)
      modifies this
      ensures entries == Set(old(entries), key, value)
    {
      entries := Set(entries, key, value);
    }

    method MergeValue(key: string, value: string)
      modifies this
      ensures entries == Merge(old(entries), key, value)
    {
      entries := Merge(entries, key, value);
    }

    /** `join`: the entries as `key=value` with a separator between them. */
    method Join(sep: string) returns (data: string)
      ensures data == Joined(entries, sep)
    {
      hide JoinedFront, Joined;
      data := "";
      NothingJoined(entries, sep);
      var it := new Iterator(entries);
      var len := |entries|;
      var more := it.Next();
      while more
        invariant it.h == entries && fresh(it) && 0 <= it.i + (if more then 0 else 1) <= |entries|
        invariant more ==> it.i < |entries|
        invariant !more ==> it.i == |entries| - 1
        invariant data == JoinedFront(entries[..it.i + (if more then 0 else 1)], sep, |entries|)
        decreases |entries| - it.i, more
      {
        JoinedOneMore(entries, it.i, sep);
        data := data + it.Key() + "=" + it.Data();
        if it.i < len - 1 {
          data := data + sep;
        }
        more := it.Next();
      }
      assert entries[..|entries|] == entries;
      JoinedFrontIsJoined(entries, sep);
    }
  }
}
