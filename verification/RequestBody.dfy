/** The body readers of src/request.cpp over a client stream that hands out bytes as they arrive. */
module RequestBody {
  import opened Options
  import opened UrlCodec
  import opened AprTable
  import opened Query
  import Substitution

  predicate Bytes(s: string) {
    forall i :: 0 <= i < |s| ==> s[i] as int < 256
  }

  lemma BytesConcat(a: string, b: string)
    requires Bytes(a) && Bytes(b)
    ensures Bytes(a + b)
  {
  }

  lemma NextSlice(front: string, s: string, i: nat, j: nat, k: nat)
    requires i <= j <= k <= |s|
    ensures front + s[i..j] + s[j..k] == front + s[i..k]
  {
    assert s[i..j] + s[j..k] == s[i..k];
  }

  lemma BytesSlice(s: string, i: nat, j: nat)
    requires Bytes(s) && i <= j <= |s|
    ensures Bytes(s[i..j])
  {
  }

  /** The bytes of a request body; `pos` of them have been handed out. */
  class Client {
    const body: string
    var pos: nat

    ghost predicate Valid()
      reads this
    {
      pos <= |body| && Bytes(body)
    }

    constructor (body: string)
      requires Bytes(body)
      ensures Valid() && this.body == body && pos == 0
    {
      this.body := body;
      pos := 0;
    }

    /** `get_client_block`: some bytes, at most `size`; none only at the end, or if none are asked for. */
    method GetBlock(size: nat) returns (block: string)
      requires Valid()
      modifies this
      ensures Valid() && old(pos) <= pos && block == body[old(pos)..pos]
      ensures |block| <= size && (block == "" <==> old(pos) == |body| || size == 0)
    {
      var left := |body| - pos;
      var n: nat := 0;
      if left > 0 && size > 0 {
        n :| 1 <= n <= size && n <= left by { assert 1 <= 1 <= size && 1 <= left; }
      }
      block := body[pos..pos + n];
      pos := pos + n;
    }
  }

  /** A one-byte C string: empty if the byte is zero. */
  function AsCString(c: char): string {
    if c == NUL then "" else [c]
  }

  lemma OneByte(s: string)
    requires |s| == 1
    ensures UpToNul(s) == AsCString(s[0])
  {
  }

  /** Appending bytes to a string as one-byte C strings loses the zeros. */
  function WithoutNul(s: string): (r: string)
    ensures NUL !in s ==> r == s
  {
    if s == "" then "" else WithoutNul(s[..|s| - 1]) + AsCString(s[|s| - 1])
  }

  lemma WithoutNulSnoc(s: string, c: char)
    ensures WithoutNul(s + [c]) == WithoutNul(s) + AsCString(c)
  {
    assert (s + [c])[..|s|] == s;
  }

  /** A zero byte is dropped, every other one stays. */
  lemma WithoutNulOne(c: char)
    ensures WithoutNul("") == "" && WithoutNul([0 as char]) == ""
    ensures c as int != 0 ==> WithoutNul([c]) == [c]
  {
    WithoutNulSnoc("", c);
    WithoutNulSnoc("", 0 as char);
    assert "" + [c] == [c] && "" + [0 as char] == [0 as char];
  }

  lemma NothingLeft(s: string, at: nat)
    requires at <= |s|
    ensures WithoutNul(s[at..at]) == ""
  {
  }

  predicate EndsCrLf(s: string) {
    |s| >= 2 && s[|s| - 2] == '\r' && s[|s| - 1] == '\n'
  }

  /** No CRLF ends before the last character of `s`. */
  predicate NoEarlierCrLf(s: string) {
    forall j :: 1 <= j < |s| - 1 ==> !(s[j - 1] == '\r' && s[j] == '\n')
  }

  lemma TerminatedString(s: string)
    ensures UpToNul(s + [NUL]) == UpToNul(s)
  {
    UpToNulOfBuffer(s + [NUL], |s|);
    assert (s + [NUL])[..|s|] == s;
  }

  lemma BytesAreCString(s: string)
    requires Bytes(s)
    ensures IsCString(UpToNul(s))
  {
    var r := UpToNul(s);
    forall i | 0 <= i < |r|
      ensures 0 < r[i] as int < 256
    {
      assert r[i] == s[i] && r[i] in r;
    }
  }

  class Request {
    const client: Client
    var hasReadContent: bool
    var content: string
    var formData: Option<Table>

    ghost predicate Valid()
      reads this, client
    {
      client.Valid() && Bytes(content)
    }

    constructor (client: Client)
      requires client.Valid()
      ensures Valid() && this.client == client && !hasReadContent && content == "" && formData == None
    {
      this.client := client;
      hasReadContent := false;
      content := "";
      formData := None;
    }

    /** One byte more on the line: whether there was one, and whether it completes a line. For a line that starts with
        a bare line feed the source looks at the character before the string, which may be anything. */
    method TakeByte(line: string, ghost start: nat) returns (more: string, got: bool, done: bool)
      requires Valid() && !hasReadContent && start <= client.pos
      requires line == WithoutNul(client.body[start..client.pos])
      modifies client
      ensures client.Valid() && got == (old(client.pos) < |client.body|)
      ensures client.pos == if got then old(client.pos) + 1 else old(client.pos)
      ensures more == WithoutNul(client.body[start..client.pos])
      ensures if got then more == line + AsCString(client.body[old(client.pos)]) else more == line
      ensures got ==> (EndsCrLf(more) && client.body[old(client.pos)] == '\n' ==> done)
      ensures done ==> got && (EndsCrLf(more) || more == "\n")
    {
      hide WithoutNul, UpToNul;
      ghost var before := client.body[start..client.pos];
      var buff := client.GetBlock(1);
      more, got, done := line, |buff| > 0, false;
      if got {
        assert client.body[start..client.pos] == before + [buff[0]];
        WithoutNulSnoc(before, buff[0]);
        OneByte(buff);
        more := line + UpToNul(buff);
        if buff[0] == '\n' {
          var previous: char := *;
          if |more| >= 2 {
            previous := more[|more| - 2];
          }
          done := previous == '\r';
        }
      }
    }

    /** `read_line`. */
    method ReadLine() returns (line: string)
      requires Valid()
      modifies this`hasReadContent, client
      ensures Valid() && old(client.pos) <= client.pos
      ensures old(hasReadContent) ==> line == "" && hasReadContent && client.pos == old(client.pos)
      ensures line == WithoutNul(client.body[old(client.pos)..client.pos])
      ensures NoEarlierCrLf(line)
      ensures !old(hasReadContent) && old(client.pos) < |client.body| ==> client.pos > old(client.pos)
      ensures !old(hasReadContent) ==>
        if hasReadContent then client.pos == |client.body| && !EndsCrLf(line) else EndsCrLf(line) || line == "\n"
    {
      hide WithoutNul;
      if hasReadContent {
        NothingLeft(client.body, client.pos);
        return "";
      }
      ghost var start := client.pos;
      NothingLeft(client.body, client.pos);
      line := "";
      while true
        invariant Valid() && !hasReadContent && start <= client.pos
        invariant line == WithoutNul(client.body[start..client.pos])
        invariant NoEarlierCrLf(line) && !EndsCrLf(line)
        decreases |client.body| - client.pos
      {
        var got, done;
        line, got, done := TakeByte(line, start);
        if got {
          if done {
            break;
          }
        } else {
          hasReadContent := true;
          break;
        }
      }
    }

    /** `read`: -1 when everything has been read, otherwise the number of bytes. A read of no bytes looks like the end
        of the body to it, and later calls read nothing. */
    method Read(len: nat) returns (n: int, buff: string)
      requires Valid()
      modifies this`hasReadContent, client
      ensures Valid() && old(client.pos) <= client.pos
      ensures buff == client.body[old(client.pos)..client.pos] && |buff| <= len
      ensures n == if old(hasReadContent) then -1 else |buff|
      ensures !old(hasReadContent) && len > 0 && old(client.pos) < |client.body| ==> n > 0
      ensures hasReadContent <==> old(hasReadContent) || old(client.pos) == |client.body| || len == 0
    {
      if hasReadContent {
        return -1, "";
      }
      buff := client.GetBlock(len);
      n := |buff|;
      if n <= 0 {
        hasReadContent := true;
      }
    }

    /** `content`: everything not yet read, whatever the sizes of the blocks. */
    method Content() returns (all: string)
      requires Valid()
      modifies this`hasReadContent, this`content, client
      ensures Valid() && hasReadContent && client.pos == |client.body|
      ensures all == content == old(content) + client.body[old(client.pos)..]
    {
      hide Bytes;
      ghost var start := client.pos;
      var buff := client.GetBlock(4095);
      while |buff| > 0
        invariant client.Valid() && Bytes(content) && start <= client.pos - |buff|
        invariant buff == client.body[client.pos - |buff|..client.pos]
        invariant content == old(content) + client.body[start..client.pos - |buff|]
        invariant |buff| == 0 ==> client.pos == |client.body|
        decreases |client.body| - client.pos, |buff|
      {
        ghost var at := client.pos;
        BytesSlice(client.body, at - |buff|, at);
        BytesConcat(content, buff);
        NextSlice(old(content), client.body, start, at - |buff|, at);
        content := content + buff;
        buff := client.GetBlock(4095);
      }
      hasReadContent := true;
      assert client.body[start..client.pos] == client.body[start..];
      all := content;
    }

    /** `form_data`: parsed once and kept. The table is that of the body up to its first zero byte. */
    method FormData(contentType: Option<string>) returns (t: Option<Table>)
      requires Valid()
      requires formData.Some? ==>
        formData.value as object != client as object && formData.value as object != this as object
      modifies this, client
      ensures Valid() && t == (if contentType.None? && old(formData).None? then None else formData)
      ensures old(formData).Some? ==> t == old(formData)
      ensures old(formData).None? && contentType.None? ==> t == None
      ensures old(formData).None? && contentType.Some? ==>
        t.Some? && fresh(t.value) && t.value.entries ==
          if Substitution.IndexOf(contentType.value, "application/x-www-form-urlencoded", 0) == -1
          then [Entry("content-type", contentType.value)]
          else Parsed(UpToNul(old(content) + client.body[old(client.pos)..]))
    {
      hide UpToNul, AddPieces, Pieces, Merge, Substitution.IndexOf;
      if formData.Some? {
        return formData;
      }
      if contentType.None? {
        return None;
      }
      var table := new Table();
      if Substitution.IndexOf(contentType.value, "application/x-www-form-urlencoded", 0) == -1 {
        table.MergeValue("content-type", contentType.value);
      } else {
        var all := Content();
        content := content + [NUL];
        var query := UpToNul(content);
        TerminatedString(all);
        BytesAreCString(all);
        var ok := ParseQueryString(query, table);
      }
      formData := Some(table);
      t := formData;
    }
  }

  // ---- Whole runs ----

  datatype Call = Line | Block(len: nat)

  function Concat(results: seq<string>): string {
    if results == [] then "" else Concat(results[..|results| - 1]) + results[|results| - 1]
  }

  lemma Associate(a: string, b: string, c: string)
    ensures a + (b + c) == a + b + c
  {
  }

  lemma {:induction false} WithoutNulConcat(a: string, b: string)
    ensures WithoutNul(a + b) == WithoutNul(a) + WithoutNul(b)
    decreases |b|
  {
    hide WithoutNul, AsCString;
    if b == "" {
      assert a + b == a;
      WithoutNulOne('a');
    } else {
      var front, c := b[..|b| - 1], b[|b| - 1];
      assert a + b == a + front + [c] && b == front + [c];
      WithoutNulSnoc(a + front, c);
      WithoutNulSnoc(front, c);
      WithoutNulConcat(a, front);
      Associate(WithoutNul(a), WithoutNul(front), AsCString(c));
    }
  }

  lemma {:induction false} WithoutNulAgain(s: string)
    ensures WithoutNul(WithoutNul(s)) == WithoutNul(s)
    decreases |s|
  {
    if s == "" {
      assert WithoutNul(s) == "";
    } else {
      var front, c := s[..|s| - 1], s[|s| - 1];
      WithoutNulAgain(front);
      WithoutNulConcat(WithoutNul(front), AsCString(c));
      assert WithoutNul([c]) == AsCString(c) by { WithoutNulSnoc("", c); assert "" + [c] == [c]; }
    }
  }

  /** What one call adds: a block as it is, a line without its zero bytes. */
  lemma OneMore(results: seq<string>, result: string, before: string, taken: string)
    requires result == taken || result == WithoutNul(taken)
    requires WithoutNul(Concat(results)) == WithoutNul(before)
    ensures WithoutNul(Concat(results + [result])) == WithoutNul(before + taken)
  {
    assert (results + [result])[..|results|] == results;
    WithoutNulConcat(Concat(results), result);
    WithoutNulConcat(before, taken);
    WithoutNulAgain(taken);
  }

  /** Any interleaving of `read_line` and `read` on a new request: what the calls return, put together, is the part of
      the body handed out so far, and all of it once the end has been seen, but for the zero bytes that lines drop. The
      end has been seen when the request says so, unless some call asked for no bytes; and one call more than there are
      bytes sees it, if not an earlier one. */
  method Drain(client: Client, calls: seq<Call>) returns (results: seq<string>, request: Request)
    requires client.Valid() && client.pos == 0
    modifies client
    ensures fresh(request) && request.client == client && request.Valid()
    ensures |results| == |calls|
    ensures WithoutNul(Concat(results)) == WithoutNul(client.body[..client.pos])
    ensures NUL !in client.body ==> Concat(results) == client.body[..client.pos]
    ensures request.hasReadContent ==> client.pos == |client.body| || Block(0) in calls
    ensures |calls| > |client.body| && Block(0) !in calls ==> request.hasReadContent
  {
    hide WithoutNul;
    request := new Request(client);
    results := [];
    for i := 0 to |calls|
      invariant request.Valid() && request.client == client && fresh(request)
      invariant |results| == i && WithoutNul(Concat(results)) == WithoutNul(client.body[..client.pos])
      invariant NUL !in client.body ==> Concat(results) == client.body[..client.pos]
      invariant request.hasReadContent ==> client.pos == |client.body| || Block(0) in calls
      invariant Block(0) !in calls ==> request.hasReadContent || client.pos >= i
    {
      ghost var from := client.pos;
      var result;
      match calls[i] {
        case Line => result := request.ReadLine();
        case Block(len) =>
          var n;
          n, result := request.Read(len);
      }
      ghost var taken := client.body[from..client.pos];
      assert NUL !in client.body ==> NUL !in taken;
      assert client.body[..client.pos] == client.body[..from] + taken;
      OneMore(results, result, client.body[..from], taken);
      assert (results + [result])[..i] == results;
      results := results + [result];
    }
  }
}
