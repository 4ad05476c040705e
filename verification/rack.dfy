/** The request context (the Rack environment) that a connection builds from a
    parsed request and hands to the application. */
module Rack {
  /** A value of the request context: a string, or the `rack.input` stream,
      which is always an empty stream here. */
  datatype EnvValue = Str(s: string) | EmptyInput

  type Env = map<string, EnvValue>

  /** A request header as the parser reports it: (name, value). */
  type Header = (string, string)

  const HeaderPrefix: string := "HTTP_"
  const PathInfo: string := "PATH_INFO"
  const RequestMethod: string := "REQUEST_METHOD"
  const RackInput: string := "rack.input"

  predicate IsLowerAscii(c: char) {
    'a' <= c <= 'z'
  }

  /** `upcase` followed by `tr("-", "_")`, on one character of a header name. */
  function KeyChar(c: char): (d: char)
    ensures d != '-' && !IsLowerAscii(d)
  {
    if IsLowerAscii(c) then (c as int - 32) as char
    else if c == '-' then '_'
    else c
  }

  /** Two characters a header name may use interchangeably: equal up to ASCII
      case, or both taken from `-` and `_`. */
  predicate SameSpelling(a: char, b: char) {
    || a == b
    || (IsLowerAscii(a) && b as int == a as int - 32)
    || (IsLowerAscii(b) && a as int == b as int - 32)
    || ((a == '-' || a == '_') && (b == '-' || b == '_'))
  }

  lemma KeyCharCollision(a: char, b: char)
    ensures KeyChar(a) == KeyChar(b) <==> SameSpelling(a, b)
  {
  }

  /** The context key of a header: `"HTTP_" + name.upcase.tr("-", "_")`. */
  function HeaderKey(name: string): (key: string)
    ensures |key| == |HeaderPrefix| + |name|
    ensures HeaderPrefix <= key
    ensures forall i :: 0 <= i < |key| ==> key[i] != '-'
    ensures forall i :: |HeaderPrefix| <= i < |key| ==> !IsLowerAscii(key[i])
  {
    HeaderPrefix + seq(|name|, i requires 0 <= i < |name| => KeyChar(name[i]))
  }

  /** Two header names share a context key exactly when they are spelled alike
      up to ASCII case and the choice between `-` and `_`. */
  lemma {:induction false} HeaderKeyCollision(a: string, b: string)
    ensures HeaderKey(a) == HeaderKey(b) <==>
              |a| == |b| && forall i :: 0 <= i < |a| ==> SameSpelling(a[i], b[i])
  {
    var n := |HeaderPrefix|;
    if HeaderKey(a) == HeaderKey(b) {
      forall i | 0 <= i < |a|
        ensures SameSpelling(a[i], b[i])
      {
        assert HeaderKey(a)[n + i] == KeyChar(a[i]);
        assert HeaderKey(b)[n + i] == KeyChar(b[i]);
        KeyCharCollision(a[i], b[i]);
      }
    }
    if |a| == |b| && forall i :: 0 <= i < |a| ==> SameSpelling(a[i], b[i]) {
      forall i | 0 <= i < |HeaderKey(a)|
        ensures HeaderKey(a)[i] == HeaderKey(b)[i]
      {
        if i >= n {
          KeyCharCollision(a[i - n], b[i - n]);
        }
      }
    }
  }

  predicate IsHeaderKey(k: string) {
    HeaderPrefix <= k
  }

  /** The header part of the context: the headers inserted in order, so that
      a later header overwrites an earlier one with the same key. */
  function HeaderEnv(headers: seq<Header>): (env: Env)
    ensures forall k :: k in env ==> IsHeaderKey(k)
  {
    if headers == [] then map[]
    else
      var last := headers[|headers| - 1];
      HeaderEnv(headers[..|headers| - 1])[HeaderKey(last.0) := Str(last.1)]
  }

  /** The full request context: the header entries, then `PATH_INFO`,
      `REQUEST_METHOD` and `rack.input`. */
  function RackEnv(headers: seq<Header>, url: string, httpMethod: string): (env: Env)
    ensures env.Keys == HeaderEnv(headers).Keys + {PathInfo, RequestMethod, RackInput}
    ensures env[PathInfo] == Str(url)
    ensures env[RequestMethod] == Str(httpMethod)
    ensures env[RackInput] == EmptyInput
    ensures forall k :: k in HeaderEnv(headers) ==> env[k] == HeaderEnv(headers)[k]
  {
    assert !IsHeaderKey(PathInfo) && !IsHeaderKey(RequestMethod) && !IsHeaderKey(RackInput) by {
      assert PathInfo[0] != HeaderPrefix[0];
      assert RequestMethod[0] != HeaderPrefix[0];
      assert RackInput[0] != HeaderPrefix[0];
    }
    HeaderEnv(headers)[PathInfo := Str(url)][RequestMethod := Str(httpMethod)][RackInput := EmptyInput]
  }

  /** A header key is in the context exactly when some header produces it. */
  lemma {:induction false} HeaderEnvKeys(headers: seq<Header>, k: string)
    ensures k in HeaderEnv(headers) <==>
              exists i :: 0 <= i < |headers| && HeaderKey(headers[i].0) == k
  {
    if headers != [] {
      var init := headers[..|headers| - 1];
      HeaderEnvKeys(init, k);
      if k in HeaderEnv(init) {
        var i :| 0 <= i < |init| && HeaderKey(init[i].0) == k;
        assert headers[i] == init[i];
      }
    }
  }

  /** The header that is last among those with its key supplies the value. */
  lemma {:induction false} HeaderEnvLast(headers: seq<Header>, i: nat)
    requires i < |headers|
    requires forall j :: i < j < |headers| ==> HeaderKey(headers[j].0) != HeaderKey(headers[i].0)
    ensures HeaderKey(headers[i].0) in HeaderEnv(headers)
    ensures HeaderEnv(headers)[HeaderKey(headers[i].0)] == Str(headers[i].1)
  {
    if i < |headers| - 1 {
      var init := headers[..|headers| - 1];
      assert init[i] == headers[i];
      HeaderEnvLast(init, i);
    }
  }

  /** Of several headers that normalise to one key, the context keeps the
      value of the last one. */
  lemma LaterHeaderWins(headers: seq<Header>, i: nat, url: string, httpMethod: string)
    requires i < |headers|
    requires forall j :: i < j < |headers| ==> HeaderKey(headers[j].0) != HeaderKey(headers[i].0)
    ensures HeaderKey(headers[i].0) in RackEnv(headers, url, httpMethod)
    ensures RackEnv(headers, url, httpMethod)[HeaderKey(headers[i].0)] == Str(headers[i].1)
  {
    HeaderEnvLast(headers, i);
  }

  /** `create_rack_env`: fills the context in place, header by header, then
      adds the three fixed entries. */
  method CreateRackEnv(headers: seq<Header>, url: string, httpMethod: string) returns (env: Env)
    ensures env == RackEnv(headers, url, httpMethod)
  {
    env := map[];
    for i := 0 to |headers|
      invariant env == HeaderEnv(headers[..i])
    {
      var (name, value) := headers[i];
      assert headers[..i + 1][..i] == headers[..i];
      env := env[HeaderKey(name) := Str(value)];
    }
    assert headers[..|headers|] == headers;
    env := env[PathInfo := Str(url)];
    env := env[RequestMethod := Str(httpMethod)];
    env := env[RackInput := EmptyInput];
  }
}
