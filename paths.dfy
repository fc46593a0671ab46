/** The small helpers of the service's utilities: the skip list for middleware, the
    validation and formatting of paths and destination URLs, building the redirect
    target, and generating a random short path. */
module Paths {
  import opened Wrappers
  import Strings
  import Strconv

  const ErrorMessage := "Error"
  const HttpsProtocol := "https://"

  /** Paths the logging and metrics middleware leave alone. */
  const PathsToSkipMiddleware: seq<string> := ["/metrics"]

  /** `slices.Contains(xs, x)`: a scan for an element equal to `x`. */
  function ContainsElement(xs: seq<string>, x: string): (b: bool)
    ensures b <==> x in xs
  {
    if xs == [] then false else xs[0] == x || ContainsElement(xs[1..], x)
  }

  /** `skipMiddleware(path)`: exact membership in the skip list, no prefix matching. */
  function SkipMiddleware(path: string): (b: bool)
    ensures b <==> path == "/metrics"
  {
    ContainsElement(PathsToSkipMiddleware, path)
  }

  /** There is no prefix matching: "/metrics/", "/metric" and "/" are not skipped. */
  lemma SkipOnlyMetrics()
    ensures !SkipMiddleware("/metrics/") && !SkipMiddleware("/metric") && !SkipMiddleware("/")
  {
  }

  /** What `url.ParseRequestURI` yields on success: the parts the validators read. */
  datatype URL = URL(host: string, path: string, rawQuery: string)

  predicate IsHex(c: char)
  {
    ('0' <= c <= '9') || ('a' <= c <= 'f') || ('A' <= c <= 'F')
  }

  /** `url.QueryUnescape` succeeds: every '%' is followed by two hexadecimal digits. */
  predicate UnescapeOk(s: string)
  {
    forall k :: 0 <= k < |s| && s[k] == '%' ==> k + 2 < |s| && IsHex(s[k + 1]) && IsHex(s[k + 2])
  }

  /** The key of a piece of the raw query: what `strings.Cut` leaves before the first '='. */
  function QueryKey(part: string): (key: string)
    ensures |key| <= |part| && key == part[..|key|] && '=' !in key
  {
    Strings.Before(part, '=')
  }

  /** The value of a piece of the raw query: what follows the first '=', or "" without one. */
  function QueryValue(part: string): (value: string)
    ensures |QueryKey(part)| < |part| ==> part == QueryKey(part) + "=" + value
    ensures |QueryKey(part)| == |part| ==> value == ""
  {
    var key := QueryKey(part);
    if |key| < |part| then
      assert part == part[..|key|] + [part[|key|]] + part[|key| + 1..];
      part[|key| + 1..]
    else ""
  }

  /** A piece of the raw query between '&'s that `url.ParseQuery` turns into an entry: it
      is not empty, holds no ';', and both its key and its value unescape (a piece whose
      key or value does not is skipped). */
  predicate YieldsKey(part: string)
  {
    part != "" && ';' !in part && UnescapeOk(QueryKey(part)) && UnescapeOk(QueryValue(part))
  }

  /** No escape can span the '=' that ends the key, since '=' is not a hexadecimal digit:
      the key and the value both unescape exactly when the whole piece does. */
  lemma UnescapeKeyValue(part: string)
    ensures UnescapeOk(QueryKey(part)) && UnescapeOk(QueryValue(part)) <==> UnescapeOk(part)
  {
    var key, value := QueryKey(part), QueryValue(part);
    var b := |key|;
    if b < |part| {
      assert part[b] == '=';
      if UnescapeOk(part) {
        forall k | 0 <= k < |key| && key[k] == '%'
          ensures k + 2 < |key| && IsHex(key[k + 1]) && IsHex(key[k + 2])
        {
          assert part[k] == '%';
        }
        forall k | 0 <= k < |value| && value[k] == '%'
          ensures k + 2 < |value| && IsHex(value[k + 1]) && IsHex(value[k + 2])
        {
          assert part[b + 1 + k] == '%';
        }
      }
      if UnescapeOk(key) && UnescapeOk(value) {
        forall k | 0 <= k < |part| && part[k] == '%'
          ensures k + 2 < |part| && IsHex(part[k + 1]) && IsHex(part[k + 2])
        {
          if k < b {
            assert key[k] == '%';
          } else {
            assert value[k - b - 1] == '%';
          }
        }
      }
    } else {
      assert key == part;
    }
  }

  /** `len(u.Query()) > 0`: some '&'-separated piece of the raw query yields an entry. */
  predicate QueryHasKeys(rawQuery: string)
  {
    exists part :: part in Strings.Split(rawQuery, '&') && YieldsKey(part)
  }

  /** A query with no entry at all is never appended; one with a well-formed "key=value"
      always is. */
  lemma QueryKeysExamples()
    ensures !QueryHasKeys("") && !QueryHasKeys("&") && !QueryHasKeys("a;b")
    ensures QueryHasKeys("a=1")
  {
    assert Strings.Split("", '&') == [""];
    assert Strings.Split("&", '&') == ["", ""];
    Strings.SplitNoSep("a;b", '&');
    Strings.SplitNoSep("a=1", '&');
    assert QueryKey("a=1") == "a";
    assert YieldsKey("a=1");
  }

  /** A piece whose value has a bad escape gives no entry, so a query made only of it is
      not appended to the formatted URL. */
  lemma BadEscapeDropsQuery()
    ensures !YieldsKey("a=%zz") && !QueryHasKeys("a=%zz")
    ensures ValidateAndFormatURL(Some(URL("h", "/p", "a=%zz"))) == ("h/p", true)
  {
    assert QueryValue("a=%zz") == "%zz";
    assert !UnescapeOk("%zz") by {
      assert "%zz"[0] == '%' && !IsHex("%zz"[1]);
    }
    Strings.SplitNoSep("a=%zz", '&');
    assert !QueryHasKeys("a=%zz");
    assert "h" + "/p" == "h/p";
  }

  /** `validateAndFormatURL`, given what `url.ParseRequestURI` made of the input: host and
      path, then '?' and the raw query only when the query has a key; "Error" and false
      when parsing failed. */
  function ValidateAndFormatURL(parsed: Option<URL>): (r: (string, bool))
    ensures r.1 <==> parsed.Some?
    ensures !r.1 ==> r.0 == ErrorMessage
    ensures r.1 ==> (|r.0| >= |parsed.value.host| + |parsed.value.path| &&
      r.0[..|parsed.value.host|] == parsed.value.host &&
      r.0[|parsed.value.host|..|parsed.value.host| + |parsed.value.path|] == parsed.value.path)
    ensures r.1 ==> (r.0[|parsed.value.host| + |parsed.value.path|..] ==
      if QueryHasKeys(parsed.value.rawQuery) then "?" + parsed.value.rawQuery else "")
  {
    match parsed
    case None => (ErrorMessage, false)
    case Some(u) =>
      var formattedUri := u.host + u.path;
      var suffix := if QueryHasKeys(u.rawQuery) then "?" + u.rawQuery else "";
      var r0 := if QueryHasKeys(u.rawQuery) then formattedUri + "?" + u.rawQuery else formattedUri;
      assert r0 == formattedUri + suffix;
      assert r0[..|u.host|] == u.host;
      assert r0[|u.host|..|u.host| + |u.path|] == u.path;
      assert r0[|formattedUri|..] == suffix;
      (r0, true)
  }

  /** `validateAndFormatPath`, given what `url.ParseRequestURI` made of the input: the path
      with every leading and trailing '/' removed, or "Error" and false. */
  function ValidateAndFormatPath(parsed: Option<URL>): (r: (string, bool))
    ensures r.1 <==> parsed.Some?
    ensures !r.1 ==> r.0 == ErrorMessage
    ensures r.1 ==> (r.0 != [] ==> r.0[0] != '/' && r.0[|r.0| - 1] != '/')
    ensures r.1 ==> (exists i, j :: (0 <= i <= j <= |parsed.value.path| &&
                                     r.0 == parsed.value.path[i..j] &&
                                     Strings.All(parsed.value.path[..i], '/') &&
                                     Strings.All(parsed.value.path[j..], '/')))
  {
    match parsed
    case None => (ErrorMessage, false)
    case Some(u) =>
      Strings.TrimIsInfix(u.path, '/');
      (Strings.Trim(u.path, '/'), true)
  }

  /** `buildUri(u)`: the redirect target is "https://" followed by the stored URL. */
  function BuildUri(url: string): (r: string)
    ensures |r| == |HttpsProtocol| + |url|
    ensures r[..|HttpsProtocol|] == HttpsProtocol && r[|HttpsProtocol|..] == url
  {
    HttpsProtocol + url
  }

  /** The 62 letters and digits a generated short path is made of. */
  const Charset := "abcdefghijklmnopqrstuvwxyzABCDEFGHIJKLMNOPQRSTUVWXYZ0123456789"

  /** The length asked for by the PATH_LENGTH setting: its `strconv.Atoi` value, or 9 when
      it does not parse (an unset variable reads as ""). */
  function PathLength(env: string): (n: int)
    ensures Strconv.Atoi(env).None? ==> n == 9
    ensures Strconv.Atoi(env).Some? ==> n == Strconv.Atoi(env).value
  {
    match Strconv.Atoi(env)
    case Some(n) => n
    case None => 9
  }

  lemma PathLengthExamples()
    ensures PathLength("") == 9 && PathLength("abc") == 9 && PathLength("12") == 12
    ensures PathLength("-3") == -3
  {
    assert Strconv.DigitsValue("12") == 12 by {
      assert "12"[..1] == "1";
    }
    assert "-3"[1..] == "3";
  }

  /** `generateShortRedirectPath()`, with the PATH_LENGTH value `env` and the random source
      `draws`, whose `k`th entry is the `k`th result of `rand.Intn(62)`. A negative length
      makes `make` panic; otherwise every character is the charset entry drawn for it. */
  method GenerateShortRedirectPath(env: string, draws: seq<nat>) returns (r: Outcome<string>)
    requires forall k :: 0 <= k < |draws| ==> draws[k] < |Charset|
    requires PathLength(env) <= |draws|
    ensures r.Panic? <==> PathLength(env) < 0
    ensures r.Ok? ==> |r.value| == PathLength(env)
    ensures r.Ok? ==> forall k :: 0 <= k < |r.value| ==> r.value[k] == Charset[draws[k]]
    ensures r.Ok? ==> forall k :: 0 <= k < |r.value| ==> r.value[k] in Charset
  {
    var length := PathLength(env);
    if length < 0 {
      return Panic("makeslice: len out of range");
    }
    var shortPath := new char[length];
    for i := 0 to shortPath.Length
      invariant forall k :: 0 <= k < i ==> shortPath[k] == Charset[draws[k]]
    {
      shortPath[i] := Charset[draws[i]];
    }
    return Ok(shortPath[..]);
  }
}
