/** Request header lookup as `http.Header.Get` does it: the key is first put in the
    canonical form of `textproto.CanonicalMIMEHeaderKey`, then the first value stored
    under it is returned, or "" when there is none. */
module Headers {

  /** Header names (in canonical form, as the server stores them) to their values. */
  type Header = map<string, seq<string>>

  /** The characters a header name may contain: letters, digits and the RFC 7230 token
      punctuation. */
  predicate ValidHeaderFieldByte(c: char)
  {
    ('a' <= c <= 'z') || ('A' <= c <= 'Z') || ('0' <= c <= '9') ||
    c in "!#$%&'*+-.^_`|~"
  }

  /** One character of the canonical form: upper case at the start of a word, lower
      case inside one; anything but a letter is kept. */
  function CanonicalChar(c: char, upper: bool): (r: char)
    ensures ValidHeaderFieldByte(c) ==> ValidHeaderFieldByte(r)
    ensures (r == '-') == (c == '-')
  {
    if upper && 'a' <= c <= 'z' then (c as int - 32) as char
    else if !upper && 'A' <= c <= 'Z' then (c as int + 32) as char
    else c
  }

  /** The canonical form of `s`, where `upper` says whether `s[0]` starts a word; a word
      starts at the beginning and after every '-'. */
  function CanonicalFrom(s: string, upper: bool): (r: string)
    ensures |r| == |s|
  {
    if s == [] then []
    else
      var c := CanonicalChar(s[0], upper);
      [c] + CanonicalFrom(s[1..], c == '-')
  }

  /** `textproto.CanonicalMIMEHeaderKey(s)`: a name holding a character that is not a
      valid header field character is returned unchanged. */
  function CanonicalMIMEHeaderKey(s: string): (r: string)
    ensures |r| == |s|
    ensures (exists k :: 0 <= k < |s| && !ValidHeaderFieldByte(s[k])) ==> r == s
  {
    if forall k :: 0 <= k < |s| ==> ValidHeaderFieldByte(s[k]) then CanonicalFrom(s, true) else s
  }

  /** `http.Header.Get(key)`. */
  function Get(h: Header, key: string): string
  {
    var k := CanonicalMIMEHeaderKey(key);
    if k in h && |h[k]| > 0 then h[k][0] else ""
  }

  lemma {:induction false} CanonicalFromIdempotent(s: string, upper: bool)
    ensures CanonicalFrom(CanonicalFrom(s, upper), upper) == CanonicalFrom(s, upper)
    ensures (forall k :: 0 <= k < |s| ==> ValidHeaderFieldByte(s[k])) ==>
            (forall k :: 0 <= k < |s| ==> ValidHeaderFieldByte(CanonicalFrom(s, upper)[k]))
  {
    if s != [] {
      var c := CanonicalChar(s[0], upper);
      CanonicalFromIdempotent(s[1..], c == '-');
      var r := CanonicalFrom(s, upper);
      assert r[0] == c && r[1..] == CanonicalFrom(s[1..], c == '-');
      assert CanonicalChar(c, upper) == c;
      if forall k :: 0 <= k < |s| ==> ValidHeaderFieldByte(s[k]) {
        assert forall k :: 0 <= k < |s| - 1 ==> ValidHeaderFieldByte(s[1..][k]) by {
          forall k | 0 <= k < |s| - 1 ensures ValidHeaderFieldByte(s[1..][k]) {
            assert s[1..][k] == s[k + 1];
          }
        }
        forall k | 0 <= k < |s| ensures ValidHeaderFieldByte(r[k]) {
          if k > 0 {
            assert r[k] == r[1..][k - 1];
          }
        }
      }
    }
  }

  /** Canonicalising a name twice gives what canonicalising it once gave. */
  lemma CanonicalIdempotent(s: string)
    ensures CanonicalMIMEHeaderKey(CanonicalMIMEHeaderKey(s)) == CanonicalMIMEHeaderKey(s)
  {
    CanonicalFromIdempotent(s, true);
  }

  /** So looking a header up under an already canonical name finds what looking it up
      under the name as written finds. */
  lemma GetCanonical(h: Header, key: string)
    ensures Get(h, CanonicalMIMEHeaderKey(key)) == Get(h, key)
  {
    CanonicalIdempotent(key);
  }
}
