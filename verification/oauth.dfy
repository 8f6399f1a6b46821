/**
 * The OAuth 1.0 request signing the BrickLink price fetcher does by hand
 * (RFC 5849): parameter encoding, the signature base string, the signing
 * key and the `Authorization` header. HMAC-SHA1 itself, the clock and the
 * nonce generator are parameters.
 */
module OAuth {
  import opened Wrappers
  import opened Strings
  import opened Sorting
  import opened OrderedMap

  // ---------------------------------------------------------------------
  // Percent-encoding
  // ---------------------------------------------------------------------

  /** The characters section 2.3 of RFC 3986 leaves as they are: letters, digits and `-._~`. */
  predicate IsUnreserved(c: char)
  {
    IsUpper(c) || IsLower(c) || IsDigit(c) || c == '-' || c == '.' || c == '_' || c == '~'
  }

  /** The marks `encodeURIComponent` leaves as they are on top of the unreserved characters. */
  predicate IsMark(c: char)
  {
    c == '!' || c == '*' || c == '\'' || c == '(' || c == ')'
  }

  /** The UTF-8 bytes of a character. */
  function Utf8(c: char): (r: seq<nat>)
    ensures 1 <= |r| <= 4
    ensures forall i :: 0 <= i < |r| ==> r[i] < 256
    ensures c as int < 0x80 ==> r == [c as int]
  {
    var cp := c as int;
    if cp < 0x80 then [cp]
    else if cp < 0x800 then [0xC0 + cp / 64, 0x80 + cp % 64]
    else if cp < 0x10000 then [0xE0 + cp / 4096, 0x80 + cp / 64 % 64, 0x80 + cp % 64]
    else [0xF0 + cp / 262144, 0x80 + cp / 4096 % 64, 0x80 + cp / 64 % 64, 0x80 + cp % 64]
  }

  /** An upper-case hexadecimal digit. */
  function HexDigit(d: nat): (c: char)
    requires d < 16
    ensures IsUnreserved(c) && !IsMark(c) && c != '%'
  {
    if d < 10 then ('0' as int + d) as char else ('A' as int + d - 10) as char
  }

  /** `%XX` for one byte. */
  function Escape(b: nat): (r: string)
    requires b < 256
    ensures |r| == 3 && r[0] == '%' && IsUnreserved(r[1]) && IsUnreserved(r[2])
  {
    ['%', HexDigit(b / 16), HexDigit(b % 16)]
  }

  /** Only `%` and unreserved characters: what percent-encoding produces. */
  predicate IsEncoded(s: string)
  {
    forall i :: 0 <= i < |s| ==> s[i] == '%' || IsUnreserved(s[i])
  }

  function EscapeAll(bytes: seq<nat>): (r: string)
    requires forall i :: 0 <= i < |bytes| ==> bytes[i] < 256
    ensures IsEncoded(r)
  {
    if bytes == [] then []
    else
      var rest := EscapeAll(bytes[1..]);
      assert IsEncoded(Escape(bytes[0]) + rest) by {
        forall i | 0 <= i < 3 + |rest| ensures (Escape(bytes[0]) + rest)[i] == '%' || IsUnreserved((Escape(bytes[0]) + rest)[i]) {
          if i >= 3 {
            assert (Escape(bytes[0]) + rest)[i] == rest[i - 3];
          }
        }
      }
      Escape(bytes[0]) + rest
  }

  /** `encodeURIComponent` of one character. */
  function EncodeComponentChar(c: char): string
  {
    if IsUnreserved(c) || IsMark(c) then [c] else EscapeAll(Utf8(c))
  }

  /** `encodeURIComponent(s)`. */
  function EncodeURIComponent(s: string): string
  {
    if s == [] then [] else EncodeComponentChar(s[0]) + EncodeURIComponent(s[1..])
  }

  /** `s.replace(/c/g, rep)`. */
  function ReplaceChar(s: string, c: char, rep: string): (r: string)
    ensures c !in s ==> r == s
  {
    if s == [] then [] else (if s[0] == c then rep else [s[0]]) + ReplaceChar(s[1..], c, rep)
  }

  /** The five `.replace` calls that escape what `encodeURIComponent` leaves of the marks. */
  function EscapeMarks(e: string): string
  {
    ReplaceChar(ReplaceChar(ReplaceChar(ReplaceChar(ReplaceChar(e, '!', "%21"), '*', "%2A"), '\'', "%27"), '(', "%28"), ')', "%29")
  }

  /** `percentEncode`: `encodeURIComponent` followed by escaping `!*'()`. */
  function PercentEncode(s: string): string
  {
    EscapeMarks(EncodeURIComponent(s))
  }

  /** The parameter encoding of section 3.6 of RFC 5849, one character at a time. */
  function RfcEncodeChar(c: char): (r: string)
    ensures IsEncoded(r)
  {
    if IsUnreserved(c) then [c] else EscapeAll(Utf8(c))
  }

  /** Every character of the result is `%` or unreserved, and an unreserved string is its own encoding. */
  function RfcEncode(s: string): (r: string)
    ensures |r| >= |s|
    ensures IsEncoded(r)
    ensures (forall i :: 0 <= i < |s| ==> IsUnreserved(s[i])) ==> r == s
  {
    if s == [] then []
    else
      var head, rest := RfcEncodeChar(s[0]), RfcEncode(s[1..]);
      assert forall i :: 1 <= i < |s| ==> s[1..][i - 1] == s[i];
      assert IsEncoded(head + rest) by {
        forall i | 0 <= i < |head + rest| ensures (head + rest)[i] == '%' || IsUnreserved((head + rest)[i]) {
          if i >= |head| {
            assert (head + rest)[i] == rest[i - |head|];
          }
        }
      }
      head + rest
  }

  lemma ReplaceCharAppend(a: string, b: string, c: char, rep: string)
    ensures ReplaceChar(a + b, c, rep) == ReplaceChar(a, c, rep) + ReplaceChar(b, c, rep)
  {
    if a == [] {
      assert a + b == b;
    } else {
      assert (a + b)[0] == a[0] && (a + b)[1..] == a[1..] + b;
      ReplaceCharAppend(a[1..], b, c, rep);
    }
  }

  lemma EscapeMarksAppend(a: string, b: string)
    ensures EscapeMarks(a + b) == EscapeMarks(a) + EscapeMarks(b)
  {
    ReplaceCharAppend(a, b, '!', "%21");
    var a1, b1 := ReplaceChar(a, '!', "%21"), ReplaceChar(b, '!', "%21");
    ReplaceCharAppend(a1, b1, '*', "%2A");
    var a2, b2 := ReplaceChar(a1, '*', "%2A"), ReplaceChar(b1, '*', "%2A");
    ReplaceCharAppend(a2, b2, '\'', "%27");
    var a3, b3 := ReplaceChar(a2, '\'', "%27"), ReplaceChar(b2, '\'', "%27");
    ReplaceCharAppend(a3, b3, '(', "%28");
    var a4, b4 := ReplaceChar(a3, '(', "%28"), ReplaceChar(b3, '(', "%28");
    ReplaceCharAppend(a4, b4, ')', "%29");
  }

  /** An encoded string holds no mark, so the five replacements leave it alone. */
  lemma EscapeMarksEncoded(e: string)
    requires IsEncoded(e)
    ensures EscapeMarks(e) == e
  {
    assert '!' !in e && '*' !in e && '\'' !in e && '(' !in e && ')' !in e;
  }

  lemma EscapeMarksChar(c: char)
    ensures EscapeMarks(EncodeComponentChar(c)) == RfcEncodeChar(c)
  {
    if IsMark(c) {
      var e := Escape(c as int);
      assert RfcEncodeChar(c) == e by {
        assert Utf8(c) == [c as int];
        assert EscapeAll([c as int]) == e + EscapeAll([]);
      }
      EscapeMark(c);
    } else {
      EscapeMarksEncoded(RfcEncodeChar(c));
    }
  }

  /** A mark left by `encodeURIComponent` is turned into its escape by its own replacement. */
  lemma EscapeMark(c: char)
    requires IsMark(c)
    ensures EscapeMarks([c]) == Escape(c as int)
  {
    if c == '!' {
      EscapeBang();
    } else if c == '*' {
      EscapeStar();
    } else if c == '\'' {
      EscapeQuote();
    } else if c == '(' {
      EscapeOpen();
    } else {
      EscapeClose();
    }
  }

  lemma EscapeBang()
    ensures EscapeMarks("!") == Escape('!' as int)
  {
    var e := Escape('!' as int);
    assert e == "%21";
    var x0: string := ['!'];
    var x1 := ReplaceChar(x0, '!', "%21");
    ReplaceSingle('!', "%21");
    assert x1 == e;
    var x2 := ReplaceChar(x1, '*', "%2A");
    assert x2 == x1;
    var x3 := ReplaceChar(x2, '\'', "%27");
    assert x3 == x2;
    var x4 := ReplaceChar(x3, '(', "%28");
    assert x4 == x3;
    var x5 := ReplaceChar(x4, ')', "%29");
    assert x5 == x4;
  }

  lemma EscapeStar()
    ensures EscapeMarks("*") == Escape('*' as int)
  {
    var e := Escape('*' as int);
    assert e == "%2A";
    var x0: string := ['*'];
    var x1 := ReplaceChar(x0, '!', "%21");
    assert x1 == x0;
    var x2 := ReplaceChar(x1, '*', "%2A");
    ReplaceSingle('*', "%2A");
    assert x2 == e;
    var x3 := ReplaceChar(x2, '\'', "%27");
    assert x3 == x2;
    var x4 := ReplaceChar(x3, '(', "%28");
    assert x4 == x3;
    var x5 := ReplaceChar(x4, ')', "%29");
    assert x5 == x4;
  }

  lemma EscapeQuote()
    ensures EscapeMarks("'") == Escape('\'' as int)
  {
    var e := Escape('\'' as int);
    assert e == "%27";
    var x0: string := ['\''];
    var x1 := ReplaceChar(x0, '!', "%21");
    assert x1 == x0;
    var x2 := ReplaceChar(x1, '*', "%2A");
    assert x2 == x1;
    var x3 := ReplaceChar(x2, '\'', "%27");
    ReplaceSingle('\'', "%27");
    assert x3 == e;
    var x4 := ReplaceChar(x3, '(', "%28");
    assert x4 == x3;
    var x5 := ReplaceChar(x4, ')', "%29");
    assert x5 == x4;
  }

  lemma EscapeOpen()
    ensures EscapeMarks("(") == Escape('(' as int)
  {
    var e := Escape('(' as int);
    assert e == "%28";
    var x0: string := ['('];
    var x1 := ReplaceChar(x0, '!', "%21");
    assert x1 == x0;
    var x2 := ReplaceChar(x1, '*', "%2A");
    assert x2 == x1;
    var x3 := ReplaceChar(x2, '\'', "%27");
    assert x3 == x2;
    var x4 := ReplaceChar(x3, '(', "%28");
    ReplaceSingle('(', "%28");
    assert x4 == e;
    var x5 := ReplaceChar(x4, ')', "%29");
    assert x5 == x4;
  }

  lemma EscapeClose()
    ensures EscapeMarks(")") == Escape(')' as int)
  {
    var e := Escape(')' as int);
    assert e == "%29";
    var x0: string := [')'];
    var x1 := ReplaceChar(x0, '!', "%21");
    assert x1 == x0;
    var x2 := ReplaceChar(x1, '*', "%2A");
    assert x2 == x1;
    var x3 := ReplaceChar(x2, '\'', "%27");
    assert x3 == x2;
    var x4 := ReplaceChar(x3, '(', "%28");
    assert x4 == x3;
    var x5 := ReplaceChar(x4, ')', "%29");
    ReplaceSingle(')', "%29");
    assert x5 == e;
  }

  lemma ReplaceSingle(c: char, rep: string)
    ensures ReplaceChar([c], c, rep) == rep
  {
    assert ReplaceChar([c], c, rep) == rep + ReplaceChar([], c, rep);
  }

  /** `percentEncode` is exactly the parameter encoding of section 3.6 of RFC 5849. */
  lemma {:induction false} PercentEncodeIsRfc(s: string)
    ensures PercentEncode(s) == RfcEncode(s)
  {
    if s != [] {
      PercentEncodeIsRfc(s[1..]);
      EscapeMarksAppend(EncodeComponentChar(s[0]), EncodeURIComponent(s[1..]));
      EscapeMarksChar(s[0]);
    }
  }

  /** The value of a hexadecimal digit of either case. */
  function HexValue(c: char): (r: Option<nat>)
    ensures r.Some? ==> r.value < 16
  {
    if IsDigit(c) then Some(c as int - '0' as int)
    else if 'A' <= c <= 'F' then Some(c as int - 'A' as int + 10)
    else if 'a' <= c <= 'f' then Some(c as int - 'a' as int + 10)
    else None
  }

  /** Decoding of single-byte escapes: each `%XX` becomes the character with code XX. */
  function PercentDecode(s: string): string
  {
    if s == [] then []
    else if |s| >= 3 && s[0] == '%' && HexValue(s[1]).Some? && HexValue(s[2]).Some? then
      [(16 * HexValue(s[1]).value + HexValue(s[2]).value) as char] + PercentDecode(s[3..])
    else [s[0]] + PercentDecode(s[1..])
  }

  lemma DecodeEscape(b: nat, rest: string)
    requires b < 128
    ensures PercentDecode(Escape(b) + rest) == [b as char] + PercentDecode(rest)
  {
    var e := Escape(b) + rest;
    assert e[0] == '%' && e[1] == HexDigit(b / 16) && e[2] == HexDigit(b % 16) && e[3..] == rest;
    assert HexValue(HexDigit(b / 16)) == Some(b / 16);
    assert HexValue(HexDigit(b % 16)) == Some(b % 16);
  }

  /** Decoding undoes the encoding of one ASCII character. */
  lemma DecodeEncodeChar(c: char, rest: string)
    requires c as int < 0x80
    ensures PercentDecode(RfcEncodeChar(c) + rest) == [c] + PercentDecode(rest)
  {
    if IsUnreserved(c) {
      assert ([c] + rest)[0] == c && ([c] + rest)[1..] == rest;
    } else {
      assert EscapeAll(Utf8(c)) == Escape(c as int) + EscapeAll([]);
      DecodeEscape(c as int, rest);
    }
  }

  /** Decoding gives back any ASCII string its encoding came from. */
  lemma {:induction false} DecodeEncode(s: string)
    requires forall i :: 0 <= i < |s| ==> s[i] as int < 0x80
    ensures PercentDecode(RfcEncode(s)) == s
  {
    if s != [] {
      assert forall i :: 1 <= i < |s| ==> s[1..][i - 1] == s[i];
      DecodeEncode(s[1..]);
      DecodeEncodeChar(s[0], RfcEncode(s[1..]));
    }
  }

  // ---------------------------------------------------------------------
  // Signing
  // ---------------------------------------------------------------------

  /** The OAuth credentials of a BrickLink API consumer. */
  datatype Credentials = Credentials(consumerKey: string, consumerSecret: string, token: string, tokenSecret: string)

  /** `oauthParams`: the protocol parameters, in the order the fetcher lists them. */
  function ProtocolParams(consumerKey: string, nonce: string, timestamp: string, token: string): (r: OMap<string, string>)
    ensures r.Valid()
    ensures r.keys == ["oauth_consumer_key", "oauth_nonce", "oauth_signature_method", "oauth_timestamp", "oauth_token", "oauth_version"]
    ensures r.Get("oauth_consumer_key") == Some(consumerKey) && r.Get("oauth_nonce") == Some(nonce)
    ensures r.Get("oauth_signature_method") == Some("HMAC-SHA1") && r.Get("oauth_timestamp") == Some(timestamp)
    ensures r.Get("oauth_token") == Some(token) && r.Get("oauth_version") == Some("1.0")
  {
    OMap(["oauth_consumer_key", "oauth_nonce", "oauth_signature_method", "oauth_timestamp", "oauth_token", "oauth_version"],
         map["oauth_consumer_key" := consumerKey, "oauth_nonce" := nonce, "oauth_signature_method" := "HMAC-SHA1",
             "oauth_timestamp" := timestamp, "oauth_token" := token, "oauth_version" := "1.0"])
  }

  /** `{...a, ...b}` with `b`'s entries given as its keys and values: `b` wins on a shared key. */
  function PutAll(a: OMap<string, string>, keys: seq<string>, values: map<string, string>): (r: OMap<string, string>)
    requires a.Valid() && forall k :: k in keys ==> k in values
    ensures r.Valid()
    ensures forall k :: r.Get(k) == if k in keys then Some(values[k]) else a.Get(k)
    decreases |keys|
  {
    if keys == [] then a
    else PutAll(a.Put(keys[0], values[keys[0]]), keys[1..], values)
  }

  /** `Object.keys(params).sort()`: the keys once each, in code-unit order. */
  function SortedKeys(m: OMap<string, string>): (r: seq<string>)
    requires m.Valid()
    ensures multiset(r) == multiset(m.keys)
    ensures forall k :: k in r <==> k in m.keys
    ensures Sorted(r, Compare)
    ensures forall i, j :: 0 <= i < j < |r| ==> r[i] != r[j]
  {
    var r := Sort(m.keys, Compare);
    assert forall k :: k in r <==> k in multiset(r);
    CompareConsistent();
    SortSorted(m.keys, Compare);
    SortDistinct(m.keys, Compare, (k: string) => k);
    r
  }

  /** The `k=v` pairs of the signature's parameter string, names and values encoded. */
  function ParamPairs(m: OMap<string, string>): (r: seq<string>)
    requires m.Valid()
    ensures |r| == |m.keys|
  {
    Pairs(SortedKeys(m), m.values)
  }

  /** `k=v` for each of `ks` in order, name and value encoded. */
  function Pairs(ks: seq<string>, values: map<string, string>): (r: seq<string>)
    requires forall k :: k in ks ==> k in values
    ensures |r| == |ks|
    ensures forall i :: 0 <= i < |ks| ==> r[i] == PercentEncode(ks[i]) + "=" + PercentEncode(values[ks[i]])
  {
    seq(|ks|, i requires 0 <= i < |ks| => PercentEncode(ks[i]) + "=" + PercentEncode(values[ks[i]]))
  }

  function ParamString(m: OMap<string, string>): string
    requires m.Valid()
  {
    Join(ParamPairs(m), "&")
  }

  /** The signature base string: method, encoded URL and encoded parameter string, joined by `&`. */
  function BaseString(httpMethod: string, url: string, params: OMap<string, string>): string
    requires params.Valid()
  {
    ToUpper(httpMethod) + "&" + PercentEncode(url) + "&" + PercentEncode(ParamString(params))
  }

  /** The HMAC-SHA1 key: the two encoded secrets joined by `&`. */
  function SigningKey(consumerSecret: string, tokenSecret: string): string
  {
    PercentEncode(consumerSecret) + "&" + PercentEncode(tokenSecret)
  }

  /** The `Authorization` header for a set of protocol parameters. */
  function Header(m: OMap<string, string>): string
    requires m.Valid()
  {
    var ks := SortedKeys(m);
    "OAuth " + Join(seq(|ks|, i requires 0 <= i < |ks| => PercentEncode(ks[i]) + "=\"" + PercentEncode(m.values[ks[i]]) + "\""), ", ")
  }

  /** The signed protocol parameters of a request. */
  function SignedParams(httpMethod: string, url: string, query: OMap<string, string>, creds: Credentials,
                        now: nat, nonce: string, hmacSha1: (string, string) -> string): (r: OMap<string, string>)
    requires query.Valid()
    ensures r.Valid()
  {
    var timestamp := NatToString(now / 1000);
    var protocol := ProtocolParams(creds.consumerKey, nonce, timestamp, creds.token);
    var all := PutAll(protocol, query.keys, query.values);
    protocol.Put("oauth_signature", hmacSha1(SigningKey(creds.consumerSecret, creds.tokenSecret), BaseString(httpMethod, url, all)))
  }

  /**
   * `buildOAuthHeader`, with the clock reading `now` (milliseconds), the
   * nonce and HMAC-SHA1 (key, text) as parameters.
   */
  function BuildOAuthHeader(httpMethod: string, url: string, query: OMap<string, string>, creds: Credentials,
                            now: nat, nonce: string, hmacSha1: (string, string) -> string): string
    requires query.Valid()
  {
    Header(SignedParams(httpMethod, url, query, creds, now, nonce, hmacSha1))
  }

  // ---------------------------------------------------------------------
  // What the signature covers
  // ---------------------------------------------------------------------

  lemma EncodedHasNoAmpersand(s: string)
    ensures '&' !in PercentEncode(s)
  {
    PercentEncodeIsRfc(s);
  }

  lemma JoinThree(a: string, b: string, c: string)
    ensures Join([a, b, c], "&") == a + "&" + b + "&" + c
  {
    assert [a, b, c][1..] == [b, c] && [b, c][1..] == [c];
    assert Join([c], "&") == c;
    assert Join([b, c], "&") == b + "&" + c;
  }

  /**
   * The base string splits at `&` into exactly its three parts, so the
   * server can rebuild them: no encoded part contains `&`.
   */
  lemma BaseStringParts(httpMethod: string, url: string, params: OMap<string, string>)
    requires params.Valid() && '&' !in httpMethod
    ensures Split(BaseString(httpMethod, url, params), '&') == [ToUpper(httpMethod), PercentEncode(url), PercentEncode(ParamString(params))]
  {
    var parts := [ToUpper(httpMethod), PercentEncode(url), PercentEncode(ParamString(params))];
    assert '&' !in parts[0] by {
      forall i | 0 <= i < |httpMethod| ensures ToUpper(httpMethod)[i] != '&' {
        assert httpMethod[i] != '&';
      }
    }
    EncodedHasNoAmpersand(url);
    EncodedHasNoAmpersand(ParamString(params));
    JoinThree(parts[0], parts[1], parts[2]);
    SplitJoin(parts, '&');
  }

  /** The signing key splits at `&` into the two encoded secrets. */
  lemma SigningKeyParts(consumerSecret: string, tokenSecret: string)
    ensures Split(SigningKey(consumerSecret, tokenSecret), '&') == [PercentEncode(consumerSecret), PercentEncode(tokenSecret)]
  {
    var parts := [PercentEncode(consumerSecret), PercentEncode(tokenSecret)];
    EncodedHasNoAmpersand(consumerSecret);
    EncodedHasNoAmpersand(tokenSecret);
    assert parts[1..] == [parts[1]];
    SplitJoin(parts, '&');
  }

  /** In a sequence without repeats, each element occurs once. */
  lemma {:induction false} DistinctCount(s: seq<string>, k: string)
    requires forall i, j :: 0 <= i < j < |s| ==> s[i] != s[j]
    ensures multiset(s)[k] == if k in s then 1 else 0
  {
    if s != [] {
      assert s == [s[0]] + s[1..];
      assert forall i, j :: 0 <= i < j < |s[1..]| ==> s[1..][i] == s[i + 1] && s[1..][j] == s[j + 1];
      DistinctCount(s[1..], k);
      assert s[0] !in s[1..];
    }
  }

  /** The order the parameters were added in does not change the sorted key list. */
  lemma SortedKeysOrderFree(a: OMap<string, string>, b: OMap<string, string>)
    requires a.Valid() && b.Valid() && forall k :: k in a.keys <==> k in b.keys
    ensures SortedKeys(a) == SortedKeys(b)
  {
    forall k ensures multiset(a.keys)[k] == multiset(b.keys)[k] {
      DistinctCount(a.keys, k);
      DistinctCount(b.keys, k);
    }
    assert multiset(a.keys) == multiset(b.keys);
    CompareConsistent();
    SortedUnique(SortedKeys(a), SortedKeys(b), Compare);
  }

  /** Two maps that answer every lookup alike are the same map. */
  lemma SameValues(a: OMap<string, string>, b: OMap<string, string>)
    requires forall k :: a.Get(k) == b.Get(k)
    ensures a.values == b.values
  {
    forall k | k in a.values ensures k in b.values && a.values[k] == b.values[k] {
      assert a.Get(k) == b.Get(k);
    }
    forall k | k in b.values ensures k in a.values {
      assert a.Get(k) == b.Get(k);
    }
  }

  /** Nor does it change the parameter string. */
  lemma ParamStringOrderFree(a: OMap<string, string>, b: OMap<string, string>)
    requires a.Valid() && b.Valid() && forall k :: a.Get(k) == b.Get(k)
    ensures ParamString(a) == ParamString(b)
  {
    SameValues(a, b);
    SortedKeysOrderFree(a, b);
  }

  /**
   * The signature, and so the header, depends on the query parameters and
   * their values only, not on the order they were written in.
   */
  lemma HeaderIgnoresQueryOrder(httpMethod: string, url: string, q1: OMap<string, string>, q2: OMap<string, string>,
                                creds: Credentials, now: nat, nonce: string, hmacSha1: (string, string) -> string)
    requires q1.Valid() && q2.Valid() && q1.values == q2.values
    ensures BuildOAuthHeader(httpMethod, url, q1, creds, now, nonce, hmacSha1)
         == BuildOAuthHeader(httpMethod, url, q2, creds, now, nonce, hmacSha1)
  {
    var protocol := ProtocolParams(creds.consumerKey, nonce, NatToString(now / 1000), creds.token);
    var all1 := PutAll(protocol, q1.keys, q1.values);
    var all2 := PutAll(protocol, q2.keys, q2.values);
    forall k ensures all1.Get(k) == all2.Get(k) {
      assert k in q1.keys <==> k in q2.keys;
    }
    ParamStringOrderFree(all1, all2);
    assert BaseString(httpMethod, url, all1) == BaseString(httpMethod, url, all2);
  }
}
