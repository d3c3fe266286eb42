/** The admin credential of server.js: a stateless token in the compact JWT
    shape `header.body.signature` (RFC 7519, HS256 of section 3.2 of RFC 7518,
    compact serialization of section 7.1 of RFC 7515), and the gate that
    accepts either such a token or the raw admin secret.

    HMAC-SHA256, base64url and JSON are not modelled: `Crypto` carries them as
    deterministic functions, and `WellFormed` states the few facts about them
    the token logic relies on. */
module AdminAuth {
  import opened Common

  /** The JSON values a claim can hold; numbers here are integers. */
  datatype Json = JNum(n: int) | JStr(s: string) | JBool(b: bool) | JNull

  type Claims = map<string, Json>

  datatype Crypto = Crypto(
    /** base64url(HMAC-SHA256(key, data)) */
    mac: (string, string) -> string,
    /** base64url(JSON.stringify({ alg: 'HS256', typ: 'JWT' })) */
    header: string,
    /** base64url(JSON.stringify(claims)) */
    encodeClaims: Claims -> string,
    /** JSON.parse(base64url-decode(segment)); None when it throws or when the
        value is not an object */
    decodeClaims: string -> Option<Claims>)

  /** base64url output is never empty for these inputs and never contains
      '.', and decoding undoes encoding. */
  ghost predicate WellFormed(c: Crypto) {
    && c.header != [] && '.' !in c.header
    && (forall k, d :: c.mac(k, d) != [] && '.' !in c.mac(k, d))
    && (forall m :: c.encodeClaims(m) != [] && '.' !in c.encodeClaims(m))
    && (forall m :: c.decodeClaims(c.encodeClaims(m)) == Some(m))
  }

  // ---------------------------------------------------------------------
  // String.prototype.split with a one-character separator

  function Split(s: string, sep: char): (r: seq<string>)
    ensures |r| >= 1
    ensures forall i :: 0 <= i < |r| ==> sep !in r[i]
  {
    if s == [] then [[]]
    else
      var rest := Split(s[1..], sep);
      if s[0] == sep then [[]] + rest
      else [[s[0]] + rest[0]] + rest[1..]
  }

  /** `segments.join(sep)`. */
  function Join(segs: seq<string>, sep: char): string
    requires |segs| >= 1
  {
    if |segs| == 1 then segs[0] else segs[0] + [sep] + Join(segs[1..], sep)
  }

  /** Splitting then joining gives back the input. */
  lemma {:induction false} JoinSplit(s: string, sep: char)
    ensures Join(Split(s, sep), sep) == s
  {
    if s != [] {
      JoinSplit(s[1..], sep);
      var rest := Split(s[1..], sep);
      if s[0] == sep {
        assert Split(s, sep)[1..] == rest;
      } else {
        var r := Split(s, sep);
        if |rest| == 1 {
          assert r == [[s[0]] + rest[0]];
        } else {
          assert r[1..] == rest[1..];
          assert Join(rest, sep) == rest[0] + [sep] + Join(rest[1..], sep);
        }
      }
    }
  }

  /** A separator between two strings splits them apart cleanly. */
  lemma {:induction false} SplitConcat(a: string, b: string, sep: char)
    ensures Split(a + [sep] + b, sep) == Split(a, sep) + Split(b, sep)
  {
    var s := a + [sep] + b;
    if a == [] {
      assert s[1..] == b;
    } else {
      assert s[1..] == a[1..] + [sep] + b;
      SplitConcat(a[1..], b, sep);
    }
  }

  lemma {:induction false} SplitNoSeparator(a: string, sep: char)
    requires sep !in a
    ensures Split(a, sep) == [a]
  {
    if a != [] {
      SplitNoSeparator(a[1..], sep);
      assert [a[0]] + a[1..] == a;
    }
  }

  lemma SplitThree(h: string, b: string, g: string)
    requires '.' !in h && '.' !in b && '.' !in g
    ensures Split(h + "." + b + "." + g, '.') == [h, b, g]
  {
    SplitNoSeparator(h, '.');
    SplitNoSeparator(b, '.');
    SplitNoSeparator(g, '.');
    SplitConcat(h, b, '.');
    assert h + "." + b == h + ['.'] + b;
    SplitConcat(h + "." + b, g, '.');
    assert h + "." + b + "." + g == (h + "." + b) + ['.'] + g;
  }

  // ---------------------------------------------------------------------
  // signAdminToken / verifyAdminToken

  /** `Math.floor(Date.now() / 1000)`. */
  function Seconds(nowMs: int): int {
    nowMs / 1000
  }

  /** `body.exp` when it is a number. */
  function Exp(body: Claims): Option<int> {
    if "exp" in body && body["exp"].JNum? then Some(body["exp"].n) else None
  }

  /** `{ ...payload, exp }`: the payload with `exp` set, overriding any `exp` it had. */
  function ClaimsWithExp(payload: Claims, nowMs: int, ttl: int): (r: Claims)
    ensures Exp(r) == Some(Seconds(nowMs) + ttl)
    ensures forall k :: k in payload && k != "exp" ==> k in r && r[k] == payload[k]
  {
    payload["exp" := JNum(Seconds(nowMs) + ttl)]
  }

  /** `${header}.${body}`, the part the signature covers. */
  function SigningInput(c: Crypto, payload: Claims, nowMs: int, ttl: int): string {
    c.header + "." + c.encodeClaims(ClaimsWithExp(payload, nowMs, ttl))
  }

  /** `signAdminToken(payload, ttl)`: three segments, header, claims with
      `exp`, and the MAC of the first two. */
  function Sign(c: Crypto, payload: Claims, secret: string, nowMs: int, ttl: int): (r: string)
    ensures var b := c.encodeClaims(ClaimsWithExp(payload, nowMs, ttl));
      var g := c.mac(secret, c.header + "." + b);
      '.' !in c.header && '.' !in b && '.' !in g ==> Split(r, '.') == [c.header, b, g]
  {
    var data := SigningInput(c, payload, nowMs, ttl);
    var r := data + "." + c.mac(secret, data);
    var b := c.encodeClaims(ClaimsWithExp(payload, nowMs, ttl));
    var g := c.mac(secret, data);
    assert '.' !in c.header && '.' !in b && '.' !in g ==> Split(r, '.') == [c.header, b, g] by {
      if '.' !in c.header && '.' !in b && '.' !in g {
        SplitThree(c.header, b, g);
      }
    }
    r
  }

  /** Index into the result of `split`; a missing segment is `undefined`,
      which is falsy like the empty string. */
  function Segment(segs: seq<string>, i: nat): string {
    if i < |segs| then segs[i] else []
  }

  function Verify(c: Crypto, token: string, secret: string, nowMs: int): (r: Option<Claims>)
    ensures r.Some? ==>
      var segs := Split(token, '.');
      && |segs| >= 3 && segs[0] != [] && segs[1] != []
      && segs[2] == c.mac(secret, segs[0] + "." + segs[1])
      && c.decodeClaims(segs[1]) == r
      && Exp(r.value).Some? && Exp(r.value).value >= Seconds(nowMs)
  {
    var segs := Split(token, '.');
    var h, b, sig := Segment(segs, 0), Segment(segs, 1), Segment(segs, 2);
    if h == [] || b == [] || sig == [] then None
    else if c.mac(secret, h + "." + b) != sig then None
    else
      match c.decodeClaims(b)
      case None => None
      case Some(body) =>
        if Exp(body).None? || Exp(body).value < Seconds(nowMs) then None else Some(body)
  }

  /** Round trip: a signed token verifies under the same secret, with the
      payload plus `exp`, exactly until `exp` (the second `exp` itself is
      still accepted). */
  lemma SignThenVerify(c: Crypto, payload: Claims, secret: string, nowMs: int, ttl: int, laterMs: int)
    requires WellFormed(c)
    ensures Verify(c, Sign(c, payload, secret, nowMs, ttl), secret, laterMs) ==
      if Seconds(laterMs) <= Seconds(nowMs) + ttl then Some(ClaimsWithExp(payload, nowMs, ttl)) else None
  {
    var claims := ClaimsWithExp(payload, nowMs, ttl);
    var b := c.encodeClaims(claims);
    var g := c.mac(secret, SigningInput(c, payload, nowMs, ttl));
    SplitThree(c.header, b, g);
  }

  /** A token whose third segment is not the MAC of the first two under the
      current secret is refused, whatever its claims say. This covers a
      tampered body or signature and a token signed under another secret. */
  lemma ForgedTokenRejected(c: Crypto, h: string, b: string, g: string, secret: string, nowMs: int)
    requires '.' !in h && '.' !in b && '.' !in g
    requires g != c.mac(secret, h + "." + b)
    ensures Verify(c, h + "." + b + "." + g, secret, nowMs) == None
  {
    SplitThree(h, b, g);
  }

  /** Rotating the secret invalidates every token signed under the old one
      (as long as the two secrets' MACs of the token differ). */
  lemma OldTokenRejectedAfterRotation(c: Crypto, payload: Claims, oldSecret: string, newSecret: string,
                                      nowMs: int, ttl: int, laterMs: int)
    requires WellFormed(c)
    requires c.mac(newSecret, SigningInput(c, payload, nowMs, ttl)) != c.mac(oldSecret, SigningInput(c, payload, nowMs, ttl))
    ensures Verify(c, Sign(c, payload, oldSecret, nowMs, ttl), newSecret, laterMs) == None
  {
    var b := c.encodeClaims(ClaimsWithExp(payload, nowMs, ttl));
    ForgedTokenRejected(c, c.header, b, c.mac(oldSecret, SigningInput(c, payload, nowMs, ttl)), newSecret, laterMs);
  }

  /** Only the first three segments are read: anything after a third '.' is ignored. */
  lemma ExtraSegmentsIgnored(c: Crypto, token: string, extra: string, secret: string, nowMs: int)
    requires |Split(token, '.')| >= 3
    ensures Verify(c, token + "." + extra, secret, nowMs) == Verify(c, token, secret, nowMs)
  {
    SplitConcat(token, extra, '.');
    assert token + "." + extra == token + ['.'] + extra;
  }

  /** Fewer than three segments, or an empty one among the first three, is refused. */
  lemma MissingSegmentRejected(c: Crypto, token: string, secret: string, nowMs: int)
    requires |Split(token, '.')| < 3 || exists i :: 0 <= i < 3 && Split(token, '.')[i] == []
    ensures Verify(c, token, secret, nowMs) == None
  {
  }

  // ---------------------------------------------------------------------
  // requireAdminAuth and the login that mints tokens

  datatype Grant = ByToken(claims: Claims) | ByPassword

  datatype Decision = Granted(grant: Grant) | Denied

  const BearerPrefix: string := "Bearer "

  /** The decision of `requireAdminAuth` given the configured secret (None or
      empty when no admin is configured) and the Authorization header ("" when
      absent). */
  function Authorize(c: Crypto, secret: Option<string>, header: string, nowMs: int): (r: Decision)
    ensures r.Granted? ==> secret.Some? && secret.value != []
    ensures r == Granted(ByPassword) ==> !(BearerPrefix <= header) && header == secret.value
    ensures r.Granted? && r.grant.ByToken? ==>
      BearerPrefix <= header && Verify(c, header[|BearerPrefix|..], secret.value, nowMs) == Some(r.grant.claims)
  {
    if secret.None? || secret.value == [] then Denied
    else if BearerPrefix <= header then
      match Verify(c, header[|BearerPrefix|..], secret.value, nowMs)
      case Some(body) => Granted(ByToken(body))
      case None => Denied
    else if header == secret.value then Granted(ByPassword)
    else Denied
  }

  /** No configured secret: every request is denied. */
  lemma GateFailsClosed(c: Crypto, secret: Option<string>, header: string, nowMs: int)
    requires secret.None? || secret.value == []
    ensures Authorize(c, secret, header, nowMs) == Denied
  {
  }

  /** A "Bearer " header is granted iff the rest verifies under the current
      secret; the raw-password comparison is then never made. */
  lemma GateBearerPath(c: Crypto, secret: string, header: string, nowMs: int)
    requires secret != []
    requires BearerPrefix <= header
    ensures Authorize(c, Some(secret), header, nowMs).Granted? <==>
      Verify(c, header[|BearerPrefix|..], secret, nowMs).Some?
    ensures Authorize(c, Some(secret), header, nowMs) != Granted(ByPassword)
  {
  }

  /** Any other header is granted iff it equals the secret exactly. */
  lemma GateRawPath(c: Crypto, secret: string, header: string, nowMs: int)
    requires secret != []
    requires !(BearerPrefix <= header)
    ensures Authorize(c, Some(secret), header, nowMs).Granted? <==> header == secret
    ensures Authorize(c, Some(secret), header, nowMs).Granted? ==>
      Authorize(c, Some(secret), header, nowMs).grant == ByPassword
  {
  }

  /** A missing Authorization header is denied once a secret is configured. */
  lemma GateNoHeader(c: Crypto, secret: string, nowMs: int)
    requires secret != []
    ensures Authorize(c, Some(secret), "", nowMs) == Denied
  {
  }

  /** The raw-password path accepts the current secret only: after a
      rotation the old secret no longer opens the gate as a password. */
  lemma GateOldPasswordRejected(c: Crypto, oldSecret: string, newSecret: string, nowMs: int)
    requires oldSecret != newSecret
    ensures Authorize(c, Some(newSecret), oldSecret, nowMs) != Granted(ByPassword)
  {
  }

  /** The Authorization header the browser pages send with their history
      requests (public/app.js:32 and 605, public/all-history.js:51): none,
      which the gate reads as the empty string. */
  const PageHeader: string := ""

  /** As written, every history request from the pages is refused, whether
      or not an admin secret is configured. */
  lemma PageRequestDenied(c: Crypto, secret: Option<string>, nowMs: int)
    ensures Authorize(c, secret, PageHeader, nowMs) == Denied
  {
    if secret.Some? && secret.value != [] {
      GateNoHeader(c, secret.value, nowMs);
    }
  }

  /** The header a page holding the login token would send. */
  function BearerHeader(token: string): (r: string)
    ensures BearerPrefix <= r && r[|BearerPrefix|..] == token
  {
    BearerPrefix + token
  }

  const TokenLifetime: int := 60 * 60

  /** POST /api/admin/login (server.js:287-299): the right password gets a
      token carrying `iat` and valid for one hour. */
  function AdminLogin(c: Crypto, secret: Option<string>, password: string, nowMs: int): (r: Result<string>)
    ensures r.Ok? <==> secret.Some? && secret.value != [] && password == secret.value
    ensures r.Err? ==> r.error == Forbidden
    ensures r.Ok? && WellFormed(c) ==>
      Verify(c, r.value, secret.value, nowMs) == Some(ClaimsWithExp(map["iat" := JNum(nowMs)], nowMs, TokenLifetime))
  {
    if secret.None? || secret.value == [] || password != secret.value then Err(Forbidden)
    else
      var payload := map["iat" := JNum(nowMs)];
      assert WellFormed(c) ==>
        Verify(c, Sign(c, payload, secret.value, nowMs, TokenLifetime), secret.value, nowMs)
          == Some(ClaimsWithExp(payload, nowMs, TokenLifetime)) by {
        if WellFormed(c) {
          SignThenVerify(c, payload, secret.value, nowMs, TokenLifetime, nowMs);
        }
      }
      Ok(Sign(c, payload, secret.value, nowMs, TokenLifetime))
  }

  /** A token from login opens the gate as a bearer token for one hour, and is
      refused afterwards: a page that sent `BearerHeader(token)` with its
      history requests would get its listing for that hour. */
  lemma LoginThenAuthorize(c: Crypto, secret: string, nowMs: int, laterMs: int)
    requires WellFormed(c)
    requires secret != []
    ensures AdminLogin(c, Some(secret), secret, nowMs).Ok?
    ensures var token := AdminLogin(c, Some(secret), secret, nowMs).value;
      Authorize(c, Some(secret), BearerHeader(token), laterMs).Granted? <==>
        Seconds(laterMs) <= Seconds(nowMs) + TokenLifetime
  {
    var payload := map["iat" := JNum(nowMs)];
    var token := Sign(c, payload, secret, nowMs, TokenLifetime);
    SignThenVerify(c, payload, secret, nowMs, TokenLifetime, laterMs);
  }
}
