/**
 * The bearer-token authorization pipeline of backend/src/auth/auth.py:
 * extracting the token from the `Authorization` header, finding the signing
 * key by `kid`, mapping the outcome of `jwt.decode`, checking the required
 * permission, and the `requires_auth` guard that chains the three steps.
 *
 * The `jose` library (header parsing, signature and claim checks) is an
 * oracle passed in as a parameter, and the JSON Web Key Set is an input.
 */
module Auth {
  import opened Wrappers

  // ---------------------------------------------------------------------
  // Configuration and errors
  // ---------------------------------------------------------------------

  const Auth0Domain: string := "dev-os34dp82.us.auth0.com"
  const Algorithms: seq<string> := ["RS256"]
  const ApiAudience: string := "coffee"

  function Issuer(): string { "https://" + Auth0Domain + "/" }

  /** An `AuthError`: the error dictionary's code and description, and the HTTP status. */
  datatype AuthError = AuthError(code: string, description: string, status: int)

  const HeaderMissing := AuthError("authorization_header_missing", "Authorization header missing.", 401)
  const BearerMissing := AuthError("invalid_header", "Authorization header must contain 'Bearer'", 401)
  const TokenNotFound := AuthError("invalid_header", "Token not found.", 401)
  const BadHeaderFormat := AuthError("invalid_header", "Authorization header must have the format 'Bearer token'", 401)
  const PermissionsMissing := AuthError("invalid_claims", "Permissions not included in JWT.", 400)
  const PermissionNotFound := AuthError("unauthorized", "Permission not found.", 403)
  const KidMissing := AuthError("invalid_header", "Authorization malformed.", 401)
  const TokenExpired := AuthError("token_expired", "Token expired.", 401)
  const ClaimsInvalid := AuthError("invalid_claims", "Invalid claims. Please check the audience and issuer.", 401)
  const TokenUnparsable := AuthError("invalid_token", "Unable to parse token.", 400)
  const KeyNotFound := AuthError("invalid_header", "Unable to find the appropriate key.", 400)

  /**
   * What one step of the pipeline does: return a value, raise an `AuthError`,
   * or raise some other exception (`Crash`: an `IndexError`, a `KeyError` or
   * a `JWTError`), which no `except AuthError` clause catches.
   */
  datatype Outcome<+T> = Ok(value: T) | Raise(error: AuthError) | Crash

  // ---------------------------------------------------------------------
  // Header parsing: get_token_from_auth_header
  // ---------------------------------------------------------------------

  /** The characters Python's `str.isspace` accepts, on which `str.split()` splits. */
  predicate IsSpace(c: char)
  {
    || '\t' <= c <= '\r'
    || '\U{1c}' <= c <= ' '
    || c == '\U{85}' || c == '\U{a0}' || c == '\U{1680}'
    || '\U{2000}' <= c <= '\U{200a}'
    || c == '\U{2028}' || c == '\U{2029}' || c == '\U{202f}' || c == '\U{205f}' || c == '\U{3000}'
  }

  predicate NoSpace(w: string)
  {
    forall i :: 0 <= i < |w| ==> !IsSpace(w[i])
  }

  predicate AllSpace(s: string)
  {
    forall i :: 0 <= i < |s| ==> IsSpace(s[i])
  }

  /** Length of the longest prefix of `s` that holds no whitespace. */
  function WordLen(s: string): (n: nat)
    ensures n <= |s| && NoSpace(s[..n])
    ensures n < |s| ==> IsSpace(s[n])
    ensures s != [] && !IsSpace(s[0]) ==> n >= 1
  {
    if s == [] || IsSpace(s[0]) then 0
    else
      var m := WordLen(s[1..]);
      assert s[..1 + m] == [s[0]] + s[1..][..m];
      1 + m
  }

  /** Python's `str.split()` with no argument: the maximal runs of non-whitespace characters. */
  function Words(s: string): (ws: seq<string>)
    decreases |s|
    ensures forall i :: 0 <= i < |ws| ==> ws[i] != [] && NoSpace(ws[i])
    ensures ws == [] <==> AllSpace(s)
  {
    if s == [] then []
    else if IsSpace(s[0]) then
      var rest := Words(s[1..]);
      assert AllSpace(s) <==> AllSpace(s[1..]) by {
        if AllSpace(s[1..]) {
          forall i | 0 <= i < |s| ensures IsSpace(s[i]) {
            if i > 0 { assert s[i] == s[1..][i - 1]; }
          }
        }
      }
      rest
    else
      var n := WordLen(s);
      [s[..n]] + Words(s[n..])
  }

  /** ASCII lower-casing; no other character lower-cases to a letter of "bearer". */
  function LowerChar(c: char): char
  {
    if 'A' <= c <= 'Z' then (c as int + 32) as char else c
  }

  function Lower(s: string): (r: string)
    ensures |r| == |s|
    ensures forall i :: 0 <= i < |s| ==> r[i] == LowerChar(s[i])
  {
    if s == [] then [] else [LowerChar(s[0])] + Lower(s[1..])
  }

  predicate IsBearer(w: string)
  {
    Lower(w) == "bearer"
  }

  /**
   * get_token_from_auth_header, with the header read from the request given
   * as `header` (`None` when there is no `Authorization` header).
   */
  function GetTokenFromAuthHeader(header: Option<string>): (r: Outcome<string>)
    // an absent or empty header is reported as missing, and only such a header
    ensures r == Raise(HeaderMissing) <==> header.None? || header.value == ""
    // a header of whitespace only indexes an empty list of words
    ensures r == Crash <==> header.Some? && header.value != "" && AllSpace(header.value)
    ensures header.Some? && Words(header.value) != [] ==>
      var ws := Words(header.value);
      && (!IsBearer(ws[0]) <==> r == Raise(BearerMissing))
      && (IsBearer(ws[0]) && |ws| == 1 <==> r == Raise(TokenNotFound))
      && (IsBearer(ws[0]) && |ws| > 2 <==> r == Raise(BadHeaderFormat))
      && (IsBearer(ws[0]) && |ws| == 2 <==> r.Ok?)
      && (r.Ok? ==> |ws| == 2 && r.value == ws[1])
    // every error of this step is a 401, and a token is one non-empty word
    ensures r.Raise? ==> r.error.status == 401
    ensures r.Ok? ==> r.value != [] && NoSpace(r.value)
  {
    if header.None? || header.value == "" then Raise(HeaderMissing)
    else
      var parts := Words(header.value);
      if |parts| == 0 then Crash
      else if Lower(parts[0]) != "bearer" then Raise(BearerMissing)
      else if |parts| == 1 then Raise(TokenNotFound)
      else if |parts| > 2 then Raise(BadHeaderFormat)
      else Ok(parts[1])
  }

  lemma {:induction false} WordLenOfWord(w: string, rest: string)
    requires NoSpace(w)
    requires rest == [] || IsSpace(rest[0])
    ensures WordLen(w + rest) == |w|
    decreases |w|
  {
    if w == [] {
      assert w + rest == rest;
    } else {
      assert (w + rest)[1..] == w[1..] + rest;
      WordLenOfWord(w[1..], rest);
    }
  }

  /** A word followed by whitespace (or by nothing) is split off whole. */
  lemma {:induction false} WordsOfLeadingWord(w: string, rest: string)
    requires w != [] && NoSpace(w)
    requires rest == [] || IsSpace(rest[0])
    ensures Words(w + rest) == [w] + Words(rest)
  {
    WordLenOfWord(w, rest);
    assert (w + rest)[..|w|] == w;
    assert (w + rest)[|w|..] == rest;
  }

  /** Leading whitespace of `a` is skipped in `a + x` as in `a`. */
  lemma WordsAppendSpaceStep(a: string, x: string)
    requires a != [] && IsSpace(a[0])
    requires Words(a[1..] + x) == Words(a[1..]) + Words(x)
    ensures Words(a + x) == Words(a) + Words(x)
  {
    assert (a + x)[1..] == a[1..] + x;
    assert Words(a + x) == Words((a + x)[1..]);
  }

  /** A leading word `w`, split off at the whitespace that starts `r`, is split off `w + r + x` the same way. */
  lemma WordsAppendWordStep(w: string, r: string, x: string)
    requires w != [] && NoSpace(w) && r != [] && IsSpace(r[0])
    requires Words(r + x) == Words(r) + Words(x)
    ensures Words(w + r + x) == Words(w + r) + Words(x)
  {
    assert w + r + x == w + (r + x);
    WordsOfLeadingWord(w, r + x);
    WordsOfLeadingWord(w, r);
  }

  /** Words are split the same way before a point where whitespace (or the end) follows. */
  lemma {:induction false} WordsAppend(a: string, x: string)
    requires x == [] || IsSpace(x[0])
    ensures Words(a + x) == Words(a) + Words(x)
    decreases |a|
  {
    if a == [] {
      assert a + x == x;
    } else if IsSpace(a[0]) {
      WordsAppend(a[1..], x);
      WordsAppendSpaceStep(a, x);
    } else if WordLen(a) < |a| {
      var w, r := a[..WordLen(a)], a[WordLen(a)..];
      assert a == w + r;
      WordsAppend(r, x);
      WordsAppendWordStep(w, r, x);
    } else {
      assert a[..WordLen(a)] == a;
      WordsOfLeadingWord(a, x);
      WordsOfLeadingWord(a, []);
      assert a + [] == a;
    }
  }

  /**
   * Splitting is compositional at whitespace: the words of `a`, a whitespace
   * character, then `b` are the words of `a` followed by the words of `b`.
   * With WordsOfLeadingWord(w, []) this fixes the words as the maximal
   * non-whitespace runs, in order.
   */
  lemma WordsSplitAtSpace(a: string, c: char, b: string)
    requires IsSpace(c)
    ensures Words(a + [c] + b) == Words(a) + Words(b)
  {
    assert a + [c] + b == a + ([c] + b);
    WordsAppend(a, [c] + b);
    assert ([c] + b)[1..] == b;
  }

  lemma BearerHasNoSpace(w: string)
    requires IsBearer(w)
    ensures w != [] && NoSpace(w)
  {
    forall i | 0 <= i < |w| ensures !IsSpace(w[i]) {
      assert Lower(w)[i] == LowerChar(w[i]);
    }
  }

  /**
   * Round trip: a header built as scheme, one space, token gives back exactly
   * the token, for any capitalisation of "bearer" and any non-empty token
   * without whitespace.
   */
  lemma BearerHeaderYieldsToken(scheme: string, token: string)
    requires IsBearer(scheme)
    requires token != [] && NoSpace(token)
    ensures GetTokenFromAuthHeader(Some(scheme + " " + token)) == Ok(token)
  {
    BearerHasNoSpace(scheme);
    var rest := " " + token;
    assert scheme + " " + token == scheme + rest;
    WordsOfLeadingWord(scheme, rest);
    assert rest[1..] == token + [];
    WordsOfLeadingWord(token, []);
    assert Words(scheme + " " + token) == [scheme, token];
  }

  // ---------------------------------------------------------------------
  // check_permissions
  // ---------------------------------------------------------------------

  /**
   * The decoded token payload. Only the `permissions` claim is read by this
   * module; `None` when the payload has no such key.
   */
  datatype Payload = Payload(permissions: Option<seq<string>>, subject: string)

  function CheckPermissions(permission: string, payload: Payload): (r: Outcome<bool>)
    ensures r != Crash
    // a missing claim is reported before membership is looked at
    ensures r == Raise(PermissionsMissing) <==> payload.permissions.None?
    ensures r == Raise(PermissionNotFound) <==>
      payload.permissions.Some? && permission !in payload.permissions.value
    ensures r == Ok(true) <==>
      payload.permissions.Some? && permission in payload.permissions.value
  {
    if payload.permissions.None? then Raise(PermissionsMissing)
    else if permission !in payload.permissions.value then Raise(PermissionNotFound)
    else Ok(true)
  }

  // ---------------------------------------------------------------------
  // Key lookup in verify_and_decode_jwt
  // ---------------------------------------------------------------------

  /** One entry of the key set's "keys" list; `None` for an absent field. */
  datatype Jwk = Jwk(kid: Option<string>, kty: Option<string>, use: Option<string>,
                     n: Option<string>, e: Option<string>)

  /** The `rsa_key` dictionary built from a matching entry. */
  datatype RsaKey = RsaKey(kty: string, kid: string, use: string, n: string, e: string)

  predicate HasAllFields(key: Jwk)
  {
    key.kid.Some? && key.kty.Some? && key.use.Some? && key.n.Some? && key.e.Some?
  }

  function ToRsaKey(key: Jwk): RsaKey
    requires HasAllFields(key)
  {
    RsaKey(key.kty.value, key.kid.value, key.use.value, key.n.value, key.e.value)
  }

  /** Looking at `key` raises `KeyError`: it has no "kid", or it matches and lacks a field. */
  predicate Breaks(kid: string, key: Jwk)
  {
    key.kid.None? || (key.kid == Some(kid) && !HasAllFields(key))
  }

  /** The state of the key loop: the current `rsa_key` (`None` for `{}`), or a `KeyError` raised. */
  datatype Search = Searching(found: Option<RsaKey>) | KeyError

  /** One iteration of the loop over the keys. */
  function ScanKey(kid: string, key: Jwk, found: Option<RsaKey>): Search
  {
    if key.kid.None? then KeyError
    else if key.kid.value != kid then Searching(found)
    else if HasAllFields(key) then Searching(Some(ToRsaKey(key)))
    else KeyError
  }

  /** The state after the loop has run over all of `keys`. */
  function KeySearch(kid: string, keys: seq<Jwk>): Search
    decreases |keys|
  {
    if keys == [] then Searching(None)
    else match KeySearch(kid, keys[..|keys| - 1])
      case KeyError => KeyError
      case Searching(found) => ScanKey(kid, keys[|keys| - 1], found)
  }

  /** The loop of verify_and_decode_jwt: the last matching key wins, and it stops at a `KeyError`. */
  method FindKey(kid: string, keys: seq<Jwk>) returns (r: Search)
    ensures r == KeySearch(kid, keys)
  {
    var rsaKey: Option<RsaKey> := None;
    var i := 0;
    while i < |keys|
      invariant 0 <= i <= |keys|
      invariant KeySearch(kid, keys[..i]) == Searching(rsaKey)
    {
      var key := keys[i];
      assert keys[..i + 1][..i] == keys[..i];
      if key.kid.None? {
        KeyErrorPersists(kid, keys, i + 1);
        return KeyError;
      }
      if key.kid.value == kid {
        if !HasAllFields(key) {
          KeyErrorPersists(kid, keys, i + 1);
          return KeyError;
        }
        rsaKey := Some(ToRsaKey(key));
      }
      i := i + 1;
    }
    assert keys[..i] == keys;
    r := Searching(rsaKey);
  }

  /** Once a `KeyError` is raised, the rest of the keys do not matter. */
  lemma {:induction false} KeyErrorPersists(kid: string, keys: seq<Jwk>, i: nat)
    requires i <= |keys|
    requires KeySearch(kid, keys[..i]) == KeyError
    ensures KeySearch(kid, keys) == KeyError
    decreases |keys| - i
  {
    if i < |keys| {
      assert keys[..i + 1][..i] == keys[..i];
      KeyErrorPersists(kid, keys, i + 1);
    } else {
      assert keys[..i] == keys;
    }
  }

  /** The search raises `KeyError` exactly when some entry breaks it. */
  lemma {:induction false} KeySearchCrashes(kid: string, keys: seq<Jwk>)
    ensures KeySearch(kid, keys) == KeyError <==> exists i :: 0 <= i < |keys| && Breaks(kid, keys[i])
    decreases |keys|
  {
    if keys != [] {
      var init := keys[..|keys| - 1];
      KeySearchCrashes(kid, init);
      if exists i :: 0 <= i < |init| && Breaks(kid, init[i]) {
        var i :| 0 <= i < |init| && Breaks(kid, init[i]);
        assert keys[i] == init[i];
      }
      if exists i :: 0 <= i < |keys| && Breaks(kid, keys[i]) {
        var i :| 0 <= i < |keys| && Breaks(kid, keys[i]);
        if i < |init| { assert init[i] == keys[i]; }
      }
    }
  }

  /** Without a `KeyError`, `rsa_key` stays `{}` exactly when no entry's kid matches. */
  lemma {:induction false} KeySearchFindsNothing(kid: string, keys: seq<Jwk>)
    ensures KeySearch(kid, keys) == Searching(None) <==>
      forall i :: 0 <= i < |keys| ==> keys[i].kid.Some? && keys[i].kid.value != kid
    decreases |keys|
  {
    if keys != [] {
      var init := keys[..|keys| - 1];
      KeySearchFindsNothing(kid, init);
      KeySearchCrashes(kid, init);
      assert forall i :: 0 <= i < |init| ==> init[i] == keys[i];
      if KeySearch(kid, init) == KeyError {
        var i :| 0 <= i < |init| && Breaks(kid, init[i]);
        assert Breaks(kid, keys[i]);
      } else if KeySearch(kid, init).found.Some? {
        KeySearchFindsLast(kid, init);
        var i :| 0 <= i < |init| && init[i].kid == Some(kid);
        assert keys[i].kid == Some(kid);
      }
    }
  }

  /**
   * A key that is found comes from the LAST entry whose kid matches: every
   * later entry has a different kid.
   */
  lemma {:induction false} KeySearchFindsLast(kid: string, keys: seq<Jwk>)
    requires KeySearch(kid, keys).Searching? && KeySearch(kid, keys).found.Some?
    ensures exists i :: (0 <= i < |keys| && keys[i].kid == Some(kid) && HasAllFields(keys[i])
      && KeySearch(kid, keys).found.value == ToRsaKey(keys[i])
      && forall j :: i < j < |keys| ==> keys[j].kid != Some(kid))
    decreases |keys|
  {
    var init := keys[..|keys| - 1];
    var last := keys[|keys| - 1];
    if last.kid == Some(kid) {
      var i := |keys| - 1;
      assert keys[i].kid == Some(kid);
    } else {
      KeySearchFindsLast(kid, init);
      var i :| 0 <= i < |init| && init[i].kid == Some(kid) && HasAllFields(init[i])
        && KeySearch(kid, init).found.value == ToRsaKey(init[i])
        && forall j :: i < j < |init| ==> init[j].kid != Some(kid);
      assert keys[i] == init[i];
      assert forall j :: i < j < |init| ==> keys[j] == init[j];
    }
  }

  // ---------------------------------------------------------------------
  // verify_and_decode_jwt
  // ---------------------------------------------------------------------

  /** What `jwt.get_unverified_header` gives: a `JWTError` for a malformed token, or the header's kid. */
  datatype TokenHeader = MalformedToken | TokenHeader(kid: Option<string>)

  /** What `jwt.decode` does: return the payload, or raise one of the three kinds of error the source tells apart. */
  datatype DecodeOutcome = Decoded(payload: Payload) | ExpiredSignature | ClaimsRejected | DecodeFailed

  /** The arguments of the `jwt.decode` call. */
  datatype DecodeRequest = DecodeRequest(token: string, key: RsaKey, algorithms: seq<string>,
                                         audience: string, issuer: string)

  /** The `jose` library, as an oracle: signature, expiry, audience and issuer checks happen inside. */
  datatype Jose = Jose(getUnverifiedHeader: string -> TokenHeader, decode: DecodeRequest -> DecodeOutcome)

  /** The `try`/`except` around `jwt.decode`. */
  function DecodeResult(outcome: DecodeOutcome): (r: Outcome<Payload>)
    ensures r != Crash
    ensures r.Ok? <==> outcome.Decoded?
    ensures r.Ok? ==> r.value == outcome.payload
    ensures r == Raise(TokenExpired) <==> outcome.ExpiredSignature?
    ensures r == Raise(ClaimsInvalid) <==> outcome.ClaimsRejected?
    ensures r == Raise(TokenUnparsable) <==> outcome.DecodeFailed?
  {
    match outcome
    case Decoded(payload) => Ok(payload)
    case ExpiredSignature => Raise(TokenExpired)
    case ClaimsRejected => Raise(ClaimsInvalid)
    case DecodeFailed => Raise(TokenUnparsable)
  }

  /** verify_and_decode_jwt, with the fetched key set given as `keys`. */
  function VerifyAndDecodeJwt(token: string, keys: seq<Jwk>, jose: Jose): (r: Outcome<Payload>)
    // the only AuthErrors verification raises, and a payload only from a successful decode
    ensures r.Raise? ==> r.error in {KidMissing, KeyNotFound, TokenExpired, ClaimsInvalid, TokenUnparsable}
    ensures r.Ok? ==> exists req :: jose.decode(req) == Decoded(r.value) && req.token == token
  {
    match jose.getUnverifiedHeader(token)
    case MalformedToken => Crash
    case TokenHeader(kid) =>
      if kid.None? then Raise(KidMissing)
      else match KeySearch(kid.value, keys)
        case KeyError => Crash
        case Searching(None) => Raise(KeyNotFound)
        case Searching(Some(rsaKey)) =>
          DecodeResult(jose.decode(DecodeRequest(token, rsaKey, Algorithms, ApiAudience, Issuer())))
  }

  /** A header without kid is refused with 401, before the keys are looked at. */
  lemma VerifyRequiresKid(token: string, keys: seq<Jwk>, jose: Jose)
    requires jose.getUnverifiedHeader(token) == TokenHeader(None)
    ensures VerifyAndDecodeJwt(token, keys, jose) == Raise(KidMissing)
    ensures VerifyAndDecodeJwt(token, keys, jose).error.status == 401
  {
  }

  /**
   * With a parsable header, verification ends in `KeyNotFound` (400) exactly
   * when every entry has a kid and none is the header's.
   */
  lemma VerifyKeyNotFound(token: string, keys: seq<Jwk>, jose: Jose, kid: string)
    requires jose.getUnverifiedHeader(token) == TokenHeader(Some(kid))
    ensures VerifyAndDecodeJwt(token, keys, jose) == Raise(KeyNotFound) <==>
      forall i :: 0 <= i < |keys| ==> keys[i].kid.Some? && keys[i].kid.value != kid
  {
    KeySearchFindsNothing(kid, keys);
    match KeySearch(kid, keys)
    case KeyError =>
    case Searching(found) =>
      if found.Some? {
        var rsaKey := found.value;
        var req := DecodeRequest(token, rsaKey, Algorithms, ApiAudience, Issuer());
        assert DecodeResult(jose.decode(req)) != Raise(KeyNotFound);
      }
  }

  /** Verification raises a non-`AuthError` exception exactly when the header is malformed or some entry breaks the loop. */
  lemma VerifyCrashes(token: string, keys: seq<Jwk>, jose: Jose)
    ensures VerifyAndDecodeJwt(token, keys, jose) == Crash <==>
      || jose.getUnverifiedHeader(token).MalformedToken?
      || (jose.getUnverifiedHeader(token).kid.Some? &&
          exists i :: 0 <= i < |keys| && Breaks(jose.getUnverifiedHeader(token).kid.value, keys[i]))
  {
    if jose.getUnverifiedHeader(token).TokenHeader? && jose.getUnverifiedHeader(token).kid.Some? {
      KeySearchCrashes(jose.getUnverifiedHeader(token).kid.value, keys);
    }
  }

  /**
   * A verified payload is what `jwt.decode` returned for the last entry whose
   * kid is the header's, called with the configured algorithms, audience and
   * issuer.
   */
  lemma VerifyUsesLastMatchingKey(token: string, keys: seq<Jwk>, jose: Jose)
    requires VerifyAndDecodeJwt(token, keys, jose).Ok?
    ensures jose.getUnverifiedHeader(token).TokenHeader?
    ensures var kid := jose.getUnverifiedHeader(token).kid;
      kid.Some? &&
      exists i :: 0 <= i < |keys| && keys[i].kid == kid && HasAllFields(keys[i])
        && (forall j :: i < j < |keys| ==> keys[j].kid != kid)
        && jose.decode(DecodeRequest(token, ToRsaKey(keys[i]), Algorithms, ApiAudience, Issuer()))
           == Decoded(VerifyAndDecodeJwt(token, keys, jose).value)
  {
    var kid := jose.getUnverifiedHeader(token).kid.value;
    KeySearchFindsLast(kid, keys);
    var i :| 0 <= i < |keys| && keys[i].kid == Some(kid) && HasAllFields(keys[i])
      && KeySearch(kid, keys).found.value == ToRsaKey(keys[i])
      && forall j :: i < j < |keys| ==> keys[j].kid != Some(kid);
    var req := DecodeRequest(token, ToRsaKey(keys[i]), Algorithms, ApiAudience, Issuer());
    assert VerifyAndDecodeJwt(token, keys, jose) == DecodeResult(jose.decode(req));
    assert keys[i].kid == jose.getUnverifiedHeader(token).kid;
  }

  /**
   * `keys[i]` is the entry the key loop settles on: no entry breaks the loop,
   * `keys[i]` matches `kid` and is complete, and no later entry matches.
   */
  predicate LastUsableMatch(kid: string, keys: seq<Jwk>, i: int)
  {
    && (forall j :: 0 <= j < |keys| ==> !Breaks(kid, keys[j]))
    && 0 <= i < |keys| && keys[i].kid == Some(kid) && HasAllFields(keys[i])
    && (forall j :: i < j < |keys| ==> keys[j].kid != Some(kid))
  }

  /** The `jwt.decode` call made with the key built from `key`. */
  function DecodeCall(token: string, key: Jwk): DecodeRequest
    requires HasAllFields(key)
  {
    DecodeRequest(token, ToRsaKey(key), Algorithms, ApiAudience, Issuer())
  }

  /**
   * Conversely, once the loop settles on `keys[i]`, the result of
   * verification is decided by what `jwt.decode` does with that key: its
   * payload, or the error its failure maps to.
   */
  lemma VerifyDecidedByLastMatchingKey(token: string, keys: seq<Jwk>, jose: Jose, kid: string, i: int)
    requires jose.getUnverifiedHeader(token) == TokenHeader(Some(kid))
    requires LastUsableMatch(kid, keys, i)
    ensures VerifyAndDecodeJwt(token, keys, jose) == DecodeResult(jose.decode(DecodeCall(token, keys[i])))
  {
    KeySearchCrashes(kid, keys);
    KeySearchFindsNothing(kid, keys);
    assert KeySearch(kid, keys).Searching? && KeySearch(kid, keys).found.Some?;
    KeySearchFindsLast(kid, keys);
    var i' :| 0 <= i' < |keys| && keys[i'].kid == Some(kid) && HasAllFields(keys[i'])
      && KeySearch(kid, keys).found.value == ToRsaKey(keys[i'])
      && forall j :: i' < j < |keys| ==> keys[j].kid != Some(kid);
    assert i' == i;
  }

  // ---------------------------------------------------------------------
  // requires_auth
  // ---------------------------------------------------------------------

  /**
   * The body of the guard's `try` block up to the handler call: token, then
   * verification, then the permission check, each error as raised.
   */
  function Authenticate(permission: string, header: Option<string>, keys: seq<Jwk>, jose: Jose): (r: Outcome<Payload>)
    ensures r.Ok? <==>
      && GetTokenFromAuthHeader(header).Ok?
      && VerifyAndDecodeJwt(GetTokenFromAuthHeader(header).value, keys, jose).Ok?
      && CheckPermissions(permission, VerifyAndDecodeJwt(GetTokenFromAuthHeader(header).value, keys, jose).value) == Ok(true)
    ensures r.Ok? ==> r == VerifyAndDecodeJwt(GetTokenFromAuthHeader(header).value, keys, jose)
    // a failing step stops the chain: later steps are not consulted
    ensures !GetTokenFromAuthHeader(header).Ok? ==>
      (r == Crash <==> GetTokenFromAuthHeader(header) == Crash) &&
      (r.Raise? ==> r.error == GetTokenFromAuthHeader(header).error)
    ensures (GetTokenFromAuthHeader(header).Ok? &&
             !VerifyAndDecodeJwt(GetTokenFromAuthHeader(header).value, keys, jose).Ok?) ==>
      r == VerifyAndDecodeJwt(GetTokenFromAuthHeader(header).value, keys, jose)
    ensures (GetTokenFromAuthHeader(header).Ok? &&
             VerifyAndDecodeJwt(GetTokenFromAuthHeader(header).value, keys, jose).Ok? &&
             !CheckPermissions(permission, VerifyAndDecodeJwt(GetTokenFromAuthHeader(header).value, keys, jose).value).Ok?) ==>
      r == Raise(CheckPermissions(permission, VerifyAndDecodeJwt(GetTokenFromAuthHeader(header).value, keys, jose).value).error)
    ensures r.Raise? ==> r.error in {HeaderMissing, BearerMissing, TokenNotFound, BadHeaderFormat, KidMissing,
                                     KeyNotFound, TokenExpired, ClaimsInvalid, TokenUnparsable,
                                     PermissionsMissing, PermissionNotFound}
  {
    match GetTokenFromAuthHeader(header)
    case Crash => Crash
    case Raise(e) => Raise(e)
    case Ok(token) =>
      match VerifyAndDecodeJwt(token, keys, jose)
      case Crash => Crash
      case Raise(e) => Raise(e)
      case Ok(payload) =>
        match CheckPermissions(permission, payload)
        case Ok(_) => Ok(payload)
        case Raise(e) => Raise(e)
        case Crash => Crash
  }

  /**
   * requires_auth(permission) wrapped around `handler`: the handler runs, on
   * the verified payload, only when all three steps succeed; every `AuthError`
   * is replaced by the 400 "Unable to find the appropriate key." error; other
   * exceptions pass through.
   */
  function RequiresAuth<R>(permission: string, header: Option<string>, keys: seq<Jwk>, jose: Jose,
                           handler: Payload -> R): (r: Outcome<R>)
    ensures r.Ok? <==> Authenticate(permission, header, keys, jose).Ok?
    ensures r.Ok? ==> r.value == handler(Authenticate(permission, header, keys, jose).value)
    ensures r.Raise? <==> Authenticate(permission, header, keys, jose).Raise?
    ensures r.Raise? ==> r.error == KeyNotFound
  {
    match Authenticate(permission, header, keys, jose)
    case Ok(payload) => Ok(handler(payload))
    case Raise(_) => Raise(AuthError("invalid_header", "Unable to find the appropriate key.", 400))
    case Crash => Crash
  }

  /**
   * The guard's default permission is the empty string, and it is checked by
   * list membership like any other: a well-formed header whose token verifies
   * with a `permissions` list that does not hold "" is refused.
   */
  lemma EmptyPermissionIsNotImplied(scheme: string, token: string, keys: seq<Jwk>, jose: Jose,
                                    kid: string, i: int, payload: Payload)
    requires IsBearer(scheme) && token != [] && NoSpace(token)
    requires jose.getUnverifiedHeader(token) == TokenHeader(Some(kid))
    requires LastUsableMatch(kid, keys, i)
    requires jose.decode(DecodeCall(token, keys[i])) == Decoded(payload)
    requires payload.permissions.Some? && "" !in payload.permissions.value
    ensures Authenticate("", Some(scheme + " " + token), keys, jose) == Raise(PermissionNotFound)
  {
    BearerHeaderYieldsToken(scheme, token);
    VerifyDecidedByLastMatchingKey(token, keys, jose, kid, i);
  }

  // ---------------------------------------------------------------------
  // Two discrepancies, each as written and as evidently intended
  // ---------------------------------------------------------------------

  /**
   * As written, a header of whitespace only (here one vertical tab, which
   * HTTP header parsing keeps) reaches `parts[0]` with no parts: an
   * `IndexError`, not an `AuthError`.
   */
  lemma WhitespaceHeaderCrashes()
    ensures GetTokenFromAuthHeader(Some("\U{b}")) == Crash
  {
    assert AllSpace("\U{b}");
  }

  /**
   * get_token_from_auth_header with the empty word list refused as a header
   * without "Bearer": it never raises anything but an `AuthError`.
   */
  function GetTokenFromAuthHeaderChecked(header: Option<string>): (r: Outcome<string>)
    ensures r != Crash
    ensures GetTokenFromAuthHeader(header) != Crash ==> r == GetTokenFromAuthHeader(header)
    ensures GetTokenFromAuthHeader(header) == Crash ==> r == Raise(BearerMissing)
    ensures r.Raise? ==> r.error.status == 401
  {
    if header.None? || header.value == "" then Raise(HeaderMissing)
    else
      var parts := Words(header.value);
      if |parts| == 0 || Lower(parts[0]) != "bearer" then Raise(BearerMissing)
      else if |parts| == 1 then Raise(TokenNotFound)
      else if |parts| > 2 then Raise(BadHeaderFormat)
      else Ok(parts[1])
  }

  /**
   * As written, an expired token (401 token_expired from verification) is
   * reported by the guard as the 400 "Unable to find the appropriate key."
   * error.
   */
  lemma CollapseHidesExpiredToken<R>(permission: string, scheme: string, token: string,
                                     keys: seq<Jwk>, jose: Jose, handler: Payload -> R, kid: string, i: int)
    requires IsBearer(scheme) && token != [] && NoSpace(token)
    requires jose.getUnverifiedHeader(token) == TokenHeader(Some(kid))
    requires LastUsableMatch(kid, keys, i)
    requires jose.decode(DecodeCall(token, keys[i])) == ExpiredSignature
    ensures Authenticate(permission, Some(scheme + " " + token), keys, jose) == Raise(TokenExpired)
    ensures RequiresAuth(permission, Some(scheme + " " + token), keys, jose, handler) == Raise(KeyNotFound)
  {
    BearerHeaderYieldsToken(scheme, token);
    VerifyDecidedByLastMatchingKey(token, keys, jose, kid, i);
  }

  /** The guard with each step's `AuthError` passed on unchanged. */
  function RequiresAuthPreserving<R>(permission: string, header: Option<string>, keys: seq<Jwk>, jose: Jose,
                                     handler: Payload -> R): (r: Outcome<R>)
    ensures r.Ok? <==> RequiresAuth(permission, header, keys, jose, handler).Ok?
    ensures r.Ok? ==> r == RequiresAuth(permission, header, keys, jose, handler)
    ensures r == Crash <==> RequiresAuth(permission, header, keys, jose, handler) == Crash
    ensures r.Raise? ==> Authenticate(permission, header, keys, jose) == Raise(r.error)
  {
    match Authenticate(permission, header, keys, jose)
    case Ok(payload) => Ok(handler(payload))
    case Raise(e) => Raise(e)
    case Crash => Crash
  }

  /** With errors passed on, an expired token is reported as 401 token_expired. */
  lemma PreservingReportsExpiredToken<R>(permission: string, scheme: string, token: string,
                                         keys: seq<Jwk>, jose: Jose, handler: Payload -> R, kid: string, i: int)
    requires IsBearer(scheme) && token != [] && NoSpace(token)
    requires jose.getUnverifiedHeader(token) == TokenHeader(Some(kid))
    requires LastUsableMatch(kid, keys, i)
    requires jose.decode(DecodeCall(token, keys[i])) == ExpiredSignature
    ensures RequiresAuthPreserving(permission, Some(scheme + " " + token), keys, jose, handler)
            == Raise(TokenExpired)
  {
    BearerHeaderYieldsToken(scheme, token);
    VerifyDecidedByLastMatchingKey(token, keys, jose, kid, i);
  }

  /**
   * A token that verifies but whose `permissions` claim lacks the required
   * permission: the guard answers 400 `invalid_header`, the error-preserving
   * guard 403 `unauthorized`.
   */
  lemma PreservingReportsMissingPermission<R>(permission: string, scheme: string, token: string,
                                              keys: seq<Jwk>, jose: Jose, handler: Payload -> R,
                                              kid: string, i: int, payload: Payload)
    requires IsBearer(scheme) && token != [] && NoSpace(token)
    requires jose.getUnverifiedHeader(token) == TokenHeader(Some(kid))
    requires LastUsableMatch(kid, keys, i)
    requires jose.decode(DecodeCall(token, keys[i])) == Decoded(payload)
    requires payload.permissions.Some? && permission !in payload.permissions.value
    ensures RequiresAuth(permission, Some(scheme + " " + token), keys, jose, handler) == Raise(KeyNotFound)
    ensures RequiresAuthPreserving(permission, Some(scheme + " " + token), keys, jose, handler)
            == Raise(PermissionNotFound)
  {
    BearerHeaderYieldsToken(scheme, token);
    VerifyDecidedByLastMatchingKey(token, keys, jose, kid, i);
  }
}
