/**
 * The per-attempt session of the QuickBooks provider: the authorization URL
 * handed out at the start of the flow, and the tokens stored by `Authorize`
 * once the authorization code has been exchanged. It also holds the decoding of
 * the payload of the compact ID token (section 7.1 of RFC 7515).
 */
module Sessions {
  import opened Wrappers
  import opened Strings
  import opened Base64

  /** Claims of a decoded ID token, by claim name. */
  datatype Claims = Claims(values: map<string, string>)

  /**
   * What the token endpoint returned to a successful exchange: the standard
   * fields and the two extension values the session reads, `id_token` and
   * `x_refresh_token_expires_in` (in whole seconds), absent when not returned.
   * Times are seconds on one clock; 0 stands for Go's zero time.
   */
  datatype Token = Token(
    accessToken: string,
    refreshToken: string,
    expiry: int,
    idToken: Option<string>,
    refreshTokenExpiresIn: Option<int>)

  /** Outcome of exchanging the authorization code at the token endpoint. */
  datatype Exchange = Exchanged(token: Token) | Failed(reason: string)

  datatype AuthError =
    | NoAuthURL
    | ExchangeFailure(reason: string)
    | InvalidIDTokenFormat
    | IDTokenDecodeFailure(cause: DecodeError)
    | IncompleteSession(message: string)

  /**
   * Completes a segment to a multiple of four characters with `=`, which the
   * compact serialization leaves out (section 2 of RFC 7515).
   */
  function Pad(part: string): (r: string)
    ensures |r| % 4 == 0
    ensures |part| <= |r| <= |part| + 3
    ensures |r| == |part| <==> |part| % 4 == 0
    ensures r[..|part|] == part
    ensures forall i :: |part| <= i < |r| ==> r[i] == '='
  {
    if |part| % 4 != 0 then part + Repeat('=', 4 - |part| % 4) else part
  }

  /** Maps the URL-safe characters `-` and `_` to the standard `+` and `/`; nothing else changes. */
  function ToStdAlphabet(s: string): (r: string)
    ensures |r| == |s|
    ensures forall i :: 0 <= i < |s| ==>
      r[i] == (if s[i] == '-' then '+' else if s[i] == '_' then '/' else s[i])
    ensures '-' !in s && '_' !in s ==> r == s
  {
    ReplaceAll(ReplaceAll(s, '-', '+'), '_', '/')
  }

  /**
   * Decodes one base64url segment of a compact token into bytes: at most
   * three bytes for every four characters, counting a last partial group as
   * a whole one.
   */
  function DecodeJWTPart(part: string): (r: Result<seq<Byte>, DecodeError>)
    ensures r.Ok? ==> |r.value| <= 3 * ((|part| + 3) / 4)
  {
    var t := ToStdAlphabet(Pad(part));
    assert |t| / 4 == (|part| + 3) / 4;
    DecodeString(t)
  }

  /** The unpadded encoding is padded with exactly the `=` the padded encoding has. */
  lemma PadRawURLEncode(b: seq<Byte>)
    ensures Pad(RawURLEncode(b)) == RawURLEncode(b) + Repeat('=', PadCount(|b|))
  {
    var e := RawURLEncode(b);
    var k := PadCount(|b|);
    UnpaddedLength(|b|);
    if k == 0 {
      assert Repeat('=', k) == [] && e + [] == e;
    } else {
      assert 4 - |e| % 4 == k;
    }
  }

  /** The length of the unpadded encoding of `n` bytes falls short of a multiple of four by the padding count. */
  lemma UnpaddedLength(n: nat)
    ensures var len := 4 * (n / 3) + (if n % 3 == 0 then 0 else n % 3 + 1);
      (len % 4 == 0 <==> PadCount(n) == 0) && (len % 4 != 0 ==> 4 - len % 4 == PadCount(n))
  {
  }

  /** Mapping to the standard alphabet turns the URL-safe spelling of 6-bit values into the standard one. */
  lemma ToStdAlphabetURL(v: seq<Sextet>, k: nat)
    ensures ToStdAlphabet(Spell(v, URLChar) + Repeat('=', k)) == Spell(v, StdChar) + Repeat('=', k)
  {
    var u := Spell(v, URLChar) + Repeat('=', k);
    var t := ToStdAlphabet(u);
    var std := Spell(v, StdChar) + Repeat('=', k);
    forall i | 0 <= i < |t| ensures t[i] == std[i] {
      if i < |v| {
        assert u[i] == URLChar(v[i]);
      } else {
        assert u[i] == '=';
      }
    }
  }

  /** The segment of an unpadded base64url encoding decodes to the bytes encoded. */
  lemma DecodeJWTPartRoundTrip(b: seq<Byte>)
    ensures DecodeJWTPart(RawURLEncode(b)) == Ok(b)
  {
    PadRawURLEncode(b);
    ToStdAlphabetURL(Sextets(b), PadCount(|b|));
    assert ToStdAlphabet(Pad(RawURLEncode(b))) == StdEncode(b);
    StdRoundTrip(b);
  }

  /**
   * A character that is neither in the standard alphabet, nor URL-safe, nor
   * padding, nor a line break makes the decoding fail.
   */
  lemma ForeignCharacterRejected(part: string, i: nat)
    requires i < |part|
    requires SextetOf(part[i]).None? && part[i] !in "-_=\r\n"
    ensures DecodeJWTPart(part) == Err(CorruptInput)
  {
    var c := part[i];
    var p := Pad(part);
    assert p[i] == p[..|part|][i] == c;
    var t := ToStdAlphabet(p);
    assert t[i] == c;
    StripNewlinesKeeps(t, i);
    var u := StripNewlines(t);
    if DecodeQuanta(u).Some? {
      DecodedShape(u);
      assert false;
    }
  }

  /** Mapping to the standard alphabet and stripping line breaks keep three trailing `=`. */
  lemma ThreePadsKept(part: string)
    requires |part| % 4 == 1
    ensures StripNewlines(ToStdAlphabet(Pad(part))) == StripNewlines(ToStdAlphabet(Pad(part))[..|part|]) + "==="
  {
    var t := ToStdAlphabet(Pad(part));
    var n := |part|;
    assert t == t[..n] + "===";
    StripNewlinesAppend(t[..n], "===");
    StripNewlinesNone("===");
  }

  /**
   * A segment whose length is one more than a multiple of four gets three `=`,
   * which no base 64 quantum can end with, so the decoding fails.
   */
  lemma ThreePadsRejected(part: string)
    requires |part| % 4 == 1
    ensures DecodeJWTPart(part) == Err(CorruptInput)
  {
    ThreePadsKept(part);
    var u := StripNewlines(ToStdAlphabet(Pad(part)));
    assert u[|u| - 3] == '=';
    if DecodeQuanta(u).Some? {
      DecodedShape(u);
      assert false;
    }
  }

  /**
   * The ID-token step of `Authorize`: an empty token is not looked at; any
   * other must have exactly three `.`-separated parts, and its middle part must
   * decode. The decoded payload is then handed to the claim parser, whose
   * failure (`None`) is not an error.
   */
  function IDTokenCheck(raw: string, parseClaims: seq<Byte> -> Option<Claims>): (r: Result<Option<Claims>, AuthError>)
    ensures r == Err(InvalidIDTokenFormat) <==> raw != "" && Count(raw, '.') != 2
    ensures r.Err? ==> r.error == InvalidIDTokenFormat || r.error.IDTokenDecodeFailure?
    ensures raw == "" ==> r == Ok(None)
  {
    if raw == "" then Ok(None)
    else
      var parts := Split(raw, '.');
      if |parts| != 3 then Err(InvalidIDTokenFormat)
      else
        match DecodeJWTPart(parts[1])
        case Err(e) => Err(IDTokenDecodeFailure(e))
        case Ok(payload) => Ok(parseClaims(payload))
  }

  /** Three dot-free parts joined with dots split back into those parts. */
  lemma SplitThreeParts(header: string, middle: string, signature: string)
    requires '.' !in header && '.' !in middle && '.' !in signature
    ensures Split(header + "." + middle + "." + signature, '.') == [header, middle, signature]
  {
    var tail := middle + "." + signature;
    SplitPiece(signature, '.');
    SplitPieceThen(middle, '.', signature);
    SplitPieceThen(header, '.', tail);
    assert header + "." + middle + "." + signature == header + ['.'] + tail;
  }

  /**
   * A well-framed token whose middle part decodes passes the check, with the
   * claim parser's verdict on the decoded bytes: when the claims do not parse
   * the result is still a success, without claims.
   */
  lemma WellFramedTokenAccepted(header: string, middle: string, signature: string,
                                parseClaims: seq<Byte> -> Option<Claims>)
    requires '.' !in header && '.' !in middle && '.' !in signature
    requires DecodeJWTPart(middle).Ok?
    ensures IDTokenCheck(header + "." + middle + "." + signature, parseClaims)
            == Ok(parseClaims(DecodeJWTPart(middle).value))
  {
    var raw := header + "." + middle + "." + signature;
    SplitThreeParts(header, middle, signature);
    assert |raw| > 0 by { assert raw[|header|] == '.'; }
  }

  /** A well-framed token whose middle part does not decode fails with the decoder's error. */
  lemma WellFramedBadPayload(header: string, middle: string, signature: string,
                             parseClaims: seq<Byte> -> Option<Claims>)
    requires '.' !in header && '.' !in middle && '.' !in signature
    requires DecodeJWTPart(middle).Err?
    ensures IDTokenCheck(header + "." + middle + "." + signature, parseClaims)
            == Err(IDTokenDecodeFailure(DecodeJWTPart(middle).error))
  {
    var raw := header + "." + middle + "." + signature;
    SplitThreeParts(header, middle, signature);
    assert |raw| > 0 by { assert raw[|header|] == '.'; }
  }

  /**
   * In particular, a token whose payload is the base64url encoding of some
   * bytes passes the check with the claim parser's verdict on those bytes.
   */
  lemma EncodedPayloadAccepted(header: string, payload: seq<Byte>, signature: string,
                               parseClaims: seq<Byte> -> Option<Claims>)
    requires '.' !in header && '.' !in signature
    ensures IDTokenCheck(header + "." + RawURLEncode(payload) + "." + signature, parseClaims)
            == Ok(parseClaims(payload))
  {
    RawURLEncodeDotFree(payload);
    DecodeJWTPartRoundTrip(payload);
    WellFramedTokenAccepted(header, RawURLEncode(payload), signature, parseClaims);
  }

  /** The URL-safe alphabet has no `.`, so an encoded payload never breaks the framing. */
  lemma RawURLEncodeDotFree(payload: seq<Byte>)
    ensures '.' !in RawURLEncode(payload)
  {
    var middle := RawURLEncode(payload);
    var v := Sextets(payload);
    forall i | 0 <= i < |middle| ensures middle[i] != '.' {
      assert middle[i] == URLChar(v[i]);
    }
  }

  /** Tokens with one dot or with three dots are refused as malformed. */
  lemma MalformedFramingExamples(parseClaims: seq<Byte> -> Option<Claims>)
    ensures IDTokenCheck("a.b", parseClaims) == Err(InvalidIDTokenFormat)
    ensures IDTokenCheck("a.b.c.d", parseClaims) == Err(InvalidIDTokenFormat)
  {
  }

  /** A token with an empty payload is accepted: the payload decodes to no bytes. */
  lemma EmptyPayloadExample(parseClaims: seq<Byte> -> Option<Claims>)
    ensures IDTokenCheck("h..s", parseClaims) == Ok(parseClaims([]))
  {
  }

  class Session {
    var authURL: string
    var accessToken: string
    var refreshToken: string
    var accessTokenExpiresAt: int
    var refreshTokenExpiresAt: int
    var idToken: string
    /** The claims of `idToken`, when they were decoded and parsed. */
    var parsedIDToken: Option<Claims>

    /** A session at the start of the flow: only the authorization URL is set. */
    constructor (authURL: string)
      ensures this.authURL == authURL
      ensures accessToken == "" && refreshToken == "" && idToken == ""
      ensures accessTokenExpiresAt == 0 && refreshTokenExpiresAt == 0
      ensures parsedIDToken == None
    {
      this.authURL := authURL;
      accessToken, refreshToken, idToken := "", "", "";
      accessTokenExpiresAt, refreshTokenExpiresAt := 0, 0;
      parsedIDToken := None;
    }

    /** The URL the user is sent to; missing when the flow did not start with `BeginAuth`. */
    function GetAuthURL(): (r: Result<string, AuthError>)
      reads this
      ensures r.Ok? <==> authURL != ""
      ensures r.Ok? ==> r.value == authURL
      ensures r.Err? ==> r.error == NoAuthURL
    {
      if authURL == "" then Err(NoAuthURL) else Ok(authURL)
    }

    /**
     * Stores the result of the code exchange. The tokens and the access-token
     * expiry are written first; a malformed ID token then fails the call with
     * those already written, while claims that do not parse are only left out.
     * The refresh-token expiry is set last, from `now`. The OAuth2 library
     * refuses a token response without an access token, so a successful
     * exchange always carries one.
     */
    method Authorize(exchange: Exchange, now: int, parseClaims: seq<Byte> -> Option<Claims>)
      returns (r: Result<string, AuthError>)
      requires exchange.Exchanged? ==> exchange.token.accessToken != ""
      modifies this
      ensures r.Ok? ==> accessToken != "" && r.value == accessToken
      ensures authURL == old(authURL)
      ensures exchange.Failed? ==> r == Err(ExchangeFailure(exchange.reason)) && unchanged(this)
      ensures exchange.Exchanged? ==>
        var t := exchange.token;
        var check := if t.idToken.Some? then IDTokenCheck(t.idToken.value, parseClaims) else Ok(None);
        && accessToken == t.accessToken
        && refreshToken == t.refreshToken
        && accessTokenExpiresAt == t.expiry
        && idToken == (if t.idToken.Some? then t.idToken.value else old(idToken))
        && (check.Err? ==>
              && r == Err(check.error)
              && parsedIDToken == old(parsedIDToken)
              && refreshTokenExpiresAt == old(refreshTokenExpiresAt))
        && (check.Ok? ==>
              && r == Ok(t.accessToken)
              && parsedIDToken == (if check.value.Some? then check.value else old(parsedIDToken))
              && refreshTokenExpiresAt ==
                 (if t.refreshTokenExpiresIn.Some? then now + t.refreshTokenExpiresIn.value
                  else old(refreshTokenExpiresAt)))
    {
      if exchange.Failed? {
        return Err(ExchangeFailure(exchange.reason));
      }
      var t := exchange.token;
      accessToken := t.accessToken;
      refreshToken := t.refreshToken;
      accessTokenExpiresAt := t.expiry;
      if t.idToken.Some? {
        idToken := t.idToken.value;
        if idToken != "" {
          var parts := Split(idToken, '.');
          if |parts| != 3 {
            return Err(InvalidIDTokenFormat);
          }
          var decoded := DecodeJWTPart(parts[1]);
          if decoded.Err? {
            return Err(IDTokenDecodeFailure(decoded.error));
          }
          var claims := parseClaims(decoded.value);
          if claims.Some? {
            parsedIDToken := claims;
          }
        }
      }
      if t.refreshTokenExpiresIn.Some? {
        refreshTokenExpiresAt := now + t.refreshTokenExpiresIn.value;
      }
      return Ok(t.accessToken);
    }
  }
}
