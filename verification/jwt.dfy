/** JSON Web Tokens as the handlers see them. Signing is represented by the
    arguments of the `jwt.sign` call (the claims and options); the token
    string itself is opaque. Verification is an oracle, because signatures
    and the clock are not modelled, except for the one rule jsonwebtoken
    applies before looking at a token at all: an empty token is rejected
    as malformed. */
module Jwt {
  import opened Common
  import JsString

  /** The claim keys this codebase ever signs or reads. */
  datatype Claims = Claims(
    adminId: Option<string>,
    id: Option<string>,
    role: Option<string>,
    email: Option<string>)

  datatype SignOptions = SignOptions(expiresIn: string, issuer: Option<string>)

  /** One `jwt.sign(claims, secret, options)` call; the secret is
      configuration and is not part of the model. */
  datatype Issued = Issued(claims: Claims, options: SignOptions)

  /** What `jwt.verify` yields, by the class of error it throws. */
  datatype Verification =
    | Verified(claims: Claims)
    | JsonWebTokenError
    | TokenExpiredError
    | OtherError

  /** The signature-and-expiry oracle for non-empty token strings. */
  type Verifier = string -> Verification

  /** `jwt.verify(token, secret)`: the empty string is refused as malformed
      before the oracle is consulted. */
  function Verify(verifier: Verifier, token: string): Verification {
    if token == "" then JsonWebTokenError else verifier(token)
  }

  // ---------------------------------------------------------------------
  // The Authorization header

  const BearerPrefix: string := "Bearer "

  predicate HasBearerPrefix(header: Option<string>) {
    header.Some? && JsString.StartsWith(header.value, BearerPrefix)
  }

  /** `header.split(' ')[1]`. */
  function BearerToken(header: string): string
    requires JsString.StartsWith(header, BearerPrefix)
  {
    JsString.SplitAfterPrefix(header, "Bearer", ' ');
    JsString.Split(header, ' ')[1]
  }

  /** The token taken from a Bearer header is the run of characters after
      "Bearer " up to the next space: it never contains a space, it is
      empty exactly when nothing or another space follows the prefix, and
      for `"Bearer " + t` with a space-free `t` it is `t`. */
  lemma BearerTokenShape(header: string)
    requires JsString.StartsWith(header, BearerPrefix)
    ensures ' ' !in BearerToken(header)
    ensures BearerToken(header) == "" <==> (|header| == 7 || header[7] == ' ')
    ensures ' ' !in header[7..] ==> BearerToken(header) == header[7..]
  {
    JsString.SplitAfterPrefix(header, "Bearer", ' ');
    assert BearerToken(header) == JsString.Split(header[7..], ' ')[0];
    JsString.SplitFirstEmpty(header[7..], ' ');
  }

  /** The header a client builds for a token it was given. */
  function BearerHeader(token: string): (h: string)
    ensures JsString.StartsWith(h, BearerPrefix)
  {
    BearerPrefix + token
  }

  /** A space-free token sent in the standard way is exactly the token the
      guards extract. */
  lemma BearerRoundTrip(token: string)
    requires ' ' !in token
    ensures BearerToken(BearerHeader(token)) == token
  {
    var h := BearerHeader(token);
    assert h[7..] == token;
    BearerTokenShape(h);
  }
}
