# QuickBooks OAuth2 provider — Dafny model

This project models the core of a QuickBooks OAuth2 provider for the goth
authentication framework. The framework calls the provider to start an
Authorization Code flow (`BeginAuth`), hands the callback's code to the session
(`Authorize`), and asks the provider for a user record (`FetchUser`).

The model covers three parts:

- **ID-token payload decoding** (`Sessions.DecodeJWTPart`). The middle segment of
  a compact token (section 7.1 of RFC 7515) is base64url (section 5 of RFC
  4648) without padding (section 2 of RFC 7515). The decoder pads it with `=`,
  maps `-`/`_` to `+`/`/`, and decodes it as standard base 64 (section 4 of RFC
  4648). The decoder is Go's `StdEncoding.DecodeString`, modelled as Go runs it
  (`Base64` module):
  - carriage returns and line feeds are skipped anywhere in the input;
  - padding is required;
  - left-over bits in the last character are ignored.
- **The session** (`Sessions.Session`, a class whose fields `Authorize`
  updates in place). `GetAuthURL` returns the stored URL. `Authorize` stores the
  result of the code exchange in this order:
  1. the tokens and the access-token expiry;
  2. the raw `id_token`, when the response has one. A non-empty `id_token`
     must have exactly three `.`-separated parts and a decodable payload, or
     the call fails with the tokens and the raw `id_token` already stored. An
     empty one is stored without any check;
  3. the parsed claims, only when they parse (a parse failure is not an error);
  4. the refresh-token expiry, as `now` plus `x_refresh_token_expires_in`.
- **The provider** (`QuickBooks.Provider`):
  - construction picks the endpoint pair from the environment flag and
    substitutes the default scopes for an empty list;
  - it has a renamable name;
  - `BeginAuth` returns a fresh session that holds only the authorization URL;
  - `FetchUser` projects the session into a user record and fails when the
    access token is empty;
  - `RefreshTokenAvailable` always returns true.

Module layout: `wrappers.dfy` (Option, Result), `strings.dfy` (the Go `strings`
operations used: `Repeat`, `ReplaceAll`, `Split`, with `Join` as the inverse of
`Split`), `base64.dfy`, `session.dfy` (models `session.go`), `quickbooks.dfy`
(models `quickbooks.go` and the scope constants of `scopes.go`).

Inputs that come from outside the core are parameters:
- the outcome of the token exchange (`Exchange`);
- the current time (`now`);
- the claim parser (`parseClaims`);
- the library's authorization-URL builder (`authCodeURL`);
- the production/sandbox flag (`isProd`).

Three behaviours of the code worth knowing:
- `session.go` does not check the access token itself; the OAuth2 library
  refuses a token response without one. `Authorize` takes that guarantee as
  its precondition, so a session it authorizes always holds an access token
  and `FetchUser` on it reports no error.
- When the claims do not parse, `ParsedIDToken` keeps whatever value it had.
  The code never assigns it in that case; it does not clear it either.
- A segment whose length is one more than a multiple of four gets three `=`,
  which no base 64 quantum accepts, so the decoder always rejects it
  (`ThreePadsRejected`).

## Model

| member | source | states |
|---|---|---|
| `Sessions.Pad` | session.go:44-47 | the result's length is a multiple of 4; at most three characters are added, all `=`, and only when the length was not already a multiple of 4; the segment itself is kept as the prefix |
| `Sessions.ToStdAlphabet` | session.go:49-51 | every `-` becomes `+` and every `_` becomes `/`; every other character and the length are unchanged, so text already in the standard alphabet passes through |
| `Sessions.DecodeJWTPartRoundTrip` | session.go:42-59 | decoding the unpadded base64url encoding of any byte sequence returns exactly those bytes |
| `Sessions.ForeignCharacterRejected` | session.go:53-57 | a character outside the standard alphabet that is not `-`, `_`, `=` or a line break makes decoding fail |
| `Sessions.ThreePadsRejected` | session.go:45-57 | a segment whose length is 1 mod 4 always fails to decode, because three `=` cannot end a quantum |
| `Base64.StdRoundTrip` | session.go:54 | the standard decoder returns the bytes of any standard padded encoding |
| `Base64.DecodedShape` | session.go:54-57 | anything `DecodeQuanta` accepts (the input with line breaks removed) has a length that is a multiple of 4, uses only alphabet characters and `=`, and has `=` only in its last two positions |
| `Base64.DecodeString` | session.go:54-57 | a successful decoding yields at most three bytes for every four input characters |
| `Base64.DecodedLength` | session.go:54 | line-free text of `4k` characters decodes to between `3k - 2` and `3k` bytes |
| `Base64.DecodeStringIgnoresLineBreaks` | session.go:54 | removing carriage returns and line feeds before decoding changes nothing |
| `Base64.StripNewlines` | session.go:54 | what the decoder reads is never longer than the input and holds no line break |
| `Sessions.DecodeJWTPart` | session.go:43-60 | a decoded segment yields at most three bytes for every four characters, a last partial group counted as a whole one |
| `Strings.Repeat` | session.go:46 | `n` characters, all equal to the one repeated |
| `Strings.ReplaceAll` | session.go:50-51 | the same length, with every occurrence of the pattern replaced and every other character kept |
| `Base64.SextetOf` | session.go:54 | the decode map returns a value only for a character that the standard alphabet spells that way |
| `Strings.Split` | session.go:79 | splitting on `.` gives one more piece than there are dots, and no piece contains a dot |
| `Strings.JoinSplit` | session.go:79 | joining the pieces of a split with the separator gives back the string |
| `Strings.SplitJoin` | session.go:79 | splitting the join of dot-free pieces gives back the pieces |
| `Sessions.IDTokenCheck` | session.go:76-93 | the ID-token step fails with `InvalidIDTokenFormat` exactly when the token is non-empty and does not have exactly two dots; any failure is a framing or a decoding failure; an empty token is not checked |
| `Sessions.WellFramedTokenAccepted` | session.go:79-92 | three dot-free parts whose middle decodes pass the check with the claim parser's result on the decoded bytes, whatever form the middle has (padded, with line breaks, or with non-zero trailing bits); a claim-parse failure still succeeds, without claims |
| `Sessions.WellFramedBadPayload` | session.go:79-87 | three dot-free parts whose middle does not decode fail the check with `IDTokenDecodeFailure` carrying the decoder's error |
| `Sessions.EncodedPayloadAccepted` | session.go:79-92 | a dot-free header and signature around the base64url encoding of some bytes pass the check with the claim parser's result on exactly those bytes |
| `Sessions.MalformedFramingExamples` | session.go:79-82 | `a.b` and `a.b.c.d` are refused as malformed |
| `Sessions.EmptyPayloadExample` | session.go:79-92 | `h..s` is accepted, its empty payload decoding to no bytes, so the result is the claim parser's result on the empty payload |
| `Sessions.Session.constructor` | quickbooks.go:78-80 | a new session holds only its authorization URL; the other fields are empty or zero |
| `Sessions.Session.GetAuthURL` | session.go:35-40 | fails with `NoAuthURL` exactly when the URL is empty; otherwise returns it unchanged |
| `Sessions.Session.Authorize` | session.go:64-101 | on a failed exchange, the error is returned unchanged and the session is untouched. On success, the access token, refresh token and expiry are written first. A present `id_token` is then stored raw. A framing or decoding failure fails the call with those fields written, while the parsed claims and the refresh expiry stay unchanged. Otherwise the claims are stored only when they parse, the refresh expiry becomes `now` plus the extra when that extra is present, and the access token is returned, which is never empty given the library's refusal of a response without one. The authorization URL never changes |
| `QuickBooks.NewConfig` | quickbooks.go:103-126 | the credentials are those of the provider; the endpoints are the production pair when `isProd` and the sandbox pair otherwise; an empty scope list becomes exactly openid, profile, email, phone in that order; a non-empty one is kept as given |
| `QuickBooks.Provider.New` | quickbooks.go:36-46 | the provider keeps the credentials, is named `quickbooks`, and its configuration is the one `NewConfig` promises for the flag passed at construction |
| `QuickBooks.Provider.Name` | quickbooks.go:59-61 | returns the stored provider name, which `New` sets to `quickbooks` and `SetName` replaces |
| `QuickBooks.Provider.SetName` | quickbooks.go:59-66 | afterwards `Name()` returns the new name; only the name field may change |
| `QuickBooks.Provider.BeginAuth` | quickbooks.go:76-82 | never fails; returns a fresh session whose URL is the library's authorization URL for the configuration and state, with every other field empty, so `GetAuthURL` returns that URL whenever it is non-empty |
| `QuickBooks.Provider.FetchUser` | quickbooks.go:85-101 | the record always carries the session's access and refresh tokens and the provider's name; the call fails exactly when the access token is empty, with an `IncompleteSession` message that starts with the provider's name |
| `QuickBooks.Provider.RefreshTokenAvailable` | quickbooks.go:139-142 | always true |

## Left out

- Serialization (`Marshal`, `String`, `UnmarshalSession`, session.go:103-119) is JSON library behaviour. `UnmarshalSession` also returns the session even when parsing failed.
- `RefreshToken` (quickbooks.go:128-137) only calls the OAuth2 library over the network and passes its error through.
- The code exchange itself, with its PKCE `code_verifier`, is a network call. `Authorize` receives its outcome as an `Exchange` value, so the provider argument is not needed.
- `AuthCodeURL` belongs to the OAuth2 library. `BeginAuth` takes it as a function parameter.
- The claim parse (`json.Unmarshal` into the `IDToken` type) is a function parameter. The `IDToken` type is not part of this model; claims are a map from claim name to value.
- `Client`, `Debug`, the `HTTPClient` field and the diagnostic `Printf` in `New` are I/O plumbing.
- `SetIsProd` sets a process-wide flag. That flag is a parameter of `New` and `NewConfig`, which read it once.
- `FetchUser` reads `s.ExpiresAt` and `s.UserID`, which are not fields of `Session`, so the user record has only the fields that exist.
- Sessions.Session.Authorize: the refresh-token expiry is the unbounded `now + x`. The code multiplies `x` seconds into a signed 64-bit count of nanoseconds, which wraps modulo 2^64 for `x` above about 9.22e9 seconds and then gives a wrong time: in the past just above that bound, in the future again from about 1.84e10 seconds. That wrap-around is not modelled.
- QuickBooks.NewConfig: the scope list is a value. The code stores the caller's slice itself, so the configuration shares its storage with the caller's slice; that aliasing is not modelled.
- Times are whole seconds and `time.Now()` is the parameter `now`. The float value of `x_refresh_token_expires_in` is taken as whole seconds, so its truncation is not modelled.
- The type assertions on the provider, the session, `id_token` (string) and `x_refresh_token_expires_in` (float64) could panic. Here they are guaranteed by the types of the inputs.
- Form-encoded token responses are not modelled; the extras arrive already typed. For such a response the library returns `""` for a missing extra instead of nothing. A missing `id_token` would then overwrite the stored ID token with `""`. A missing or integer `x_refresh_token_expires_in` would make the `float64` type assertion panic.
- `Base64.DecodeString` reports a corrupt input without the byte offset Go puts in `CorruptInputError`.
- Go strings are bytes and the model uses characters. Any non-ASCII character is rejected by the decoder either way, and `.`, `-`, `_` and `=` are single bytes, so the outcomes agree.
- Error texts are kept only for `IncompleteSession`, whose text the provider builds.
- The unused `revocationURL` constant is not modelled.
