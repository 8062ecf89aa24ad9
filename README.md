# Island.is login verifier — Dafny model

This project models the trust decisions of `islandis-login`. That library checks SAML login tokens from Island.is, the Icelandic national e-ID service. Two parts are modelled:

- **`Login`** (`login.dfy`, from `index.js`). This part builds the verifier's options from the defaults `{kennitala: null, verifyDates: true}` and the caller's object. It also models the body of `verify`, which works in this order:
  1. It rejects a token that does not parse (`INVALID-TOKEN-XML`).
  2. It rejects a token that fails the certificate check (`CERTIFICATE-INVALID`).
  3. It reads the claims from the assertion's `AttributeStatement`.
  4. It rejects a token whose `DestinationSSN` is not strictly equal to the configured `kennitala` (`COMPANY-SSN-NOT-MATCHING`).
  5. When `verifyDates` is truthy, it rejects a token unless `NotBefore < now < NotOnOrAfter` (`LOGIN-REQUEST-EXPIRED`).
  6. Otherwise it resolves with the user record.
- **`ValidateSignature`** (`validate_signature.dfy`, from `src/validateSignature.js`). This part models:
  - the `FileKeyInfo` key-info provider;
  - PEM wrapping of the embedded certificate;
  - `getCertificate`'s choice between the PEM string and the PEM file;
  - the identity and validity checks on the signer certificate, whose validity window includes both ends on valid dates and excludes nothing on a NaN bound;
  - the four issuance checks against the Audkenni anchor certificate;
  - the order of `validate`: data check, then XML signature check, then chain check.

Two helper modules support them. `JsValues` (`js_values.dfy`) holds the JavaScript values, their truthiness and `===` against a string. `Wrappers` (`wrappers.dfy`) holds `Option`.

Foreign code becomes a parameter of the model:

- Base64 decoding and XML parsing become the `ParsedToken` input: either `Unparseable`, or a `Document` with the XML text, the certificate body, the attributes and the `Conditions` times.
- `new Date(x).getTime()` becomes a `Timestamp`: milliseconds, or `InvalidDate` for NaN. This covers the assertion's `Conditions` times and the certificate's `validFrom`/`validTo`.
- `Date.now()` becomes the parameter `now`.
- The certificate check that `verify` calls becomes the opaque `validateCert`.
- `Certificate.fromPEM` becomes `decode`.
- The XML-DSig library becomes `signedXml`.
- The certificate library's `verifySubjectKeyIdentifier`, `checkSignature` and `isIssuer` become the `X509Methods` record.

The two layers are linked in one place. `verify` builds its PEM text with the same `CertToPem` that `validate` uses (`index.js:51`, `src/validateSignature.js:95-97`).

Three facts about the code shape the model:
- The relying-party check compares the `DestinationSSN` claim with `options.kennitala`. With the default `null`, every token is rejected.
- `validate` checks the certificate's identity and dates before the XML signature.
- The time window is strict at `NotBefore` as well as at `NotOnOrAfter`. This is stricter than section 2.5.1 of SAML 2.0 Core, where `NotBefore` is inclusive.

## Model

| member | source | states |
|---|---|---|
| `ValidateSignature.FileKeyInfo.GetKeyInfo` | src/validateSignature.js:16-21 | an absent or empty prefix gives `<X509Data></X509Data>`; a prefix `p` gives `<p:X509Data></p:X509Data>` |
| `ValidateSignature.FileKeyInfo.GetKey` | src/validateSignature.js:13-25 | the provider returns exactly the key it was constructed with |
| `ValidateSignature.KeyInfoDeterminesPrefix` | src/validateSignature.js:16-21 | the key-info element ignores the key argument, and equal elements were built with the same effective prefix |
| `ValidateSignature.CheckSignatureUsesSignerKey` | src/validateSignature.js:64-76 | `CheckSignature` hands the XML-DSig library a `FileKeyInfo` built from the signer's PEM text, whose key is exactly that text |
| `ValidateSignature.CertToPem` | src/validateSignature.js:95-97 | the result is the PEM header, then the body, then the footer, with exact lengths |
| `ValidateSignature.PemRoundTrip` | src/validateSignature.js:95-97 | stripping the header and footer from `CertToPem(b)` gives back `b` |
| `ValidateSignature.PemBodyRoundTrip` | src/validateSignature.js:95-97 | every block that has the header and footer is the `CertToPem` wrapping of its body |
| `ValidateSignature.GetCertificate` | src/validateSignature.js:37-41 | the anchor is read from the PEM string exactly when `cert` is not `undefined` (so even a `null` cert counts), and from `certPath` otherwise |
| `ValidateSignature.IsCertificateDataValid` | src/validateSignature.js:43-62 | true iff the subject serial name is `6503760649`, the issuer organisation is `Audkenni hf.`, and no valid bound excludes `now` (`validFrom <= now`, `now <= validTo`); a wrong identity is false whatever the dates |
| `ValidateSignature.DataValidWindowInclusive` | src/validateSignature.js:52-61 | with Audkenni's identity and valid bounds, the check passes iff `validFrom <= now <= validTo`; `now` on either bound passes |
| `ValidateSignature.InvalidBoundsPassDateTest` | src/validateSignature.js:54-58 | bounds that are not valid dates (NaN) reject nothing: with Audkenni's identity the check passes at every time |
| `ValidateSignature.IsCertificateValid` | src/validateSignature.js:78-93 | true iff the anchor's SKI verifies, the certificate's SKI verifies, the anchor's signature check returns null, and the certificate names the anchor as issuer |
| `ValidateSignature.Validate` | src/validateSignature.js:105-135 | resolves iff the certificate decodes, its data is valid, the XML signature verifies, and the issuance checks hold |
| `ValidateSignature.ValidateRejectsWithFirstFailure` | src/validateSignature.js:111-131 | when the library calls return, the rejection carries the decoding error or the message of the first failing stage, in the order data, then signature, then chain |
| `ValidateSignature.DataFailureSkipsLaterChecks` | src/validateSignature.js:115-117 | after a failed data check, the result does not depend on the XML-DSig library, the anchor or the certificate methods |
| `ValidateSignature.SignatureFailureSkipsChainCheck` | src/validateSignature.js:121-123 | after a failed XML signature check, the result is a rejection that does not depend on the anchor or the certificate methods |
| `ValidateSignature.WrongIdentityNeverValidates` | src/validateSignature.js:48-50 | a signer certificate with the wrong serial name or issuer organisation is rejected as not signed by Auðkenni |
| `Login.ExtendDefaults` | index.js:20-28 | the loop leaves `source` overlaid with each own enumerable property in order (`Overlay`) |
| `Login.OverlayKeys` | index.js:20-28 | the merged options have exactly the default keys plus the names of the own properties |
| `Login.OverlayKeepsUnspecified` | index.js:20-28 | a key that no own property names keeps its default value |
| `Login.OverlayLastOwnWins` | index.js:20-28 | the last own property with a given name sets that option |
| `Login.IslandISLogin.constructor` | index.js:5-17 | an object argument gives the defaults extended by its properties; any other argument gives the defaults |
| `Login.ConstructedOptionsDefaults` | index.js:7-17 | without an object argument, or when the object does not set an option, that option has its default value |
| `Login.ClaimOfAbsent` | index.js:70-85 | a claim whose attribute name never appears stays `""` |
| `Login.ClaimOfLast` | index.js:88-133 | a claim equals the value of the last attribute carrying exactly its name |
| `Login.ClaimOfSkips` | index.js:88-133 | an attribute with another name, at any position, does not affect a claim |
| `Login.UnknownAttributeIgnored` | index.js:88-133 | an attribute with an unknown name, at any position, changes no field of the user record |
| `Login.StripFirstDash` | index.js:96-101 | a value with no `-` is unchanged; otherwise its length drops by exactly one |
| `Login.StripFirstDashAt` | index.js:96-101 | only the first `-` is removed: the result is the value with the character at that index cut out |
| `Login.GatherClaims` | index.js:70-133 | the attribute loop builds `Claims(attributes, date)`: each field is the last claim of its name, mobile with its first dash stripped, dates as given |
| `Login.Verify` | index.js:30-171 | the callback body settles exactly once, with `Verdict` |
| `Login.ErrorIdTextsDistinct` | index.js:36-163 | the four rejection ids `INVALID-TOKEN-XML`, `CERTIFICATE-INVALID`, `COMPANY-SSN-NOT-MATCHING` and `LOGIN-REQUEST-EXPIRED` are distinct strings |
| `Login.VerdictStages` | index.js:36-168 | the stages fail fast (parse, certificate, SSN, dates); each rejection id occurs iff its stage is the first to fail; resolves iff all pass |
| `Login.CertificateFailureIgnoresClaims` | index.js:56-66 | when the certificate check fails, the claims and conditions are not read: the rejection does not depend on them |
| `Login.DefaultKennitalaRejectsAll` | index.js:138-145 | with the default `null` kennitala, no token resolves; a parsed, validly signed token is rejected with `COMPANY-SSN-NOT-MATCHING` |
| `Login.ExpiryWindowStrict` | index.js:149-165 | with `verifyDates` truthy, a token that passes the other checks resolves iff `notBefore < now < notOnOrAfter` on valid times; `now` on either bound is rejected as expired |
| `Login.NoExpiryWhenDatesOff` | index.js:149-165 | with `verifyDates` falsy, there is never an expiry rejection, and a token that passes the other checks resolves |
| `Login.ResolvedRecord` | index.js:68-85 | a resolved record holds the extracted claims, its dates are the assertion's `NotBefore`/`NotOnOrAfter`, and its destination equals the configured kennitala |

## Left out

- Base64 decoding and XML parsing in `verify` (`index.js:31-35`) are foreign library calls. The model takes their outcome as the `ParsedToken` input.
- The DOM that `validate` parses at `src/validateSignature.js:107` is not modelled. Only `checkSignature` uses it, so it is part of the opaque `signedXml`, which receives the XML text.
- Source behaviour on a document that parses but lacks the `Response`/`Signature`/`Assertion` shape is not modelled. The source throws inside the parser callback there. The model assumes a parsed document has that shape.
- An attribute value that is not a string is not modelled. The source reads `AttributeValue[0]._` as a string.
- The XML-DSig work in `checkSignature` (`src/validateSignature.js:64-76`) is left out. This covers locating the signature element, canonicalisation, the digest and the RSA check. They are foreign cryptography, represented by the opaque `signedXml`.
- X.509 decoding and the certificate library's cryptographic methods are opaque parameters (`decode`, `X509Methods`). A decoding failure is a rejection carrying the thrown error's message.
- ValidateSignature.Validate: models a throw only from `Certificate.fromPEM`. Exceptions from the XML parser (`src/validateSignature.js:107`), the XML-DSig library (`loadSignature`/`checkSignature`, `src/validateSignature.js:72-73`) and the X.509 methods (`src/validateSignature.js:84-87`) are not modelled. `signedXml` and `X509Methods` are total functions. In the source, such an exception inside the Promise executor rejects `validate` with the thrown value and skips the later stages. The result is still a rejection, but its reason is the thrown value, not a stage message.
- Reading the anchor file in `fromPemFile` (`src/validateSignature.js:28-31`) is I/O. `GetCertificate` returns only which source is read.
- Date-string parsing and `Date.now()` are left out. Times are `Timestamp` values (milliseconds or NaN), and `now` is a parameter.
- JavaScript numbers are integers in `JsValues.Value`. NaN and fractions are not modelled.
- The Promise and callback plumbing is replaced by the `Outcome` and `Validation` datatypes, one value per call.
- The call at `index.js:54` is not reproduced. It destructures a Promise synchronously and passes a PEM where a base64 body is expected. The certificate check in `verify` is the abstract `validateCert`.
- The prototype reassignment at `index.js:30` is not modelled. Because of it, `verify` uses the options of the most recently constructed instance. The model passes the options to `Verify` explicitly.
- Login.ExtendDefaults: models the final contents of the mutated `source` object. It does not model that the same object is returned, or any aliasing with it.
- `src/app.js` is demo code and is not part of this model. `index.test.js` is not part of this model either, because it relies on fixtures that are not available and on an `audienceUrl` option the code never reads.
