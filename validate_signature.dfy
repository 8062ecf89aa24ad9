/**
 * The signer-certificate policy of the Island.is login verifier
 * (src/validateSignature.js): the key-info provider handed to the XML
 * signature library, PEM wrapping of the embedded certificate, the choice of
 * where the trust anchor is read from, the identity and validity checks on
 * the signer certificate, the issuance checks against the Audkenni anchor,
 * and the order in which `validate` runs them.
 *
 * X.509 decoding, the XML-DSig check and the certificate library's
 * cryptographic methods are foreign code: they are parameters here.
 */
module ValidateSignature {

  import opened Wrappers
  import opened JsValues

  // ---------------------------------------------------------------------------
  // Key-info provider
  // ---------------------------------------------------------------------------

  /** The key-info provider given to the XML signature library: it holds the signer's PEM text. */
  datatype FileKeyInfo = FileKeyInfo(key: string) {

    /**
     * The (empty) `X509Data` element the library embeds in a signature,
     * qualified with `prefix` when a non-empty one is given. The `key`
     * argument is accepted and ignored, as in the source.
     */
    function GetKeyInfo(key': string, prefix: Option<string>): (info: string)
      ensures prefix == None || prefix == Some("") ==> info == "<X509Data></X509Data>"
      ensures prefix.Some? && prefix.value != "" ==>
                info == "<" + prefix.value + ":X509Data></" + prefix.value + ":X509Data>"
    {
      var qualifier := if prefix.Some? && prefix.value != "" then prefix.value + ":" else "";
      "<" + qualifier + "X509Data></" + qualifier + "X509Data>"
    }

    /** The key the provider was constructed with. */
    function GetKey(): (k: string)
      ensures k == key
    {
      key
    }
  }

  /** The prefix a `GetKeyInfo` call effectively uses: absent and empty are the same. */
  function EffectivePrefix(prefix: Option<string>): string
  {
    if prefix.Some? then prefix.value else ""
  }

  /** The element `GetKeyInfo` builds does not depend on the key, and it determines the prefix used. */
  lemma KeyInfoDeterminesPrefix(info1: FileKeyInfo, info2: FileKeyInfo, k1: string, k2: string,
                                p1: Option<string>, p2: Option<string>)
    requires info1.GetKeyInfo(k1, p1) == info2.GetKeyInfo(k2, p2)
    ensures EffectivePrefix(p1) == EffectivePrefix(p2)
  {
    var s := info1.GetKeyInfo(k1, p1);
    var e1, e2 := EffectivePrefix(p1), EffectivePrefix(p2);
    if e1 != "" && e2 != "" {
      assert |s| == 2 * |e1| + 23 == 2 * |e2| + 23;
      assert s[1..1 + |e1|] == e1;
      assert s[1..1 + |e2|] == e2;
    } else {
      assert |s| == (if e1 == "" then 21 else 2 * |e1| + 23);
      assert |s| == (if e2 == "" then 21 else 2 * |e2| + 23);
    }
  }

  /**
   * How `checkSignature` wires the XML-DSig library: the library is given a
   * `FileKeyInfo` holding the PEM text, and checks `xml` with that key.
   * The library's own work (locating the signature, canonicalisation,
   * digest and RSA check) is the opaque `signedXml`.
   */
  function CheckSignature(xml: string, pem: string, signedXml: (string, FileKeyInfo) -> bool): bool
  {
    signedXml(xml, FileKeyInfo(pem))
  }

  /** The key the XML-DSig library receives is exactly the signer's PEM text. */
  lemma CheckSignatureUsesSignerKey(xml: string, pem: string, signedXml: (string, FileKeyInfo) -> bool)
    ensures CheckSignature(xml, pem, signedXml) == signedXml(xml, FileKeyInfo(pem))
    ensures FileKeyInfo(pem).GetKey() == pem
  {
  }

  // ---------------------------------------------------------------------------
  // PEM wrapping
  // ---------------------------------------------------------------------------

  const PemHeader: string := "-----BEGIN CERTIFICATE-----\n"
  const PemFooter: string := "\n-----END CERTIFICATE-----"

  /** Wraps the base64 body of a certificate into a PEM certificate block. */
  function CertToPem(body: string): (pem: string)
    ensures |pem| == |PemHeader| + |body| + |PemFooter|
    ensures pem[..|PemHeader|] == PemHeader
    ensures pem[|pem| - |PemFooter|..] == PemFooter
    ensures pem[|PemHeader|..|pem| - |PemFooter|] == body
  {
    PemHeader + body + PemFooter
  }

  /** The body between the PEM header and footer, if `pem` carries both. */
  function PemBody(pem: string): Option<string>
  {
    if |pem| >= |PemHeader| + |PemFooter|
       && pem[..|PemHeader|] == PemHeader
       && pem[|pem| - |PemFooter|..] == PemFooter
    then Some(pem[|PemHeader|..|pem| - |PemFooter|])
    else None
  }

  /** Stripping the header and footer recovers the wrapped body. */
  lemma PemRoundTrip(body: string)
    ensures PemBody(CertToPem(body)) == Some(body)
  {
  }

  /** Every PEM block `PemBody` accepts is the wrapping of the body it returns. */
  lemma PemBodyRoundTrip(pem: string)
    requires PemBody(pem).Some?
    ensures CertToPem(PemBody(pem).value) == pem
  {
  }

  // ---------------------------------------------------------------------------
  // Where the trust anchor comes from
  // ---------------------------------------------------------------------------

  /** The `cert` and `certPath` properties of the options object (absent ones read as `Undefined`). */
  datatype CertificateOptions = CertificateOptions(cert: Value, certPath: Value)

  /** Where `getCertificate` reads the anchor certificate from; reading the file is I/O and left out. */
  datatype CertificateSource = FromPemFile(path: Value) | FromPemString(pem: Value)

  /** `getCertificate`: the PEM string when `cert` is anything but `undefined`, else the file at `certPath`. */
  function GetCertificate(options: CertificateOptions): (source: CertificateSource)
    ensures source.FromPemString? <==> options.cert != Undefined
    ensures source.FromPemString? ==> source.pem == options.cert
    ensures source.FromPemFile? ==> source.path == options.certPath
  {
    if options.cert == Undefined then FromPemFile(options.certPath) else FromPemString(options.cert)
  }

  // ---------------------------------------------------------------------------
  // Certificate policy
  // ---------------------------------------------------------------------------

  /**
   * The fields of a decoded X.509 certificate the policy looks at; the
   * validity bounds are the times `new Date(validFrom).getTime()` and
   * `new Date(validTo).getTime()` give, NaN included.
   */
  datatype Certificate = Certificate(
    subjectSerialName: string,
    issuerOrganizationName: string,
    validFrom: Timestamp,
    validTo: Timestamp,
    der: seq<bv8>)

  const AudkenniSerialName: string := "6503760649"
  const AudkenniOrganizationName: string := "Audkenni hf."

  /**
   * `isCertificateDataValid`: the subject serial name and the issuer's
   * organisation are Audkenni's, and `now` is not outside the validity
   * window. On valid bounds that is `validFrom <= now <= validTo`, both ends
   * included; a NaN bound excludes nothing, since every comparison with it
   * is false.
   */
  function IsCertificateDataValid(cert: Certificate, now: int): (valid: bool)
    ensures valid <==>
              && cert.subjectSerialName == AudkenniSerialName
              && cert.issuerOrganizationName == AudkenniOrganizationName
              && (cert.validFrom.Millis? ==> cert.validFrom.ms <= now)
              && (cert.validTo.Millis? ==> now <= cert.validTo.ms)
  {
    if cert.subjectSerialName != AudkenniSerialName || cert.issuerOrganizationName != AudkenniOrganizationName then
      false
    else if Before(Millis(now), cert.validFrom) || Before(cert.validTo, Millis(now)) then
      false
    else
      true
  }

  /** On valid bounds the date test is the inclusive window: `now` on either bound passes. */
  lemma DataValidWindowInclusive(cert: Certificate, now: int)
    requires cert.subjectSerialName == AudkenniSerialName
    requires cert.issuerOrganizationName == AudkenniOrganizationName
    requires cert.validFrom.Millis? && cert.validTo.Millis?
    ensures IsCertificateDataValid(cert, now) <==> cert.validFrom.ms <= now <= cert.validTo.ms
    ensures cert.validFrom.ms <= cert.validTo.ms && (now == cert.validFrom.ms || now == cert.validTo.ms) ==>
              IsCertificateDataValid(cert, now)
  {
  }

  /**
   * A validity bound that is not a valid date does not reject: with both
   * bounds NaN, a certificate with Audkenni's identity passes the data check
   * at every time.
   */
  lemma InvalidBoundsPassDateTest(cert: Certificate, now: int)
    requires cert.subjectSerialName == AudkenniSerialName
    requires cert.issuerOrganizationName == AudkenniOrganizationName
    requires cert.validFrom == InvalidDate && cert.validTo == InvalidDate
    ensures IsCertificateDataValid(cert, now)
  {
  }

  /**
   * The certificate library's methods, opaque: `verifySubjectKeyIdentifier`
   * of a certificate, `checkSignature(issuer, subject)` which is `None` where
   * the library returns `null` and `Some(message)` where it returns an
   * error, and `isIssuer(subject, issuer)`.
   */
  datatype X509Methods = X509Methods(
    verifySubjectKeyIdentifier: Certificate -> bool,
    checkSignature: (Certificate, Certificate) -> Option<string>,
    isIssuer: (Certificate, Certificate) -> bool)

  /** `isCertificateValid`: the four issuance checks of the signer certificate against the Audkenni anchor. */
  function IsCertificateValid(certificate: Certificate, audkenniCert: Certificate, x509: X509Methods): (valid: bool)
    ensures valid <==>
              && x509.verifySubjectKeyIdentifier(audkenniCert)
              && x509.verifySubjectKeyIdentifier(certificate)
              && x509.checkSignature(audkenniCert, certificate) == None
              && x509.isIssuer(certificate, audkenniCert)
  {
    if x509.verifySubjectKeyIdentifier(audkenniCert)
       && x509.verifySubjectKeyIdentifier(certificate)
       && x509.checkSignature(audkenniCert, certificate).None?
       && x509.isIssuer(certificate, audkenniCert)
    then true
    else false
  }

  // ---------------------------------------------------------------------------
  // The validation order
  // ---------------------------------------------------------------------------

  /** What `Certificate.fromPEM` gives: a certificate, or the message of the error it throws. */
  datatype CertificateDecoding = Decoded(cert: Certificate) | DecodeError(message: string)

  /** The settled state of the promise `validate` returns. */
  datatype Validation = Resolved | Rejected(reason: string)

  const NotSignedByAudkenni: string := "XML message is not signed by Auðkenni."
  const XmlSignatureInvalid: string := "XML signature is invalid."
  const NotSignedByRegistry: string := "The XML document is not signed by Þjóðskrá Íslands."

  /**
   * `validate(xml, signature, audkenniCert)`: wraps the embedded certificate
   * into PEM, decodes it, then checks its data, the XML signature and its
   * issuance, in that order, rejecting with the first failure's message.
   */
  function Validate(xml: string, signature: string, audkenniCert: Certificate,
                    decode: string -> CertificateDecoding, signedXml: (string, FileKeyInfo) -> bool,
                    x509: X509Methods, now: int): (v: Validation)
    ensures v.Resolved? <==>
              var d := decode(CertToPem(signature));
              && d.Decoded?
              && IsCertificateDataValid(d.cert, now)
              && CheckSignature(xml, CertToPem(signature), signedXml)
              && IsCertificateValid(d.cert, audkenniCert, x509)
  {
    var pem := CertToPem(signature);
    match decode(pem)
    case DecodeError(message) => Rejected(message)
    case Decoded(cert) =>
      if !IsCertificateDataValid(cert, now) then
        Rejected(NotSignedByAudkenni)
      else if !CheckSignature(xml, pem, signedXml) then
        Rejected(XmlSignatureInvalid)
      else if !IsCertificateValid(cert, audkenniCert, x509) then
        Rejected(NotSignedByRegistry)
      else
        Resolved
  }

  /** Each rejection carries the message of the first stage that failed. */
  lemma ValidateRejectsWithFirstFailure(xml: string, signature: string, audkenniCert: Certificate,
                                        decode: string -> CertificateDecoding,
                                        signedXml: (string, FileKeyInfo) -> bool, x509: X509Methods, now: int)
    ensures var pem := CertToPem(signature);
            var v := Validate(xml, signature, audkenniCert, decode, signedXml, x509, now);
            && (decode(pem).DecodeError? ==> v == Rejected(decode(pem).message))
            && (decode(pem).Decoded? && !IsCertificateDataValid(decode(pem).cert, now) ==>
                  v == Rejected(NotSignedByAudkenni))
            && (decode(pem).Decoded? && IsCertificateDataValid(decode(pem).cert, now)
                && !CheckSignature(xml, pem, signedXml) ==>
                  v == Rejected(XmlSignatureInvalid))
            && (decode(pem).Decoded? && IsCertificateDataValid(decode(pem).cert, now)
                && CheckSignature(xml, pem, signedXml)
                && !IsCertificateValid(decode(pem).cert, audkenniCert, x509) ==>
                  v == Rejected(NotSignedByRegistry))
  {
  }

  /**
   * When the certificate data check fails, neither the XML signature check
   * nor the issuance checks are consulted: any other XML-DSig library, anchor
   * or certificate methods give the same rejection.
   */
  lemma DataFailureSkipsLaterChecks(xml: string, signature: string, anchor1: Certificate, anchor2: Certificate,
                                    decode: string -> CertificateDecoding,
                                    signedXml1: (string, FileKeyInfo) -> bool, signedXml2: (string, FileKeyInfo) -> bool,
                                    x509a: X509Methods, x509b: X509Methods, now: int)
    requires decode(CertToPem(signature)).Decoded?
    requires !IsCertificateDataValid(decode(CertToPem(signature)).cert, now)
    ensures Validate(xml, signature, anchor1, decode, signedXml1, x509a, now)
         == Validate(xml, signature, anchor2, decode, signedXml2, x509b, now)
         == Rejected(NotSignedByAudkenni)
  {
  }

  /** When the XML signature check fails, the issuance checks are not consulted. */
  lemma SignatureFailureSkipsChainCheck(xml: string, signature: string, anchor1: Certificate, anchor2: Certificate,
                                        decode: string -> CertificateDecoding, signedXml: (string, FileKeyInfo) -> bool,
                                        x509a: X509Methods, x509b: X509Methods, now: int)
    requires decode(CertToPem(signature)).Decoded?
    requires !CheckSignature(xml, CertToPem(signature), signedXml)
    ensures Validate(xml, signature, anchor1, decode, signedXml, x509a, now).Rejected?
    ensures Validate(xml, signature, anchor1, decode, signedXml, x509a, now)
         == Validate(xml, signature, anchor2, decode, signedXml, x509b, now)
  {
  }

  /** A signer certificate not issued to Audkenni's serial name or not from Audkenni is never accepted. */
  lemma WrongIdentityNeverValidates(xml: string, signature: string, audkenniCert: Certificate,
                                    decode: string -> CertificateDecoding,
                                    signedXml: (string, FileKeyInfo) -> bool, x509: X509Methods, now: int)
    requires decode(CertToPem(signature)).Decoded?
    requires var c := decode(CertToPem(signature)).cert;
             c.subjectSerialName != AudkenniSerialName || c.issuerOrganizationName != AudkenniOrganizationName
    ensures Validate(xml, signature, audkenniCert, decode, signedXml, x509, now) == Rejected(NotSignedByAudkenni)
  {
  }

}
