/**
 * The Island.is login verifier (index.js): building the options from the
 * defaults and the caller's object, and the body of `verify`, which rejects
 * an unparseable token, then a token whose certificate check fails, then
 * reads the claims of the SAML assertion's attribute statement, then
 * rejects a token addressed to another company's kennitala, then (when
 * `verifyDates` is on) an expired one, and otherwise resolves with the
 * user record.
 *
 * Base64 decoding, XML parsing and date-string parsing are foreign code:
 * their results are inputs. The certificate check is the abstract
 * `validateCert` parameter and `Date.now()` is the parameter `now`.
 */
module Login {

  import opened JsValues
  import opened ValidateSignature

  // ---------------------------------------------------------------------------
  // Options
  // ---------------------------------------------------------------------------

  /** An option object's contents: property name to value. */
  type Options = map<string, Value>

  /** A property `for ... in` enumerates on the caller's object; `own` is what `hasOwnProperty` answers. */
  datatype Property = Property(name: string, value: Value, own: bool)

  /**
   * The constructor's first argument, as the JavaScript test
   * `arguments[0] && typeof arguments[0] === "object"` classifies it: an
   * object, with its enumerable properties in enumeration order, or anything
   * else (absent, `null`, a primitive, a function).
   */
  datatype Argument = NotAnObject | AnObject(properties: seq<Property>)

  function Defaults(): Options
  {
    map["kennitala" := Null, "verifyDates" := Bool(true)]
  }

  /** Reading a property: a missing one is `undefined`. */
  function Get(options: Options, name: string): Value
  {
    if name in options then options[name] else Undefined
  }

  /** `source` after each own property of `properties`, in order, has been assigned over it. */
  function Overlay(source: Options, properties: seq<Property>): Options
  {
    if properties == [] then source
    else
      var before := Overlay(source, properties[..|properties| - 1]);
      var last := properties[|properties| - 1];
      if last.own then before[last.name := last.value] else before
  }

  /** `extendDefaults(source, properties)`: copies every own enumerable property over `source`. */
  method ExtendDefaults(source: Options, properties: seq<Property>) returns (result: Options)
    ensures result == Overlay(source, properties)
  {
    result := source;
    var i := 0;
    while i < |properties|
      invariant 0 <= i <= |properties|
      invariant result == Overlay(source, properties[..i])
    {
      var property := properties[i];
      if property.own {
        result := result[property.name := property.value];
      }
      assert properties[..i + 1][..i] == properties[..i];
      i := i + 1;
    }
    assert properties[..i] == properties;
  }

  /** True when some own property of `properties` is named `name`. */
  predicate Overrides(properties: seq<Property>, name: string)
  {
    exists i :: 0 <= i < |properties| && properties[i].own && properties[i].name == name
  }

  /** The merged options hold exactly the keys of the source and the names of the own properties. */
  lemma {:induction false} OverlayKeys(source: Options, properties: seq<Property>, name: string)
    ensures name in Overlay(source, properties) <==> name in source || Overrides(properties, name)
  {
    if properties != [] {
      var init := properties[..|properties| - 1];
      OverlayKeys(source, init, name);
      if Overrides(properties, name) && !Overrides(init, name) {
        assert properties[|properties| - 1].name == name;
      }
      if Overrides(init, name) {
        var i :| 0 <= i < |init| && init[i].own && init[i].name == name;
        assert properties[i] == init[i];
      }
    }
  }

  /** A key no own property names keeps the source's value. */
  lemma {:induction false} OverlayKeepsUnspecified(source: Options, properties: seq<Property>, name: string)
    requires name in source
    requires !Overrides(properties, name)
    ensures name in Overlay(source, properties) && Overlay(source, properties)[name] == source[name]
  {
    if properties != [] {
      var init := properties[..|properties| - 1];
      assert forall i :: 0 <= i < |init| ==> init[i] == properties[i];
      OverlayKeepsUnspecified(source, init, name);
    }
  }

  /** The last own property with a given name decides that option's value. */
  lemma {:induction false} OverlayLastOwnWins(source: Options, properties: seq<Property>, j: nat)
    requires j < |properties| && properties[j].own
    requires forall i :: j < i < |properties| && properties[i].own ==> properties[i].name != properties[j].name
    ensures properties[j].name in Overlay(source, properties)
    ensures Overlay(source, properties)[properties[j].name] == properties[j].value
  {
    var init := properties[..|properties| - 1];
    if j < |properties| - 1 {
      OverlayLastOwnWins(source, init, j);
    }
  }

  /** An instance of the login verifier; its options are fixed by the constructor. */
  class IslandISLogin {
    var options: Options

    constructor (arg: Argument)
      ensures options == if arg.AnObject? then Overlay(Defaults(), arg.properties) else Defaults()
    {
      if arg.AnObject? {
        var merged := ExtendDefaults(Defaults(), arg.properties);
        options := merged;
      } else {
        options := Defaults();
      }
    }
  }

  /**
   * Without an object argument the options are the defaults; with one, an
   * option the caller did not set keeps its default value.
   */
  lemma ConstructedOptionsDefaults(arg: Argument, name: string)
    requires name in Defaults()
    requires arg.AnObject? ==> !Overrides(arg.properties, name)
    ensures var options := if arg.AnObject? then Overlay(Defaults(), arg.properties) else Defaults();
            Get(options, name) == Defaults()[name]
  {
    if arg.AnObject? {
      OverlayKeepsUnspecified(Defaults(), arg.properties, name);
    }
  }

  // ---------------------------------------------------------------------------
  // The parsed token
  // ---------------------------------------------------------------------------

  /** One `Attribute` of the assertion's `AttributeStatement`: its `Name` and the text of its first value. */
  datatype Attribute = Attribute(name: string, value: string)

  /** The validity window of the assertion's `Conditions`. */
  datatype Dates = Dates(notBefore: Timestamp, notOnOrAfter: Timestamp)

  /**
   * What the verifier reads from a parsed token: the decoded XML text, the
   * base64 body of the embedded `X509Certificate`, the attributes, and the
   * `NotBefore`/`NotOnOrAfter` times of the `Conditions`.
   */
  datatype Document = Document(xml: string, x509Certificate: string, attributes: seq<Attribute>, conditions: Dates)

  /** The outcome of decoding and parsing the token. */
  datatype ParsedToken = Unparseable | Parsed(doc: Document)

  /** The abstract certificate check: whether the document is validly signed, and why not. */
  datatype CertCheck = CertCheck(isValid: bool, certErr: string)

  // ---------------------------------------------------------------------------
  // Claims
  // ---------------------------------------------------------------------------

  /** The user record `verify` resolves with. */
  datatype User = User(
    kennitala: string,
    mobile: string,
    fullname: string,
    ip: string,
    userAgent: string,
    destinationSSN: string,
    date: Dates,
    authId: string,
    authenticationMethod: string)

  /** The attribute names the verifier reads; any other name is ignored. */
  const KnownNames: set<string> :=
    {"UserSSN", "Mobile", "Name", "IPAddress", "UserAgent", "AuthID", "Authentication", "DestinationSSN"}

  /** The value of the last attribute named exactly `name`, or `""` when there is none. */
  function ClaimOf(attributes: seq<Attribute>, name: string): string
  {
    if attributes == [] then ""
    else if attributes[|attributes| - 1].name == name then attributes[|attributes| - 1].value
    else ClaimOf(attributes[..|attributes| - 1], name)
  }

  /** A name that no attribute carries yields the empty claim. */
  lemma {:induction false} ClaimOfAbsent(attributes: seq<Attribute>, name: string)
    requires forall i :: 0 <= i < |attributes| ==> attributes[i].name != name
    ensures ClaimOf(attributes, name) == ""
  {
    if attributes != [] {
      ClaimOfAbsent(attributes[..|attributes| - 1], name);
    }
  }

  /** The claim is the value of the last attribute carrying that name: later ones overwrite earlier ones. */
  lemma {:induction false} ClaimOfLast(attributes: seq<Attribute>, j: nat)
    requires j < |attributes|
    requires forall i :: j < i < |attributes| ==> attributes[i].name != attributes[j].name
    ensures ClaimOf(attributes, attributes[j].name) == attributes[j].value
  {
    if j < |attributes| - 1 {
      ClaimOfLast(attributes[..|attributes| - 1], j);
    }
  }

  /** `s.replace("-", "")` with a string pattern: only the first `-` is removed. */
  function StripFirstDash(s: string): (r: string)
    ensures '-' !in s ==> r == s
    ensures '-' in s ==> |r| == |s| - 1
  {
    if s == [] then s
    else if s[0] == '-' then s[1..]
    else [s[0]] + StripFirstDash(s[1..])
  }

  /** Where the first `-` is at `i`, the result is the string with that one character cut out. */
  lemma {:induction false} StripFirstDashAt(s: string, i: nat)
    requires i < |s| && s[i] == '-' && '-' !in s[..i]
    ensures StripFirstDash(s) == s[..i] + s[i + 1..]
  {
    if i > 0 {
      assert s[0] != '-' by { assert s[0] == s[..i][0]; }
      assert s[1..][..i - 1] == s[1..i];
      StripFirstDashAt(s[1..], i - 1);
      assert [s[0]] + s[1..i] == s[..i];
    }
  }

  /** The user record the attribute loop builds from `attributes`, starting from empty claims. */
  function Claims(attributes: seq<Attribute>, date: Dates): User
  {
    User(
      kennitala := ClaimOf(attributes, "UserSSN"),
      mobile := StripFirstDash(ClaimOf(attributes, "Mobile")),
      fullname := ClaimOf(attributes, "Name"),
      ip := ClaimOf(attributes, "IPAddress"),
      userAgent := ClaimOf(attributes, "UserAgent"),
      destinationSSN := ClaimOf(attributes, "DestinationSSN"),
      date := date,
      authId := ClaimOf(attributes, "AuthID"),
      authenticationMethod := ClaimOf(attributes, "Authentication"))
  }

  /** An attribute with another name, wherever it stands, does not affect a claim. */
  lemma {:induction false} ClaimOfSkips(before: seq<Attribute>, a: Attribute, after: seq<Attribute>, name: string)
    requires a.name != name
    ensures ClaimOf(before + [a] + after, name) == ClaimOf(before + after, name)
  {
    if after == [] {
      assert before + [a] + after == before + [a];
      assert (before + [a])[..|before|] == before;
      assert before + after == before;
    } else {
      var init := after[..|after| - 1];
      ClaimOfSkips(before, a, init, name);
      assert (before + [a] + after)[..|before + [a] + after| - 1] == before + [a] + init;
      assert (before + after)[..|before + after| - 1] == before + init;
    }
  }

  /** An attribute whose name is not one the verifier knows, at any position, changes no field of the record. */
  lemma UnknownAttributeIgnored(before: seq<Attribute>, a: Attribute, after: seq<Attribute>, date: Dates)
    requires a.name !in KnownNames
    ensures Claims(before + [a] + after, date) == Claims(before + after, date)
  {
    forall name | name in KnownNames
      ensures ClaimOf(before + [a] + after, name) == ClaimOf(before + after, name)
    {
      ClaimOfSkips(before, a, after, name);
    }
  }

  /**
   * The attribute loop of `verify`: for each attribute, by exact name, set
   * the matching field of the user record (the mobile number with its first
   * `-` stripped); fields whose name never appears stay `""`.
   */
  method GatherClaims(attributes: seq<Attribute>, date: Dates) returns (user: User)
    ensures user == Claims(attributes, date)
  {
    user := User("", "", "", "", "", "", date, "", "");
    var i := 0;
    while i < |attributes|
      invariant 0 <= i <= |attributes|
      invariant user == Claims(attributes[..i], date)
    {
      var attribute := attributes[i];
      assert attributes[..i + 1][..i] == attributes[..i];
      if attribute.name == "UserSSN" {
        user := user.(kennitala := attribute.value);
      } else if attribute.name == "Mobile" {
        user := user.(mobile := StripFirstDash(attribute.value));
      } else if attribute.name == "Name" {
        user := user.(fullname := attribute.value);
      } else if attribute.name == "IPAddress" {
        user := user.(ip := attribute.value);
      } else if attribute.name == "UserAgent" {
        user := user.(userAgent := attribute.value);
      } else if attribute.name == "AuthID" {
        user := user.(authId := attribute.value);
      } else if attribute.name == "Authentication" {
        user := user.(authenticationMethod := attribute.value);
      } else if attribute.name == "DestinationSSN" {
        user := user.(destinationSSN := attribute.value);
      }
      i := i + 1;
    }
    assert attributes[..i] == attributes;
  }

  // ---------------------------------------------------------------------------
  // The verdict
  // ---------------------------------------------------------------------------

  /** The `id` of a rejection. */
  datatype ErrorId = InvalidTokenXml | CertificateInvalid | CompanySsnNotMatching | LoginRequestExpired
  {
    /** The machine-readable `id` string of the rejection object. */
    function Text(): string
    {
      match this
      case InvalidTokenXml => "INVALID-TOKEN-XML"
      case CertificateInvalid => "CERTIFICATE-INVALID"
      case CompanySsnNotMatching => "COMPANY-SSN-NOT-MATCHING"
      case LoginRequestExpired => "LOGIN-REQUEST-EXPIRED"
    }
  }

  const InvalidTokenXmlReason: string := "Invalid login token - cannot parse XML from Island.is."
  const CompanySsnReason: string := "Company kennitala provided must match data from Island.is."
  const ExpiredReason: string := "Login request has expired."

  /** The four rejection ids are distinct strings, so a caller can tell which stage rejected. */
  lemma ErrorIdTextsDistinct(e1: ErrorId, e2: ErrorId)
    ensures e1.Text() == e2.Text() <==> e1 == e2
  {
  }

  /** The one settlement of the promise `verify` returns. */
  datatype Outcome = Resolve(user: User) | Reject(id: ErrorId, reason: string)

  /** The assertion's window contains `now`, strictly at both ends, as `now < notOnOrAfter && now > notBefore`. */
  predicate WithinWindow(now: int, date: Dates)
  {
    Before(Millis(now), date.notOnOrAfter) && Before(date.notBefore, Millis(now))
  }

  /** The outcome `verify` settles with, given the options, the parsed token, the certificate check and the clock. */
  function Verdict(options: Options, parsed: ParsedToken, validateCert: (string, string) -> CertCheck, now: int): Outcome
  {
    match parsed
    case Unparseable => Reject(InvalidTokenXml, InvalidTokenXmlReason)
    case Parsed(doc) =>
      var check := validateCert(doc.xml, CertToPem(doc.x509Certificate));
      if !check.isValid then
        Reject(CertificateInvalid, check.certErr)
      else
        var user := Claims(doc.attributes, doc.conditions);
        if !StrictEqualsString(user.destinationSSN, Get(options, "kennitala")) then
          Reject(CompanySsnNotMatching, CompanySsnReason)
        else if Truthy(Get(options, "verifyDates")) && !WithinWindow(now, user.date) then
          Reject(LoginRequestExpired, ExpiredReason)
        else
          Resolve(user)
  }

  /** The body of `verify`, run for one token; it settles exactly once, with the verdict. */
  method Verify(options: Options, parsed: ParsedToken, validateCert: (string, string) -> CertCheck, now: int)
    returns (outcome: Outcome)
    ensures outcome == Verdict(options, parsed, validateCert, now)
  {
    if parsed.Unparseable? {
      return Reject(InvalidTokenXml, InvalidTokenXmlReason);
    }
    var doc := parsed.doc;
    var cert := CertToPem(doc.x509Certificate);
    var check := validateCert(doc.xml, cert);
    if !check.isValid {
      return Reject(CertificateInvalid, check.certErr);
    }
    var user := GatherClaims(doc.attributes, doc.conditions);
    if !StrictEqualsString(user.destinationSSN, Get(options, "kennitala")) {
      return Reject(CompanySsnNotMatching, CompanySsnReason);
    }
    if Truthy(Get(options, "verifyDates")) {
      if !(Before(Millis(now), user.date.notOnOrAfter) && Before(user.date.notBefore, Millis(now))) {
        return Reject(LoginRequestExpired, ExpiredReason);
      }
    }
    return Resolve(user);
  }

  /** Whether the parsed token passed the parse and certificate stages. */
  predicate PassesCertificate(parsed: ParsedToken, validateCert: (string, string) -> CertCheck)
  {
    parsed.Parsed? && validateCert(parsed.doc.xml, CertToPem(parsed.doc.x509Certificate)).isValid
  }

  /** The destination kennitala the token's claims carry (meaningful once parsed). */
  function DestinationOf(parsed: ParsedToken): string
  {
    if parsed.Parsed? then ClaimOf(parsed.doc.attributes, "DestinationSSN") else ""
  }

  /**
   * The stages fail fast, in order: each rejection id occurs exactly when
   * its stage is the first to fail, and the token resolves exactly when all
   * stages pass.
   */
  lemma VerdictStages(options: Options, parsed: ParsedToken, validateCert: (string, string) -> CertCheck, now: int)
    ensures var v := Verdict(options, parsed, validateCert, now);
            && (v.Reject? && v.id == InvalidTokenXml <==> parsed.Unparseable?)
            && (v.Reject? && v.id == CertificateInvalid <==> parsed.Parsed? && !PassesCertificate(parsed, validateCert))
            && (v.Reject? && v.id == CompanySsnNotMatching <==>
                  PassesCertificate(parsed, validateCert)
                  && !StrictEqualsString(DestinationOf(parsed), Get(options, "kennitala")))
            && (v.Reject? && v.id == LoginRequestExpired <==>
                  PassesCertificate(parsed, validateCert)
                  && StrictEqualsString(DestinationOf(parsed), Get(options, "kennitala"))
                  && Truthy(Get(options, "verifyDates"))
                  && !WithinWindow(now, parsed.doc.conditions))
            && (v.Resolve? <==>
                  PassesCertificate(parsed, validateCert)
                  && StrictEqualsString(DestinationOf(parsed), Get(options, "kennitala"))
                  && (Truthy(Get(options, "verifyDates")) ==> WithinWindow(now, parsed.doc.conditions)))
  {
  }

  /**
   * When the certificate check fails, the claims and conditions are never
   * read: any other attributes or window give the same rejection.
   */
  lemma CertificateFailureIgnoresClaims(options: Options, doc: Document, attributes: seq<Attribute>, conditions: Dates,
                                        validateCert: (string, string) -> CertCheck, now: int)
    requires !validateCert(doc.xml, CertToPem(doc.x509Certificate)).isValid
    ensures Verdict(options, Parsed(doc), validateCert, now)
         == Verdict(options, Parsed(doc.(attributes := attributes, conditions := conditions)), validateCert, now)
         == Reject(CertificateInvalid, validateCert(doc.xml, CertToPem(doc.x509Certificate)).certErr)
  {
  }

  /**
   * With the default `kennitala` (`null`) left in place, no token is ever
   * accepted: a parsed, validly signed token is rejected as addressed to
   * another company, since the destination claim is always a string.
   */
  lemma DefaultKennitalaRejectsAll(arg: Argument, parsed: ParsedToken, validateCert: (string, string) -> CertCheck, now: int)
    requires arg.AnObject? ==> !Overrides(arg.properties, "kennitala")
    ensures var options := if arg.AnObject? then Overlay(Defaults(), arg.properties) else Defaults();
            var v := Verdict(options, parsed, validateCert, now);
            && !v.Resolve?
            && (PassesCertificate(parsed, validateCert) ==> v == Reject(CompanySsnNotMatching, CompanySsnReason))
  {
    ConstructedOptionsDefaults(arg, "kennitala");
  }

  /**
   * With `verifyDates` truthy, a token that passed every other check is
   * accepted exactly when both bounds are valid times and
   * `notBefore < now < notOnOrAfter`; `now` on either bound is expired.
   */
  lemma ExpiryWindowStrict(options: Options, doc: Document, validateCert: (string, string) -> CertCheck, now: int)
    requires validateCert(doc.xml, CertToPem(doc.x509Certificate)).isValid
    requires StrictEqualsString(ClaimOf(doc.attributes, "DestinationSSN"), Get(options, "kennitala"))
    requires Truthy(Get(options, "verifyDates"))
    ensures var v := Verdict(options, Parsed(doc), validateCert, now);
            && (v.Resolve? <==>
                  && doc.conditions.notBefore.Millis?
                  && doc.conditions.notOnOrAfter.Millis?
                  && doc.conditions.notBefore.ms < now < doc.conditions.notOnOrAfter.ms)
            && (v.Reject? ==> v == Reject(LoginRequestExpired, ExpiredReason))
            && ((doc.conditions.notBefore == Millis(now) || doc.conditions.notOnOrAfter == Millis(now)) ==>
                  v == Reject(LoginRequestExpired, ExpiredReason))
  {
  }

  /** With `verifyDates` falsy, no token is rejected as expired, whatever its window and the clock. */
  lemma NoExpiryWhenDatesOff(options: Options, parsed: ParsedToken, validateCert: (string, string) -> CertCheck, now: int)
    requires !Truthy(Get(options, "verifyDates"))
    ensures var v := Verdict(options, parsed, validateCert, now);
            && !(v.Reject? && v.id == LoginRequestExpired)
            && ((PassesCertificate(parsed, validateCert)
                 && StrictEqualsString(DestinationOf(parsed), Get(options, "kennitala"))) ==> v.Resolve?)
  {
  }

  /**
   * A resolved record carries the claims of the attribute statement and,
   * as its dates, the assertion's `NotBefore` and `NotOnOrAfter`; its
   * destination kennitala is the configured one.
   */
  lemma ResolvedRecord(options: Options, parsed: ParsedToken, validateCert: (string, string) -> CertCheck, now: int)
    requires Verdict(options, parsed, validateCert, now).Resolve?
    ensures var u := Verdict(options, parsed, validateCert, now).user;
            && parsed.Parsed?
            && u == Claims(parsed.doc.attributes, parsed.doc.conditions)
            && u.date.notBefore == parsed.doc.conditions.notBefore
            && u.date.notOnOrAfter == parsed.doc.conditions.notOnOrAfter
            && Get(options, "kennitala") == Str(u.destinationSSN)
  {
  }

}
