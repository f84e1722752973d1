/**
 * The self-signed certificate that `generateSelfSignedCert` builds (server.js:84-148),
 * as an abstract record of the fields it sets. Key generation, signing and PEM encoding
 * are node-forge's foreign calls: the model receives their results as an oracle value.
 */
module SelfSignedCert {
  import opened Wrappers
  import opened Calendar

  datatype Attribute = Attribute(name: string, value: string)

  /** A subjectAltName entry: GeneralName type 2 (DNS name) or type 7 (IP address). */
  datatype AltName = Dns(host: string) | Ip(address: string)

  datatype Extension =
    | BasicConstraints(cA: bool)
    | KeyUsage(usages: set<string>)
    | ExtKeyUsage(purposes: set<string>)
    | NsCertType(types: set<string>)
    | SubjectAltName(names: seq<AltName>)

  datatype Validity = Validity(notBefore: DateTime, notAfter: DateTime)

  datatype KeyPair = KeyPair(publicKey: Bytes, privateKey: Bytes)

  datatype Certificate = Certificate(
    serialNumber: string,
    publicKey: Bytes,
    validity: Validity,
    subject: seq<Attribute>,
    issuer: seq<Attribute>,
    extensions: seq<Extension>)

  /** The value of the first attribute called `name`, as a distinguished-name lookup finds it. */
  function AttributeValue(attrs: seq<Attribute>, name: string): (r: Option<string>)
    ensures r.Some? ==> exists i :: 0 <= i < |attrs| && attrs[i] == Attribute(name, r.value) && NoneNamedBefore(attrs, name, i)
    ensures r.None? ==> forall i :: 0 <= i < |attrs| ==> attrs[i].name != name
  {
    if |attrs| == 0 then None
    else if attrs[0].name == name then
      assert attrs[0] == Attribute(name, attrs[0].value) && NoneNamedBefore(attrs, name, 0);
      Some(attrs[0].value)
    else
      var r := AttributeValue(attrs[1..], name);
      if r.Some? then
        var i :| 0 <= i < |attrs[1..]| && attrs[1..][i] == Attribute(name, r.value) && NoneNamedBefore(attrs[1..], name, i);
        assert attrs[i + 1] == Attribute(name, r.value) && NoneNamedBefore(attrs, name, i + 1);
        r
      else
        assert forall i :: 1 <= i < |attrs| ==> attrs[1..][i - 1] == attrs[i];
        r
  }

  /** No attribute before position `i` is called `name`. */
  predicate NoneNamedBefore(attrs: seq<Attribute>, name: string, i: int)
    requires 0 <= i <= |attrs|
  {
    forall j :: 0 <= j < i ==> attrs[j].name != name
  }

  /** Some subjectAltName extension lists `n`. */
  predicate HasAltName(exts: seq<Extension>, n: AltName) {
    exists i :: 0 <= i < |exts| && exts[i].SubjectAltName? && n in exts[i].names
  }

  /** Some basicConstraints extension marks the certificate as a CA. */
  predicate IsAuthority(exts: seq<Extension>) {
    exists i :: 0 <= i < |exts| && exts[i] == BasicConstraints(true)
  }

  /** Some extKeyUsage extension allows `purpose`. */
  predicate AllowsPurpose(exts: seq<Extension>, purpose: string) {
    exists i :: 0 <= i < |exts| && exts[i].ExtKeyUsage? && purpose in exts[i].purposes
  }

  /** The distinguished name used as both subject and issuer (server.js:95-101). */
  const LocalhostName: seq<Attribute> :=
    [Attribute("commonName", "localhost"), Attribute("organizationName", "Last.fm Dashboard")]

  /** The extensions of server.js:105-140, in their order. */
  const LocalhostExtensions: seq<Extension> := [
    BasicConstraints(true),
    KeyUsage({"keyCertSign", "digitalSignature", "nonRepudiation", "keyEncipherment", "dataEncipherment"}),
    ExtKeyUsage({"serverAuth", "clientAuth", "codeSigning", "emailProtection", "timeStamping"}),
    NsCertType({"client", "server", "email", "objsign", "sslCA", "emailCA", "objCA"}),
    SubjectAltName([Dns("localhost"), Ip("127.0.0.1")])
  ]

  /**
   * The validity period as server.js:91-93 computes it: `notBefore` is one clock reading,
   * `notAfter` a second reading whose year is then set to `notBefore`'s year + 1. The wall
   * clock may step back between the two readings.
   */
  function ValidityAsWritten(first: DateTime, second: DateTime): (v: Validity)
    requires Valid(first) && Valid(second)
    ensures v.notBefore == first
    ensures v.notAfter.year == v.notBefore.year + 1
  {
    Validity(first, SetFullYear(second, first.year + 1))
  }

  /**
   * When the clock passes New Year's midnight between the two readings, the period written
   * above is one millisecond long instead of one year.
   */
  lemma ValidityAsWrittenCounterexample()
    ensures var v := ValidityAsWritten(DateTime(2025, 11, 31, MillisPerDay - 1), DateTime(2026, 0, 1, 0));
      v.notAfter == DateTime(2026, 0, 1, 0) && v.notAfter != ValidityFrom(v.notBefore).notAfter
  {
  }

  /**
   * When the clock steps back over New Year's midnight between the two readings, the period
   * written above is nearly two years long.
   */
  lemma ValidityAsWrittenClockStepBack()
    ensures var v := ValidityAsWritten(DateTime(2026, 0, 1, 0), DateTime(2025, 11, 31, MillisPerDay - 1));
      v.notAfter == DateTime(2027, 11, 31, MillisPerDay - 1) && v.notAfter != ValidityFrom(v.notBefore).notAfter
  {
  }

  /**
   * The evidently intended validity period: one year after a single clock reading. This is
   * the one the rest of the model uses.
   */
  function ValidityFrom(now: DateTime): (v: Validity)
    requires Valid(now)
    ensures v.notBefore == now && Valid(v.notAfter)
    ensures v.notAfter.year == now.year + 1 && v.notAfter.millis == now.millis
    ensures Before(v.notBefore, v.notAfter)
    ensures !(now.month == 1 && now.day == 29) ==> v.notAfter.month == now.month && v.notAfter.day == now.day
  {
    SetFullYearLater(now, now.year + 1);
    Validity(now, SetFullYear(now, now.year + 1))
  }

  /** The certificate of server.js:87-140 for the public half of `keys`, issued at `now`. */
  function LocalhostCertificate(now: DateTime, keys: KeyPair): (c: Certificate)
    requires Valid(now)
    ensures c.publicKey == keys.publicKey && c.serialNumber == "01"
    ensures c.subject == c.issuer
    ensures AttributeValue(c.subject, "commonName") == Some("localhost")
    ensures HasAltName(c.extensions, Dns("localhost")) && HasAltName(c.extensions, Ip("127.0.0.1"))
    ensures IsAuthority(c.extensions)
    ensures AllowsPurpose(c.extensions, "serverAuth") && AllowsPurpose(c.extensions, "clientAuth")
    ensures c.validity.notBefore == now && c.validity.notAfter.year == now.year + 1
  {
    var c := Certificate("01", keys.publicKey, ValidityFrom(now), LocalhostName, LocalhostName, LocalhostExtensions);
    assert c.extensions[4].SubjectAltName? && Dns("localhost") in c.extensions[4].names;
    assert Ip("127.0.0.1") in c.extensions[4].names;
    assert c.extensions[0] == BasicConstraints(true);
    assert c.extensions[2].ExtKeyUsage? && "serverAuth" in c.extensions[2].purposes;
    assert "clientAuth" in c.extensions[2].purposes;
    c
  }

  /**
   * What node-forge's foreign calls deliver: either the module is missing or one of its
   * calls throws, or a fresh RSA key pair with the PEM texts of the signed certificate
   * and of the private key.
   */
  datatype Forge =
    | Unavailable(message: string)
    | Available(keys: KeyPair, certPem: Bytes, keyPem: Bytes)

  /** The certificate record together with the PEM texts `generateSelfSignedCert` returns. */
  datatype Generated = Generated(certificate: Certificate, cert: Bytes, key: Bytes)

  /** A certificate for local development as server.js builds it. */
  ghost predicate IsLocalhostCertificate(c: Certificate) {
    && c.subject == c.issuer
    && AttributeValue(c.subject, "commonName") == Some("localhost")
    && HasAltName(c.extensions, Dns("localhost"))
    && HasAltName(c.extensions, Ip("127.0.0.1"))
    && c.validity.notAfter.year == c.validity.notBefore.year + 1
  }

  /**
   * `generateSelfSignedCert()`: fails exactly when node-forge does (the error propagates
   * to the caller's catch); otherwise returns the PEM pair for a localhost certificate.
   */
  function GenerateSelfSignedCert(now: DateTime, forge: Forge): (r: Result<Generated, string>)
    requires Valid(now)
    ensures r.Success? <==> forge.Available?
    ensures r.Success? ==> r.value.cert == forge.certPem && r.value.key == forge.keyPem
    ensures r.Success? ==> IsLocalhostCertificate(r.value.certificate) && r.value.certificate.publicKey == forge.keys.publicKey
    ensures r.Failure? ==> r.error == forge.message
  {
    match forge
    case Unavailable(message) => Failure(message)
    case Available(keys, certPem, keyPem) => Success(Generated(LocalhostCertificate(now, keys), certPem, keyPem))
  }
}
