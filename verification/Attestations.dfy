/**
  Attestations: `canonical_claim`, `sign_claim`, `build_attestation`, `verify_attestation` and the
  dictionary form. HMAC-SHA256 and SHA256 are uninterpreted functions to hexadecimal digests.
*/
module Attestations {
  import opened Wrappers
  import opened CanonicalJson

  /** A receipt or envelope field; a missing key reads as `PyNone`. */
  datatype PyValue = PyNone | PyBool(b: bool) | PyStr(s: Str)

  type Receipt = map<string, PyValue>

  datatype Attestation = Attestation(subject: Str, claim: Claim, alg: Str, signature: Str, signed: bool)

  /** `UnicodeEncodeError` from a secret with a lone surrogate; `TypeError` from a non-ASCII signature. */
  datatype Error = SecretNotEncodable | SignatureNotAscii

  datatype Crypto = Crypto(mac: (Str, string) -> string, digest: string -> string)

  ghost predicate AsciiDigests(crypto: Crypto) {
    && (forall key, payload :: IsAscii(Codes(crypto.mac(key, payload))))
    && (forall payload :: IsAscii(Codes(crypto.digest(payload))))
  }

  predicate IsAscii(s: Str) {
    forall c | c in s :: c < 0x80
  }

  function Codes(s: string): Str {
    seq(|s|, i requires 0 <= i < |s| => s[i] as int)
  }

  const ALG_HMAC: Str := Codes("HMAC-SHA256")
  const ALG_SHA256: Str := Codes("SHA256")

  // ----- Distilling a receipt -----

  function Field(r: Receipt, name: string): PyValue {
    if name in r then r[name] else PyNone
  }

  predicate Truthy(v: PyValue) {
    match v case PyNone => false case PyBool(b) => b case PyStr(s) => s != []
  }

  /** Python's `str(v)`. */
  function Shown(v: PyValue): Str {
    match v
    case PyNone => Codes("None")
    case PyBool(b) => Codes(if b then "True" else "False")
    case PyStr(s) => s
  }

  function FirstNonempty(v: PyValue): Option<Str> {
    if v.PyNone? || Shown(v) == [] then None else Some(Shown(v))
  }

  function OptStr(v: PyValue): Value {
    if v.PyNone? then Null else Text(Shown(v))
  }

  function Subject(r: Receipt): Str {
    match FirstNonempty(Field(r, "agent")) case Some(s) => s case None => Codes("onmc")
  }

  function Timestamp(r: Receipt): Value {
    var ended, started := FirstNonempty(Field(r, "ended_at")), FirstNonempty(Field(r, "started_at"));
    if ended.Some? then Text(ended.value) else if started.Some? then Text(started.value) else Null
  }

  /** What is kept of a receipt. */
  datatype Essence = Essence(subject: Str, goal: Str, tree: Value, diff: Value, hash: Value, verified: bool, ts: Value)

  function Distilled(r: Receipt): Essence {
    Essence(
      Subject(r), if Truthy(Field(r, "goal")) then Shown(Field(r, "goal")) else [],
      OptStr(Field(r, "git_tree_sha")), OptStr(Field(r, "diff_sha")), OptStr(Field(r, "receipt_hash")),
      Truthy(Field(r, "verified")), Timestamp(r))
  }

  function ClaimOf(e: Essence): Claim {
    [ Entry(Codes("subject"), Text(e.subject)),
      Entry(Codes("goal"), Text(e.goal)),
      Entry(Codes("git_tree_sha"), e.tree),
      Entry(Codes("diff_sha"), e.diff),
      Entry(Codes("receipt_hash"), e.hash),
      Entry(Codes("verified"), Bool(e.verified)),
      Entry(Codes("ts"), e.ts) ]
  }

  function CanonicalClaim(r: Receipt): Claim {
    ClaimOf(Distilled(r))
  }

  // ----- Signing and verifying -----

  /** The explicit secret, else the environment's; an empty one counts as none. */
  function ResolveSecret(secret: Option<Str>, env: Option<Str>): Option<Str> {
    if secret.Some? && secret.value != [] then secret
    else if env.Some? && env.value != [] then env
    else None
  }

  function SignClaim(crypto: Crypto, claim: Claim, secret: Option<Str>, env: Option<Str>): Result<(Str, bool), Error> {
    match ResolveSecret(secret, env)
    case Some(key) =>
      if !IsScalar(key) then Raised(SecretNotEncodable) else Ok((Codes(crypto.mac(key, Canonical(claim))), true))
    case None => Ok((Codes(crypto.digest(Canonical(claim))), false))
  }

  function BuildAttestation(crypto: Crypto, r: Receipt, secret: Option<Str>, env: Option<Str>)
    : Result<Attestation, Error>
  {
    var claim := CanonicalClaim(r);
    match SignClaim(crypto, claim, secret, env)
    case Raised(e) => Raised(e)
    case Ok((signature, signed)) =>
      Ok(Attestation(Subject(r), claim, if signed then ALG_HMAC else ALG_SHA256, signature, signed))
  }

  function Compare(expected: string, signature: Str): Result<bool, Error> {
    if !IsAscii(signature) then Raised(SignatureNotAscii) else Ok(Codes(expected) == signature)
  }

  function Verify(crypto: Crypto, att: Attestation, secret: Option<Str>, env: Option<Str>): Result<bool, Error> {
    if !att.signed then Compare(crypto.digest(Canonical(att.claim)), att.signature)
    else match ResolveSecret(secret, env)
      case None => Ok(false)
      case Some(key) =>
        if !IsScalar(key) then Raised(SecretNotEncodable)
        else Compare(crypto.mac(key, Canonical(att.claim)), att.signature)
  }

  // ----- The dictionary form -----

  /** `claim` is `None` when the entry is missing or is not a dictionary. */
  datatype Envelope = Envelope(
    subject: PyValue, claim: Option<Claim>, alg: PyValue, signature: PyValue, signed: PyValue)

  function ToDict(att: Attestation): Envelope {
    Envelope(PyStr(att.subject), Some(att.claim), PyStr(att.alg), PyStr(att.signature), PyBool(att.signed))
  }

  function ShownOr(v: PyValue, default: Str): Str {
    if Truthy(v) then Shown(v) else default
  }

  function FromDict(d: Envelope): Attestation {
    var signed := Truthy(d.signed);
    Attestation(
      ShownOr(d.subject, Codes("onmc")),
      match d.claim case Some(c) => c case None => [],
      ShownOr(d.alg, if signed then ALG_HMAC else ALG_SHA256),
      ShownOr(d.signature, []),
      signed)
  }

  /** The round trip loses nothing exactly when neither the subject nor the algorithm is empty. */
  lemma DictRoundTrip(att: Attestation)
    ensures FromDict(ToDict(att)) == att <==> att.subject != [] && att.alg != []
    ensures FromDict(ToDict(att)).claim == att.claim
    ensures FromDict(ToDict(att)).signature == att.signature
    ensures FromDict(ToDict(att)).signed == att.signed
  {
  }

  /** What `from_dict` makes of an empty dictionary, and of a signed one without an algorithm. */
  lemma MissingFields(signature: Str)
    ensures FromDict(Envelope(PyNone, None, PyNone, PyNone, PyNone))
            == Attestation(Codes("onmc"), [], Codes("SHA256"), [], false)
    ensures FromDict(Envelope(PyNone, None, PyNone, PyStr(signature), PyBool(true)))
            == Attestation(Codes("onmc"), [], Codes("HMAC-SHA256"), signature, true)
  {
  }

  // ----- Main results -----

  lemma SubjectNonempty(r: Receipt)
    ensures Subject(r) != []
  {
  }

  /** An attestation verifies with the secret it was built with, also after its dictionary round trip. */
  lemma BuiltAttestationVerifies(crypto: Crypto, r: Receipt, secret: Option<Str>, env: Option<Str>)
    requires AsciiDigests(crypto)
    ensures BuildAttestation(crypto, r, secret, env).Ok?
            <==> (ResolveSecret(secret, env).Some? ==> IsScalar(ResolveSecret(secret, env).value))
    ensures BuildAttestation(crypto, r, secret, env).Ok? ==>
              var att := BuildAttestation(crypto, r, secret, env).value;
              && Verify(crypto, att, secret, env) == Ok(true)
              && FromDict(ToDict(att)) == att
              && (att.signed <==> ResolveSecret(secret, env).Some?)
  {
    if BuildAttestation(crypto, r, secret, env).Ok? {
      var att := BuildAttestation(crypto, r, secret, env).value;
      SubjectNonempty(r);
      assert ALG_HMAC[0] == 'H' as int && ALG_SHA256[0] == 'S' as int;
      DictRoundTrip(att);
      var payload := Canonical(att.claim);
      match ResolveSecret(secret, env) {
        case Some(key) => assert IsAscii(Codes(crypto.mac(key, payload)));
        case None => assert IsAscii(Codes(crypto.digest(payload)));
      }
    }
  }

  lemma CodesInjective(s: string, t: string)
    requires Codes(s) == Codes(t)
    ensures s == t
  {
    forall i | 0 <= i < |s| ensures s[i] == t[i] {
      assert Codes(s)[i] == Codes(t)[i];
    }
  }

  /** What the signature of an attestation covers: the MAC under the key in hand, or the digest. */
  function Sealed(crypto: Crypto, signed: bool, key: Str, claim: Claim): string {
    if signed then crypto.mac(key, Canonical(claim)) else crypto.digest(Canonical(claim))
  }

  /** A comparison is reached: a digest needs no key, a keyed signature one that has an encoding. */
  predicate Comparable(att: Attestation, secret: Option<Str>, env: Option<Str>) {
    att.signed ==> ResolveSecret(secret, env).Some? && IsScalar(ResolveSecret(secret, env).value)
  }

  /**
    Verification is promised to answer for every attestation. It answers exactly when a keyed signature
    has no key, or the comparison is reached and the signature is ASCII; it answers true exactly when the
    signature is then the seal of the claim. A digest is verified alike under any secret.
   */
  lemma VerifyAnswersExactlyWhen(
      crypto: Crypto, att: Attestation, secret: Option<Str>, env: Option<Str>, other: Option<Str>)
    ensures Verify(crypto, att, secret, env).Ok?
            <==> || (att.signed && ResolveSecret(secret, env).None?)
                 || (Comparable(att, secret, env) && IsAscii(att.signature))
    ensures var key := if att.signed && Comparable(att, secret, env) then ResolveSecret(secret, env).value else [];
            Verify(crypto, att, secret, env) == Ok(true)
            <==> Comparable(att, secret, env) && IsAscii(att.signature)
                 && att.signature == Codes(Sealed(crypto, att.signed, key, att.claim))
    ensures !att.signed ==> Verify(crypto, att, secret, env) == Verify(crypto, att, other, env)
  {
  }

  /**
    Inputs on which it raises: a dictionary that holds nothing but a signature with one accented letter,
    promised to verify as false, and a secret that is a lone surrogate.
   */
  lemma VerifyRaises(crypto: Crypto, signature: Str)
    ensures var att := FromDict(Envelope(PyNone, None, PyNone, PyStr([0xE9]), PyBool(false)));
            Verify(crypto, att, None, None) == Raised(SignatureNotAscii)
    ensures var att := FromDict(Envelope(PyNone, None, PyNone, PyStr(signature), PyBool(true)));
            Verify(crypto, att, Some([0xD800]), None) == Raised(SecretNotEncodable)
  {
    var accented: Str, key: Str := [0xE9], [0xD800];
    assert accented[0] in accented && !IsAscii(accented);
    assert key[0] in key && !IsScalar(key);
  }

  /**
    After its claim is replaced by one with other items, a verifying attestation still verifies
    exactly when the two canonical forms, which then differ, are a collision of the MAC or digest.
   */
  lemma TamperedClaimNeedsCollision(
      crypto: Crypto, att: Attestation, claim: Claim, secret: Option<Str>, env: Option<Str>, key: Str)
    requires att.signed ==> ResolveSecret(secret, env) == Some(key)
    requires Verify(crypto, att, secret, env) == Ok(true)
    requires IsDict(att.claim) && ScalarClaim(att.claim) && IsDict(claim) && ScalarClaim(claim)
    ensures Canonical(claim) == Canonical(att.claim) <==> multiset(claim) == multiset(att.claim)
    ensures Verify(crypto, att.(claim := claim), secret, env) == Ok(true)
            <==> Sealed(crypto, att.signed, key, claim) == Sealed(crypto, att.signed, key, att.claim)
  {
    CanonicalInjective(claim, att.claim);
    if Codes(Sealed(crypto, att.signed, key, claim)) == Codes(Sealed(crypto, att.signed, key, att.claim)) {
      CodesInjective(Sealed(crypto, att.signed, key, claim), Sealed(crypto, att.signed, key, att.claim));
    }
  }

  /** A distilled claim is a dictionary, so the results above apply to it. */
  lemma ClaimOfIsDict(e: Essence)
    ensures IsDict(ClaimOf(e))
  {
    var c := ClaimOf(e);
    assert |c[0].key| == 7 && |c[1].key| == 4 && |c[2].key| == 12 && |c[3].key| == 8;
    assert |c[4].key| == 12 && |c[5].key| == 8 && |c[6].key| == 2;
    assert c[2].key[0] == 'g' as int && c[4].key[0] == 'r' as int;
    assert c[3].key[0] == 'd' as int && c[5].key[0] == 'v' as int;
  }

  lemma CodesScalar(s: string)
    ensures IsScalar(Codes(s))
  {
  }

  ghost predicate ScalarReceipt(r: Receipt) {
    forall name | name in r && r[name].PyStr? :: IsScalar(r[name].s)
  }

  lemma ShownScalar(r: Receipt, name: string)
    requires ScalarReceipt(r)
    ensures IsScalar(Shown(Field(r, name)))
  {
  }

  predicate ScalarValue(v: Value) {
    v.Text? ==> IsScalar(v.s)
  }

  lemma ClaimOfIsScalar(e: Essence)
    requires IsScalar(e.subject) && IsScalar(e.goal)
    requires ScalarValue(e.tree) && ScalarValue(e.diff) && ScalarValue(e.hash) && ScalarValue(e.ts)
    ensures ScalarClaim(ClaimOf(e))
  {
    forall name: string ensures IsScalar(Codes(name)) { CodesScalar(name); }
  }

  /** Its text is made of scalar values whenever the receipt's is. */
  lemma CanonicalClaimIsScalar(r: Receipt)
    requires ScalarReceipt(r)
    ensures ScalarClaim(CanonicalClaim(r))
  {
    forall name: string ensures IsScalar(Shown(Field(r, name))) { ShownScalar(r, name); }
    CodesScalar("onmc");
    ClaimOfIsScalar(Distilled(r));
  }

  lemma ClaimKeys(e: Essence, f: Essence)
    ensures |ClaimOf(e)| == |ClaimOf(f)|
    ensures forall i | 0 <= i < |ClaimOf(e)| :: ClaimOf(e)[i].key == ClaimOf(f)[i].key
    ensures ClaimOf(e) == ClaimOf(f) ==> e == f
  {
    var c, d := ClaimOf(e), ClaimOf(f);
    if c == d {
      assert c[0] == d[0] && c[1] == d[1] && c[2] == d[2] && c[3] == d[3];
      assert c[4] == d[4] && c[5] == d[5] && c[6] == d[6];
    }
  }

  lemma SameItems(c: Claim, d: Claim)
    requires IsDict(d) && multiset(c) == multiset(d)
    requires |c| == |d| && forall i | 0 <= i < |c| :: c[i].key == d[i].key
    ensures c == d
  {
    forall i | 0 <= i < |c| ensures c[i] == d[i] {
      assert c[i] in multiset(d);
      var j :| 0 <= j < |d| && d[j] == c[i];
    }
  }

  // ----- What an attestation says of its receipt, field by field -----

  /** The field is there, is not `None`, and prints as `t`. */
  ghost predicate Prints(r: Receipt, name: string, t: Str) {
    && name in r && r[name] != PyNone
    && t == match r[name] case PyStr(s) => s case PyBool(b) => if b then Codes("True") else Codes("False")
  }

  /** The field is there and is true: the boolean itself, or a string that is not empty. */
  ghost predicate IsTrue(r: Receipt, name: string) {
    name in r && (r[name] == PyBool(true) || (r[name].PyStr? && r[name].s != []))
  }

  /** The agent, if it prints as anything, else the program. */
  ghost predicate IsSubject(r: Receipt, t: Str) {
    (t != [] && Prints(r, "agent", t)) || (t == Codes("onmc") && forall u | Prints(r, "agent", u) :: u == [])
  }

  ghost predicate IsGoal(r: Receipt, t: Str) {
    if IsTrue(r, "goal") then Prints(r, "goal", t) else t == []
  }

  /** A hash is its own field's text, an empty one included, and null when the field is missing or `None`. */
  ghost predicate IsHash(r: Receipt, name: string, v: Value) {
    if name !in r || r[name] == PyNone then v == Null else v.Text? && Prints(r, name, v.s)
  }

  /** The end of the run, else its start, else nothing. */
  ghost predicate IsTime(r: Receipt, v: Value) {
    if exists t :: t != [] && Prints(r, "ended_at", t) then v.Text? && v.s != [] && Prints(r, "ended_at", v.s)
    else if exists t :: t != [] && Prints(r, "started_at", t) then v.Text? && v.s != [] && Prints(r, "started_at", v.s)
    else v == Null
  }

  /** The claim holds these seven entries, each made from its own field of the receipt, and no other. */
  ghost predicate Tells(c: Claim, r: Receipt) {
    && |c| == 7
    && c[0].key == Codes("subject") && c[0].value.Text? && IsSubject(r, c[0].value.s)
    && c[1].key == Codes("goal") && c[1].value.Text? && IsGoal(r, c[1].value.s)
    && c[2].key == Codes("git_tree_sha") && IsHash(r, "git_tree_sha", c[2].value)
    && c[3].key == Codes("diff_sha") && IsHash(r, "diff_sha", c[3].value)
    && c[4].key == Codes("receipt_hash") && IsHash(r, "receipt_hash", c[4].value)
    && c[5].key == Codes("verified") && c[5].value == Bool(IsTrue(r, "verified"))
    && c[6].key == Codes("ts") && IsTime(r, c[6].value)
  }

  /**
    An attestation claims what its receipt says, under the name of its subject. It is signed with the secret
    given, or else with the environment's, whichever is first not empty, and otherwise hashed.
   */
  lemma AttestationTellsTheReceipt(crypto: Crypto, r: Receipt, secret: Option<Str>, env: Option<Str>)
    requires BuildAttestation(crypto, r, secret, env).Ok?
    ensures var att := BuildAttestation(crypto, r, secret, env).value;
      && Tells(att.claim, r) && IsSubject(r, att.subject)
      && (att.signed <==> exists key :: key != [] && (secret == Some(key) || env == Some(key)))
      && att.alg == Codes(if att.signed then "HMAC-SHA256" else "SHA256")
      && (forall key | key != [] && secret == Some(key) ::
            att.signature == Codes(crypto.mac(key, Canonical(att.claim))))
      && (forall key | key != [] && env == Some(key) && (secret == None || secret == Some([])) ::
            att.signature == Codes(crypto.mac(key, Canonical(att.claim))))
      && (!att.signed ==> att.signature == Codes(crypto.digest(Canonical(att.claim))))
  {
    ClaimTellsTheReceipt(r);
  }

  lemma ClaimTellsTheReceipt(r: Receipt)
    ensures Tells(CanonicalClaim(r), r) && IsSubject(r, Subject(r))
  {
    FieldsAreFixed(r);
  }

  lemma OneText(r: Receipt, name: string)
    ensures forall t :: Prints(r, name, t) <==> Field(r, name) != PyNone && t == Shown(Field(r, name))
    ensures FirstNonempty(Field(r, name)).None? <==> forall t | Prints(r, name, t) :: t == []
    ensures IsTrue(r, name) <==> Truthy(Field(r, name))
  {
    if Field(r, name) != PyNone {
      assert Prints(r, name, Shown(Field(r, name)));
    }
  }

  lemma OneSubjectAndGoal(r: Receipt)
    ensures forall t :: IsSubject(r, t) <==> t == Subject(r)
    ensures forall t :: IsGoal(r, t) <==> t == Distilled(r).goal
  {
    OneText(r, "agent");
    OneText(r, "goal");
  }

  lemma OneHash(r: Receipt, name: string)
    ensures forall v :: IsHash(r, name, v) <==> v == OptStr(Field(r, name))
  {
    OneText(r, name);
  }

  lemma OneTime(r: Receipt)
    ensures forall v :: IsTime(r, v) <==> v == Timestamp(r)
  {
    OneText(r, "ended_at");
    OneText(r, "started_at");
  }

  /** The receipts agree on everything a claim tells. */
  ghost predicate SayTheSame(r: Receipt, s: Receipt) {
    && (forall t :: IsSubject(r, t) <==> IsSubject(s, t))
    && (forall t :: IsGoal(r, t) <==> IsGoal(s, t))
    && (forall v :: IsHash(r, "git_tree_sha", v) <==> IsHash(s, "git_tree_sha", v))
    && (forall v :: IsHash(r, "diff_sha", v) <==> IsHash(s, "diff_sha", v))
    && (forall v :: IsHash(r, "receipt_hash", v) <==> IsHash(s, "receipt_hash", v))
    && (IsTrue(r, "verified") <==> IsTrue(s, "verified"))
    && (forall v :: IsTime(r, v) <==> IsTime(s, v))
  }

  /**
    The signed payload fixes what a receipt claims: receipts have the same payload exactly when they
    agree on who, what for, when, each hash (an absent one included) and whether the work was verified.
   */
  lemma PayloadFixesTheReceipt(r: Receipt, s: Receipt)
    requires ScalarReceipt(r) && ScalarReceipt(s)
    ensures Canonical(CanonicalClaim(r)) == Canonical(CanonicalClaim(s)) <==> SayTheSame(r, s)
  {
    SamePayloadSameEssence(r, s);
    SameEssence(r, s);
  }

  lemma SameEssence(r: Receipt, s: Receipt)
    ensures SayTheSame(r, s) <==> Distilled(r) == Distilled(s)
  {
    FieldsAreFixed(r);
    FieldsAreFixed(s);
    var e := Distilled(r);
    assert IsSubject(r, e.subject) && IsGoal(r, e.goal) && IsTime(r, e.ts);
    assert IsHash(r, "git_tree_sha", e.tree) && IsHash(r, "diff_sha", e.diff) && IsHash(r, "receipt_hash", e.hash);
  }

  /** Each of the relations above holds of exactly one value, the one that is distilled. */
  lemma FieldsAreFixed(r: Receipt)
    ensures var e := Distilled(r);
      && (forall t :: IsSubject(r, t) <==> t == e.subject) && (forall t :: IsGoal(r, t) <==> t == e.goal)
      && (forall v :: IsHash(r, "git_tree_sha", v) <==> v == e.tree)
      && (forall v :: IsHash(r, "diff_sha", v) <==> v == e.diff)
      && (forall v :: IsHash(r, "receipt_hash", v) <==> v == e.hash)
      && (IsTrue(r, "verified") <==> e.verified) && (forall v :: IsTime(r, v) <==> v == e.ts)
  {
    OneSubjectAndGoal(r);
    OneHash(r, "git_tree_sha");
    OneHash(r, "diff_sha");
    OneHash(r, "receipt_hash");
    OneText(r, "verified");
    OneTime(r);
  }

  lemma SamePayloadSameEssence(r: Receipt, s: Receipt)
    requires ScalarReceipt(r) && ScalarReceipt(s)
    ensures Canonical(CanonicalClaim(r)) == Canonical(CanonicalClaim(s)) <==> Distilled(r) == Distilled(s)
  {
    var e, f := Distilled(r), Distilled(s);
    ClaimOfIsDict(e);
    ClaimOfIsDict(f);
    CanonicalClaimIsScalar(r);
    CanonicalClaimIsScalar(s);
    CanonicalInjective(ClaimOf(e), ClaimOf(f));
    if multiset(ClaimOf(e)) == multiset(ClaimOf(f)) {
      ClaimKeys(e, f);
      SameItems(ClaimOf(e), ClaimOf(f));
    }
  }
}
