/** Issuing and verifying signed tokens: `AuthService` of infra/plugins/auth/service.py
    (JWT, RFC 7519, in the compact form of section 7.1 of RFC 7515).

    JSON and UTF-8 together, and the keyed hash, are functions of a `Crypto` value;
    clock readings are whole seconds. */
module AuthTokens {
  import opened Text
  import opened Json
  import opened Base64Url

  datatype Crypto = Crypto(
    dumps: Object -> seq<byte>,
    loads: seq<byte> -> Option<Json>,
    mac: (string, string) -> seq<byte>)

  /** `EncodingError` and `ComparisonError` are the exceptions the verifier lets out:
      a non-ASCII payload part and a non-ASCII signature. */
  datatype AuthError =
    | Unauthenticated
    | EncodingError
    | ComparisonError
    | DuplicateKey(id: string)
    | UnknownKey(id: string)

  datatype Key = Key(id: string, secret: string)

  datatype KeyRecord = KeyRecord(id: Option<string>, secret: string)

  datatype Service = Service(
    keyring: seq<Key>,
    activeKey: Option<string>,
    issuer: Option<string>,
    audience: Option<string>,
    ttl: int)

  datatype Principal = Principal(subject: string, scopes: set<string>, roles: set<string>, claims: Object)

  // --------------------------------------------------------------- keyring

  const DEFAULT_KEY := "default"

  function KeyIdOf(r: KeyRecord): string {
    if r.id.Some? && r.id.value != "" then r.id.value else DEFAULT_KEY
  }

  predicate HasKey(keyring: seq<Key>, id: string) {
    exists i :: 0 <= i < |keyring| && keyring[i].id == id
  }

  function SecretOf(keyring: seq<Key>, id: string): string
    requires HasKey(keyring, id)
  {
    if keyring[0].id == id then keyring[0].secret else SecretOf(keyring[1..], id)
  }

  predicate ValidKeyring(keyring: seq<Key>) {
    && (forall i :: 0 <= i < |keyring| ==> keyring[i].id != "" && keyring[i].secret != "")
    && (forall i, j :: 0 <= i < j < |keyring| ==> keyring[i].id != keyring[j].id)
  }

  function RecordKeys(records: seq<KeyRecord>): seq<Key> {
    seq(|records|, i requires 0 <= i < |records| => Key(KeyIdOf(records[i]), records[i].secret))
  }

  function DefaultKeys(secret: Option<string>): seq<Key> {
    if secret.Some? && secret.value != "" then [Key(DEFAULT_KEY, secret.value)] else []
  }

  /** The keyring that a single secret and a list of records ask for. */
  ghost predicate AsAskedFor(keyring: seq<Key>, secret: Option<string>, records: seq<KeyRecord>) {
    var first := if secret.Some? && secret.value != "" then 1 else 0;
    && |keyring| == first + |records|
    && (first == 1 ==> keyring[0] == Key("default", secret.value))
    && forall i :: 0 <= i < |records| ==> KeyFor(keyring[first + i], records[i])
  }

  predicate KeyFor(k: Key, r: KeyRecord) {
    && k.secret == r.secret
    && (r.id.Some? && r.id.value != "" ==> k.id == r.id.value)
    && (r.id == None || r.id == Some("") ==> k.id == "default")
  }

  lemma KeysAsAskedFor(secret: Option<string>, records: seq<KeyRecord>)
    ensures AsAskedFor(DefaultKeys(secret) + RecordKeys(records), secret, records)
  {
    hide RecordKeys, KeyFor;
    var front, rest := DefaultKeys(secret), RecordKeys(records);
    AsManyKeys(records);
    forall i | 0 <= i < |records| ensures KeyFor((front + rest)[|front| + i], records[i]) {
      KeyOfRecord(records, i);
      assert (front + rest)[|front| + i] == rest[i];
    }
    if front != [] {
      assert (front + rest)[0] == front[0];
    }
  }

  lemma AsManyKeys(records: seq<KeyRecord>)
    ensures |RecordKeys(records)| == |records|
  {
  }

  lemma KeyOfRecord(records: seq<KeyRecord>, i: nat)
    requires i < |records|
    ensures |RecordKeys(records)| == |records| && KeyFor(RecordKeys(records)[i], records[i])
  {
  }

  /** The keys before record `i` are in order; it has no secret, or else its id is taken. */
  ghost predicate RefusedAt(secret: Option<string>, records: seq<KeyRecord>, i: nat, error: AuthError)
    requires i < |records|
  {
    var before := DefaultKeys(secret) + RecordKeys(records[..i]);
    && ValidKeyring(before)
    && if records[i].secret == "" then error == Unauthenticated
       else error == DuplicateKey(KeyIdOf(records[i])) && HasKey(before, KeyIdOf(records[i]))
  }

  lemma RefusedHere(secret: Option<string>, records: seq<KeyRecord>, i: nat, error: AuthError)
    requires i < |records| && ValidKeyring(DefaultKeys(secret) + RecordKeys(records[..i]))
    requires error == if records[i].secret == "" then Unauthenticated else DuplicateKey(KeyIdOf(records[i]))
    requires records[i].secret != "" ==> HasKey(DefaultKeys(secret) + RecordKeys(records[..i]), KeyIdOf(records[i]))
    ensures RefusedAt(secret, records, i, error)
  {
    hide ValidKeyring, HasKey, RecordKeys, DefaultKeys, KeyIdOf;
  }

  /** The keyring lists the single secret, if any, and then the records in order; it is
      refused if and only if a record has no secret or two keys share an id, and the
      first such record decides the error. */
  method BuildJwtKeyring(secret: Option<string>, records: seq<KeyRecord>) returns (r: Result<seq<Key>, AuthError>)
    ensures r.Success? ==> r.value == DefaultKeys(secret) + RecordKeys(records)
    ensures r.Success? ==> AsAskedFor(r.value, secret, records)
    ensures r.Success? <==> ValidKeyring(DefaultKeys(secret) + RecordKeys(records))
    ensures r.Failure? ==> exists i :: 0 <= i < |records| && RefusedAt(secret, records, i, r.error)
  {
    hide ValidKeyring, HasKey, RecordKeys, DefaultKeys, AsAskedFor, RefusedAt;
    var keyring := DefaultKeys(secret);
    DefaultIsValid(secret);
    assert keyring + [] == keyring;
    NoRecords();
    assert records[..0] == [];
    var i := 0;
    while i < |records|
      invariant i <= |records|
      invariant keyring == DefaultKeys(secret) + RecordKeys(records[..i])
      invariant ValidKeyring(keyring)
    {
      var record := records[i];
      var id := KeyIdOf(record);
      OneMoreRecord(DefaultKeys(secret), records, i);
      ValidAppend(keyring, Key(id, record.secret));
      if record.secret == "" {
        RefusedHere(secret, records, i, Unauthenticated);
        return Failure(Unauthenticated);
      }
      if HasKey(keyring, id) {
        RefusedHere(secret, records, i, DuplicateKey(id));
        return Failure(DuplicateKey(id));
      }
      keyring := keyring + [Key(id, record.secret)];
      i := i + 1;
    }
    assert records[..i] == records;
    KeysAsAskedFor(secret, records);
    r := Success(keyring);
  }

  lemma NoRecords()
    ensures RecordKeys([]) == []
  {
  }

  lemma OneMoreRecord(front: seq<Key>, records: seq<KeyRecord>, i: nat)
    requires i < |records|
    ensures front + RecordKeys(records[..i + 1]) ==
            front + RecordKeys(records[..i]) + [Key(KeyIdOf(records[i]), records[i].secret)]
    ensures ValidKeyring(front + RecordKeys(records)) ==> ValidKeyring(front + RecordKeys(records[..i + 1]))
  {
    hide ValidKeyring;
    var all, part := front + RecordKeys(records), front + RecordKeys(records[..i + 1]);
    assert RecordKeys(records[..i + 1]) == RecordKeys(records[..i]) + [Key(KeyIdOf(records[i]), records[i].secret)];
    assert part == all[..|part|];
    PrefixIsValid(all, |part|);
  }

  lemma DefaultIsValid(secret: Option<string>)
    ensures ValidKeyring(DefaultKeys(secret))
  {
  }

  lemma ValidAppend(keyring: seq<Key>, k: Key)
    requires ValidKeyring(keyring)
    ensures ValidKeyring(keyring + [k]) <==> k.id != "" && k.secret != "" && !HasKey(keyring, k.id)
  {
    var longer := keyring + [k];
    if HasKey(keyring, k.id) {
      var i :| 0 <= i < |keyring| && keyring[i].id == k.id;
      assert longer[i].id == longer[|keyring|].id;
    }
    assert longer[|keyring|] == k;
  }

  lemma PrefixIsValid(keyring: seq<Key>, n: nat)
    requires n <= |keyring|
    ensures ValidKeyring(keyring) ==> ValidKeyring(keyring[..n])
  {
  }

  function ResolveActiveKey(keyring: seq<Key>, id: Option<string>): Result<Option<string>, AuthError> {
    if keyring == [] then Success(None)
    else match id
      case None => Success(Some(keyring[0].id))
      case Some(k) => if HasKey(keyring, k) then Success(id) else Failure(UnknownKey(k))
  }

  /** What the constructor guarantees: a valid keyring, and an active key of it unless it
      is empty. */
  predicate Configured(s: Service) {
    && ValidKeyring(s.keyring)
    && (s.keyring == [] <==> s.activeKey.None?)
    && (s.activeKey.Some? ==> HasKey(s.keyring, s.activeKey.value))
  }

  /** A service is set up if and only if its keyring is valid and the key id it is given,
      if any, is in it; the first key is active if it is given none. */
  method NewService(secret: Option<string>, records: seq<KeyRecord>, id: Option<string>, issuer: Option<string>,
                    audience: Option<string>, ttl: int)
    returns (r: Result<Service, AuthError>)
    ensures var keyring := DefaultKeys(secret) + RecordKeys(records);
            && (r.Success? <==> ValidKeyring(keyring) && (keyring == [] || id.None? || HasKey(keyring, id.value)))
            && (r.Success? ==> Configured(r.value) && r.value.keyring == keyring)
            && (r.Success? ==> AsAskedFor(r.value.keyring, secret, records))
            && (r.Success? ==> r.value == r.value.(issuer := issuer, audience := audience, ttl := ttl))
            && (r.Success? && keyring != [] ==> r.value.activeKey == if id.Some? then id else Some(keyring[0].id))
  {
    var keyring := BuildJwtKeyring(secret, records);
    if keyring.Failure? {
      return Failure(keyring.error);
    }
    var active := ResolveActiveKey(keyring.value, id);
    if active.Failure? {
      return Failure(active.error);
    }
    r := Success(Service(keyring.value, active.value, issuer, audience, ttl));
  }

  /** `_jwt_signing_secret`. */
  function SigningSecret(s: Service, id: Option<string>): Result<string, AuthError> {
    if id.Some? && HasKey(s.keyring, id.value) then Success(SecretOf(s.keyring, id.value)) else Failure(Unauthenticated)
  }

  // ----------------------------------------------------------------- issue

  function Part(c: Crypto, o: Object): string {
    Encode(c.dumps(o))
  }

  function Sign(c: Crypto, input: string, secret: string): string {
    Encode(c.mac(secret, input))
  }

  function WithText(o: Object, key: string, value: Option<string>): Object {
    if value.Some? then o[key := Str(value.value)] else o
  }

  function Payload(s: Service, subject: string, scopes: set<string>, roles: set<string>, claims: Object,
                   now: int, ttl: int): Object
  {
    var own := claims + map[
      "sub" := Str(subject),
      "scopes" := Strings(Sorted(scopes)),
      "roles" := Strings(Sorted(roles)),
      "iat" := Num(now as real),
      "exp" := Num((now + ttl) as real)];
    WithText(WithText(own, "iss", s.issuer), "aud", s.audience)
  }

  function Header(id: string): Object {
    map["alg" := Str("HS256"), "kid" := Str(id), "typ" := Str("JWT")]
  }

  function SigningKey(s: Service, id: Option<string>): Option<string> {
    if id.Some? && id.value != "" then id else s.activeKey
  }

  function IssueJwt(s: Service, c: Crypto, subject: string, scopes: set<string>, roles: set<string>, claims: Object,
                    expiresIn: Option<int>, id: Option<string>, now: int): Result<string, AuthError>
  {
    var key := SigningKey(s, id);
    match SigningSecret(s, key)
    case Failure(e) => Failure(e)
    case Success(secret) =>
      var ttl := if expiresIn.Some? then expiresIn.value else s.ttl;
      var input := Part(c, Header(key.value)) + "." + Part(c, Payload(s, subject, scopes, roles, claims, now, ttl));
      Success(input + "." + Sign(c, input, secret))
  }

  // ---------------------------------------------------------------- verify

  /** `token.split(".")`. */
  function SplitDots(s: string): seq<string> {
    if s == "" then [""]
    else
      var rest := SplitDots(s[1..]);
      if s[0] == '.' then [""] + rest
      else if rest == [] then [s] else [[s[0]] + rest[0]] + rest[1..]
  }

  /** `_decode_json`: the object, or None where the program rejects. */
  function DecodeJson(c: Crypto, encoded: string): Option<Object> {
    match Decode(encoded)
    case None => None
    case Some(bytes) =>
      var value := c.loads(bytes);
      if value.Some? && value.value.Obj? then Some(value.value.fields) else None
  }

  function SecretForHeader(s: Service, header: Object): Result<string, AuthError> {
    var kid := Get(header, "kid");
    if kid.Str? && kid.s != "" then SigningSecret(s, Some(kid.s))
    else if |s.keyring| == 1 then Success(s.keyring[0].secret)
    else Failure(Unauthenticated)
  }

  function StringSet(value: Json): set<string> {
    match value
    case Str(t) => {t}
    case List(items) => Texts(items)
    case _ => {}
  }

  predicate AudienceMatches(audience: Json, wanted: string) {
    match audience
    case Str(t) => t == wanted
    case List(items) => Str(wanted) in items
    case _ => false
  }

  /** The claims that `authenticate_jwt` insists on. */
  predicate PayloadValid(s: Service, payload: Object, now: int) {
    var subject, expires := Get(payload, "sub"), NumberOf(Get(payload, "exp"));
    && subject.Str? && subject.s != ""
    && expires.Some? && (now as real) < expires.value
    && (s.issuer.Some? ==> Get(payload, "iss") == Str(s.issuer.value))
    && (s.audience.Some? ==> AudienceMatches(Get(payload, "aud"), s.audience.value))
  }

  function AuthenticateJwt(s: Service, c: Crypto, token: Option<string>, now: int): Result<Principal, AuthError> {
    if s.keyring == [] || token == None || token.value == "" then Failure(Unauthenticated)
    else
      var parts := SplitDots(token.value);
      if |parts| != 3 then Failure(Unauthenticated)
      else
        var header := DecodeJson(c, parts[0]);
        if header == None || Get(header.value, "alg") != Str("HS256") then Failure(Unauthenticated)
        else match SecretForHeader(s, header.value)
          case Failure(e) => Failure(e)
          case Success(secret) => VerifyParts(s, c, parts[0], parts[1], parts[2], secret, now)
  }

  function VerifyParts(s: Service, c: Crypto, head: string, body: string, signature: string, secret: string, now: int)
    : Result<Principal, AuthError>
  {
    var input := head + "." + body;
    if !IsAscii(input) then Failure(EncodingError)
    else if !IsAscii(signature) then Failure(ComparisonError)
    else if signature != Sign(c, input, secret) then Failure(Unauthenticated)
    else match DecodeJson(c, body)
      case None => Failure(Unauthenticated)
      case Some(payload) =>
        if !PayloadValid(s, payload, now) then Failure(Unauthenticated)
        else
          var scopes, roles := StringSet(Get(payload, "scopes")), StringSet(Get(payload, "roles"));
          Success(Principal(Get(payload, "sub").s, scopes, roles, payload))
  }

  // ------------------------------------------------------------ round trip

  /** Loading what was dumped from `o` gives `o` back, as JSON promises for objects made
      of strings, lists, booleans and finite numbers. */
  predicate Restores(c: Crypto, o: Object) {
    c.loads(c.dumps(o)) == Some(Obj(o))
  }

  predicate NoDot(s: string) {
    forall i :: 0 <= i < |s| ==> s[i] != '.'
  }

  lemma {:induction false} SplitAtDot(a: string, b: string)
    requires NoDot(a)
    ensures SplitDots(a + ("." + b)) == [a] + SplitDots(b)
    decreases |a|
  {
    if a == "" {
      assert a + ("." + b) == "." + b && ("." + b)[1..] == b;
    } else {
      assert (a + ("." + b))[1..] == a[1..] + ("." + b);
      SplitAtDot(a[1..], b);
      assert a == [a[0]] + a[1..];
      assert ([a[1..]] + SplitDots(b))[1..] == SplitDots(b);
    }
  }

  lemma {:induction false} NoDots(a: string)
    requires NoDot(a)
    ensures SplitDots(a) == [a]
    decreases |a|
  {
    if a != "" {
      NoDots(a[1..]);
      assert a == [a[0]] + a[1..];
    }
  }

  lemma ThreeParts(a: string, b: string, d: string)
    requires NoDot(a) && NoDot(b) && NoDot(d)
    ensures SplitDots(a + "." + b + "." + d) == [a, b, d]
  {
    hide SplitDots, NoDot;
    assert a + "." + b + "." + d == a + ("." + (b + ("." + d)));
    SplitAtDot(a, b + ("." + d));
    SplitAtDot(b, d);
    NoDots(d);
    assert [a] + ([b] + [d]) == [a, b, d];
  }

  lemma PartDecodes(c: Crypto, o: Object)
    requires Restores(c, o)
    ensures DecodeJson(c, Part(c, o)) == Some(o) && NoDot(Part(c, o)) && IsAscii(Part(c, o))
  {
    DecodeEncode(c.dumps(o));
  }

  lemma HeaderFields(id: string)
    ensures Get(Header(id), "alg") == Str("HS256") && Get(Header(id), "kid") == Str(id)
    ensures Header(id).Keys == {"alg", "kid", "typ"} && Header(id)["typ"] == Str("JWT")
  {
  }

  /** What a payload says, field by field: the program's own fields override custom
      claims of their names, and every other custom claim is kept. */
  lemma PayloadFields(s: Service, subject: string, scopes: set<string>, roles: set<string>, claims: Object,
                      now: int, ttl: int)
    ensures var p := Payload(s, subject, scopes, roles, claims, now, ttl);
            && Get(p, "sub") == Str(subject)
            && Get(p, "iat") == Num(now as real) && Get(p, "exp") == Num((now + ttl) as real)
            && Get(p, "scopes") == Strings(Sorted(scopes)) && Get(p, "roles") == Strings(Sorted(roles))
            && Get(p, "iss") == (if s.issuer.Some? then Str(s.issuer.value) else Get(claims, "iss"))
            && Get(p, "aud") == (if s.audience.Some? then Str(s.audience.value) else Get(claims, "aud"))
            && forall k :: k !in ["sub", "scopes", "roles", "iat", "exp", "iss", "aud"] ==> Get(p, k) == Get(claims, k)
  {
    hide Sorted, Strings;
  }

  lemma SortedSet(names: set<string>)
    ensures StringSet(Strings(Sorted(names))) == names
  {
    StringsAreTexts(Sorted(names));
  }

  /** A claim is the text `t`, or a list that holds it. */
  predicate Names(claim: Json, t: string) {
    || claim == Str(t)
    || (claim.List? && exists i :: 0 <= i < |claim.items| && claim.items[i] == Str(t))
  }

  lemma NamesAre(claim: Json, t: string)
    ensures Names(claim, t) <==> AudienceMatches(claim, t)
    ensures Names(claim, t) <==> t in StringSet(claim)
  {
  }

  lemma NamedTexts(claim: Json)
    ensures forall t :: t in StringSet(claim) <==> Names(claim, t)
  {
    forall t ensures t in StringSet(claim) <==> Names(claim, t) {
      NamesAre(claim, t);
    }
  }

  /** `v` takes tokens from `s`: the issuer and audience it insists on, if any, are those
      `s` signs for, or those of the claims where `s` has none of its own. */
  predicate Trusts(v: Service, s: Service, claims: Object) {
    && (v.issuer.Some? ==>
         (if s.issuer.Some? then s.issuer == v.issuer else Get(claims, "iss") == Str(v.issuer.value)))
    && (v.audience.Some? ==>
         (if s.audience.Some? then s.audience == v.audience else Names(Get(claims, "aud"), v.audience.value)))
  }

  /** The part of a token that is signed. */
  function SigningInput(c: Crypto, key: string, payload: Object): string {
    Encode(c.dumps(Header(key))) + "." + Encode(c.dumps(payload))
  }

  /** `v` holds a key of that id under which `input` has the same keyed hash as under the
      key of `s`, whatever other keys have been added or taken away. */
  predicate Recognises(v: Service, s: Service, c: Crypto, key: string, input: string) {
    HasKey(v.keyring, key) && HasKey(s.keyring, key)
    && c.mac(SecretOf(v.keyring, key), input) == c.mac(SecretOf(s.keyring, key), input)
  }

  /** The key a token is signed with: the one asked for, or the active one. */
  function KeyAskedFor(s: Service, id: Option<string>): string
    requires s.activeKey.Some?
  {
    match id
    case Some(k) => if k == "" then s.activeKey.value else k
    case None => s.activeKey.value
  }

  /** A configured service issues a token if and only if it has keys and the key id asked
      for, if any, is one of them. */
  lemma IssuesExactly(s: Service, c: Crypto, subject: string, scopes: set<string>, roles: set<string>, claims: Object,
                      expiresIn: Option<int>, id: Option<string>, now: int)
    requires Configured(s)
    ensures IssueJwt(s, c, subject, scopes, roles, claims, expiresIn, id, now).Success?
      <==> s.keyring != [] && (id.Some? && id.value != "" ==> HasKey(s.keyring, id.value))
    ensures IssueJwt(s, c, subject, scopes, roles, claims, expiresIn, id, now).Success?
      ==> s.activeKey.Some? && SigningKey(s, id) == Some(KeyAskedFor(s, id)) && HasKey(s.keyring, KeyAskedFor(s, id))
  {
    hide Part, Header, Payload, Sign;
  }

  function Lifetime(s: Service, expiresIn: Option<int>): int {
    match expiresIn
    case Some(seconds) => seconds
    case None => s.ttl
  }

  /** An issued token is the signed part, a dot, and the base64url text of its keyed hash
      under the secret of the key it names. */
  lemma IssuedText(s: Service, c: Crypto, subject: string, scopes: set<string>, roles: set<string>, claims: Object,
                   expiresIn: Option<int>, id: Option<string>, now: int)
    requires Configured(s) && s.activeKey.Some?
    requires IssueJwt(s, c, subject, scopes, roles, claims, expiresIn, id, now).Success?
    ensures var key := KeyAskedFor(s, id);
            var input := SigningInput(c, key, Payload(s, subject, scopes, roles, claims, now, Lifetime(s, expiresIn)));
            exists secret :: Key(key, secret) in s.keyring
              && IssueJwt(s, c, subject, scopes, roles, claims, expiresIn, id, now).value
                 == input + "." + Encode(c.mac(secret, input))
  {
    hide Payload, Header, Encode, Configured;
    var key := KeyAskedFor(s, id);
    IssuesExactly(s, c, subject, scopes, roles, claims, expiresIn, id, now);
    SecretInKeyring(s.keyring, key);
    assert Key(key, SecretOf(s.keyring, key)) in s.keyring;
  }

  /** A token that a configured service issues authenticates to the same subject, scopes
      and roles exactly while the clock is below its expiry and at services that still
      hold the signing key and trust its issuer and audience, whichever key is active
      there and however their keyrings differ otherwise. (A token for the empty subject
      can be issued but never authenticates.) */
  lemma TokenRoundTrip(s: Service, v: Service, c: Crypto, subject: string, scopes: set<string>, roles: set<string>,
                       claims: Object, expiresIn: Option<int>, id: Option<string>, issued: int, now: int)
    requires Configured(s) && s.activeKey.Some?
    requires IssueJwt(s, c, subject, scopes, roles, claims, expiresIn, id, issued).Success?
    requires Restores(c, Header(KeyAskedFor(s, id)))
    requires Restores(c, Payload(s, subject, scopes, roles, claims, issued, Lifetime(s, expiresIn)))
    ensures var token := IssueJwt(s, c, subject, scopes, roles, claims, expiresIn, id, issued);
            var ttl, key := Lifetime(s, expiresIn), KeyAskedFor(s, id);
            var payload := Payload(s, subject, scopes, roles, claims, issued, ttl);
            AuthenticateJwt(v, c, Some(token.value), now) ==
              if subject != "" && now < issued + ttl && Trusts(v, s, claims)
                 && Recognises(v, s, c, key, SigningInput(c, key, payload))
              then Success(Principal(subject, scopes, roles, payload))
              else Failure(Unauthenticated)
  {
    hide Restores, Payload, Header, SplitDots, StringSet, SecretOf, AuthenticateJwt, NoDot, Encode, Decode,
         DecodeJson, IsAscii, ValidKeyring, VerifyParts, Trusts, Recognises;
    var ttl, key := Lifetime(s, expiresIn), KeyAskedFor(s, id);
    var payload := Payload(s, subject, scopes, roles, claims, issued, ttl);
    var head, body := Part(c, Header(key)), Part(c, payload);
    var input := head + "." + body;
    var signature := Sign(c, input, SecretOf(s.keyring, key));
    IssuesExactly(s, c, subject, scopes, roles, claims, expiresIn, id, issued);
    SignatureIsSafe(c, input, SecretOf(s.keyring, key));
    PartDecodes(c, Header(key));
    PartDecodes(c, payload);
    HeaderFields(key);
    ThreeParts(head, body, signature);
    KeyIsNamed(s.keyring, key);
    assert input + "." + signature == head + "." + body + "." + signature;
    ReadsParts(v, c, head, body, signature, Header(key), key, now);
    if HasKey(v.keyring, key) {
      VerifiesParts(v, s, c, subject, scopes, roles, claims, issued, ttl, key, head, body, now);
    } else {
      Unrecognised(v, s, c, key, input);
    }
  }

  lemma Unrecognised(v: Service, s: Service, c: Crypto, key: string, input: string)
    requires !HasKey(v.keyring, key)
    ensures !Recognises(v, s, c, key, input)
  {
  }

  /** A verifier that has a key of that id compares the signatures and then the claims. */
  lemma VerifiesParts(v: Service, s: Service, c: Crypto, subject: string, scopes: set<string>, roles: set<string>,
                      claims: Object, issued: int, ttl: int, key: string, head: string, body: string, now: int)
    requires HasKey(v.keyring, key) && HasKey(s.keyring, key)
    requires IsAscii(head) && IsAscii(body)
    requires DecodeJson(c, body) == Some(Payload(s, subject, scopes, roles, claims, issued, ttl))
    ensures var input := head + "." + body;
            VerifyParts(v, c, head, body, Sign(c, input, SecretOf(s.keyring, key)), SecretOf(v.keyring, key), now) ==
              if subject != "" && now < issued + ttl && Trusts(v, s, claims) && Recognises(v, s, c, key, input)
              then Success(Principal(subject, scopes, roles, Payload(s, subject, scopes, roles, claims, issued, ttl)))
              else Failure(Unauthenticated)
  {
    hide Payload, DecodeJson, SecretOf, Encode, IsAscii, Trusts, StringSet, AudienceMatches, Names;
    var input, mine, theirs := head + "." + body, SecretOf(v.keyring, key), SecretOf(s.keyring, key);
    InputIsAscii(head, body);
    SignatureIsSafe(c, input, theirs);
    SameSignature(c, input, mine, theirs);
    PayloadFields(s, subject, scopes, roles, claims, issued, ttl);
    SortedSet(scopes);
    SortedSet(roles);
    Trusted(v, s, claims, Payload(s, subject, scopes, roles, claims, issued, ttl));
  }

  lemma Trusted(v: Service, s: Service, claims: Object, payload: Object)
    requires Get(payload, "iss") == (if s.issuer.Some? then Str(s.issuer.value) else Get(claims, "iss"))
    requires Get(payload, "aud") == (if s.audience.Some? then Str(s.audience.value) else Get(claims, "aud"))
    ensures Trusts(v, s, claims)
      <==> (v.issuer.Some? ==> Get(payload, "iss") == Str(v.issuer.value))
           && (v.audience.Some? ==> AudienceMatches(Get(payload, "aud"), v.audience.value))
  {
    hide AudienceMatches, Names, Get;
    if v.audience.Some? {
      NamesAre(Get(claims, "aud"), v.audience.value);
      if s.audience.Some? {
        NamesAre(Str(s.audience.value), v.audience.value);
        TextNames(s.audience.value, v.audience.value);
      }
    }
  }

  lemma TextNames(a: string, b: string)
    ensures Names(Str(a), b) <==> a == b
  {
  }

  /** Signatures are equal exactly if the keyed hashes are. */
  lemma SameSignature(c: Crypto, input: string, mine: string, theirs: string)
    ensures Sign(c, input, theirs) == Sign(c, input, mine) <==> c.mac(mine, input) == c.mac(theirs, input)
  {
    hide Encode, Decode;
    DecodeEncode(c.mac(mine, input));
    DecodeEncode(c.mac(theirs, input));
  }

  /** No two different secrets of that key id give the text the same keyed hash. */
  ghost predicate TellsApart(c: Crypto, input: string, one: seq<Key>, other: seq<Key>, id: string) {
    forall a, b :: Key(id, a) in one && Key(id, b) in other && a != b ==> c.mac(a, input) != c.mac(b, input)
  }

  /** Where the keyed hash of the signed part tells the two services' secrets of that key
      id apart, only a holder of the signing secret accepts the token: it authenticates
      exactly if the verifier has that very secret, the claims being in order. */
  lemma OnlySecretHoldersAccept(s: Service, v: Service, c: Crypto, subject: string, scopes: set<string>,
                                roles: set<string>, claims: Object, expiresIn: Option<int>, id: Option<string>,
                                issued: int, now: int)
    requires Configured(s) && s.activeKey.Some? && ValidKeyring(v.keyring)
    requires IssueJwt(s, c, subject, scopes, roles, claims, expiresIn, id, issued).Success?
    requires Restores(c, Header(KeyAskedFor(s, id)))
    requires Restores(c, Payload(s, subject, scopes, roles, claims, issued, Lifetime(s, expiresIn)))
    requires var payload := Payload(s, subject, scopes, roles, claims, issued, Lifetime(s, expiresIn));
             var input := SigningInput(c, KeyAskedFor(s, id), payload);
             TellsApart(c, input, s.keyring, v.keyring, KeyAskedFor(s, id))
    ensures var token := IssueJwt(s, c, subject, scopes, roles, claims, expiresIn, id, issued);
            AuthenticateJwt(v, c, Some(token.value), now).Success?
            <==> subject != "" && now < issued + Lifetime(s, expiresIn) && Trusts(v, s, claims)
                 && exists secret :: Key(KeyAskedFor(s, id), secret) in s.keyring
                      && Key(KeyAskedFor(s, id), secret) in v.keyring
  {
    hide Restores, Payload, Header, SecretOf, AuthenticateJwt, ValidKeyring, SigningInput, Trusts, IssueJwt, HasKey;
    TokenRoundTrip(s, v, c, subject, scopes, roles, claims, expiresIn, id, issued, now);
    SecretsAgree(s.keyring, v.keyring, KeyAskedFor(s, id));
    if HasKey(s.keyring, KeyAskedFor(s, id)) && HasKey(v.keyring, KeyAskedFor(s, id)) {
      SecretInKeyring(s.keyring, KeyAskedFor(s, id));
      SecretInKeyring(v.keyring, KeyAskedFor(s, id));
      assert Key(KeyAskedFor(s, id), SecretOf(s.keyring, KeyAskedFor(s, id))) in s.keyring;
      assert Key(KeyAskedFor(s, id), SecretOf(v.keyring, KeyAskedFor(s, id))) in v.keyring;
    }
  }

  lemma SecretsAgree(one: seq<Key>, other: seq<Key>, id: string)
    requires ValidKeyring(one) && ValidKeyring(other)
    ensures (HasKey(one, id) && HasKey(other, id) && SecretOf(one, id) == SecretOf(other, id))
      <==> exists secret :: Key(id, secret) in one && Key(id, secret) in other
  {
    hide SecretOf, ValidKeyring;
    if HasKey(one, id) && HasKey(other, id) {
      SecretInKeyring(one, id);
      SecretInKeyring(other, id);
      assert Key(id, SecretOf(one, id)) in one && Key(id, SecretOf(other, id)) in other;
    }
    forall secret | Key(id, secret) in one && Key(id, secret) in other
      ensures HasKey(one, id) && HasKey(other, id) && SecretOf(one, id) == secret == SecretOf(other, id)
    {
      TheSecret(one, id, secret);
      TheSecret(other, id, secret);
    }
  }

  /** A valid keyring holds one secret for an id. */
  lemma TheSecret(keyring: seq<Key>, id: string, secret: string)
    requires ValidKeyring(keyring) && Key(id, secret) in keyring
    ensures HasKey(keyring, id) && SecretOf(keyring, id) == secret
  {
    var i :| 0 <= i < |keyring| && keyring[i] == Key(id, secret);
    assert HasKey(keyring, id);
    SecretInKeyring(keyring, id);
  }

  /** How a token is read whose header names `key`. */
  lemma ReadsParts(v: Service, c: Crypto, head: string, body: string, signature: string, header: Object,
                   key: string, now: int)
    requires SplitDots(head + "." + body + "." + signature) == [head, body, signature]
    requires DecodeJson(c, head) == Some(header)
    requires Get(header, "alg") == Str("HS256") && Get(header, "kid") == Str(key) && key != ""
    ensures AuthenticateJwt(v, c, Some(head + "." + body + "." + signature), now) ==
            if HasKey(v.keyring, key) then VerifyParts(v, c, head, body, signature, SecretOf(v.keyring, key), now)
            else Failure(Unauthenticated)
  {
    hide DecodeJson, SplitDots, VerifyParts, SecretOf;
  }

  lemma KeyIsNamed(keyring: seq<Key>, id: string)
    requires ValidKeyring(keyring) && HasKey(keyring, id)
    ensures id != ""
  {
  }

  lemma SignatureIsSafe(c: Crypto, input: string, secret: string)
    ensures NoDot(Sign(c, input, secret)) && IsAscii(Sign(c, input, secret))
  {
    DecodeEncode(c.mac(secret, input));
  }

  lemma InputIsAscii(head: string, body: string)
    requires IsAscii(head) && IsAscii(body)
    ensures IsAscii(head + "." + body)
  {
  }

  /** The secret of the key that the header's `kid` names, or the only one there is if
      the header names none. */
  ghost predicate Selects(keyring: seq<Key>, header: Object, secret: string) {
    var kid := Get(header, "kid");
    if kid.Str? && kid.s != "" then Key(kid.s, secret) in keyring
    else |keyring| == 1 && keyring[0].secret == secret
  }

  /** The text is the base64url form of a JSON object. */
  ghost predicate Means(c: Crypto, text: string, o: Object) {
    Decode(text).Some? && c.loads(Decode(text).value) == Some(Obj(o))
  }

  /** The claims hold at `now`: a subject, an expiry still ahead (`true` counting as one
      second past the epoch), and the issuer and audience the service insists on. */
  ghost predicate ClaimsHold(s: Service, payload: Object, now: int) {
    && (exists t :: t != "" && Get(payload, "sub") == Str(t))
    && ((exists r :: (now as real) < r && Get(payload, "exp") == Num(r))
        || (now < 1 && Get(payload, "exp") == Bool(true))
        || (now < 0 && Get(payload, "exp") == Bool(false)))
    && (forall i :: s.issuer == Some(i) ==> Get(payload, "iss") == Str(i))
    && (forall a :: s.audience == Some(a) ==> Names(Get(payload, "aud"), a))
  }

  lemma ClaimsHoldExactly(s: Service, payload: Object, now: int)
    ensures ClaimsHold(s, payload, now) <==> PayloadValid(s, payload, now)
  {
    hide Get, Names, AudienceMatches;
    if s.audience.Some? {
      NamesAre(Get(payload, "aud"), s.audience.value);
    }
  }

  /** Who the payload speaks of. */
  ghost predicate SpeaksOf(payload: Object, p: Principal) {
    && Get(payload, "sub") == Str(p.subject) && p.claims == payload
    && (forall t :: t in p.scopes <==> Names(Get(payload, "scopes"), t))
    && (forall t :: t in p.roles <==> Names(Get(payload, "roles"), t))
  }

  lemma SpeaksOfExactly(payload: Object, p: Principal)
    requires Get(payload, "sub").Str?
    ensures SpeaksOf(payload, p)
      <==> p == Principal(Get(payload, "sub").s, StringSet(Get(payload, "scopes")), StringSet(Get(payload, "roles")),
                          payload)
  {
    hide Get, StringSet, Names;
    NamedTexts(Get(payload, "scopes"));
    NamedTexts(Get(payload, "roles"));
    assert SpeaksOf(payload, p)
      <==> Get(payload, "sub") == Str(p.subject) && p.claims == payload
           && p.scopes == StringSet(Get(payload, "scopes")) && p.roles == StringSet(Get(payload, "roles"));
  }

  /** The token is made of three parts: a header with the one algorithm there is, a
      payload whose claims hold at `now`, and the base64url text of the keyed hash of
      both under the secret that the header selects. */
  ghost predicate SignedParts(s: Service, c: Crypto, token: string, now: int, secret: string,
                              head: string, body: string, header: Object, payload: Object)
  {
    && token == head + "." + body + "." + Encode(c.mac(secret, head + "." + body)) && NoDot(head) && NoDot(body)
    && Means(c, head, header) && Get(header, "alg") == Str("HS256")
    && Selects(s.keyring, header, secret)
    && Means(c, body, payload) && ClaimsHold(s, payload, now)
  }

  /** Whatever text is presented, it is accepted if and only if it is signed in this way,
      and then for the principal the payload speaks of. */
  lemma AcceptedIsSigned(s: Service, c: Crypto, token: string, now: int, p: Principal)
    requires ValidKeyring(s.keyring)
    ensures AuthenticateJwt(s, c, Some(token), now) == Success(p)
      <==> exists secret, head, body, header, payload ::
             SignedParts(s, c, token, now, secret, head, body, header, payload) && SpeaksOf(payload, p)
  {
    hide AuthenticateJwt, SignedParts, SpeaksOf;
    if AuthenticateJwt(s, c, Some(token), now) == Success(p) {
      AcceptedParts(s, c, token, now, p);
    }
    forall secret, head, body, header, payload |
      SignedParts(s, c, token, now, secret, head, body, header, payload) && SpeaksOf(payload, p)
      ensures AuthenticateJwt(s, c, Some(token), now) == Success(p)
    {
      SignedIsAccepted(s, c, token, now, p, secret, head, body, header, payload);
    }
  }

  lemma AcceptedParts(s: Service, c: Crypto, token: string, now: int, p: Principal)
    requires AuthenticateJwt(s, c, Some(token), now) == Success(p)
    ensures exists secret, head, body, header, payload ::
              SignedParts(s, c, token, now, secret, head, body, header, payload) && SpeaksOf(payload, p)
  {
    hide SplitDots, Selects, PayloadValid, Encode, Decode, IsAscii, ClaimsHold, SpeaksOf, StringSet, Get,
         SecretForHeader, NoDot;
    var parts := SplitDots(token);
    var head, body := parts[0], parts[1];
    var header, payload := DecodeJson(c, head).value, DecodeJson(c, body).value;
    var secret := SecretForHeader(s, header).value;
    SelectedSecret(s, header);
    ClaimsHoldExactly(s, payload, now);
    ValidHasSubject(s, payload, now);
    SpeaksOfExactly(payload, p);
    assert parts == [head, body, Encode(c.mac(secret, head + "." + body))];
    InThree(token, head, body, Encode(c.mac(secret, head + "." + body)));
    assert SignedParts(s, c, token, now, secret, head, body, header, payload);
  }

  lemma ValidHasSubject(s: Service, payload: Object, now: int)
    requires PayloadValid(s, payload, now)
    ensures Get(payload, "sub").Str?
  {
  }

  lemma SignedIsAccepted(s: Service, c: Crypto, token: string, now: int, p: Principal, secret: string,
                         head: string, body: string, header: Object, payload: Object)
    requires ValidKeyring(s.keyring)
    requires SignedParts(s, c, token, now, secret, head, body, header, payload) && SpeaksOf(payload, p)
    ensures AuthenticateJwt(s, c, Some(token), now) == Success(p)
  {
    hide SplitDots, Selects, PayloadValid, Encode, Scan, IsAscii, ClaimsHold, SpeaksOf, StringSet, Get,
         SecretForHeader, ValidKeyring, Padding, NoDot;
    SelectedIsUsed(s, header, secret);
    InThree(token, head, body, Encode(c.mac(secret, head + "." + body)));
    ClaimsHoldExactly(s, payload, now);
    ValidHasSubject(s, payload, now);
    SpeaksOfExactly(payload, p);
    SignatureIsSafe(c, head + "." + body, secret);
    InputIsAscii(head, body);
    SplitNothing();
  }

  lemma SplitNothing()
    ensures SplitDots("") == [""]
  {
  }

  lemma SelectedIsHeld(keyring: seq<Key>, header: Object, secret: string)
    requires Selects(keyring, header, secret)
    ensures exists k :: k in keyring && k.secret == secret
  {
    var kid := Get(header, "kid");
    if kid.Str? && kid.s != "" {
      assert Key(kid.s, secret) in keyring;
    } else {
      assert keyring[0] in keyring;
    }
  }

  lemma SelectedIsUsed(s: Service, header: Object, secret: string)
    requires ValidKeyring(s.keyring) && Selects(s.keyring, header, secret)
    ensures SecretForHeader(s, header) == Success(secret) && s.keyring != []
  {
    hide ValidKeyring, SecretOf;
    var kid := Get(header, "kid");
    if kid.Str? && kid.s != "" {
      TheSecret(s.keyring, kid.s, secret);
    }
  }

  function JoinDots(parts: seq<string>): string {
    if parts == [] then ""
    else if |parts| == 1 then parts[0]
    else parts[0] + "." + JoinDots(parts[1..])
  }

  lemma {:induction false} SplitJoins(s: string)
    ensures SplitDots(s) != [] && JoinDots(SplitDots(s)) == s
    ensures forall i :: 0 <= i < |SplitDots(s)| ==> NoDot(SplitDots(s)[i])
    decreases |s|
  {
    if s != "" {
      SplitJoins(s[1..]);
      var rest := SplitDots(s[1..]);
      assert s == [s[0]] + s[1..];
      if s[0] == '.' {
        assert ([""] + rest)[1..] == rest;
      } else {
        assert ([[s[0]] + rest[0]] + rest[1..])[1..] == rest[1..];
      }
    }
  }

  /** Splitting at the dots gives three parts exactly if they make up the token and hold
      no dot. */
  lemma InThree(token: string, a: string, b: string, d: string)
    ensures SplitDots(token) == [a, b, d]
      <==> token == a + "." + b + "." + d && NoDot(a) && NoDot(b) && NoDot(d)
  {
    hide SplitDots, NoDot;
    if SplitDots(token) == [a, b, d] {
      SplitJoins(token);
      assert [a, b, d][1..] == [b, d] && [b, d][1..] == [d];
      assert JoinDots([b, d]) == b + "." + d;
      assert token == a + "." + (b + "." + d);
      assert [a, b, d][0] == a && [a, b, d][1] == b && [a, b, d][2] == d;
    } else if NoDot(a) && NoDot(b) && NoDot(d) {
      ThreeParts(a, b, d);
    }
  }

  lemma {:induction false} LastPart(s: string, b: string)
    requires NoDot(b)
    ensures SplitDots(s + ("." + b)) == SplitDots(s) + [b]
    decreases |s|
  {
    var whole := s + ("." + b);
    if s == "" {
      NoDots(b);
      assert whole[1..] == b;
    } else {
      LastPart(s[1..], b);
      assert whole[1..] == s[1..] + ("." + b);
      SplitJoins(s[1..]);
    }
  }

  /** The signature of `input` serves no other text: a changed header or payload is refused
      by every service none of whose keys gives it the same keyed hash. */
  lemma ChangedTextIsRefused(v: Service, c: Crypto, input: string, secret: string, other: string, now: int)
    requires forall k :: k in v.keyring ==> c.mac(k.secret, other) != c.mac(secret, input)
    ensures AuthenticateJwt(v, c, Some(other + "." + Encode(c.mac(secret, input))), now).Failure?
  {
    hide AuthenticateJwt, SplitDots, Encode, Decode, SpeaksOf, SignedParts, Selects;
    var signature := Encode(c.mac(secret, input));
    var token := other + "." + signature;
    var result := AuthenticateJwt(v, c, Some(token), now);
    if result.Success? {
      AcceptedParts(v, c, token, now, result.value);
      var used, head, body, header, payload :|
        SignedParts(v, c, token, now, used, head, body, header, payload) && SpeaksOf(payload, result.value);
      SignedTwice(v, c, now, input, secret, other, used, head, body, header, payload);
      SelectedIsHeld(v.keyring, header, used);
      assert false;
    }
  }

  lemma SignedTwice(v: Service, c: Crypto, now: int, input: string, secret: string, other: string,
                    used: string, head: string, body: string, header: Object, payload: Object)
    requires SignedParts(v, c, other + "." + Encode(c.mac(secret, input)), now, used, head, body, header, payload)
    ensures other == head + "." + body && c.mac(used, other) == c.mac(secret, input)
    ensures Selects(v.keyring, header, used)
  {
    hide SplitDots, Encode, Decode, Means, ClaimsHold, Selects;
    var signature, again := Encode(c.mac(secret, input)), Encode(c.mac(used, head + "." + body));
    DecodeEncode(c.mac(secret, input));
    DecodeEncode(c.mac(used, head + "." + body));
    LastPart(other, signature);
    LastPart(head + "." + body, again);
    assert other + "." + signature == other + ("." + signature);
    assert head + "." + body + "." + again == head + "." + body + ("." + again);
    var one, two := SplitDots(other), SplitDots(head + "." + body);
    assert one + [signature] == two + [again];
    assert (one + [signature])[|one|] == signature && (two + [again])[|two|] == again;
    assert one == (one + [signature])[..|one|] == two;
    SplitJoins(other);
    SplitJoins(head + "." + body);
  }

  /** The two exceptions that get out: the payload part is not ASCII, or the signature. */
  lemma NonAsciiRaises(s: Service, c: Crypto, head: string, body: string, signature: string, header: Object,
                       secret: string, now: int)
    requires ValidKeyring(s.keyring) && SplitDots(head + "." + body + "." + signature) == [head, body, signature]
    requires Means(c, head, header) && Get(header, "alg") == Str("HS256") && Selects(s.keyring, header, secret)
    ensures AuthenticateJwt(s, c, Some(head + "." + body + "." + signature), now) == Failure(EncodingError)
      <==> exists i :: 0 <= i < |body| && body[i] as int >= 128
    ensures AuthenticateJwt(s, c, Some(head + "." + body + "." + signature), now) == Failure(ComparisonError)
      <==> (exists i :: 0 <= i < |signature| && signature[i] as int >= 128)
           && !exists i :: 0 <= i < |body| && body[i] as int >= 128
  {
    hide SplitDots, Encode, Selects, PayloadValid, StringSet, Get, SecretForHeader, ValidKeyring, Scan, Padding;
    SelectedIsUsed(s, header, secret);
    AsciiOfInput(head, body);
  }

  lemma AsciiOfInput(head: string, body: string)
    requires IsAscii(head)
    ensures IsAscii(head + "." + body) <==> IsAscii(body)
  {
    if IsAscii(head + "." + body) {
      forall i | 0 <= i < |body| ensures body[i] < '\U{80}' {
        assert (head + "." + body)[|head| + 1 + i] == body[i];
      }
    }
  }

  lemma SelectedSecret(s: Service, header: Object)
    requires SecretForHeader(s, header).Success?
    ensures Selects(s.keyring, header, SecretForHeader(s, header).value)
  {
    var kid := Get(header, "kid");
    if kid.Str? && kid.s != "" {
      SecretInKeyring(s.keyring, kid.s);
    }
  }

  lemma {:induction false} SecretInKeyring(keyring: seq<Key>, id: string)
    requires HasKey(keyring, id)
    ensures exists i :: 0 <= i < |keyring| && keyring[i] == Key(id, SecretOf(keyring, id))
  {
    if keyring[0].id != id {
      SecretInKeyring(keyring[1..], id);
    }
  }
}
