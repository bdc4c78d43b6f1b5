/** HTTP Digest authentication against the hub (auth/digest.go): the
    challenge parser that fills a `DigestAuth` record, the request digest
    of section 3.2.2.1 of RFC 2617 (with SHA-256 as section 3.4.1 of
    RFC 7616 allows), the `Authorization` header, and the probe-then-sign
    `Request`.  The MD5 and SHA-256 implementations and the clock are
    parameters. */
module Auth {
  import opened Results
  import opened GoStrings
  import opened HexEncoding

  datatype Algorithm = MD5 | SHA256

  /** The token the challenge uses for the algorithm and the header repeats. */
  function AlgorithmName(alg: Algorithm): string {
    match alg
    case MD5 => "MD5"
    case SHA256 => "SHA-256"
  }

  /** crypto/md5 and crypto/sha256 behind `HashSum`: one digest function
      per algorithm, otherwise abstract. */
  type Hash = Algorithm -> string -> Bytes

  /** The challenge fields `parse` fills in. */
  datatype Challenge = Challenge(realm: string, nonce: string, opaqueValue: string, qop: string, algorithm: Option<Algorithm>)

  /** What `parse` gives up on.  The source panics in both cases: a known
      key without '=' indexes past the end of its split, and a challenge
      that names no supported algorithm hits `panic("no algorithm")`. */
  datatype ParseError = MissingValue(key: string) | NoAlgorithm

  /** The record after parsing, and the error that stopped it, if any. */
  datatype Parsed = Parsed(state: Challenge, error: Option<ParseError>)

  const DigestPrefix: string := "Digest "

  predicate IsChallengeKey(key: string) {
    key == "realm" || key == "nonce" || key == "opaque" || key == "qop" || key == "algorithm"
  }

  /** One directive as `parse` sees it after
      `strings.Split(strings.TrimSpace(kv), "=")`: the key (the first
      piece) and, when there was an '=', the value (the second piece with
      every surrounding '"' trimmed).  A value is read only when the key
      is a known one; `None` stands for the missing second piece that the
      source indexes past. */
  datatype Directive = Directive(key: string, value: Option<string>)

  function ParseDirective(d: string): Directive {
    var kv := Split(TrimSpace(d), '=');
    Directive(kv[0], if |kv| >= 2 then Some(Trim(kv[1], '"')) else None)
  }

  /** `f` applied to every element. */
  function Map<A, B>(f: A -> B, xs: seq<A>): (r: seq<B>)
    ensures |r| == |xs|
    ensures forall k :: 0 <= k < |xs| ==> r[k] == f(xs[k])
  {
    if |xs| == 0 then [] else [f(xs[0])] + Map(f, xs[1..])
  }

  /** The key is the trimmed directive up to its first '='; there is a
      value exactly when there is an '=', and it is the text up to any
      second '=', with the quotes trimmed. */
  lemma DirectiveMeaning(d: string)
    ensures var t := TrimSpace(d);
      var i := IndexOf(t, '=');
      && ParseDirective(d).key == t[..i]
      && (ParseDirective(d).value.Some? <==> i < |t|)
      && (i < |t| ==> ParseDirective(d).value.value == Trim(t[i + 1..][..IndexOf(t[i + 1..], '=')], '"'))
  {
    var t := TrimSpace(d);
    var i := IndexOf(t, '=');
    var kv := Split(t, '=');
    SplitHead(t, '=');
    assert ParseDirective(d).key == kv[0];
    if i < |t| {
      var rest := t[i + 1..];
      SplitHead(rest, '=');
      assert kv[1] == kv[1..][0] == Split(rest, '=')[0] == rest[..IndexOf(rest, '=')];
      assert ParseDirective(d).value == Some(Trim(kv[1], '"'));
    } else {
      assert ParseDirective(d).value == None;
    }
  }

  /** One directive applied to the record: the four string keys
      overwrite their field, `algorithm` is recorded only for exactly
      MD5 or SHA-256, other keys are ignored, and a known key without a
      value is an error. */
  function ApplyDirective(c: Challenge, d: Directive): (r: Result<Challenge, ParseError>)
    ensures r.Err? <==> IsChallengeKey(d.key) && d.value.None?
    ensures r.Err? ==> r.error == MissingValue(d.key)
    ensures !IsChallengeKey(d.key) ==> r == Ok(c)
  {
    if !IsChallengeKey(d.key) then Ok(c)
    else if d.value.None? then Err(MissingValue(d.key))
    else Ok(Assign(c, d.key, d.value.value))
  }

  /** The record after a known key has been read with value `v`. */
  function Assign(c: Challenge, key: string, v: string): (r: Challenge)
    requires IsChallengeKey(key)
  {
    if key == "realm" then c.(realm := v)
    else if key == "nonce" then c.(nonce := v)
    else if key == "opaque" then c.(opaqueValue := v)
    else if key == "qop" then c.(qop := v)
    else if v == "MD5" then c.(algorithm := Some(MD5))
    else if v == "SHA-256" then c.(algorithm := Some(SHA256))
    else c
  }

  /** The directives applied in order, stopping at the first error. */
  function ApplyDirectives(c: Challenge, directives: seq<Directive>): Parsed
    decreases |directives|
  {
    if |directives| == 0 then Parsed(c, None)
    else match ApplyDirective(c, directives[0])
      case Err(e) => Parsed(c, Some(e))
      case Ok(c') => ApplyDirectives(c', directives[1..])
  }

  /** Index of the first `WWW-Authenticate` value that starts with
      "Digest ", or the number of values when none does. */
  function FirstDigest(values: seq<string>): (i: nat)
    ensures i <= |values|
    ensures forall k :: 0 <= k < i ==> !HasPrefix(values[k], DigestPrefix)
    ensures i < |values| ==> HasPrefix(values[i], DigestPrefix)
  {
    if |values| == 0 then 0
    else if HasPrefix(values[0], DigestPrefix) then 0
    else 1 + FirstDigest(values[1..])
  }

  /** The comma-separated directives of a Digest value. */
  function Directives(value: string): seq<string> {
    Split(TrimPrefix(value, DigestPrefix), ',')
  }

  /** What `parse` does to the record `c`: only the first Digest value is
      read, and a record that ends without a supported algorithm is an
      error. */
  function ParseChallenge(c: Challenge, values: seq<string>): (r: Parsed)
    ensures r.error.None? ==> r.state.algorithm.Some?
  {
    var i := FirstDigest(values);
    var p := if i < |values| then ApplyDirectives(c, Map(ParseDirective, Directives(values[i]))) else Parsed(c, None);
    if p.error.None? && p.state.algorithm.None? then Parsed(p.state, Some(NoAlgorithm)) else p
  }

  /** Values before the first Digest one are skipped and values after it
      are never looked at. */
  lemma {:induction false} OnlyFirstDigestParsed(c: Challenge, skipped: seq<string>, v: string, rest: seq<string>)
    requires forall k :: 0 <= k < |skipped| ==> !HasPrefix(skipped[k], DigestPrefix)
    requires HasPrefix(v, DigestPrefix)
    ensures ParseChallenge(c, skipped + [v] + rest) == ParseChallenge(c, [v])
  {
    var values := skipped + [v] + rest;
    assert values[|skipped|] == v;
    assert forall k :: 0 <= k < |skipped| ==> values[k] == skipped[k];
    assert FirstDigest(values) == |skipped|;
    assert FirstDigest([v]) == 0;
  }

  /** Without any Digest value nothing is recorded, and parsing succeeds
      only when an algorithm was already known. */
  lemma NoDigestValue(c: Challenge, values: seq<string>)
    requires forall k :: 0 <= k < |values| ==> !HasPrefix(values[k], DigestPrefix)
    ensures ParseChallenge(c, values).state == c
    ensures ParseChallenge(c, values).error.None? <==> c.algorithm.Some?
  {
  }

  /** The value of the last directive with `key` and a value, or
      `otherwise` when there is none. */
  function LastValue(directives: seq<Directive>, key: string, otherwise: string): string
    decreases |directives|
  {
    if |directives| == 0 then otherwise
    else
      var d := directives[|directives| - 1];
      if d.key == key && d.value.Some? then d.value.value
      else LastValue(directives[..|directives| - 1], key, otherwise)
  }

  /** The algorithm of the last directive naming exactly MD5 or SHA-256,
      or `otherwise` when there is none. */
  function LastAlgorithm(directives: seq<Directive>, otherwise: Option<Algorithm>): Option<Algorithm>
    decreases |directives|
  {
    if |directives| == 0 then otherwise
    else
      var d := directives[|directives| - 1];
      if d.key == "algorithm" && d.value == Some("MD5") then Some(MD5)
      else if d.key == "algorithm" && d.value == Some("SHA-256") then Some(SHA256)
      else LastAlgorithm(directives[..|directives| - 1], otherwise)
  }

  /** Appending a directive applies it to the record reached so far. */
  lemma {:induction false} ApplyDirectivesSnoc(c: Challenge, directives: seq<Directive>, d: Directive)
    ensures var p := ApplyDirectives(c, directives);
      ApplyDirectives(c, directives + [d]) ==
        if p.error.Some? then p
        else match ApplyDirective(p.state, d)
          case Err(e) => Parsed(p.state, Some(e))
          case Ok(c') => Parsed(c', None)
    decreases |directives|
  {
    if |directives| == 0 {
      assert ([] + [d])[1..] == [];
    } else {
      assert (directives + [d])[0] == directives[0];
      assert (directives + [d])[1..] == directives[1..] + [d];
      match ApplyDirective(c, directives[0])
      case Err(e) =>
      case Ok(c') => ApplyDirectivesSnoc(c', directives[1..], d);
    }
  }

  /** A repeated key overwrites the earlier value: after a successful
      pass each string field holds the value of the last directive with
      its key (or what it held before), and the algorithm is the last
      supported one named. */
  lemma {:induction false} LastDirectiveWins(c: Challenge, directives: seq<Directive>)
    requires ApplyDirectives(c, directives).error.None?
    ensures var s := ApplyDirectives(c, directives).state;
      && s.realm == LastValue(directives, "realm", c.realm)
      && s.nonce == LastValue(directives, "nonce", c.nonce)
      && s.opaqueValue == LastValue(directives, "opaque", c.opaqueValue)
      && s.qop == LastValue(directives, "qop", c.qop)
      && s.algorithm == LastAlgorithm(directives, c.algorithm)
    decreases |directives|
  {
    if |directives| > 0 {
      var init := directives[..|directives| - 1];
      var d := directives[|directives| - 1];
      assert directives == init + [d];
      ApplyDirectivesSnoc(c, init, d);
      LastDirectiveWins(c, init);
    }
  }

  /** The nonce count is fixed: every request is signed from scratch. */
  const NonceCount: string := "00000001"

  /** `HashSum`: the selected digest of `data`. */
  function HashSum(h: Hash, alg: Algorithm, data: string): Bytes {
    h(alg)(data)
  }

  /** The request digest: H(hex(HA1) ":" nonce ":" nc ":" hex(cnonce) ":"
      qop ":" hex(HA2)) with HA1 = H(username ":" realm ":" password) and
      HA2 = H(method ":" path). */
  function RequestDigest(h: Hash, alg: Algorithm, username: string, password: string, c: Challenge,
                         verb: string, path: string, cnonce: Bytes): Bytes
  {
    var ha1 := HashSum(h, alg, username + ":" + c.realm + ":" + password);
    var ha2 := HashSum(h, alg, verb + ":" + path);
    HashSum(h, alg, Hex(ha1) + ":" + c.nonce + ":" + NonceCount + ":" + Hex(cnonce) + ":" + c.qop + ":" + Hex(ha2))
  }

  /** KD(secret, data) = H(secret ":" data), as section 3.2.1 of RFC 2617
      defines it. */
  function KD(h: Hash, alg: Algorithm, secret: string, data: string): Bytes {
    HashSum(h, alg, secret + ":" + data)
  }

  /** The digest is the RFC's request-digest for qop "auth": KD(H(A1),
      nonce ":" nc ":" cnonce ":" qop ":" H(A2)), with every hash written
      in lower-case hexadecimal (section 3.2.2.1 of RFC 2617). */
  lemma RequestDigestIsKD(h: Hash, alg: Algorithm, username: string, password: string, c: Challenge,
                          verb: string, path: string, cnonce: Bytes)
    ensures RequestDigest(h, alg, username, password, c, verb, path, cnonce) ==
      KD(h, alg, Hex(HashSum(h, alg, username + ":" + c.realm + ":" + password)),
         c.nonce + ":" + NonceCount + ":" + Hex(cnonce) + ":" + c.qop + ":" + Hex(HashSum(h, alg, verb + ":" + path)))
  {
    ColonChain(Hex(HashSum(h, alg, username + ":" + c.realm + ":" + password)), c.nonce, NonceCount, Hex(cnonce),
               c.qop, Hex(HashSum(h, alg, verb + ":" + path)));
  }

  /** The six fields of the digested string, grouped as KD groups them. */
  lemma ColonChain(a: string, b: string, c: string, d: string, e: string, f: string)
    ensures a + ":" + (b + ":" + c + ":" + d + ":" + e + ":" + f) == a + ":" + b + ":" + c + ":" + d + ":" + e + ":" + f
  {
  }

  function Quoted(key: string, value: string): string {
    key + "=\"" + value + "\""
  }

  function Bare(key: string, value: string): string {
    key + "=" + value
  }

  /** The directives of the `Authorization` header, in the order the
      source writes them. */
  function AuthDirectives(username: string, c: Challenge, alg: Algorithm, path: string, cnonce: Bytes, response: Bytes): seq<string> {
    [ Quoted("username", username), Quoted("realm", c.realm), Quoted("nonce", c.nonce),
      Quoted("uri", path), Bare("nc", NonceCount), Quoted("cnonce", Hex(cnonce)),
      Bare("qop", c.qop), Quoted("response", Hex(response)), Bare("algorithm", AlgorithmName(alg)),
      Quoted("opaque", c.opaqueValue) ]
  }

  /** `AuthHeader` for the record `c`; the client nonce is the hash of the
      clock reading `now`. */
  function AuthorizationHeader(h: Hash, username: string, password: string, c: Challenge,
                               verb: string, path: string, now: string): string
    requires c.algorithm.Some?
  {
    var alg := c.algorithm.value;
    var cnonce := HashSum(h, alg, now);
    var response := RequestDigest(h, alg, username, password, c, verb, path, cnonce);
    DigestPrefix + Join(AuthDirectives(username, c, alg, path, cnonce, response), ", ")
  }

  /** No directive value contains a character that would end it early. */
  predicate PlainValue(v: string) {
    ',' !in v && '=' !in v && '"' !in v
  }

  predicate Token(v: string) {
    PlainValue(v) && forall k :: 0 <= k < |v| ==> !IsSpace(v[k])
  }

  /** The header echoes the parsed challenge unchanged: reading it with
      the challenge parser gives back exactly the record it was built
      from, provided the values carry none of the characters the naive
      parser splits on. */
  lemma AuthorizationEchoesChallenge(h: Hash, username: string, password: string, c: Challenge,
                                     verb: string, path: string, now: string, before: Challenge)
    requires c.algorithm.Some?
    requires ',' !in username && ',' !in path
    requires PlainValue(c.realm) && PlainValue(c.nonce) && PlainValue(c.opaqueValue) && Token(c.qop)
    ensures ParseChallenge(before, [AuthorizationHeader(h, username, password, c, verb, path, now)]) == Parsed(c, None)
  {
    var alg := c.algorithm.value;
    var cnonce := HashSum(h, alg, now);
    var response := RequestDigest(h, alg, username, password, c, verb, path, cnonce);
    var ds := AuthDirectives(username, c, alg, path, cnonce, response);
    var header := AuthorizationHeader(h, username, password, c, verb, path, now);
    assert header == DigestPrefix + Join(ds, ", ");
    PrefixTrimmed(DigestPrefix, Join(ds, ", "));
    assert FirstDigest([header]) == 0;
    forall k | 0 <= k < |ds| ensures ',' !in ds[k] {
      NoCommaInDirectives(username, c, alg, path, cnonce, response, k);
    }
    SplitHeader(ds);
    EchoSteps(before, username, c, alg, path, cnonce, response);
  }

  /** The directives of a header as the challenge parser reads them. */
  function HeaderDirectives(header: string): seq<Directive> {
    Map(ParseDirective, Directives(header))
  }

  /** The value a header gives `key`, or "" when it gives none. */
  function HeaderValue(header: string, key: string): string {
    LastValue(HeaderDirectives(header), key, "")
  }

  /** The hub's check of a header: the response it carries is the digest
      recomputed from the password and the values the header itself
      carries (section 3.2.2 of RFC 2617). */
  predicate DigestVerifies(h: Hash, alg: Algorithm, password: string, verb: string, header: string) {
    var ha1 := Hex(HashSum(h, alg, HeaderValue(header, "username") + ":" + HeaderValue(header, "realm") + ":" + password));
    var ha2 := Hex(HashSum(h, alg, verb + ":" + HeaderValue(header, "uri")));
    HeaderValue(header, "response") ==
      Hex(KD(h, alg, ha1, HeaderValue(header, "nonce") + ":" + HeaderValue(header, "nc") + ":" +
                          HeaderValue(header, "cnonce") + ":" + HeaderValue(header, "qop") + ":" + ha2))
  }

  /** The keys of the header's directives, in order. */
  const HeaderKeys: seq<string> := ["username", "realm", "nonce", "uri", "nc", "cnonce", "qop", "response", "algorithm", "opaque"]

  /** The values of the header's directives, in the same order. */
  function HeaderValues(username: string, c: Challenge, alg: Algorithm, path: string, cnonce: Bytes, response: Bytes): (r: seq<string>)
    ensures |r| == |HeaderKeys|
  {
    [username, c.realm, c.nonce, path, NonceCount, Hex(cnonce), c.qop, Hex(response), AlgorithmName(alg), c.opaqueValue]
  }

  /** The directives a header with these values parses to. */
  function Echo(vals: seq<string>): seq<Directive>
    requires |vals| == |HeaderKeys|
  {
    [ Directive("username", Some(vals[0])), Directive("realm", Some(vals[1])), Directive("nonce", Some(vals[2])),
      Directive("uri", Some(vals[3])), Directive("nc", Some(vals[4])), Directive("cnonce", Some(vals[5])),
      Directive("qop", Some(vals[6])), Directive("response", Some(vals[7])), Directive("algorithm", Some(vals[8])),
      Directive("opaque", Some(vals[9])) ]
  }

  /** The header is self-consistent: a hub that knows the password reads
      the username, realm, nonce, uri, nc, cnonce and qop back out of the
      header and, recomputing the digest from them, gets the response
      the header carries.  The values must avoid the characters the
      naive parser splits on. */
  lemma HeaderVerifies(h: Hash, username: string, password: string, c: Challenge,
                       verb: string, path: string, now: string)
    requires c.algorithm.Some?
    requires PlainValue(username) && PlainValue(path)
    requires PlainValue(c.realm) && PlainValue(c.nonce) && PlainValue(c.opaqueValue) && Token(c.qop)
    ensures var header := AuthorizationHeader(h, username, password, c, verb, path, now);
      && DigestVerifies(h, c.algorithm.value, password, verb, header)
      && HeaderValue(header, "username") == username && HeaderValue(header, "uri") == path
      && HeaderValue(header, "realm") == c.realm && HeaderValue(header, "nonce") == c.nonce
  {
    var alg := c.algorithm.value;
    var cnonce := HashSum(h, alg, now);
    var response := RequestDigest(h, alg, username, password, c, verb, path, cnonce);
    var header := AuthorizationHeader(h, username, password, c, verb, path, now);
    var vals := HeaderValues(username, c, alg, path, cnonce, response);
    assert header == DigestPrefix + Join(AuthDirectives(username, c, alg, path, cnonce, response), ", ");
    HeaderParsed(username, c, alg, path, cnonce, response);
    ValueOf(vals, 0);
    ValueOf(vals, 1);
    ValueOf(vals, 2);
    ValueOf(vals, 3);
    ValueOf(vals, 4);
    ValueOf(vals, 5);
    ValueOf(vals, 6);
    ValueOf(vals, 7);
    RequestDigestIsKD(h, alg, username, password, c, verb, path, cnonce);
  }

  lemma HeaderKeysDistinct()
    ensures forall i, j :: 0 <= i < j < |HeaderKeys| ==> HeaderKeys[i] != HeaderKeys[j]
  {
  }

  /** A key that occurs once among the parsed directives reads back its
      value. */
  lemma ValueOf(vals: seq<string>, k: nat)
    requires |vals| == |HeaderKeys| && k < |HeaderKeys|
    ensures LastValue(Echo(vals), HeaderKeys[k], "") == vals[k]
  {
    var ds := Echo(vals);
    assert forall i :: 0 <= i < |ds| ==> ds[i] == Directive(HeaderKeys[i], Some(vals[i]));
    HeaderKeysDistinct();
    LastValueAt(ds, k, vals[k], "");
  }

  /** The value of the last directive with a given key. */
  lemma {:induction false} LastValueAt(ds: seq<Directive>, k: nat, v: string, otherwise: string)
    requires k < |ds| && ds[k].value == Some(v)
    requires forall j :: k < j < |ds| ==> ds[j].key != ds[k].key
    ensures LastValue(ds, ds[k].key, otherwise) == v
    decreases |ds|
  {
    var n := |ds| - 1;
    if k < n {
      var init := ds[..n];
      assert init[k] == ds[k];
      LastValueAt(init, k, v, otherwise);
    }
  }

  /** The header, read by the challenge parser, gives back its ten
      directives, each with its key and its value. */
  lemma HeaderParsed(username: string, c: Challenge, alg: Algorithm, path: string, cnonce: Bytes, response: Bytes)
    requires PlainValue(username) && PlainValue(path)
    requires PlainValue(c.realm) && PlainValue(c.nonce) && PlainValue(c.opaqueValue) && Token(c.qop)
    ensures HeaderDirectives(DigestPrefix + Join(AuthDirectives(username, c, alg, path, cnonce, response), ", ")) ==
      Echo(HeaderValues(username, c, alg, path, cnonce, response))
  {
    var ds := AuthDirectives(username, c, alg, path, cnonce, response);
    PrefixTrimmed(DigestPrefix, Join(ds, ", "));
    forall k | 0 <= k < |ds| ensures ',' !in ds[k] {
      NoCommaInDirectives(username, c, alg, path, cnonce, response, k);
    }
    SplitHeader(ds);
    PiecesParsed(username, c, alg, path, cnonce, response);
  }

  /** The pieces of the split header, parsed one by one. */
  lemma PiecesParsed(username: string, c: Challenge, alg: Algorithm, path: string, cnonce: Bytes, response: Bytes)
    requires PlainValue(username) && PlainValue(path)
    requires PlainValue(c.realm) && PlainValue(c.nonce) && PlainValue(c.opaqueValue) && Token(c.qop)
    ensures var ds := AuthDirectives(username, c, alg, path, cnonce, response);
      Map(ParseDirective, [ds[0]] + Padded(" ", ds[1..])) == Echo(HeaderValues(username, c, alg, path, cnonce, response))
  {
    var ds := AuthDirectives(username, c, alg, path, cnonce, response);
    EchoPieces(ds);
    HexPlain(cnonce);
    HexPlain(response);
    AlgorithmToken(alg);
    NonceCountToken();
    KeysAreKeyLike();
    var p0, p1, p2, p3, p4 := "" + ds[0], " " + ds[1], " " + ds[2], " " + ds[3], " " + ds[4];
    var p5, p6, p7, p8, p9 := " " + ds[5], " " + ds[6], " " + ds[7], " " + ds[8], " " + ds[9];
    assert ds[0] == p0;
    MapTen(ParseDirective, p0, p1, p2, p3, p4, p5, p6, p7, p8, p9);
    QuotedParts("", "username", username);
    QuotedParts(" ", "realm", c.realm);
    QuotedParts(" ", "nonce", c.nonce);
    QuotedParts(" ", "uri", path);
    BareParts("nc", NonceCount);
    QuotedParts(" ", "cnonce", Hex(cnonce));
    BareParts("qop", c.qop);
    QuotedParts(" ", "response", Hex(response));
    BareParts("algorithm", AlgorithmName(alg));
    QuotedParts(" ", "opaque", c.opaqueValue);
  }

  lemma PrefixTrimmed(prefix: string, s: string)
    ensures HasPrefix(prefix + s, prefix) && TrimPrefix(prefix + s, prefix) == s
  {
    assert (prefix + s)[..|prefix|] == prefix;
    assert (prefix + s)[|prefix|..] == s;
  }

  /** The joined directives split back into the directives, every one
      after the first with the space of the separator in front. */
  lemma SplitHeader(ds: seq<string>)
    requires |ds| >= 1
    requires forall k :: 0 <= k < |ds| ==> ',' !in ds[k]
    ensures Split(Join(ds, ", "), ',') == [ds[0]] + Padded(" ", ds[1..])
  {
    SplitJoin("", ds, ',', " ");
    assert [','] + " " == ", ";
    assert "" + Join(ds, ", ") == Join(ds, ", ");
    assert "" + ds[0] == ds[0];
  }

  lemma NoCommaInDirectives(username: string, c: Challenge, alg: Algorithm, path: string, cnonce: Bytes, response: Bytes, k: nat)
    requires k < 10
    requires ',' !in username && ',' !in path
    requires PlainValue(c.realm) && PlainValue(c.nonce) && PlainValue(c.opaqueValue) && Token(c.qop)
    ensures ',' !in AuthDirectives(username, c, alg, path, cnonce, response)[k]
  {
    var ds := AuthDirectives(username, c, alg, path, cnonce, response);
    if k == 0 {
      QuotedFree("username", username);
    } else if k == 1 {
      QuotedFree("realm", c.realm);
    } else if k == 2 {
      QuotedFree("nonce", c.nonce);
    } else if k == 3 {
      QuotedFree("uri", path);
    } else if k == 4 {
      NonceCountToken();
      BareFree("nc", NonceCount);
    } else if k == 5 {
      HexPlain(cnonce);
      QuotedFree("cnonce", Hex(cnonce));
    } else if k == 6 {
      BareFree("qop", c.qop);
    } else if k == 7 {
      HexPlain(response);
      QuotedFree("response", Hex(response));
    } else if k == 8 {
      AlgorithmToken(alg);
      BareFree("algorithm", AlgorithmName(alg));
    } else {
      QuotedFree("opaque", c.opaqueValue);
    }
  }

  lemma QuotedFree(key: string, value: string)
    requires ',' !in key && ',' !in value
    ensures ',' !in Quoted(key, value)
  {
  }

  lemma BareFree(key: string, value: string)
    requires ',' !in key && ',' !in value
    ensures ',' !in Bare(key, value)
  {
  }

  /** The pieces of the header, parsed and applied one after the other
      to any record, leave the record the header was built from. */
  lemma EchoSteps(before: Challenge, username: string, c: Challenge, alg: Algorithm, path: string, cnonce: Bytes, response: Bytes)
    requires c.algorithm == Some(alg)
    requires PlainValue(c.realm) && PlainValue(c.nonce) && PlainValue(c.opaqueValue) && Token(c.qop)
    ensures var ds := AuthDirectives(username, c, alg, path, cnonce, response);
      ApplyDirectives(before, Map(ParseDirective, [ds[0]] + Padded(" ", ds[1..]))) == Parsed(c, None)
  {
    var ds := AuthDirectives(username, c, alg, path, cnonce, response);
    EchoPieces(ds);
    HexPlain(cnonce);
    HexPlain(response);
    AlgorithmToken(alg);
    NonceCountToken();
    KeysAreKeyLike();
    var p0, p1, p2, p3, p4 := "" + ds[0], " " + ds[1], " " + ds[2], " " + ds[3], " " + ds[4];
    var p5, p6, p7, p8, p9 := " " + ds[5], " " + ds[6], " " + ds[7], " " + ds[8], " " + ds[9];
    assert ds[0] == p0;
    MapTen(ParseDirective, p0, p1, p2, p3, p4, p5, p6, p7, p8, p9);
    var d0 := ParseDirective(p0);
    var d3 := ParseDirective(p3);
    QuotedKey("", "username", username);
    QuotedKey(" ", "uri", path);
    var d1 := Directive("realm", Some(c.realm));
    var d2 := Directive("nonce", Some(c.nonce));
    var d4 := Directive("nc", Some(NonceCount));
    var d5 := Directive("cnonce", Some(Hex(cnonce)));
    var d6 := Directive("qop", Some(c.qop));
    var d7 := Directive("response", Some(Hex(response)));
    var d8 := Directive("algorithm", Some(AlgorithmName(alg)));
    var d9 := Directive("opaque", Some(c.opaqueValue));
    QuotedParts(" ", "realm", c.realm);
    QuotedParts(" ", "nonce", c.nonce);
    BareParts("nc", NonceCount);
    QuotedParts(" ", "cnonce", Hex(cnonce));
    BareParts("qop", c.qop);
    QuotedParts(" ", "response", Hex(response));
    BareParts("algorithm", AlgorithmName(alg));
    QuotedParts(" ", "opaque", c.opaqueValue);
    EchoFold(before, c, alg, d0, d1, d2, d3, d4, d5, d6, d7, d8, d9);
  }

  /** The parsed header directives, folded into any record. */
  lemma EchoFold(before: Challenge, c: Challenge, alg: Algorithm,
                 d0: Directive, d1: Directive, d2: Directive, d3: Directive, d4: Directive,
                 d5: Directive, d6: Directive, d7: Directive, d8: Directive, d9: Directive)
    requires c.algorithm == Some(alg)
    requires d0.key == "username" && d3.key == "uri"
    requires d1 == Directive("realm", Some(c.realm)) && d2 == Directive("nonce", Some(c.nonce))
    requires d4.key == "nc" && d5.key == "cnonce" && d7.key == "response"
    requires d6 == Directive("qop", Some(c.qop)) && d8 == Directive("algorithm", Some(AlgorithmName(alg)))
    requires d9 == Directive("opaque", Some(c.opaqueValue))
    ensures ApplyDirectives(before, [d0, d1, d2, d3, d4, d5, d6, d7, d8, d9]) == Parsed(c, None)
  {
    var c1 := before.(realm := c.realm);
    var c2 := c1.(nonce := c.nonce);
    var c3 := c2.(qop := c.qop);
    var c4 := c3.(algorithm := Some(alg));
    var c5 := c4.(opaqueValue := c.opaqueValue);
    assert c5 == c;
    var ds := [d0, d1, d2, d3, d4, d5, d6, d7, d8, d9];
    assert ApplyDirectives(c4, ds[9..]) == Parsed(c5, None) by {
      assert ds[9..] == [d9];
      FieldSteps(c4, c.opaqueValue);
    }
    IgnoredKeys();
    AlgorithmStep(c3, alg);
    ApplyStep(c3, ds, 8, c4);
    IgnoredStep(c3, ds, 7);
    FieldSteps(c2, c.qop);
    ApplyStep(c2, ds, 6, c3);
    IgnoredStep(c2, ds, 5);
    IgnoredStep(c2, ds, 4);
    IgnoredStep(c2, ds, 3);
    FieldSteps(c1, c.nonce);
    ApplyStep(c1, ds, 2, c2);
    FieldSteps(before, c.realm);
    ApplyStep(before, ds, 1, c1);
    IgnoredStep(before, ds, 0);
    assert ds[0..] == ds;
  }

  /** A string key with a value overwrites its field. */
  lemma FieldSteps(c: Challenge, v: string)
    ensures ApplyDirective(c, Directive("realm", Some(v))) == Ok(c.(realm := v))
    ensures ApplyDirective(c, Directive("nonce", Some(v))) == Ok(c.(nonce := v))
    ensures ApplyDirective(c, Directive("qop", Some(v))) == Ok(c.(qop := v))
    ensures ApplyDirective(c, Directive("opaque", Some(v))) == Ok(c.(opaqueValue := v))
  {
  }

  /** The header's algorithm token records that algorithm. */
  lemma AlgorithmStep(c: Challenge, alg: Algorithm)
    ensures ApplyDirective(c, Directive("algorithm", Some(AlgorithmName(alg)))) == Ok(c.(algorithm := Some(alg)))
  {
  }

  /** The header's own keys that are not part of a challenge. */
  lemma IgnoredKeys()
    ensures !IsChallengeKey("username") && !IsChallengeKey("uri") && !IsChallengeKey("nc")
    ensures !IsChallengeKey("cnonce") && !IsChallengeKey("response")
  {
  }

  /** A step the fold skips. */
  lemma IgnoredStep(c: Challenge, ds: seq<Directive>, k: nat)
    requires k < |ds| && !IsChallengeKey(ds[k].key)
    ensures ApplyDirectives(c, ds[k..]) == ApplyDirectives(c, ds[k + 1..])
  {
    ApplyStep(c, ds, k, c);
  }

  /** One known step of the fold. */
  lemma ApplyStep(c: Challenge, ds: seq<Directive>, k: nat, c': Challenge)
    requires k < |ds| && ApplyDirective(c, ds[k]) == Ok(c')
    ensures ApplyDirectives(c, ds[k..]) == ApplyDirectives(c', ds[k + 1..])
  {
    assert ds[k..][0] == ds[k];
    assert ds[k..][1..] == ds[k + 1..];
  }

  /** `f` over a ten-element sequence. */
  lemma MapTen<A, B>(f: A -> B, x0: A, x1: A, x2: A, x3: A, x4: A, x5: A, x6: A, x7: A, x8: A, x9: A)
    ensures Map(f, [x0, x1, x2, x3, x4, x5, x6, x7, x8, x9]) ==
      [f(x0), f(x1), f(x2), f(x3), f(x4), f(x5), f(x6), f(x7), f(x8), f(x9)]
  {
  }

  /** The pieces of the joined header, one per directive. */
  lemma EchoPieces(ds: seq<string>)
    requires |ds| == 10
    ensures [ds[0]] + Padded(" ", ds[1..]) ==
      [ds[0], " " + ds[1], " " + ds[2], " " + ds[3], " " + ds[4],
       " " + ds[5], " " + ds[6], " " + ds[7], " " + ds[8], " " + ds[9]]
  {
  }

  /** What a directive's key must look like for the header to be read
      back: no leading space and no '='. */
  predicate KeyLike(key: string) {
    |key| > 0 && !IsSpace(key[0]) && '=' !in key
  }

  lemma KeysAreKeyLike()
    ensures KeyLike("username") && KeyLike("realm") && KeyLike("nonce") && KeyLike("uri") && KeyLike("nc")
    ensures KeyLike("cnonce") && KeyLike("qop") && KeyLike("response") && KeyLike("algorithm") && KeyLike("opaque")
  {
  }

  lemma NonceCountToken()
    ensures Token(NonceCount)
  {
  }

  lemma AlgorithmToken(alg: Algorithm)
    ensures Token(AlgorithmName(alg))
  {
  }

  lemma HexPlain(b: Bytes)
    ensures Token(Hex(b))
  {
    var x := Hex(b);
    forall k | 0 <= k < |x| ensures x[k] != ',' && x[k] != '=' && x[k] != '"' && !IsSpace(x[k]) {
      DigitPlain(x[k]);
    }
  }

  /** A hexadecimal digit is none of the characters the parser treats
      specially. */
  lemma DigitPlain(ch: char)
    requires ch in Digits
    ensures ch != ',' && ch != '=' && ch != '"' && !IsSpace(ch)
  {
    var i :| 0 <= i < |Digits| && Digits[i] == ch;
  }

  /** A quoted directive `key="value"`, optionally after one space, has
      `key` as its key. */
  lemma QuotedKey(pad: string, key: string, value: string)
    requires pad == "" || pad == " "
    requires KeyLike(key)
    ensures ParseDirective(pad + Quoted(key, value)).key == key
  {
    QuotedTrim(pad, key, value);
    QuotedSplit(key, value);
  }

  /** ... and, for a value without '"' or '=', that value. */
  lemma QuotedParts(pad: string, key: string, value: string)
    requires pad == "" || pad == " "
    requires KeyLike(key)
    requires '"' !in value && '=' !in value
    ensures ParseDirective(pad + Quoted(key, value)) == Directive(key, Some(value))
  {
    var d := pad + Quoted(key, value);
    var quoted := "\"" + value + "\"";
    QuotedTrim(pad, key, value);
    QuotedSplit(key, value);
    QuotedValue(value);
    PairOf(key, Split(quoted, '='), quoted);
    DirectiveOf(d, Quoted(key, value), key, quoted);
  }

  /** A directive that trims to `t`, which splits into a key and one
      value. */
  lemma DirectiveOf(d: string, t: string, key: string, raw: string)
    requires TrimSpace(d) == t && Split(t, '=') == [key, raw]
    ensures ParseDirective(d) == Directive(key, Some(Trim(raw, '"')))
  {
  }

  lemma PairOf(a: string, rest: seq<string>, b: string)
    requires rest == [b]
    ensures [a] + rest == [a, b]
  {
  }

  lemma QuotedTrim(pad: string, key: string, value: string)
    requires pad == "" || pad == " "
    requires |key| > 0 && !IsSpace(key[0])
    ensures TrimSpace(pad + Quoted(key, value)) == Quoted(key, value)
  {
    var q := Quoted(key, value);
    assert q[0] == key[0];
    assert q[|q| - 1] == '"';
    TrimSpaceOfPadded(pad, q);
  }

  lemma QuotedSplit(key: string, value: string)
    requires '=' !in key
    ensures Split(Quoted(key, value), '=') == [key] + Split("\"" + value + "\"", '=')
  {
    var rest := "\"" + value + "\"";
    assert Quoted(key, value) == key + ([('=')] + rest);
    SplitAfterFree(key, rest, '=');
  }

  lemma QuotedValue(value: string)
    requires '"' !in value && '=' !in value
    ensures Split("\"" + value + "\"", '=') == ["\"" + value + "\""]
    ensures Trim("\"" + value + "\"", '"') == value
  {
    var rest := "\"" + value + "\"";
    assert '=' !in rest;
    SplitNone(rest, '=');
    TrimQuoted(value, '"');
    assert ['"'] + value + ['"'] == rest;
  }

  /** An unquoted directive `key=value` after one space, for a value
      without '=', '"' or spaces, parses to that key and value. */
  lemma BareParts(key: string, value: string)
    requires KeyLike(key)
    requires Token(value)
    ensures ParseDirective(" " + Bare(key, value)) == Directive(key, Some(value))
  {
    BareTrim(key, value);
    BareSplit(key, value);
    TrimNoQuote(value, '"');
  }

  lemma BareSplit(key: string, value: string)
    requires '=' !in key && '=' !in value
    ensures Split(Bare(key, value), '=') == [key, value]
  {
    assert Bare(key, value) == key + ([('=')] + value);
    SplitAfterFree(key, value, '=');
    SplitNone(value, '=');
  }

  lemma BareTrim(key: string, value: string)
    requires |key| > 0 && !IsSpace(key[0])
    requires Token(value)
    ensures TrimSpace(" " + Bare(key, value)) == Bare(key, value)
  {
    var d := Bare(key, value);
    assert d[0] == key[0];
    if value == [] {
      assert d[|d| - 1] == '=';
    } else {
      assert d[|d| - 1] == value[|value| - 1];
    }
    TrimSpaceOfPadded(" ", d);
  }

  lemma SplitNone(s: string, c: char)
    requires c !in s
    ensures Split(s, c) == [s]
  {
  }

  lemma TrimNoQuote(s: string, c: char)
    requires c !in s
    ensures Trim(s, c) == s
  {
  }

  const StatusUnauthorized: int := 401

  /** The request `Request` hands back. */
  datatype HttpRequest = HttpRequest(verb: string, path: string, authorization: Option<string>)

  datatype RequestError = Transport(msg: string) | Unparsable(error: ParseError)

  /** The `DigestAuth` record: credentials fixed at construction, the
      challenge fields overwritten by `parse`. */
  class DigestAuth {
    var realm: string
    var nonce: string
    var opaqueValue: string
    var qop: string
    var algorithm: Option<Algorithm>
    const username: string
    const password: string

    function Fields(): Challenge
      reads this
    {
      Challenge(realm, nonce, opaqueValue, qop, algorithm)
    }

    /** NewDigestAuth */
    constructor (username: string, password: string)
      ensures this.username == username && this.password == password
      ensures Fields() == Challenge("", "", "", "", None)
    {
      this.username := username;
      this.password := password;
      realm, nonce, opaqueValue, qop, algorithm := "", "", "", "", None;
    }

    /** parse: walks the `WWW-Authenticate` values, reads the directives
        of the first Digest one into the record and stops. */
    method Parse(values: seq<string>) returns (err: Option<ParseError>)
      modifies this
      ensures Fields() == ParseChallenge(old(Fields()), values).state
      ensures err == ParseChallenge(old(Fields()), values).error
    {
      ghost var start := Fields();
      var i := 0;
      while i < |values|
        invariant 0 <= i <= |values|
        invariant forall k :: 0 <= k < i ==> !HasPrefix(values[k], DigestPrefix)
        invariant Fields() == start
      {
        var v := values[i];
        if !HasPrefix(v, DigestPrefix) {
          i := i + 1;
          continue;
        }
        assert FirstDigest(values) == i;
        var directives := Split(TrimPrefix(v, DigestPrefix), ',');
        assert directives == Directives(values[i]);
        var j := 0;
        while j < |directives|
          invariant 0 <= j <= |directives|
          invariant ApplyDirectives(start, Map(ParseDirective, directives)) == ApplyDirectives(Fields(), Map(ParseDirective, directives[j..]))
        {
          assert directives[j..][1..] == directives[j + 1..];
          err := ReadDirective(directives[j]);
          if err.Some? {
            return;
          }
          j := j + 1;
        }
        break;
      }
      if algorithm.None? {
        return Some(NoAlgorithm);
      }
      return None;
    }

    /** The body of parse's inner loop: one directive read into the
        record; a known key without a value is the index-out-of-range
        panic, reported here as an error that leaves the record as it
        was. */
    method ReadDirective(directive: string) returns (err: Option<ParseError>)
      modifies this
      ensures var r := ApplyDirective(old(Fields()), ParseDirective(directive));
        && (r.Ok? ==> err.None? && Fields() == r.value)
        && (r.Err? ==> err == Some(r.error) && Fields() == old(Fields()))
    {
      var kv := Split(TrimSpace(directive), '=');
      var key := kv[0];
      ghost var d := ParseDirective(directive);
      ghost var r := ApplyDirective(Fields(), d);
      assert d.key == key && (d.value.Some? <==> |kv| >= 2);
      if key == "realm" || key == "nonce" || key == "opaque" || key == "qop" || key == "algorithm" {
        if |kv| < 2 {
          return Some(MissingValue(key));
        }
        assert r == Ok(Assign(Fields(), key, Trim(kv[1], '"')));
      } else {
        assert r == Ok(Fields());
      }
      if key == "realm" {
        realm := Trim(kv[1], '"');
      } else if key == "nonce" {
        nonce := Trim(kv[1], '"');
      } else if key == "opaque" {
        opaqueValue := Trim(kv[1], '"');
      } else if key == "qop" {
        qop := Trim(kv[1], '"');
      } else if key == "algorithm" {
        var name := Trim(kv[1], '"');
        if name == "MD5" {
          algorithm := Some(MD5);
        } else if name == "SHA-256" {
          algorithm := Some(SHA256);
        }
      }
      return None;
    }

    /** AuthHeader for the current record. */
    function AuthHeader(h: Hash, verb: string, path: string, now: string): string
      reads this
      requires algorithm.Some?
    {
      AuthorizationHeader(h, username, password, Fields(), verb, path, now)
    }

    /** Request: the unauthenticated probe is done by the caller and
        passed in as its status code (or transport error) and
        `WWW-Authenticate` values; anything but 401 returns the request
        as it was, a 401 parses the challenge and signs the request. */
    method Request(verb: string, path: string, probe: Result<int, string>, wwwAuthenticate: seq<string>,
                   h: Hash, now: string) returns (r: Result<HttpRequest, RequestError>)
      modifies this
      ensures probe.Err? ==> r == Err(Transport(probe.error)) && Fields() == old(Fields())
      ensures probe.Ok? && probe.value != StatusUnauthorized ==>
        r == Ok(HttpRequest(verb, path, None)) && Fields() == old(Fields())
      ensures probe == Ok(StatusUnauthorized) ==>
        var p := ParseChallenge(old(Fields()), wwwAuthenticate);
        && Fields() == p.state
        && (p.error.Some? ==> r == Err(Unparsable(p.error.value)))
        && (p.error.None? ==> r == Ok(HttpRequest(verb, path, Some(AuthorizationHeader(h, username, password, p.state, verb, path, now)))))
    {
      if probe.Err? {
        return Err(Transport(probe.error));
      }
      var req := HttpRequest(verb, path, None);
      if probe.value != StatusUnauthorized {
        return Ok(req);
      }
      var err := Parse(wwwAuthenticate);
      if err.Some? {
        return Err(Unparsable(err.value));
      }
      r := Ok(req.(authorization := Some(AuthHeader(h, verb, path, now))));
    }
  }
}
