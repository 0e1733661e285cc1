/**
 * The audit-log middleware of the storefront (shop/middleware.py): how a request's body is
 * turned into a sanitised payload, which address the client is logged under, which requests
 * are logged at all, and the record written to the AuditLog table for each of them.
 */
module Audit {
  import opened Wrappers
  import opened Text

  // ---------------------------------------------------------------------------
  // Sanitising JSON-like data

  /** Dictionary keys whose values never reach the log, compared after lower-casing. */
  const SensitiveKeys: set<string> :=
    {"password", "token", "access_token", "refresh_token", "secret", "authorization"}

  /** What a sensitive value is replaced by. */
  const Masked: string := "***"

  predicate IsSensitive(key: string)
  {
    Lower(key) in SensitiveKeys
  }

  /**
   * The values json.loads produces and json.dumps consumes: null, booleans, numbers (kept
   * as their literal), strings, lists, and dicts with their items in insertion order.
   */
  datatype Json =
    | JNull
    | JBool(b: bool)
    | JNumber(literal: string)
    | JString(s: string)
    | JArray(items: seq<Json>)
    | JObject(members: seq<Member>)

  datatype Member = Member(key: string, value: Json)

  /** _mask_sensitive: a copy of the tree with the value of every sensitive key replaced. */
  function Mask(j: Json): Json
  {
    match j
    case JObject(ms) => JObject(seq(|ms|, i requires 0 <= i < |ms| => MaskMember(ms[i])))
    case JArray(xs) => JArray(seq(|xs|, i requires 0 <= i < |xs| => Mask(xs[i])))
    case _ => j
  }

  function MaskMember(m: Member): Member
  {
    if IsSensitive(m.key) then Member(m.key, JString(Masked)) else Member(m.key, Mask(m.value))
  }

  /**
   * b is a itself except, possibly, for the values held under sensitive keys: the same
   * constructors, the same keys in the same order, the same list lengths and the same scalars.
   */
  predicate AgreesOutsideSecrets(a: Json, b: Json)
  {
    match a
    case JObject(ms) =>
      && b.JObject?
      && |b.members| == |ms|
      && forall i :: 0 <= i < |ms| ==>
           && b.members[i].key == ms[i].key
           && (IsSensitive(ms[i].key) || AgreesOutsideSecrets(ms[i].value, b.members[i].value))
    case JArray(xs) =>
      && b.JArray?
      && |b.items| == |xs|
      && forall i :: 0 <= i < |xs| ==> AgreesOutsideSecrets(xs[i], b.items[i])
    case _ => b == a
  }

  /** At every depth, every sensitive key holds exactly the masked marker. */
  predicate FullyMasked(j: Json)
  {
    match j
    case JObject(ms) =>
      forall i :: 0 <= i < |ms| ==>
        if IsSensitive(ms[i].key) then ms[i].value == JString(Masked) else FullyMasked(ms[i].value)
    case JArray(xs) => forall i :: 0 <= i < |xs| ==> FullyMasked(xs[i])
    case _ => true
  }

  /** No key at any depth is sensitive. */
  predicate NoSensitiveKeys(j: Json)
  {
    match j
    case JObject(ms) =>
      forall i :: 0 <= i < |ms| ==> !IsSensitive(ms[i].key) && NoSensitiveKeys(ms[i].value)
    case JArray(xs) => forall i :: 0 <= i < |xs| ==> NoSensitiveKeys(xs[i])
    case _ => true
  }

  lemma {:induction false} AgreesReflexive(j: Json)
    ensures AgreesOutsideSecrets(j, j)
  {
    match j
    case JObject(ms) =>
      forall i | 0 <= i < |ms|
        ensures AgreesOutsideSecrets(ms[i].value, ms[i].value)
      {
        AgreesReflexive(ms[i].value);
      }
    case JArray(xs) =>
      forall i | 0 <= i < |xs|
        ensures AgreesOutsideSecrets(xs[i], xs[i])
      {
        AgreesReflexive(xs[i]);
      }
    case _ =>
  }

  /** Masking changes nothing but the values of sensitive keys, at any depth. */
  lemma {:induction false} MaskAgrees(j: Json)
    ensures AgreesOutsideSecrets(j, Mask(j))
  {
    match j
    case JObject(ms) =>
      var out := Mask(j).members;
      forall i | 0 <= i < |ms|
        ensures out[i].key == ms[i].key
        ensures IsSensitive(ms[i].key) || AgreesOutsideSecrets(ms[i].value, out[i].value)
      {
        assert out[i] == MaskMember(ms[i]);
        if !IsSensitive(ms[i].key) {
          MaskAgrees(ms[i].value);
        }
      }
    case JArray(xs) =>
      var out := Mask(j).items;
      forall i | 0 <= i < |xs|
        ensures AgreesOutsideSecrets(xs[i], out[i])
      {
        assert out[i] == Mask(xs[i]);
        MaskAgrees(xs[i]);
      }
    case _ =>
  }

  /** After masking, every sensitive key at every depth holds "***". */
  lemma {:induction false} MaskFullyMasks(j: Json)
    ensures FullyMasked(Mask(j))
  {
    match j
    case JObject(ms) =>
      var out := Mask(j).members;
      forall i | 0 <= i < |out|
        ensures if IsSensitive(out[i].key) then out[i].value == JString(Masked) else FullyMasked(out[i].value)
      {
        assert out[i] == MaskMember(ms[i]);
        if !IsSensitive(ms[i].key) {
          MaskFullyMasks(ms[i].value);
        }
      }
    case JArray(xs) =>
      var out := Mask(j).items;
      forall i | 0 <= i < |out|
        ensures FullyMasked(out[i])
      {
        assert out[i] == Mask(xs[i]);
        MaskFullyMasks(xs[i]);
      }
    case _ =>
  }

  /** A fully masked tree that agrees with j outside its secrets is Mask(j): there is no other. */
  lemma {:induction false} MaskUnique(j: Json, t: Json)
    requires AgreesOutsideSecrets(j, t) && FullyMasked(t)
    ensures t == Mask(j)
  {
    match j
    case JObject(ms) =>
      var out := Mask(j).members;
      forall i | 0 <= i < |ms|
        ensures t.members[i] == out[i]
      {
        assert out[i] == MaskMember(ms[i]);
        if !IsSensitive(ms[i].key) {
          MaskUnique(ms[i].value, t.members[i].value);
        }
      }
      assert t.members == out;
    case JArray(xs) =>
      var out := Mask(j).items;
      forall i | 0 <= i < |xs|
        ensures t.items[i] == out[i]
      {
        MaskUnique(xs[i], t.items[i]);
      }
      assert t.items == out;
    case _ =>
  }

  /**
   * _mask_sensitive characterised without reference to its definition: t is the masked
   * form of j exactly when t agrees with j outside the secrets and every secret is "***".
   */
  lemma MaskCharacterised(j: Json, t: Json)
    ensures t == Mask(j) <==> AgreesOutsideSecrets(j, t) && FullyMasked(t)
  {
    if t == Mask(j) {
      MaskAgrees(j);
      MaskFullyMasks(j);
    }
    if AgreesOutsideSecrets(j, t) && FullyMasked(t) {
      MaskUnique(j, t);
    }
  }

  /** Masking a masked tree gives the same tree. */
  lemma MaskIdempotent(j: Json)
    ensures Mask(Mask(j)) == Mask(j)
  {
    MaskFullyMasks(j);
    AgreesReflexive(Mask(j));
    MaskUnique(Mask(j), Mask(j));
  }

  lemma {:induction false} NoSensitiveKeysFullyMasked(j: Json)
    requires NoSensitiveKeys(j)
    ensures FullyMasked(j)
  {
    match j
    case JObject(ms) =>
      forall i | 0 <= i < |ms|
        ensures FullyMasked(ms[i].value)
      {
        NoSensitiveKeysFullyMasked(ms[i].value);
      }
    case JArray(xs) =>
      forall i | 0 <= i < |xs|
        ensures FullyMasked(xs[i])
      {
        NoSensitiveKeysFullyMasked(xs[i]);
      }
    case _ =>
  }

  /** A tree without sensitive keys passes through unchanged; so does every scalar. */
  lemma MaskIdentityWithoutSecrets(j: Json)
    requires NoSensitiveKeys(j)
    ensures Mask(j) == j
  {
    NoSensitiveKeysFullyMasked(j);
    AgreesReflexive(j);
    MaskUnique(j, j);
  }

  /** The top-level shape: dicts keep their keys in order, lists their length. */
  lemma MaskTopLevel(j: Json)
    ensures j.JObject? ==>
      && Mask(j).JObject?
      && |Mask(j).members| == |j.members|
      && forall i :: 0 <= i < |j.members| ==> Mask(j).members[i].key == j.members[i].key
    ensures j.JArray? ==> Mask(j).JArray? && |Mask(j).items| == |j.items|
    ensures !j.JObject? && !j.JArray? ==> Mask(j) == j
  {
  }

  /** Matching ignores case. */
  lemma PasswordIsSensitive()
    ensures IsSensitive("Password")
  {
    assert Lower("Password") == "password";
  }

  lemma NameIsNotSensitive()
    ensures !IsSensitive("name")
  {
    assert Lower("name") == "name";
  }

  lemma MaskExample()
    ensures Mask(JObject([Member("Password", JString("hunter2")), Member("name", JString("Ana"))]))
         == JObject([Member("Password", JString(Masked)), Member("name", JString("Ana"))])
  {
    var ms := [Member("Password", JString("hunter2")), Member("name", JString("Ana"))];
    PasswordIsSensitive();
    NameIsNotSensitive();
    assert MaskMember(ms[1]) == ms[1];
    assert Mask(JObject(ms)).members == [Member("Password", JString(Masked)), ms[1]];
  }

  // ---------------------------------------------------------------------------
  // The request, as far as the middleware looks at it

  datatype User = User(id: nat, isAuthenticated: bool)

  /**
   * The request attributes the middleware reads: the method and path (either may be unset),
   * the Content-Type header ('' when absent), the body decoded as text, the form fields of
   * request.POST, the META dictionary, and the user.
   */
  datatype RequestData = RequestData(
    verb: Option<string>,
    path: Option<string>,
    contentType: string,
    body: string,
    post: FormFields,
    meta: map<string, string>,
    user: Option<User>)

  /**
   * request.POST as (key, last value) pairs in key order: a QueryDict holds each key once,
   * and get(key) gives the last value submitted under it.
   */
  type FormFields = post: seq<(string, string)> | forall i, j :: 0 <= i < j < |post| ==> post[i].0 != post[j].0

  /** meta.get(key, ''), which for string values is also meta.get(key) or ''. */
  function MetaGet(meta: map<string, string>, key: string): string
  {
    if key in meta then meta[key] else ""
  }

  const PayloadCap: nat := 4000

  predicate IsUnloggedMethod(verb: Option<string>)
  {
    verb.Some? && verb.value in {"GET", "HEAD", "OPTIONS"}
  }

  predicate IsJsonBody(req: RequestData)
  {
    Contains(req.contentType, "application/json")
  }

  /** {key: request.POST.get(key) for key in request.POST.keys()}. */
  function FormObject(post: FormFields): (obj: Json)
    ensures obj.JObject? && |obj.members| == |post|
    ensures forall i :: 0 <= i < |post| ==> obj.members[i] == Member(post[i].0, JString(post[i].1))
    ensures forall i, j :: 0 <= i < j < |obj.members| ==> obj.members[i].key != obj.members[j].key
  {
    JObject(seq(|post|, i requires 0 <= i < |post| => Member(post[i].0, JString(post[i].1))))
  }

  /**
   * _extract_payload. loads stands for json.loads (None when it raises) and dumps for
   * json.dumps with ensure_ascii=False.
   */
  function ExtractPayload(req: RequestData, loads: string -> Option<Json>, dumps: Json -> string): (r: string)
    ensures |r| <= PayloadCap
    ensures IsUnloggedMethod(req.verb) ==> r == ""
    ensures IsJsonBody(req) && (req.body == "" || loads(req.body).None?) ==> r == ""
    ensures !IsJsonBody(req) && req.post == [] ==> r == ""
  {
    if IsUnloggedMethod(req.verb) then ""
    else if IsJsonBody(req) then
      if req.body == "" then ""
      else match loads(req.body)
        case None => ""
        case Some(data) => Take(dumps(Mask(data)), PayloadCap)
    else if req.post != [] then Take(dumps(Mask(FormObject(req.post))), PayloadCap)
    else ""
  }

  /**
   * When there is something to log, the payload is the serialisation of the masked tree:
   * the JSON body takes precedence over form fields, and the text is cut at 4000 characters.
   */
  lemma ExtractPayloadLogged(req: RequestData, loads: string -> Option<Json>, dumps: Json -> string)
    requires !IsUnloggedMethod(req.verb)
    ensures var r := ExtractPayload(req, loads, dumps);
      && (IsJsonBody(req) && req.body != "" && loads(req.body).Some? ==>
            var text := dumps(Mask(loads(req.body).value));
            r == text[..|r|] && |r| == if |text| < PayloadCap then |text| else PayloadCap)
      && (!IsJsonBody(req) && req.post != [] ==>
            var text := dumps(Mask(FormObject(req.post)));
            r == text[..|r|] && |r| == if |text| < PayloadCap then |text| else PayloadCap)
  {
  }

  /** Form fields named like secrets are masked before serialisation. */
  lemma FormSecretsMasked(post: FormFields, i: nat)
    requires i < |post| && IsSensitive(post[i].0)
    ensures Mask(FormObject(post)).members[i] == Member(post[i].0, JString(Masked))
  {
    assert Mask(FormObject(post)).members[i] == MaskMember(FormObject(post).members[i]);
  }

  // ---------------------------------------------------------------------------
  // The client address

  const AddressCap: nat := 64

  /** _client_ip: the first X-Forwarded-For entry, stripped, or else REMOTE_ADDR. */
  function ClientIp(meta: map<string, string>): (r: string)
    ensures |r| <= AddressCap
    ensures MetaGet(meta, "HTTP_X_FORWARDED_FOR") == "" ==>
      var remote := MetaGet(meta, "REMOTE_ADDR");
      && |r| == (if |remote| < AddressCap then |remote| else AddressCap)
      && r == remote[..|r|]
  {
    var forwarded := MetaGet(meta, "HTTP_X_FORWARDED_FOR");
    if forwarded != "" then Take(Strip(BeforeFirst(forwarded, ','), PyIsSpace), AddressCap)
    else Take(MetaGet(meta, "REMOTE_ADDR"), AddressCap)
  }

  /**
   * r is the address the header's first entry gives: a comma-free slice of that entry that
   * starts after the header's leading whitespace and does not itself start with whitespace.
   * Shorter than 64 characters, it ends in no whitespace and only whitespace follows it up
   * to the first comma; at 64 characters, a non-whitespace character of the entry still lies
   * at or past its last position.
   */
  predicate ForwardedAddress(forwarded: string, r: string)
  {
    var k := LeadingCount(forwarded, PyIsSpace);
    var first := BeforeFirst(forwarded, ',');
    && |r| <= AddressCap
    && ',' !in r
    && (r != [] ==> !PyIsSpace(r[0]))
    && (forall i :: 0 <= i < k ==> PyIsSpace(forwarded[i]))
    && k + |r| <= |first| && forwarded[k..k + |r|] == r
    && (|r| < AddressCap ==>
          && (r != [] ==> !PyIsSpace(r[|r| - 1]))
          && forall i :: k + |r| <= i < |first| ==> PyIsSpace(forwarded[i]))
    && (|r| == AddressCap ==>
          exists i :: k + AddressCap - 1 <= i < |first| && !PyIsSpace(forwarded[i]))
  }

  /** With a forwarded header, the address is the one its first entry gives. */
  lemma ClientIpForwarded(meta: map<string, string>)
    requires MetaGet(meta, "HTTP_X_FORWARDED_FOR") != ""
    ensures ForwardedAddress(MetaGet(meta, "HTTP_X_FORWARDED_FOR"), ClientIp(meta))
  {
    FirstEntry(MetaGet(meta, "HTTP_X_FORWARDED_FOR"));
  }

  /** No other text is the address the first entry gives, so ForwardedAddress pins ClientIp. */
  lemma ClientIpDetermined(meta: map<string, string>, r: string)
    requires MetaGet(meta, "HTTP_X_FORWARDED_FOR") != ""
    requires ForwardedAddress(MetaGet(meta, "HTTP_X_FORWARDED_FOR"), r)
    ensures r == ClientIp(meta)
  {
    var forwarded := MetaGet(meta, "HTTP_X_FORWARDED_FOR");
    FirstEntry(forwarded);
    ForwardedAddressLength(forwarded, r);
    ForwardedAddressLength(forwarded, ClientIp(meta));
  }

  /** The length of such an address is that of the stripped first entry, capped at 64. */
  lemma ForwardedAddressLength(forwarded: string, r: string)
    requires ForwardedAddress(forwarded, r)
    ensures var stripped := Strip(BeforeFirst(forwarded, ','), PyIsSpace);
      |r| == if |stripped| < AddressCap then |stripped| else AddressCap
  {
    var first := BeforeFirst(forwarded, ',');
    var stripped := Strip(first, PyIsSpace);
    assert !PyIsSpace(',');
    LeadingCountOfPrefix(forwarded, first, PyIsSpace);
    var k := LeadingCount(first, PyIsSpace);
    StripSlice(first, PyIsSpace);
    StripSurround(first, PyIsSpace);
    assert first == forwarded[..|first|];
    if |r| < AddressCap {
      assert stripped != [] ==> !PyIsSpace(forwarded[k + |stripped| - 1]);
      assert r != [] ==> !PyIsSpace(first[k + |r| - 1]);
    } else {
      var i :| k + AddressCap - 1 <= i < |first| && !PyIsSpace(forwarded[i]);
      assert !PyIsSpace(first[i]);
    }
  }

  lemma FirstEntry(forwarded: string)
    ensures ForwardedAddress(forwarded, Take(Strip(BeforeFirst(forwarded, ','), PyIsSpace), AddressCap))
  {
    assert !PyIsSpace(',');
    FirstEntrySlice(forwarded, PyIsSpace);
    FirstEntryEnd(forwarded, PyIsSpace);
    FirstEntryTail(forwarded, PyIsSpace);
    FirstEntryLong(forwarded, PyIsSpace);
  }

  /** An address cut at 64 characters was cut from a stripped entry at least that long. */
  lemma FirstEntryLong(forwarded: string, ws: char -> bool)
    requires !ws(',')
    ensures var r := Take(Strip(BeforeFirst(forwarded, ','), ws), AddressCap);
      var k := LeadingCount(forwarded, ws);
      |r| == AddressCap ==>
        exists i :: k + AddressCap - 1 <= i < |BeforeFirst(forwarded, ',')| && !ws(forwarded[i])
  {
    var first := BeforeFirst(forwarded, ',');
    var stripped := Strip(first, ws);
    if |Take(stripped, AddressCap)| == AddressCap {
      StripSlice(first, ws);
      LeadingCountOfPrefix(forwarded, first, ws);
      var i := LeadingCount(first, ws) + |stripped| - 1;
      assert stripped[|stripped| - 1] == first[i] == forwarded[i];
    }
  }

  /** An address that was not cut is the whole stripped entry, so it ends in no whitespace. */
  lemma FirstEntryEnd(forwarded: string, ws: char -> bool)
    ensures var r := Take(Strip(BeforeFirst(forwarded, ','), ws), AddressCap);
      |r| < AddressCap && r != [] ==> !ws(r[|r| - 1])
  {
    StripSlice(BeforeFirst(forwarded, ','), ws);
  }

  /** The address is a comma-free slice of the header that starts after its leading whitespace. */
  lemma FirstEntrySlice(forwarded: string, ws: char -> bool)
    requires !ws(',')
    ensures var r := Take(Strip(BeforeFirst(forwarded, ','), ws), AddressCap);
      var k := LeadingCount(forwarded, ws);
      && ',' !in r
      && (r != [] ==> !ws(r[0]))
      && k + |r| <= |forwarded| && forwarded[k..k + |r|] == r
  {
    FirstEntryWithinFirst(forwarded, ws);
    FirstEntryInHeader(forwarded, ws);
  }

  lemma FirstEntryWithinFirst(forwarded: string, ws: char -> bool)
    ensures var first := BeforeFirst(forwarded, ',');
      var r := Take(Strip(first, ws), AddressCap);
      var k := LeadingCount(first, ws);
      && k + |r| <= |first| && r == first[k..k + |r|]
      && ',' !in r && (r != [] ==> !ws(r[0]))
  {
    var first := BeforeFirst(forwarded, ',');
    var stripped := Strip(first, ws);
    var r := Take(stripped, AddressCap);
    var k := LeadingCount(first, ws);
    StripSlice(first, ws);
    SliceOfSlice(first, k, |stripped|, |r|);
    NotInSlice(',', first, k, k + |r|);
  }

  lemma FirstEntryInHeader(forwarded: string, ws: char -> bool)
    requires !ws(',')
    ensures var first := BeforeFirst(forwarded, ',');
      var r := Take(Strip(first, ws), AddressCap);
      && LeadingCount(forwarded, ws) == LeadingCount(first, ws)
      && LeadingCount(first, ws) + |r| <= |first| <= |forwarded|
      && forwarded[LeadingCount(first, ws)..LeadingCount(first, ws) + |r|] == r
  {
    var first := BeforeFirst(forwarded, ',');
    var r := Take(Strip(first, ws), AddressCap);
    var k := LeadingCount(first, ws);
    LeadingCountOfPrefix(forwarded, first, ws);
    FirstEntryWithinFirst(forwarded, ws);
    PrefixSlice(forwarded, |first|, k, |r|);
  }

  /** Only whitespace surrounds the address within the first entry, unless it was cut. */
  lemma FirstEntryTail(forwarded: string, ws: char -> bool)
    requires !ws(',')
    ensures var r := Take(Strip(BeforeFirst(forwarded, ','), ws), AddressCap);
      var k := LeadingCount(forwarded, ws);
      && (forall i :: 0 <= i < k ==> ws(forwarded[i]))
      && (|r| < AddressCap ==>
            forall i :: k + |r| <= i < |BeforeFirst(forwarded, ',')| ==> ws(forwarded[i]))
  {
    var first := BeforeFirst(forwarded, ',');
    var stripped := Strip(first, ws);
    var r := Take(stripped, AddressCap);
    LeadingCountOfPrefix(forwarded, first, ws);
    LeadingCountSpec(forwarded, ws);
    var k := LeadingCount(first, ws);
    if |r| < AddressCap {
      StripSurround(first, ws);
      assert first == forwarded[..|first|];
      forall i | k + |stripped| <= i < |first|
        ensures ws(forwarded[i])
      {
        assert forwarded[i] == first[i];
      }
    }
  }

  /** The leading whitespace of s is that of a prefix of s ending at a comma (or at the end). */
  lemma {:induction false} LeadingCountOfPrefix(s: string, p: string, ws: char -> bool)
    requires !ws(',') && p == BeforeFirst(s, ',')
    ensures LeadingCount(s, ws) == LeadingCount(p, ws)
    decreases |s|
  {
    if s != [] && ws(s[0]) {
      assert p == [s[0]] + BeforeFirst(s[1..], ',');
      assert p[1..] == BeforeFirst(s[1..], ',');
      LeadingCountOfPrefix(s[1..], p[1..], ws);
    }
  }

  lemma ClientIpExample()
    ensures ClientIp(map["HTTP_X_FORWARDED_FOR" := " 10.0.0.7 , 172.16.0.1", "REMOTE_ADDR" := "127.0.0.1"])
         == "10.0.0.7"
  {
    ExampleFirstEntry();
    ExampleStrip();
  }

  /**
   * A first entry that is one character followed by 70 spaces gives that character: the
   * 64-character text made of it and the next 63 spaces is not the address.
   */
  lemma PaddedAddressExample()
    ensures var header := "a" + seq(70, i => ' ');
      && ClientIp(map["HTTP_X_FORWARDED_FOR" := header]) == "a"
      && !ForwardedAddress(header, "a" + seq(63, i => ' '))
  {
    var header := "a" + seq(70, i => ' ');
    assert header[0] == 'a' && ',' !in header;
    assert BeforeFirst(header, ',') == header;
    assert LeadingCount(header, PyIsSpace) == 0;
    assert header[0..1] == "a";
    assert ForwardedAddress(header, "a");
    ClientIpDetermined(map["HTTP_X_FORWARDED_FOR" := header], "a");
  }

  lemma ExampleFirstEntry()
    ensures BeforeFirst(" 10.0.0.7 , 172.16.0.1", ',') == " 10.0.0.7 "
  {
    assert " 10.0.0.7 , 172.16.0.1" == " 10.0.0.7 " + ", 172.16.0.1";
    BeforeFirstAppend(" 10.0.0.7 ", ", 172.16.0.1", ',');
  }

  lemma ExampleStrip()
    ensures Strip(" 10.0.0.7 ", PyIsSpace) == "10.0.0.7"
  {
    assert LeadingCount(" 10.0.0.7 ", PyIsSpace) == 1;
    assert TrailingEnd("10.0.0.7 ", PyIsSpace) == 8;
  }

  lemma {:induction false} BeforeFirstAppend(a: string, b: string, c: char)
    requires c !in a && b != [] && b[0] == c
    ensures BeforeFirst(a + b, c) == a
  {
    if a != [] {
      assert (a + b)[1..] == a[1..] + b;
      BeforeFirstAppend(a[1..], b, c);
    }
  }

  // ---------------------------------------------------------------------------
  // The audit record

  /** A row of the AuditLog table. */
  datatype AuditRecord = AuditRecord(
    user: Option<nat>,
    httpMethod: string,
    path: string,
    queryParams: string,
    payload: string,
    statusCode: int,
    ipAddress: string,
    userAgent: string,
    responseMs: int,
    isError: bool)

  /** Requests for static files, uploaded media and the favicon are not logged. */
  predicate IsUnloggedPath(path: string)
  {
    StartsWith(path, "/static/") || StartsWith(path, "/media/") || path == "/favicon.ico"
  }

  function PathOf(req: RequestData): string
  {
    if req.path.Some? then req.path.value else ""
  }

  /** int(status_code or 0): an absent status counts as 0. */
  function StatusOf(status: Option<int>): int
  {
    if status.Some? then status.value else 0
  }

  /**
   * The record _write_log would create, or None when it returns early. payloadAttr is the
   * request's _audit_payload attribute (None when it was never set); responseMs is the
   * elapsed time, measured by the caller.
   */
  function RecordFor(req: RequestData, payloadAttr: Option<string>, status: Option<int>, responseMs: int): (r: Option<AuditRecord>)
    ensures r.None? <==> IsUnloggedPath(PathOf(req))
    ensures r.Some? ==>
      && |r.value.httpMethod| <= 10
      && |r.value.path| <= 255
      && |r.value.queryParams| <= 1000
      && |r.value.payload| <= PayloadCap
      && |r.value.userAgent| <= 255
      && |r.value.ipAddress| <= AddressCap
      && r.value.statusCode == StatusOf(status)
      && (r.value.isError <==> status.Some? && status.value >= 400)
      && r.value.ipAddress == ClientIp(req.meta)
      && r.value.responseMs == responseMs
      && (r.value.user.Some? <==> req.user.Some? && req.user.value.isAuthenticated)
      && (r.value.user.Some? ==> r.value.user.value == req.user.value.id)
  {
    var path := PathOf(req);
    if IsUnloggedPath(path) then None
    else
      var verb := if req.verb.Some? then req.verb.value else "";
      var payload := if payloadAttr.Some? then payloadAttr.value else "";
      var user := if req.user.Some? && req.user.value.isAuthenticated then Some(req.user.value.id) else None;
      Some(AuditRecord(
        user := user,
        httpMethod := Take(verb, 10),
        path := Take(path, 255),
        queryParams := Take(MetaGet(req.meta, "QUERY_STRING"), 1000),
        payload := Take(payload, PayloadCap),
        statusCode := StatusOf(status),
        ipAddress := ClientIp(req.meta),
        userAgent := Take(MetaGet(req.meta, "HTTP_USER_AGENT"), 255),
        responseMs := responseMs,
        isError := StatusOf(status) >= 400))
  }

  /**
   * Each text field of a record is the start of the request's own value, as long as that
   * value or as long as the field's cap, whichever is shorter.
   */
  lemma RecordFieldsArePrefixes(req: RequestData, payloadAttr: Option<string>, status: Option<int>, responseMs: int)
    requires !IsUnloggedPath(PathOf(req))
    ensures var rec := RecordFor(req, payloadAttr, status, responseMs).value;
      var verb := if req.verb.Some? then req.verb.value else "";
      var payload := if payloadAttr.Some? then payloadAttr.value else "";
      var query := MetaGet(req.meta, "QUERY_STRING");
      var agent := MetaGet(req.meta, "HTTP_USER_AGENT");
      && rec.path == PathOf(req)[..|rec.path|]
      && |rec.path| == (if |PathOf(req)| < 255 then |PathOf(req)| else 255)
      && rec.httpMethod == verb[..|rec.httpMethod|]
      && |rec.httpMethod| == (if |verb| < 10 then |verb| else 10)
      && rec.queryParams == query[..|rec.queryParams|]
      && |rec.queryParams| == (if |query| < 1000 then |query| else 1000)
      && rec.payload == payload[..|rec.payload|]
      && |rec.payload| == (if |payload| < PayloadCap then |payload| else PayloadCap)
      && rec.userAgent == agent[..|rec.userAgent|]
      && |rec.userAgent| == (if |agent| < 255 then |agent| else 255)
  {
  }

  /** The payload the middleware stored while handling the request is logged whole. */
  lemma RecordKeepsExtractedPayload(req: RequestData, loads: string -> Option<Json>, dumps: Json -> string,
                                    status: Option<int>, responseMs: int)
    requires !IsUnloggedPath(PathOf(req))
    ensures RecordFor(req, Some(ExtractPayload(req, loads, dumps)), status, responseMs).value.payload
         == ExtractPayload(req, loads, dumps)
  {
  }

  function RowsFor(rec: Option<AuditRecord>, written: bool): (rows: seq<AuditRecord>)
    ensures |rows| <= 1
  {
    if rec.Some? && written then [rec.value] else []
  }

  /**
   * How the rest of the stack answers a request: with a response of the given status, or by
   * raising. A raised exception reaches process_exception after exceptionMs (its row is
   * written when exceptionDbAccepts), and the framework then converts it into a response with
   * convertedStatus (404 for Http404, 500 for an unexpected error).
   */
  datatype ViewResult =
    | Responded(status: Option<int>)
    | Raised(convertedStatus: Option<int>, exceptionMs: int, exceptionDbAccepts: bool)

  /** The rows one request adds: one for a response, two for a raising view. */
  function RequestRows(req: RequestData, payloadAttr: Option<string>, view: ViewResult,
                       responseMs: int, dbAccepts: bool): (rows: seq<AuditRecord>)
    ensures view.Responded? ==> |rows| <= 1
    ensures |rows| <= 2
    ensures IsUnloggedPath(PathOf(req)) ==> rows == []
  {
    match view
    case Responded(status) =>
      RowsFor(RecordFor(req, payloadAttr, status, responseMs), dbAccepts)
    case Raised(convertedStatus, exceptionMs, exceptionDbAccepts) =>
      RowsFor(RecordFor(req, payloadAttr, Some(500), exceptionMs), exceptionDbAccepts)
        + RowsFor(RecordFor(req, payloadAttr, convertedStatus, responseMs), dbAccepts)
  }

  /**
   * A raising view on a logged path leaves two rows when both writes succeed: first a 500
   * error, then the converted status. So a 404 from get_object_or_404 is logged twice, once as
   * a server error.
   */
  lemma RaisingViewLoggedTwice(req: RequestData, payloadAttr: Option<string>, view: ViewResult, responseMs: int)
    requires !IsUnloggedPath(PathOf(req)) && view.Raised? && view.exceptionDbAccepts
    ensures var rows := RequestRows(req, payloadAttr, view, responseMs, true);
      && |rows| == 2
      && rows[0].statusCode == 500 && rows[0].isError
      && rows[1].statusCode == StatusOf(view.convertedStatus)
      && (rows[1].isError <==> StatusOf(view.convertedStatus) >= 400)
  {
    ExceptionLoggedAsError(req, payloadAttr, view.exceptionMs);
  }

  /** A view that answers normally leaves at most its one row. */
  lemma RespondingViewLoggedOnce(req: RequestData, payloadAttr: Option<string>, status: Option<int>, responseMs: int)
    requires !IsUnloggedPath(PathOf(req))
    ensures RequestRows(req, payloadAttr, Responded(status), responseMs, true)
         == [RecordFor(req, payloadAttr, status, responseMs).value]
  {
  }

  // ---------------------------------------------------------------------------
  // The middleware

  /** The request object, which the middleware annotates with the payload it extracted. */
  class HttpRequest {
    const data: RequestData
    /** request._audit_payload, once set. */
    var auditPayload: Option<string>

    constructor(data: RequestData)
      ensures this.data == data && auditPayload == None
    {
      this.data := data;
      auditPayload := None;
    }
  }

  /**
   * AuditLogMiddleware, with the rows it has written to the AuditLog table. Whether the
   * database accepts a row is a parameter: a refused write leaves the table as it was and,
   * like the source's except clause, is not reported to the caller.
   */
  class AuditLogMiddleware {
    var table: seq<AuditRecord>

    constructor()
      ensures table == []
    {
      table := [];
    }

    /** _write_log: at most one row, for a logged path, when the database accepts it. */
    method WriteLog(request: HttpRequest, status: Option<int>, responseMs: int, dbAccepts: bool)
      modifies this
      ensures table == old(table) + RowsFor(RecordFor(request.data, request.auditPayload, status, responseMs), dbAccepts)
    {
      var rec := RecordFor(request.data, request.auditPayload, status, responseMs);
      if rec.Some? && dbAccepts {
        table := table + [rec.value];
      }
    }

    /**
     * __call__: records the extracted payload on the request, lets the rest of the stack
     * answer, then writes the log row for the response. When the view raises, the framework
     * runs process_exception inside get_response (a 500 row) and then turns the exception into
     * the response that __call__ logs in turn.
     */
    method Call(request: HttpRequest, loads: string -> Option<Json>, dumps: Json -> string,
                view: ViewResult, responseMs: int, dbAccepts: bool)
      modifies this, request
      ensures request.auditPayload == Some(ExtractPayload(request.data, loads, dumps))
      ensures table == old(table) + RequestRows(request.data, request.auditPayload, view, responseMs, dbAccepts)
    {
      request.auditPayload := Some(ExtractPayload(request.data, loads, dumps));
      match view
      case Responded(status) =>
        WriteLog(request, status, responseMs, dbAccepts);
      case Raised(convertedStatus, exceptionMs, exceptionDbAccepts) =>
        ProcessException(request, exceptionMs, exceptionDbAccepts);
        WriteLog(request, convertedStatus, responseMs, dbAccepts);
    }

    /** process_exception: the failed request is logged with status 500. */
    method ProcessException(request: HttpRequest, responseMs: int, dbAccepts: bool)
      modifies this
      ensures table == old(table) + RowsFor(RecordFor(request.data, request.auditPayload, Some(500), responseMs), dbAccepts)
    {
      WriteLog(request, Some(500), responseMs, dbAccepts);
    }
  }

  /** A request that ends in an exception is logged as an error unless its path is exempt. */
  lemma ExceptionLoggedAsError(req: RequestData, payloadAttr: Option<string>, responseMs: int)
    requires !IsUnloggedPath(PathOf(req))
    ensures RecordFor(req, payloadAttr, Some(500), responseMs).value.isError
    ensures RecordFor(req, payloadAttr, Some(500), responseMs).value.statusCode == 500
  {
  }
}
