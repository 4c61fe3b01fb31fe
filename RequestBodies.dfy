/**
 * Request bodies: the closed family of `RestRequestBody` subclasses (an
 * object serialized through the serializer registry, pre-formatted plain
 * text, raw bytes), their `ToString(contentType)` / `ToByteArray(contentType)`
 * contract, and the `application/x-www-form-urlencoded` serializer, which
 * percent-encodes values per sections 2.1 and 2.3 of RFC 3986.
 */
module RequestBodies {
  import opened Wrappers
  import opened Runtime
  import opened Text
  import opened Encodings
  import opened Objects
  import opened OrderedMaps
  import opened ContentTypes
  import opened Registries

  /** The three request body variants and the `Content` each stores. */
  datatype RequestBody =
    | ObjectBody(content: PropertyBag)  // an object body: its public properties, or a null reference
    | PlainTextBody(text: string)       // `RestPlainTextRequestBody`: text already in the wire format
    | RawBody(bytes: seq<byte>)         // `RestRawRequestBody`: bytes written as they are

  /** The serializers whose implementation is not part of this model (JSON, user-supplied ones), as a parameter. */
  type ExternalSerializers = (Serializer, PropertyBag) -> Result<string, Exn>

  // ---------------------------------------------------------------------------
  // The form serializer

  /** `(value ?? "").ToString()`: a null value renders as the empty string. */
  function FormValue(v: Value): string {
    match v
    case Null => ""
    case Text(t) => t
  }

  /** One `name=value` pair: the name verbatim, the value escaped. */
  function FormPair(name: string, v: Value): (s: string)
    ensures StartsWith(s, name + "=") && s[|name| + 1..] == EscapeDataString(FormValue(v))
  {
    name + "=" + EscapeDataString(FormValue(v))
  }

  /** The pairs, in property order. */
  function FormPairs(props: seq<(string, Value)>): (parts: seq<string>)
    ensures |parts| == |props|
    ensures forall i :: 0 <= i < |props| ==> parts[i] == FormPair(props[i].0, props[i].1)
  {
    seq(|props|, i requires 0 <= i < |props| => FormPair(props[i].0, props[i].1))
  }

  /** `string.Join("&", pairs)`. */
  function FormEncode(props: seq<(string, Value)>): (r: string)
    ensures r == "" <==> |props| == 0
  {
    var parts := FormPairs(props);
    if |props| > 0 then
      JoinStartsWithFirst(parts, "&");
      assert |parts[0]| > 0;
      Join(parts, "&")
    else
      Join(parts, "&")
  }

  /** `Serialize(body)` as a value: reflection over the content, then the encoding. */
  function FormSerialize(content: PropertyBag): (r: Result<string, Exn>)
    ensures content.None? ==> r == Failure(NullReference)
    ensures r.Success? <==> content.Some? && KeysDistinct(content.value)
    ensures r.Success? ==> r.value == FormEncode(content.value)
  {
    var props :- ToDictionary(content);
    Success(FormEncode(props))
  }

  /**
   * `RestRequestBodyToFormSerializer.Serialize`: a `foreach` over the
   * properties collecting `name=escaped value`, then one `Join`.
   */
  method Serialize(content: PropertyBag) returns (r: Result<string, Exn>)
    ensures r == FormSerialize(content)
    ensures content.None? ==> r == Failure(NullReference)
    ensures r.Success? ==> r.value == FormEncode(content.value)
  {
    var dictionary := ToDictionary(content);
    if dictionary.Failure? {
      return Failure(dictionary.error);
    }
    var props := dictionary.value;
    var pairs: seq<string> := [];
    for i := 0 to |props|
      invariant pairs == FormPairs(props[..i])
    {
      var value := FormValue(props[i].1);
      pairs := pairs + [props[i].0 + "=" + EscapeDataString(value)];
    }
    assert props[..|props|] == props;
    r := Success(Join(pairs, "&"));
  }

  /** A property name as the reflection produces it: an identifier, so no `=` and no `&`. */
  predicate PlainNames(props: seq<(string, Value)>) {
    forall i :: 0 <= i < |props| ==> '=' !in props[i].0 && '&' !in props[i].0
  }

  /** Reading one pair back: the name before the first `=`, the percent-decoded rest. */
  function FormDecodePair(part: string): (string, Option<seq<byte>>) {
    var i := IndexOf(part, '=');
    if i == -1 then (part, None) else (part[..i], PercentDecode(part[i + 1..]))
  }

  /** Reading a form body back: split at `&`, then each pair at its first `=`. */
  function FormDecode(s: string): seq<(string, Option<seq<byte>>)> {
    var parts := SplitOn(s, '&');
    seq(|parts|, i requires 0 <= i < |parts| => FormDecodePair(parts[i]))
  }

  /** An empty property list gives the empty string. */
  lemma FormEncodeEmpty()
    ensures FormEncode([]) == ""
    ensures FormSerialize(Some([])) == Success("")
  {
  }

  /** No pair contains `&`, since names are plain and escaped values never contain it. */
  lemma FormPairsNoAmpersand(props: seq<(string, Value)>)
    requires PlainNames(props)
    ensures forall i :: 0 <= i < |props| ==> '&' !in FormPairs(props)[i]
  {
    forall i | 0 <= i < |props| ensures '&' !in FormPairs(props)[i] {
      var k, e := props[i].0, EscapeDataString(FormValue(props[i].1));
      EscapedChars(FormValue(props[i].1));
      assert FormPairs(props)[i] == k + "=" + e;
    }
  }

  /** The body splits at `&` into exactly one pair per property, in order. */
  lemma FormPairCount(props: seq<(string, Value)>)
    requires |props| >= 1 && PlainNames(props)
    ensures SplitOn(FormEncode(props), '&') == FormPairs(props)
    ensures |SplitOn(FormEncode(props), '&')| == |props|
  {
    FormPairsNoAmpersand(props);
    SplitJoin(FormPairs(props), '&');
  }

  /** A pair is read back as its name and the UTF-8 bytes of its value. */
  lemma FormPairRoundTrip(name: string, v: Value)
    requires '=' !in name
    ensures FormDecodePair(FormPair(name, v)) == (name, Some(Utf8String(FormValue(v))))
  {
    var e := EscapeDataString(FormValue(v));
    var p := name + "=" + e;
    assert p[..|name|] == name && p[|name|] == '=';
    assert IndexOf(p, '=') == |name| by {
      assert '=' !in p[..|name|];
    }
    assert p[|name| + 1..] == e;
    EscapeRoundTrip(FormValue(v));
  }

  /** The form body reads back as the property names with the UTF-8 bytes of their values (null as empty). */
  lemma FormRoundTrip(props: seq<(string, Value)>)
    requires |props| >= 1 && PlainNames(props)
    ensures FormDecode(FormEncode(props)) == seq(|props|, i requires 0 <= i < |props| => (props[i].0, Some(Utf8String(FormValue(props[i].1)))))
  {
    FormPairCount(props);
    forall i | 0 <= i < |props|
      ensures FormDecodePair(FormPairs(props)[i]) == (props[i].0, Some(Utf8String(FormValue(props[i].1))))
    {
      FormPairRoundTrip(props[i].0, props[i].1);
    }
  }

  /** A null property keeps its name and gets an empty value: `Email=`. */
  lemma FormNullValueExample()
    ensures FormEncode([("Email", Null)]) == "Email="
  {
    assert FormPair("Email", Null) == "Email" + "=" + "";
  }

  /** A single property gives a single pair (so `Email=abc%40abc.com` by EscapeEmailExample). */
  lemma FormSingle(name: string, v: Value)
    ensures FormEncode([(name, v)]) == FormPair(name, v)
  {
  }

  // ---------------------------------------------------------------------------
  // ToString(contentType) and ToByteArray(contentType)

  /** The registered strategy applied to an object's content: the form serializer is modelled, the others are parameters. */
  function ApplySerializer(s: Serializer, content: PropertyBag, external: ExternalSerializers): Result<string, Exn> {
    if s == FormSerializer then FormSerialize(content) else external(s, content)
  }

  /**
   * `body.ToString(contentType)`. An object body looks its serializer up by
   * `contentType.ToString()`; a null content type, or a miss in the
   * registry, dereferences null. Plain text is returned as it is; raw bytes are
   * ASCII decoded.
   */
  function BodyToString(body: RequestBody, ct: Option<ContentType>, serializers: seq<(string, Serializer)>, external: ExternalSerializers): (r: Result<string, Exn>)
    ensures body.ObjectBody? && ct.None? ==> r == Failure(NullReference)
    ensures body.ObjectBody? && ct.Some? && FindSerializer(serializers, ct.value.ToString()).None? ==> r == Failure(NullReference)
    ensures body.ObjectBody? && ct.Some? && FindSerializer(serializers, ct.value.ToString()).Some? ==>
      r == ApplySerializer(FindSerializer(serializers, ct.value.ToString()).value, body.content, external)
    ensures body.PlainTextBody? ==> r == Success(body.text)
    ensures body.RawBody? ==> r.Success? && |r.value| == |body.bytes|
    ensures body.RawBody? ==> forall i :: 0 <= i < |body.bytes| && body.bytes[i] < 0x80 ==> r.value[i] as int == body.bytes[i] as int
  {
    match body
    case ObjectBody(content) =>
      if ct.None? then Failure(NullReference)
      else
        var found := FindSerializer(serializers, ct.value.ToString());
        if found.None? then Failure(NullReference) else ApplySerializer(found.value, content, external)
    case PlainTextBody(text) => Success(text)
    case RawBody(bytes) => Success(AsciiDecode(bytes))
  }

  /**
   * `body.ToByteArray(contentType)`: the UTF-8 encoding of `ToString` for
   * object and plain-text bodies, the stored bytes verbatim for a raw body.
   */
  function BodyToByteArray(body: RequestBody, ct: Option<ContentType>, serializers: seq<(string, Serializer)>, external: ExternalSerializers): (r: Result<seq<byte>, Exn>)
    ensures body.RawBody? ==> r == Success(body.bytes)
    ensures !body.RawBody? ==> r.Success? == BodyToString(body, ct, serializers, external).Success?
    ensures !body.RawBody? && r.Success? ==> r.value == Utf8String(BodyToString(body, ct, serializers, external).value)
    ensures !body.RawBody? && r.Failure? ==> r.error == BodyToString(body, ct, serializers, external).error
  {
    match body
    case RawBody(bytes) => Success(bytes)
    case _ =>
      var s :- BodyToString(body, ct, serializers, external);
      Success(Utf8String(s))
  }

  /** Plain text never consults the content type or the registry, so it succeeds for unregistered types too. */
  lemma PlainTextIndependent(text: string, ct1: Option<ContentType>, ct2: Option<ContentType>,
                             reg1: seq<(string, Serializer)>, reg2: seq<(string, Serializer)>,
                             ext1: ExternalSerializers, ext2: ExternalSerializers)
    ensures BodyToString(PlainTextBody(text), ct1, reg1, ext1) == BodyToString(PlainTextBody(text), ct2, reg2, ext2)
    ensures BodyToByteArray(PlainTextBody(text), ct1, reg1, ext1) == BodyToByteArray(PlainTextBody(text), ct2, reg2, ext2)
    ensures BodyToString(PlainTextBody(text), ct1, [], ext1) == Success(text)
  {
  }

  /** The bytes of a plain-text body decode, as UTF-8, to the stored text. */
  lemma PlainTextBytesRoundTrip(text: string, ct: Option<ContentType>, reg: seq<(string, Serializer)>, ext: ExternalSerializers)
    ensures BodyToByteArray(PlainTextBody(text), ct, reg, ext).Success?
    ensures Utf8Decode(BodyToByteArray(PlainTextBody(text), ct, reg, ext).value) == Some(text)
  {
    Utf8RoundTrip(text);
  }

  /** A raw body ignores the content type and the registry in both directions. */
  lemma RawIndependent(bytes: seq<byte>, ct1: Option<ContentType>, ct2: Option<ContentType>,
                       reg1: seq<(string, Serializer)>, reg2: seq<(string, Serializer)>,
                       ext1: ExternalSerializers, ext2: ExternalSerializers)
    ensures BodyToString(RawBody(bytes), ct1, reg1, ext1) == BodyToString(RawBody(bytes), ct2, reg2, ext2)
    ensures BodyToByteArray(RawBody(bytes), ct1, reg1, ext1) == Success(bytes)
  {
  }

  /** The text of a raw body encodes back to the stored bytes exactly when every byte is ASCII. */
  lemma RawStringRoundTrip(bytes: seq<byte>, ct: Option<ContentType>, reg: seq<(string, Serializer)>, ext: ExternalSerializers)
    ensures BodyToString(RawBody(bytes), ct, reg, ext).Success?
    ensures Utf8String(BodyToString(RawBody(bytes), ct, reg, ext).value) == bytes <==> forall i :: 0 <= i < |bytes| ==> bytes[i] < 0x80
  {
    AsciiRoundTrip(bytes);
  }

  /** With the default serializer table, an object sent as a form is its form encoding. */
  lemma ObjectAsForm(props: seq<(string, Value)>, serializers: seq<(string, Serializer)>, ext: ExternalSerializers)
    requires KeysDistinct(props)
    requires Lookup(serializers, ApplicationXWwwFormUrlEncoded.ToString()) == Some(FormSerializer)
    ensures BodyToString(ObjectBody(Some(props)), Some(ApplicationXWwwFormUrlEncoded), serializers, ext) == Success(FormEncode(props))
  {
  }
}
