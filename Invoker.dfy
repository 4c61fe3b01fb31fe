/**
 * `RestInvoker`: a convenience client over a fixed base URL. The parts
 * modelled here are its defaults, its header table, the rule by which a
 * parameter object is split between URI template parameters and the query
 * string, and the content type the overloads without one pass on.
 */
module Invoker {
  import opened Wrappers
  import opened Runtime
  import opened Text
  import opened OrderedMaps
  import opened Objects
  import opened RestUris
  import opened ContentTypes
  import opened Registries
  import opened Configuration
  import opened RequestBodies

  // ---------------------------------------------------------------------------
  // Routing of parameter properties

  /**
   * The properties of `m` whose placeholder `{name}` occurs in `resource`
   * (`toTemplate`), or those whose placeholder does not (`!toTemplate`),
   * in their original order.
   */
  function Routed(resource: string, m: seq<(string, string)>, toTemplate: bool): seq<(string, string)>
    decreases |m|
  {
    if |m| == 0 then []
    else
      var init := Routed(resource, m[..|m| - 1], toTemplate);
      var last := m[|m| - 1];
      if Contains(resource, Placeholder(last.0)) == toTemplate then init + [last] else init
  }

  /** One more property extends exactly one of the two routes. */
  lemma RoutedSnoc(resource: string, m: seq<(string, string)>, kv: (string, string), toTemplate: bool)
    ensures Routed(resource, m + [kv], toTemplate) ==
      if Contains(resource, Placeholder(kv.0)) == toTemplate then Routed(resource, m, toTemplate) + [kv]
      else Routed(resource, m, toTemplate)
  {
    assert (m + [kv])[..|m|] == m;
  }

  /**
   * Each property lands in exactly one of the two tables: in the template
   * parameters when its placeholder occurs in the resource, in the query
   * string otherwise; no property is lost or duplicated.
   */
  lemma {:induction false} RoutedPartition(resource: string, m: seq<(string, string)>)
    ensures multiset(Routed(resource, m, true)) + multiset(Routed(resource, m, false)) == multiset(m)
    ensures |Routed(resource, m, true)| + |Routed(resource, m, false)| == |m|
    decreases |m|
  {
    if |m| > 0 {
      var init := m[..|m| - 1];
      RoutedPartition(resource, init);
      assert m == init + [m[|m| - 1]];
      RoutedSnoc(resource, init, m[|m| - 1], true);
      RoutedSnoc(resource, init, m[|m| - 1], false);
    }
  }

  /** A property is routed to a side exactly when the placeholder test says so. */
  lemma {:induction false} RoutedMember(resource: string, m: seq<(string, string)>, toTemplate: bool, kv: (string, string))
    ensures kv in Routed(resource, m, toTemplate) <==> kv in m && Contains(resource, Placeholder(kv.0)) == toTemplate
    decreases |m|
  {
    if |m| > 0 {
      var init := m[..|m| - 1];
      RoutedMember(resource, init, toTemplate, kv);
      assert m == init + [m[|m| - 1]];
      RoutedSnoc(resource, init, m[|m| - 1], toTemplate);
    }
  }

  /** A routed table only holds names of the properties. */
  lemma RoutedKeys(resource: string, m: seq<(string, string)>, toTemplate: bool, k: string)
    ensures HasKey(Routed(resource, m, toTemplate), k) ==> HasKey(m, k)
  {
    var r := Routed(resource, m, toTemplate);
    if HasKey(r, k) {
      var i :| 0 <= i < |r| && r[i].0 == k;
      RoutedMember(resource, m, toTemplate, r[i]);
    }
  }

  /** A resource without `{` routes every property to the query string. */
  lemma {:induction false} RoutedNoBraces(resource: string, m: seq<(string, string)>)
    requires '{' !in resource
    ensures Routed(resource, m, false) == m
    ensures Routed(resource, m, true) == []
    decreases |m|
  {
    if |m| > 0 {
      var init := m[..|m| - 1];
      RoutedNoBraces(resource, init);
      NoPlaceholderIn(resource, m[|m| - 1].0);
      assert m == init + [m[|m| - 1]];
    }
  }

  /** A property named in the resource's template becomes a template parameter, not a query entry. */
  lemma RoutedNamed(a: string, name: string, b: string, value: string)
    ensures Routed(a + Placeholder(name) + b, [(name, value)], true) == [(name, value)]
    ensures Routed(a + Placeholder(name) + b, [(name, value)], false) == []
  {
    var s := a + Placeholder(name) + b;
    assert OccursAt(s, Placeholder(name), |a|) by {
      assert s[|a|..|a| + |Placeholder(name)|] == Placeholder(name);
    }
    assert Contains(s, Placeholder(name));
    assert [(name, value)][..0] == [];
  }

  /** The names of the properties of a parameter object, converted. */
  lemma TextsKeys(props: seq<(string, Value)>, i: nat)
    requires KeysDistinct(props) && i < |props| && forall j :: 0 <= j < i ==> props[j].1.Text?
    ensures !HasKey(Texts(props[..i]), props[i].0)
  {
    var t := Texts(props[..i]);
    forall j | 0 <= j < |t| ensures t[j].0 != props[i].0 {
      assert t[j].0 == props[j].0;
    }
  }

  /** A routed table of distinct names has distinct names. */
  lemma {:induction false} RoutedDistinct(resource: string, m: seq<(string, string)>, toTemplate: bool)
    requires KeysDistinct(m)
    ensures KeysDistinct(Routed(resource, m, toTemplate))
    decreases |m|
  {
    if |m| > 0 {
      var init := m[..|m| - 1];
      var last := m[|m| - 1];
      assert KeysDistinct(init);
      RoutedDistinct(resource, init, toTemplate);
      forall j | 0 <= j < |init| ensures init[j].0 != last.0 {
        assert init[j] == m[j];
      }
      RoutedKeys(resource, init, toTemplate, last.0);
    }
  }

  /**
   * `CreateRestUri(baseUri, resourceUri, parameters)`: a fresh `RestUri`,
   * then each property of the parameter object in turn, to `SetParameter`
   * when `{name}` occurs in the resource string and to `SetQuery` otherwise.
   * Only the resource string decides the route. A null parameter object, a
   * repeated property name or a null property value throws, and the
   * partly filled `RestUri` is lost with the exception.
   */
  method CreateRestUri(baseUri: string, resourceUri: string, parameters: PropertyBag) returns (r: Result<RestUri, Exn>)
    ensures ToDictionary(parameters).Failure? ==> r == Failure(ToDictionary(parameters).error)
    ensures ToDictionary(parameters).Success? && LeadingTexts(ToDictionary(parameters).value) < |ToDictionary(parameters).value| ==>
      r == Failure(NullReference)
    ensures r.Success? <==> ToDictionary(parameters).Success? && LeadingTexts(ToDictionary(parameters).value) == |ToDictionary(parameters).value|
    ensures r.Success? ==>
      var props := ToDictionary(parameters).value;
      fresh(r.value) && r.value.Valid() &&
      r.value.baseUri == baseUri && r.value.resourceUri == resourceUri &&
      r.value.templateParameters == Routed(resourceUri, AppliedTexts(props), true) &&
      r.value.queryString == Routed(resourceUri, AppliedTexts(props), false)
  {
    var uri := new RestUri(baseUri, resourceUri);
    var d := ToDictionary(parameters);
    if d.Failure? {
      return Failure(d.error);
    }
    var props := d.value;
    for i := 0 to |props|
      invariant fresh(uri) && uri.Valid()
      invariant uri.baseUri == baseUri && uri.resourceUri == resourceUri
      invariant forall j :: 0 <= j < i ==> props[j].1.Text?
      invariant uri.templateParameters == Routed(resourceUri, Texts(props[..i]), true)
      invariant uri.queryString == Routed(resourceUri, Texts(props[..i]), false)
    {
      var name := props[i].0;
      var toTemplate := Contains(resourceUri, Placeholder(name));
      var o: Outcome<Exn>;
      TextsKeys(props, i);
      if toTemplate {
        o := uri.SetParameter(name, props[i].1);
      } else {
        o := uri.SetQuery(name, props[i].1);
      }
      if o.Fail? {
        assert LeadingTexts(props) == i;
        return Failure(o.error);
      }
      TextsSnoc(props, i);
      RoutedSnoc(resourceUri, Texts(props[..i]), (name, props[i].1.text), true);
      RoutedSnoc(resourceUri, Texts(props[..i]), (name, props[i].1.text), false);
      RoutedKeys(resourceUri, Texts(props[..i]), toTemplate, name);
    }
    assert props[..|props|] == props;
    LeadingAll(props);
    r := Success(uri);
  }

  /** When no property is null, the applied properties are all of them. */
  lemma LeadingAll(props: seq<(string, Value)>)
    requires forall j :: 0 <= j < |props| ==> props[j].1.Text?
    ensures LeadingTexts(props) == |props|
    ensures AppliedTexts(props) == Texts(props)
  {
    assert props[..|props|] == props;
  }

  /** `RestInvoker.CreateRestUri(base, resource, new { })`: no properties give the bare `RestUri`. */
  lemma RouteNoParameters(resource: string)
    ensures ToDictionary(Some([])).Success?
    ensures LeadingTexts([]) == 0
    ensures Routed(resource, AppliedTexts([]), true) == [] && Routed(resource, AppliedTexts([]), false) == []
  {
    assert AppliedTexts([]) == [];
  }

  /** A `{name}` in the resource sends that property to the template; with no `{` at all, everything goes to the query. */
  lemma RouteExample(value: string)
    ensures Routed("Person", [("mode", value)], false) == [("mode", value)]
    ensures Routed("Person/{id}", [("id", value)], true) == [("id", value)]
  {
    RoutedNoBraces("Person", [("mode", value)]);
    RoutedNamed("Person/", "id", "", value);
    assert "Person/" + Placeholder("id") + "" == "Person/{id}";
  }

  // ---------------------------------------------------------------------------
  // Content type of the body overloads

  /**
   * The content type a `PostAsync`, `PutAsync` or `PatchAsync` overload
   * passes to the request: the caller's when the overload takes one, the
   * form content type when it does not.
   */
  function OverloadContentType(given: Option<ContentType>): (ct: ContentType)
    ensures given.Some? ==> ct == given.value
    ensures given.None? ==> ct.ToString() == "application/x-www-form-urlencoded" && ct.Valid()
  {
    match given
    case Some(c) => c
    case None =>
      NonBlankByFirst(ApplicationXWwwFormUrlEncoded.value);
      ApplicationXWwwFormUrlEncoded
  }

  /**
   * An object body sent through an overload without a content type, under
   * the default registrations, is form encoded (its properties, escaped,
   * as `name=value` pairs joined by `&`).
   */
  lemma DefaultOverloadIsForm(props: seq<(string, Value)>, ext: ExternalSerializers)
    requires KeysDistinct(props)
    ensures BodyToString(ObjectBody(Some(props)), Some(OverloadContentType(None)), SerializerDefaults(), ext) == Success(FormEncode(props))
  {
    DefaultSerializerFor(ApplicationXWwwFormUrlEncoded.ToString());
    ObjectAsForm(props, SerializerDefaults(), ext);
  }

  // ---------------------------------------------------------------------------
  // The invoker

  /** `System.Net.Security.AuthenticationLevel`. */
  datatype AuthenticationLevel = AuthenticationNone | MutualAuthRequested | MutualAuthRequired

  /** The flags of `DecompressionMethods`. */
  datatype Decompression = Deflate | GZip

  /** `HttpRequestCacheLevel`. */
  datatype CacheLevel =
    | Default | BypassCache | CacheOnly | CacheIfAvailable | Revalidate | Reload
    | NoCacheNoStore | CacheOrNextCacheOnly | Refresh

  /** A key of the header dictionary: a boxed string name or a boxed `HttpRequestHeader` value; the two never compare equal. */
  datatype HeaderKey = NamedHeader(name: string) | StandardHeader(header: nat)

  const DefaultUserAgent := "Resty.Net-RestRequest"

  class RestInvoker {
    var baseUrl: Option<string>
    var allowAutoRedirect: bool
    var authenticationLevel: AuthenticationLevel
    var automaticDecompression: set<Decompression>
    var cachePolicy: CacheLevel
    var maximumAutomaticRedirections: int
    /** `TimeOut`, in milliseconds. */
    var timeOutMs: int
    var keepAlive: bool
    var tcpKeepAlive: bool
    /** `TcpKeepAliveTimeOut`, in milliseconds. */
    var tcpKeepAliveTimeOutMs: int
    var userAgent: Option<string>
    /** The header dictionary, in insertion order. */
    var headers: seq<(HeaderKey, Value)>

    ghost predicate Valid()
      reads this
    {
      KeysDistinct(headers)
    }

    /** The settings every constructor starts from. */
    predicate HasDefaults()
      reads this
    {
      allowAutoRedirect && authenticationLevel == MutualAuthRequested &&
      automaticDecompression == {Deflate, GZip} && cachePolicy == NoCacheNoStore &&
      maximumAutomaticRedirections == 50 &&
      timeOutMs == 6 * 60 * 1000 && tcpKeepAliveTimeOutMs == 2 * 60 * 60 * 1000 &&
      !keepAlive && !tcpKeepAlive &&
      userAgent == Some(DefaultUserAgent)
    }

    /** `new RestInvoker()`: no base URL, no headers, the documented defaults. */
    constructor()
      ensures HasDefaults() && Valid()
      ensures baseUrl == None && headers == []
    {
      baseUrl := None;
      headers := [];
      allowAutoRedirect := true;
      authenticationLevel := MutualAuthRequested;
      automaticDecompression := {Deflate, GZip};
      cachePolicy := NoCacheNoStore;
      maximumAutomaticRedirections := 50;
      timeOutMs := 6 * 60 * 1000;
      keepAlive := false;
      tcpKeepAlive := false;
      tcpKeepAliveTimeOutMs := 2 * 60 * 60 * 1000;
      userAgent := Some(DefaultUserAgent);
    }

    /** `new RestInvoker(baseUrl)`: the defaults, plus the base URL. */
    constructor WithBaseUrl(baseUrl: string)
      ensures HasDefaults() && Valid()
      ensures this.baseUrl == Some(baseUrl) && headers == []
    {
      this.baseUrl := Some(baseUrl);
      headers := [];
      allowAutoRedirect := true;
      authenticationLevel := MutualAuthRequested;
      automaticDecompression := {Deflate, GZip};
      cachePolicy := NoCacheNoStore;
      maximumAutomaticRedirections := 50;
      timeOutMs := 6 * 60 * 1000;
      keepAlive := false;
      tcpKeepAlive := false;
      tcpKeepAliveTimeOutMs := 2 * 60 * 60 * 1000;
      userAgent := Some(DefaultUserAgent);
    }

    /** `Dictionary.Add`: a key already present throws and leaves the table as it was. */
    method Add(key: HeaderKey, value: Value) returns (r: Outcome<Exn>)
      requires Valid()
      modifies this`headers
      ensures Valid()
      ensures HasKey(old(headers), key) ==> r == Fail(Argument) && headers == old(headers)
      ensures !HasKey(old(headers), key) ==> r == Pass && headers == old(headers) + [(key, value)]
    {
      if IndexOfKey(headers, key) >= 0 {
        return Fail(Argument);
      }
      headers := headers + [(key, value)];
      r := Pass;
    }

    /**
     * `AddHeader(string name, string value)`: a null name throws
     * `ArgumentNullException`, a name already added throws
     * `ArgumentException`; the value may be null.
     */
    method AddHeader(name: Option<string>, value: Value) returns (r: Outcome<Exn>)
      requires Valid()
      modifies this`headers
      ensures Valid()
      ensures name.None? ==> r == Fail(ArgumentNull) && headers == old(headers)
      ensures name.Some? && HasKey(old(headers), NamedHeader(name.value)) ==> r == Fail(Argument) && headers == old(headers)
      ensures name.Some? && !HasKey(old(headers), NamedHeader(name.value)) ==>
        r == Pass && headers == old(headers) + [(NamedHeader(name.value), value)]
    {
      if name.None? {
        return Fail(ArgumentNull);
      }
      r := Add(NamedHeader(name.value), value);
    }

    /** `AddHeader(HttpRequestHeader name, string value)`: the same table, keyed by the enumeration value. */
    method AddStandardHeader(header: nat, value: Value) returns (r: Outcome<Exn>)
      requires Valid()
      modifies this`headers
      ensures Valid()
      ensures HasKey(old(headers), StandardHeader(header)) ==> r == Fail(Argument) && headers == old(headers)
      ensures !HasKey(old(headers), StandardHeader(header)) ==> r == Pass && headers == old(headers) + [(StandardHeader(header), value)]
    {
      r := Add(StandardHeader(header), value);
    }
  }

  /** A named header and an enumerated header never collide, even for the same header field. */
  lemma HeaderKindsDistinct(m: seq<(HeaderKey, Value)>, name: string, header: nat, v: Value)
    ensures HasKey(m + [(NamedHeader(name), v)], StandardHeader(header)) == HasKey(m, StandardHeader(header))
    ensures HasKey(m + [(StandardHeader(header), v)], NamedHeader(name)) == HasKey(m, NamedHeader(name))
  {
    if HasKey(m, StandardHeader(header)) {
      var i :| 0 <= i < |m| && m[i].0 == StandardHeader(header);
      assert (m + [(NamedHeader(name), v)])[i] == m[i];
    }
    if HasKey(m + [(NamedHeader(name), v)], StandardHeader(header)) {
      var i :| 0 <= i < |m| + 1 && (m + [(NamedHeader(name), v)])[i].0 == StandardHeader(header);
      assert i < |m| && m[i].0 == StandardHeader(header);
    }
    if HasKey(m, NamedHeader(name)) {
      var i :| 0 <= i < |m| && m[i].0 == NamedHeader(name);
      assert (m + [(StandardHeader(header), v)])[i] == m[i];
    }
    if HasKey(m + [(StandardHeader(header), v)], NamedHeader(name)) {
      var i :| 0 <= i < |m| + 1 && (m + [(StandardHeader(header), v)])[i].0 == NamedHeader(name);
      assert i < |m| && m[i].0 == NamedHeader(name);
    }
  }

  /** Adding the same header name twice: the first call succeeds, the second throws, and the first value stays. */
  method AddHeaderTwice(inv: RestInvoker, name: string, first: Value, second: Value) returns (r1: Outcome<Exn>, r2: Outcome<Exn>)
    requires inv.Valid() && !HasKey(inv.headers, NamedHeader(name))
    modifies inv`headers
    ensures r1 == Pass && r2 == Fail(Argument)
    ensures inv.headers == old(inv.headers) + [(NamedHeader(name), first)]
  {
    r1 := inv.AddHeader(Some(name), first);
    assert inv.headers[|inv.headers| - 1].0 == NamedHeader(name);
    r2 := inv.AddHeader(Some(name), second);
  }
}
