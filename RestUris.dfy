/**
 * `RestUri`: a base URI, a relative resource URI that may hold `{name}`
 * placeholders, a table of template parameters and a table of query
 * entries. `ToUri` substitutes every parameter into the resource, resolves
 * the result against the base, and appends the query entries to whatever
 * query the resolved URI already carries.
 */
module RestUris {
  import opened Wrappers
  import opened Runtime
  import opened Text
  import opened OrderedMaps
  import opened Objects

  /** An absolute URI: everything up to the query, and the query without its `?`. */
  datatype Uri = Uri(location: string, query: string)

  /**
   * `Uri.TryCreate(baseUri, relative, out uri)`, with the parts a
   * `UriBuilder` over the result exposes; `None` when no URI can be formed.
   */
  type Resolver = (string, string) -> Option<Uri>

  // ---------------------------------------------------------------------------
  // Specification functions

  /** The resource after replacing `{k}` by `v` for every parameter, first to last. */
  function SubstituteAll(resource: string, params: seq<(string, string)>): string
    decreases |params|
  {
    if |params| == 0 then resource
    else
      var last := params[|params| - 1];
      ReplaceAll(SubstituteAll(resource, params[..|params| - 1]), Placeholder(last.0), last.1)
  }

  /** `key=value`. */
  function QueryPair(kv: (string, string)): string {
    kv.0 + "=" + kv.1
  }

  /** One `key=value` text per query entry, in insertion order. */
  function QueryParts(m: seq<(string, string)>): (parts: seq<string>)
    ensures |parts| == |m|
    ensures forall i :: 0 <= i < |m| ==> parts[i] == QueryPair(m[i])
  {
    if |m| == 0 then [] else QueryParts(m[..|m| - 1]) + [QueryPair(m[|m| - 1])]
  }

  /** The entries joined with `&`. */
  function QueryString(m: seq<(string, string)>): (q: string)
    ensures q == "" <==> |m| == 0
  {
    var parts := QueryParts(m);
    if |m| > 0 then
      JoinStartsWithFirst(parts, "&");
      assert |parts[0]| > 0;
      Join(parts, "&")
    else
      Join(parts, "&")
  }

  /**
   * The query after the entries are added: blank entries leave the URI's own
   * query as it is; otherwise they follow it, after an `&` if it is not blank.
   */
  function AppendQuery(existing: string, built: string): (q: string)
    ensures |existing| <= |q| && q[..|existing|] == existing
    ensures IsBlank(built) <==> q == existing
  {
    if IsBlank(built) then existing
    else if IsBlank(existing) then existing + built
    else existing + "&" + built
  }

  /** What `ToUri` yields for the given state. */
  function ResolveUri(resolve: Resolver, baseUri: string, resource: string,
                      params: seq<(string, string)>, query: seq<(string, string)>): Result<Uri, Exn>
  {
    match resolve(baseUri, SubstituteAll(resource, params))
    case None => Failure(ArgumentNull)
    case Some(u) => Success(Uri(u.location, AppendQuery(u.query, QueryString(query))))
  }

  /** `key=value` split at its first `=`; text without `=` is a key with an empty value. */
  function ParsePair(part: string): (string, string) {
    var i := IndexOf(part, '=');
    if i < 0 then (part, "") else (part[..i], part[i + 1..])
  }

  function ParsePairs(parts: seq<string>): (m: seq<(string, string)>)
    ensures |m| == |parts| && forall i :: 0 <= i < |parts| ==> m[i] == ParsePair(parts[i])
  {
    seq(|parts|, i requires 0 <= i < |parts| => ParsePair(parts[i]))
  }

  /** Reading a query back into entries: split at `&`, then each part at its first `=`. */
  function ParseQuery(q: string): seq<(string, string)> {
    if q == "" then [] else ParsePairs(SplitOn(q, '&'))
  }

  // ---------------------------------------------------------------------------
  // The object

  class RestUri {
    const baseUri: string
    const resourceUri: string
    var templateParameters: seq<(string, string)>
    var queryString: seq<(string, string)>

    /** Both tables are dictionaries: no key twice. */
    ghost predicate Valid()
      reads this
    {
      KeysDistinct(templateParameters) && KeysDistinct(queryString)
    }

    /** `new RestUri(baseUri, resourceUri)`: both tables start empty. */
    constructor (baseUri: string, resourceUri: string)
      ensures this.baseUri == baseUri && this.resourceUri == resourceUri
      ensures templateParameters == [] && queryString == []
      ensures Valid()
    {
      this.baseUri := baseUri;
      this.resourceUri := resourceUri;
      templateParameters := [];
      queryString := [];
    }

    /** `new RestUri(baseUri)`: the resource is the empty relative URI. */
    constructor FromBase(baseUri: string)
      ensures this.baseUri == baseUri && resourceUri == ""
      ensures templateParameters == [] && queryString == []
      ensures Valid()
    {
      this.baseUri := baseUri;
      resourceUri := "";
      templateParameters := [];
      queryString := [];
    }

    /**
     * `SetQuery(name, value)`: replaces the value of a present name in place,
     * appends a new name; `value.ToString()` on a null value throws before
     * anything changes.
     */
    method SetQuery(name: string, value: Value) returns (r: Outcome<Exn>)
      requires Valid()
      modifies this
      ensures Valid() && templateParameters == old(templateParameters)
      ensures value.Null? ==> r == Fail(NullReference) && queryString == old(queryString)
      ensures value.Text? ==> r == Pass && queryString == Upsert(old(queryString), name, value.text)
    {
      var i := IndexOfKey(queryString, name);
      if value.Null? {
        return Fail(NullReference);
      }
      UpsertDistinct(queryString, name, value.text);
      if i >= 0 {
        queryString := queryString[i := (name, value.text)];
      } else {
        queryString := queryString + [(name, value.text)];
      }
      r := Pass;
    }

    /**
     * `SetQuery(object)`: `SetQuery` for each property in turn; a null object
     * or a null property value throws, keeping what earlier properties set.
     */
    method SetQueryObject(obj: PropertyBag) returns (r: Outcome<Exn>)
      requires Valid()
      modifies this
      ensures Valid() && templateParameters == old(templateParameters)
      ensures ToDictionary(obj).Failure? ==>
        r == Fail(ToDictionary(obj).error) && queryString == old(queryString)
      ensures ToDictionary(obj).Success? ==>
        var props := ToDictionary(obj).value;
        queryString == UpsertAll(old(queryString), AppliedTexts(props)) &&
        r == (if LeadingTexts(props) == |props| then Pass else Fail(NullReference))
    {
      var d := ToDictionary(obj);
      if d.Failure? {
        return Fail(d.error);
      }
      var props := d.value;
      var i := 0;
      while i < |props|
        invariant 0 <= i <= |props|
        invariant forall j :: 0 <= j < i ==> props[j].1.Text?
        invariant queryString == UpsertAll(old(queryString), Texts(props[..i]))
        invariant Valid() && templateParameters == old(templateParameters)
      {
        r := SetQuery(props[i].0, props[i].1);
        if r.Fail? {
          return;
        }
        TextsSnoc(props, i);
        UpsertAllSnoc(old(queryString), Texts(props[..i]), (props[i].0, props[i].1.text));
        i := i + 1;
      }
      assert props[..i] == props;
      r := Pass;
    }

    /** `SetParameter(name, value)`: as `SetQuery`, on the template parameters. */
    method SetParameter(name: string, value: Value) returns (r: Outcome<Exn>)
      requires Valid()
      modifies this
      ensures Valid() && queryString == old(queryString)
      ensures value.Null? ==> r == Fail(NullReference) && templateParameters == old(templateParameters)
      ensures value.Text? ==> r == Pass && templateParameters == Upsert(old(templateParameters), name, value.text)
    {
      var i := IndexOfKey(templateParameters, name);
      if value.Null? {
        return Fail(NullReference);
      }
      UpsertDistinct(templateParameters, name, value.text);
      if i >= 0 {
        templateParameters := templateParameters[i := (name, value.text)];
      } else {
        templateParameters := templateParameters + [(name, value.text)];
      }
      r := Pass;
    }

    /** `SetParameter(object)`: `SetParameter` for each property in turn. */
    method SetParameterObject(obj: PropertyBag) returns (r: Outcome<Exn>)
      requires Valid()
      modifies this
      ensures Valid() && queryString == old(queryString)
      ensures ToDictionary(obj).Failure? ==>
        r == Fail(ToDictionary(obj).error) && templateParameters == old(templateParameters)
      ensures ToDictionary(obj).Success? ==>
        var props := ToDictionary(obj).value;
        templateParameters == UpsertAll(old(templateParameters), AppliedTexts(props)) &&
        r == (if LeadingTexts(props) == |props| then Pass else Fail(NullReference))
    {
      var d := ToDictionary(obj);
      if d.Failure? {
        return Fail(d.error);
      }
      var props := d.value;
      var i := 0;
      while i < |props|
        invariant 0 <= i <= |props|
        invariant forall j :: 0 <= j < i ==> props[j].1.Text?
        invariant templateParameters == UpsertAll(old(templateParameters), Texts(props[..i]))
        invariant Valid() && queryString == old(queryString)
      {
        r := SetParameter(props[i].0, props[i].1);
        if r.Fail? {
          return;
        }
        TextsSnoc(props, i);
        UpsertAllSnoc(old(templateParameters), Texts(props[..i]), (props[i].0, props[i].1.text));
        i := i + 1;
      }
      assert props[..i] == props;
      r := Pass;
    }

    /** `BuildQueryString()`: `key=value` for each entry in insertion order, joined with `&`. */
    method BuildQueryString() returns (q: string)
      ensures q == QueryString(queryString)
    {
      var qb: seq<string> := [];
      var i := 0;
      while i < |queryString|
        invariant 0 <= i <= |queryString|
        invariant qb == QueryParts(queryString[..i])
      {
        assert queryString[..i + 1][..i] == queryString[..i];
        qb := qb + [queryString[i].0 + "=" + queryString[i].1];
        i := i + 1;
      }
      assert queryString[..i] == queryString;
      q := Join(qb, "&");
    }

    /**
     * `ToUri()`: substitute the parameters in insertion order, resolve the
     * resource against the base, then append the query entries. A resource
     * that cannot be resolved leaves `UriBuilder` a null URI, which it rejects.
     */
    method ToUri(resolve: Resolver) returns (r: Result<Uri, Exn>)
      ensures r == ResolveUri(resolve, baseUri, resourceUri, templateParameters, queryString)
    {
      var resource := resourceUri;
      var i := 0;
      while i < |templateParameters|
        invariant 0 <= i <= |templateParameters|
        invariant resource == SubstituteAll(resourceUri, templateParameters[..i])
      {
        assert templateParameters[..i + 1][..i] == templateParameters[..i];
        var kv := templateParameters[i];
        resource := ReplaceAll(resource, "{" + kv.0 + "}", kv.1);
        i := i + 1;
      }
      assert templateParameters[..i] == templateParameters;
      var full := resolve(baseUri, resource);
      if full.None? {
        return Failure(ArgumentNull);
      }
      var query := full.value.query;
      var other := BuildQueryString();
      if !IsBlank(other) {
        if !IsBlank(query) {
          query := query + "&";
        }
        query := query + other;
      }
      r := Success(Uri(full.value.location, query));
    }

    /** `ToString()`: the text of `ToUri()`, as the platform formats a URI. */
    method ToString(resolve: Resolver, format: Uri -> string) returns (r: Result<string, Exn>)
      ensures ResolveUri(resolve, baseUri, resourceUri, templateParameters, queryString).Failure? ==>
        r == Failure(ResolveUri(resolve, baseUri, resourceUri, templateParameters, queryString).error)
      ensures ResolveUri(resolve, baseUri, resourceUri, templateParameters, queryString).Success? ==>
        r == Success(format(ResolveUri(resolve, baseUri, resourceUri, templateParameters, queryString).value))
    {
      var u := ToUri(resolve);
      if u.Failure? {
        return Failure(u.error);
      }
      r := Success(format(u.value));
    }
  }

  // ---------------------------------------------------------------------------
  // Properties of the query

  /** The built query is blank exactly when there are no entries (every entry has its `=`). */
  lemma QueryStringBlank(m: seq<(string, string)>)
    ensures IsBlank(QueryString(m)) <==> |m| == 0
    ensures QueryString(m) == "" <==> |m| == 0
  {
    if |m| > 0 {
      var parts := QueryParts(m);
      JoinStartsWithFirst(parts, "&");
      var q := QueryString(m);
      assert q[|m[0].0|] == parts[0][|m[0].0|] == '=';
      assert !IsWhiteSpace('=');
    }
  }

  lemma ParsePairOf(kv: (string, string))
    requires '=' !in kv.0
    ensures ParsePair(QueryPair(kv)) == kv
  {
    var p := QueryPair(kv);
    assert p[..|kv.0|] == kv.0 && p[|kv.0|] == '=';
    assert IndexOf(p, '=') == |kv.0|;
    assert p[|kv.0| + 1..] == kv.1;
  }

  /** Query entries are text whose keys hold no `&` or `=` and whose values hold no `&`. */
  predicate PlainEntries(m: seq<(string, string)>) {
    forall i :: 0 <= i < |m| ==> '&' !in m[i].0 && '=' !in m[i].0 && '&' !in m[i].1
  }

  /** Reading the built query back gives the entries, in insertion order. */
  lemma QueryRoundTrip(m: seq<(string, string)>)
    requires PlainEntries(m)
    ensures ParseQuery(QueryString(m)) == m
  {
    QueryStringBlank(m);
    if |m| > 0 {
      var parts := QueryParts(m);
      forall i | 0 <= i < |parts| ensures '&' !in parts[i] {
        assert parts[i] == m[i].0 + "=" + m[i].1;
      }
      SplitJoin(parts, '&');
      forall i | 0 <= i < |m| ensures ParsePair(parts[i]) == m[i] {
        ParsePairOf(m[i]);
      }
    }
  }

  /**
   * The entries follow the URI's own query: none of them replaces or merges
   * with a pair already in it, so a name present in both appears twice.
   */
  lemma QueryAppendedAfterExisting(existing: string, m: seq<(string, string)>)
    requires !IsBlank(existing) && PlainEntries(m) && |m| > 0
    ensures ParseQuery(AppendQuery(existing, QueryString(m))) == ParseQuery(existing) + m
  {
    var q := QueryString(m);
    QueryStringBlank(m);
    QueryRoundTrip(m);
    assert existing != "";
    var all := AppendQuery(existing, q);
    assert all == existing + (['&'] + q);
    SplitAppend(existing, '&', q);
    assert all != "";
    var e, t := SplitOn(existing, '&'), SplitOn(q, '&');
    assert ParsePairs(e + t) == ParsePairs(e) + ParsePairs(t);
  }

  /** No entries leave the URI's own query untouched. */
  lemma NoEntriesKeepQuery(existing: string)
    ensures AppendQuery(existing, QueryString([])) == existing
  {
  }

  // ---------------------------------------------------------------------------
  // Properties of the substitution

  /** A text without `{` holds no placeholder. */
  lemma NoPlaceholderIn(s: string, name: string)
    requires '{' !in s
    ensures !Contains(s, Placeholder(name))
  {
    forall i | 0 <= i <= |s| - |Placeholder(name)| ensures !OccursAt(s, Placeholder(name), i) {
      assert s[i] != '{';
      assert s[i..i + |Placeholder(name)|][0] == s[i];
    }
  }

  /** A resource without `{` is passed through whatever the parameters. */
  lemma {:induction false} SubstitutePassThrough(resource: string, params: seq<(string, string)>)
    requires '{' !in resource
    ensures SubstituteAll(resource, params) == resource
    decreases |params|
  {
    if |params| > 0 {
      var last := params[|params| - 1];
      SubstitutePassThrough(resource, params[..|params| - 1]);
      NoPlaceholderIn(resource, last.0);
      ReplaceAbsent(resource, Placeholder(last.0), last.1);
    }
  }

  /** All parameter names are free of braces. */
  predicate BraceFreeNames(params: seq<(string, string)>) {
    forall i :: 0 <= i < |params| ==> BraceFree(params[i].0)
  }

  /** No parameter value opens a placeholder of its own. */
  predicate ValuesOpenNone(params: seq<(string, string)>) {
    forall i :: 0 <= i < |params| ==> '{' !in params[i].1
  }

  // ---------------------------------------------------------------------------
  // Resource templates

  /** A resource template read as literal text and `{name}` placeholders. */
  datatype Segment = Literal(text: string) | Param(name: string)

  function SegmentText(g: Segment): string {
    match g
    case Literal(x) => x
    case Param(n) => Placeholder(n)
  }

  /** The resource string a template spells. */
  function Render(t: seq<Segment>): string
    decreases |t|
  {
    if |t| == 0 then "" else SegmentText(t[0]) + Render(t[1..])
  }

  /** Literals that open no placeholder, and names without braces. */
  predicate WellFormedTemplate(t: seq<Segment>) {
    forall i :: 0 <= i < |t| ==> (if t[i].Literal? then '{' !in t[i].text else BraceFree(t[i].name))
  }

  /** A placeholder some parameter names becomes that parameter's value; any other stays. */
  function BindSegment(g: Segment, params: seq<(string, string)>): Segment {
    match g
    case Literal(_) => g
    case Param(n) => if HasKey(params, n) then Literal(Lookup(params, n).value) else g
  }

  /** The template with every placeholder bound as far as the parameters reach. */
  function Bind(t: seq<Segment>, params: seq<(string, string)>): seq<Segment> {
    seq(|t|, i requires 0 <= i < |t| => BindSegment(t[i], params))
  }

  /** The template with the placeholder `{k}` alone bound to `v`. */
  function BindOne(t: seq<Segment>, k: string, v: string): seq<Segment> {
    seq(|t|, i requires 0 <= i < |t| => if t[i] == Param(k) then Literal(v) else t[i])
  }

  /** Rendering distributes over concatenation of templates. */
  lemma {:induction false} RenderAppend(a: seq<Segment>, b: seq<Segment>)
    ensures Render(a + b) == Render(a) + Render(b)
    decreases |a|
  {
    if |a| == 0 {
      assert a + b == b;
    } else {
      assert (a + b)[1..] == a[1..] + b;
      RenderAppend(a[1..], b);
    }
  }

  /**
   * One `Replace("{k}", v)` over a rendered template replaces exactly the
   * `{k}` placeholders and leaves the literals and every other placeholder.
   */
  lemma {:induction false} ReplaceTemplate(t: seq<Segment>, k: string, v: string)
    requires WellFormedTemplate(t) && BraceFree(k)
    ensures ReplaceAll(Render(t), Placeholder(k), v) == Render(BindOne(t, k, v))
    decreases |t|
  {
    var b := BindOne(t, k, v);
    if |t| == 0 {
      assert b == [];
    } else {
      var rest := t[1..];
      var tail := Render(rest);
      assert b[1..] == BindOne(rest, k, v);
      ReplaceTemplate(rest, k, v);
      match t[0]
      case Literal(x) =>
        ReplaceKeepsLiteral(x, tail, k, v);
      case Param(n) =>
        if n == k {
          ReplaceLeading(Placeholder(k), tail, v);
        } else {
          ReplaceKeepsTail(n, 0, tail, k, v);
          assert Placeholder(n)[0..] == Placeholder(n);
        }
    }
  }

  /** A template bound with values that open no placeholder is still well formed. */
  lemma BindWellFormed(t: seq<Segment>, params: seq<(string, string)>)
    requires WellFormedTemplate(t) && ValuesOpenNone(params)
    ensures WellFormedTemplate(Bind(t, params))
  {
    forall i | 0 <= i < |t| && t[i].Param? && HasKey(params, t[i].name)
      ensures '{' !in Lookup(params, t[i].name).value
    {
      var j := IndexOfKey(params, t[i].name);
      assert params[j].1 == Lookup(params, t[i].name).value;
    }
  }

  /** Binding with one more parameter is binding its own placeholder in what came before. */
  lemma BindSnoc(t: seq<Segment>, params: seq<(string, string)>)
    requires KeysDistinct(params) && |params| > 0
    ensures Bind(t, params) == BindOne(Bind(t, params[..|params| - 1]), params[|params| - 1].0, params[|params| - 1].1)
  {
    var init := params[..|params| - 1];
    var last := params[|params| - 1];
    var lhs, rhs := Bind(t, params), BindOne(Bind(t, init), last.0, last.1);
    assert !HasKey(init, last.0) by {
      forall i | 0 <= i < |init| ensures init[i].0 != last.0 { assert init[i] == params[i]; }
    }
    forall i | 0 <= i < |t| ensures lhs[i] == rhs[i] {
      if t[i].Param? {
        LookupLast(params, t[i].name);
      }
    }
  }

  /**
   * `ToUri`'s substitution over a whole template: every placeholder a
   * parameter names becomes that parameter's value, every other one is
   * left as `{name}`, and the literal text is untouched, whatever the
   * number, order or repetition of the placeholders.
   */
  lemma {:induction false} SubstituteTemplate(t: seq<Segment>, params: seq<(string, string)>)
    requires WellFormedTemplate(t) && BraceFreeNames(params) && KeysDistinct(params) && ValuesOpenNone(params)
    ensures SubstituteAll(Render(t), params) == Render(Bind(t, params))
    decreases |params|
  {
    if |params| == 0 {
      assert Bind(t, params) == t;
    } else {
      var init := params[..|params| - 1];
      var last := params[|params| - 1];
      assert forall i :: 0 <= i < |init| ==> init[i] == params[i];
      SubstituteTemplate(t, init);
      BindWellFormed(t, init);
      ReplaceTemplate(Bind(t, init), last.0, last.1);
      BindSnoc(t, params);
    }
  }

  /** Rendering taken apart around one segment. */
  lemma RenderAround(a: seq<Segment>, g: Segment, b: seq<Segment>)
    ensures Render(a + [g] + b) == Render(a) + SegmentText(g) + Render(b)
  {
    RenderAppend(a + [g], b);
    RenderAppend(a, [g]);
    assert [g] + [] == [g];
    RenderCons(g, []);
    assert Render([g]) == SegmentText(g);
  }

  /** A template is well formed when the pieces around one segment and the segment are. */
  lemma WellFormedAround(a: seq<Segment>, g: Segment, b: seq<Segment>)
    requires WellFormedTemplate(a) && WellFormedTemplate([g]) && WellFormedTemplate(b)
    ensures WellFormedTemplate(a + [g] + b)
  {
    var t := a + [g] + b;
    forall i | 0 <= i < |t|
      ensures if t[i].Literal? then '{' !in t[i].text else BraceFree(t[i].name)
    {
      if i < |a| { assert t[i] == a[i]; }
      else if i == |a| { assert t[i] == [g][0]; }
      else { assert t[i] == b[i - |a| - 1]; }
    }
  }

  /** Binding distributes over the pieces around one segment. */
  lemma BindAround(a: seq<Segment>, g: Segment, b: seq<Segment>, params: seq<(string, string)>)
    ensures Bind(a + [g] + b, params) == Bind(a, params) + [BindSegment(g, params)] + Bind(b, params)
  {
  }

  /** A placeholder no parameter names is left in the URI, amid any template. */
  lemma SubstituteUnknown(a: seq<Segment>, name: string, b: seq<Segment>, params: seq<(string, string)>)
    requires WellFormedTemplate(a) && WellFormedTemplate(b) && BraceFree(name)
    requires BraceFreeNames(params) && KeysDistinct(params) && ValuesOpenNone(params)
    requires !HasKey(params, name)
    ensures SubstituteAll(Render(a) + Placeholder(name) + Render(b), params)
         == Render(Bind(a, params)) + Placeholder(name) + Render(Bind(b, params))
  {
    var t := a + [Param(name)] + b;
    assert WellFormedTemplate([Param(name)]);
    WellFormedAround(a, Param(name), b);
    RenderAround(a, Param(name), b);
    SubstituteTemplate(t, params);
    BindAround(a, Param(name), b, params);
    RenderAround(Bind(a, params), Param(name), Bind(b, params));
  }

  /**
   * A placeholder a parameter names is replaced by that parameter's value,
   * amid any template, as long as no value opens a placeholder.
   */
  lemma SubstituteKnown(a: seq<Segment>, name: string, b: seq<Segment>, params: seq<(string, string)>)
    requires WellFormedTemplate(a) && WellFormedTemplate(b) && BraceFree(name)
    requires BraceFreeNames(params) && KeysDistinct(params) && ValuesOpenNone(params)
    requires HasKey(params, name)
    ensures SubstituteAll(Render(a) + Placeholder(name) + Render(b), params)
         == Render(Bind(a, params)) + Lookup(params, name).value + Render(Bind(b, params))
  {
    var v := Lookup(params, name).value;
    var t := a + [Param(name)] + b;
    assert WellFormedTemplate([Param(name)]);
    WellFormedAround(a, Param(name), b);
    RenderAround(a, Param(name), b);
    SubstituteTemplate(t, params);
    BindAround(a, Param(name), b, params);
    RenderAround(Bind(a, params), Literal(v), Bind(b, params));
  }

  /**
   * A value that spells a placeholder is substituted again by a later
   * parameter: `{p}id}` with `p = "{"` then `id = "1"` gives `1`, not `{id}`.
   */
  lemma ReopenedPlaceholder()
    ensures SubstituteAll("{p}id}", [("p", "{"), ("id", "1")]) == "1"
  {
    var params := [("p", "{"), ("id", "1")];
    assert params[..1] == [("p", "{")];
    assert params[..1][..0] == [];
    ReplaceLeading("{p}", "id}", "{");
    ReplaceAbsent("id}", "{p}", "{");
    assert "{p}" + "id}" == "{p}id}";
    assert "{" + "id}" == "{id}";
    ReplaceAbsent("", "{p}", "{");
    ReplaceLeading("{id}", "", "1");
    assert "{id}" + "" == "{id}";
    ReplaceAbsent("", "{id}", "1");
  }

  /** `new RestUri("http://localhost/", "account/{id}").SetParameter("id", 1)` resolves `account/1`. */
  lemma TemplateExample()
    ensures SubstituteAll("account/{id}", [("id", "1")]) == "account/1"
  {
    var params := [("id", "1")];
    var t := [Literal("account/"), Param("id")];
    AccountTemplate(t, params);
    SubstituteTemplate(t, params);
  }

  /** `account/{id}` as a well-formed template, and what `id = 1` binds it to. */
  lemma AccountTemplate(t: seq<Segment>, params: seq<(string, string)>)
    requires t == [Literal("account/"), Param("id")] && params == [("id", "1")]
    ensures WellFormedTemplate(t) && KeysDistinct(params) && BraceFreeNames(params) && ValuesOpenNone(params)
    ensures Render(t) == "account/{id}" && Render(Bind(t, params)) == "account/1"
  {
    IndexOfKeyAt(params, "id", 0);
    assert Placeholder("id") == "{id}";
    assert [Param("id")] == [Param("id")] + [];
    RenderCons(Param("id"), []);
    assert t == [Literal("account/")] + [Param("id")];
    RenderCons(Literal("account/"), [Param("id")]);
    var bound := Bind(t, params);
    assert bound == [Literal("account/")] + ([Literal("1")] + []);
    RenderCons(Literal("1"), []);
    RenderCons(Literal("account/"), [Literal("1")] + []);
  }

  /** The template `{a}/{b}/{a}/{c}` as segments. */
  function RepeatedTemplate(): seq<Segment> {
    [Param("a"), Literal("/"), Param("b"), Literal("/"), Param("a"), Literal("/"), Param("c")]
  }

  /** Rendering a template segment by segment, three at a time. */
  lemma RenderThree(x: Segment, y: Segment, z: Segment, rest: seq<Segment>)
    ensures Render([x, y, z] + rest) == SegmentText(x) + (SegmentText(y) + (SegmentText(z) + Render(rest)))
  {
    RenderCons(z, rest);
    RenderCons(y, [z] + rest);
    RenderCons(x, [y] + ([z] + rest));
    assert [x, y, z] + rest == [x] + ([y] + ([z] + rest));
  }

  /** Rendering one segment in front of a template. */
  lemma RenderCons(x: Segment, rest: seq<Segment>)
    ensures Render([x] + rest) == SegmentText(x) + Render(rest)
  {
    assert ([x] + rest)[1..] == rest;
  }

  /** `{a}/{b}/{a}/{c}` is the rendering of `RepeatedTemplate`. */
  lemma RepeatedRendered()
    ensures Render(RepeatedTemplate()) == "{a}/{b}/{a}/{c}"
  {
    var head, tail := [Param("a"), Literal("/"), Param("b")], [Literal("/"), Param("a"), Literal("/"), Param("c")];
    assert RepeatedTemplate() == head + tail;
    RepeatedSplit(head, tail);
  }

  /** The repeated template rendered as its two halves. */
  lemma RepeatedSplit(head: seq<Segment>, tail: seq<Segment>)
    requires head == [Param("a"), Literal("/"), Param("b")]
    requires tail == [Literal("/"), Param("a"), Literal("/"), Param("c")]
    ensures Render(head + tail) == "{a}/{b}/{a}/{c}"
  {
    RenderAppend(head, tail);
    RepeatedHead(head);
    RepeatedTail(tail);
    assert "{a}/{b}" + "/{a}/{c}" == "{a}/{b}/{a}/{c}";
  }

  /** The first three segments of the repeated template render as `{a}/{b}`. */
  lemma RepeatedHead(head: seq<Segment>)
    requires head == [Param("a"), Literal("/"), Param("b")]
    ensures Render(head) == "{a}/{b}"
  {
    RenderThree(Param("a"), Literal("/"), Param("b"), []);
    assert head == head + [];
    assert Placeholder("a") == "{a}" && Placeholder("b") == "{b}";
    assert "{a}" + ("/" + ("{b}" + "")) == "{a}/{b}";
  }

  /** The last four segments of the repeated template render as `/{a}/{c}`. */
  lemma RepeatedTail(tail: seq<Segment>)
    requires tail == [Literal("/"), Param("a"), Literal("/"), Param("c")]
    ensures Render(tail) == "/{a}/{c}"
  {
    assert Placeholder("a") == "{a}" && Placeholder("c") == "{c}";
    assert tail == [Literal("/"), Param("a"), Literal("/")] + [Param("c")];
    RenderThree(Literal("/"), Param("a"), Literal("/"), [Param("c")]);
    RenderCons(Param("c"), []);
    assert [Param("c")] == [Param("c")] + [];
    assert "/" + ("{a}" + ("/" + ("{c}" + ""))) == "/{a}/{c}";
  }

  /** The repeated template's literals open no placeholder and its names have no braces. */
  lemma RepeatedWellFormed()
    ensures WellFormedTemplate(RepeatedTemplate())
  {
  }

  /** `a = 1`, `b = 2` bind `a` at both places and leave `{c}`. */
  lemma RepeatedBinding(params: seq<(string, string)>)
    requires params == [("a", "1"), ("b", "2")]
    ensures Bind(RepeatedTemplate(), params) ==
      [Literal("1"), Literal("/"), Literal("2")] + ([Literal("/"), Literal("1"), Literal("/")] + [Param("c")])
  {
    IndexOfKeyAt(params, "a", 0);
    IndexOfKeyAt(params, "b", 1);
    assert !HasKey(params, "c");
  }

  /** `a = 1`, `b = 2` bind the template to `1/2/1/{c}`. */
  lemma RepeatedBound(params: seq<(string, string)>)
    requires params == [("a", "1"), ("b", "2")]
    ensures Render(Bind(RepeatedTemplate(), params)) == "1/2/1/{c}"
  {
    RepeatedBinding(params);
    var tail := [Literal("/"), Literal("1"), Literal("/")] + [Param("c")];
    RenderThree(Literal("1"), Literal("/"), Literal("2"), tail);
    RenderThree(Literal("/"), Literal("1"), Literal("/"), [Param("c")]);
    RenderCons(Param("c"), []);
    assert [Param("c")] == [Param("c")] + [];
    assert Placeholder("c") == "{c}";
    assert "1" + ("/" + ("2" + ("/" + ("1" + ("/" + ("{c}" + "")))))) == "1/2/1/{c}";
  }

  /**
   * Two placeholders, one of them repeated, and one no parameter names:
   * `{a}/{b}/{a}/{c}` with `a = 1`, `b = 2` gives `1/2/1/{c}`.
   */
  lemma TemplateRepeated()
    ensures SubstituteAll("{a}/{b}/{a}/{c}", [("a", "1"), ("b", "2")]) == "1/2/1/{c}"
  {
    var params := [("a", "1"), ("b", "2")];
    RepeatedRendered();
    RepeatedWellFormed();
    RepeatedBound(params);
    RepeatedParams(params);
    SubstituteTemplate(RepeatedTemplate(), params);
  }

  /** The parameters `a = 1`, `b = 2` meet the conditions of `SubstituteTemplate`. */
  lemma RepeatedParams(params: seq<(string, string)>)
    requires params == [("a", "1"), ("b", "2")]
    ensures KeysDistinct(params) && BraceFreeNames(params) && ValuesOpenNone(params)
  {
  }

  /** A resource `account?123456` and the entry `id=1` give the query `123456&id=1`. */
  lemma AppendQueryExample()
    ensures AppendQuery("123456", QueryString([("id", "1")])) == "123456&id=1"
  {
    var m := [("id", "1")];
    var e := "123456";
    assert m[..0] == [];
    assert QueryParts(m) == [QueryPair(m[0])];
    assert QueryString(m) == "id=1";
    assert e[0] == '1' && !IsWhiteSpace(e[0]) && !IsBlank(e);
    QueryStringBlank(m);
    assert e + "&" + "id=1" == "123456&id=1";
  }
}
