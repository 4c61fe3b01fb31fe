/**
 * `ContentType` and `MultiPartFormData`: MIME type strings (section 3.1.1.1
 * of RFC 7231) validated once on construction, and the multipart type whose
 * rendering carries the `boundary` parameter of section 4.1 of RFC 7578.
 */
module ContentTypes {
  import opened Wrappers
  import opened Runtime
  import opened Text

  /** An immutable content type; the private constructor is only reachable through `Create` and the named constants. */
  datatype ContentType = ContentType(value: string) {
    /** What the constructor accepts: a string that is neither empty nor white space only. */
    predicate Valid() {
      !IsBlank(value)
    }

    /** `ToString()`: the string the instance was built from. */
    function ToString(): string {
      value
    }
  }

  /**
   * `ContentType.Create(s)`: a null argument throws `ArgumentNullException`,
   * an empty or white-space argument throws `ArgumentException`, and any
   * other string is kept exactly.
   */
  function Create(s: Option<string>): (r: Result<ContentType, Exn>)
    ensures s.None? ==> r == Failure(ArgumentNull)
    ensures s.Some? && IsBlank(s.value) ==> r == Failure(Argument)
    ensures r.Success? <==> s.Some? && !IsBlank(s.value)
    ensures r.Success? ==> r.value.Valid() && r.value.ToString() == s.value
  {
    var v :- RequireNonBlank(s);
    Success(ContentType(v))
  }

  /** Every valid content type is what `Create` makes of its own rendering. */
  lemma CreateToString(ct: ContentType)
    requires ct.Valid()
    ensures Create(Some(ct.ToString())) == Success(ct)
  {
  }

  const ApplicationJson := ContentType("application/json")
  const ApplicationXJson := ContentType("application/x-json")
  const ApplicationXml := ContentType("application/xml")
  const ApplicationXWwwFormUrlEncoded := ContentType("application/x-www-form-urlencoded")
  const TextJson := ContentType("text/json")
  const TextXml := ContentType("text/xml")

  /** The six named constants, in declaration order. */
  function NamedContentTypes(): seq<ContentType> {
    [ApplicationJson, ApplicationXJson, ApplicationXml, ApplicationXWwwFormUrlEncoded, TextJson, TextXml]
  }

  /** A string whose first character is not white space passes the constructor's blank check. */
  lemma NonBlankByFirst(s: string)
    requires |s| > 0 && !IsWhiteSpace(s[0])
    ensures !IsBlank(s)
  {
  }

  /** None of the named constants would make the private constructor throw. */
  lemma NamedContentTypesValid()
    ensures forall i :: 0 <= i < |NamedContentTypes()| ==> NamedContentTypes()[i].Valid()
  {
    var cts := NamedContentTypes();
    forall i | 0 <= i < |cts| ensures cts[i].Valid() {
      NonBlankByFirst(cts[i].value);
    }
  }

  // ---------------------------------------------------------------------------
  // multipart/form-data

  const MultiPartPrefix := "multipart/form-data; boundary="

  /** `Format("multipart/form-data; boundary={0}", boundary)`; a null boundary formats as "". */
  function MultiPartHeader(boundary: Option<string>): (s: string)
    ensures StartsWith(s, "multipart/form-data")
    ensures StartsWith(s, MultiPartPrefix) && s[|MultiPartPrefix|..] == boundary.GetOr("")
  {
    MultiPartPrefix + boundary.GetOr("")
  }

  /** The boundary can be read back from the rendered header. */
  lemma MultiPartHeaderInjective(a: string, b: string)
    ensures MultiPartHeader(Some(a)) == MultiPartHeader(Some(b)) <==> a == b
  {
    if MultiPartHeader(Some(a)) == MultiPartHeader(Some(b)) {
      assert a == MultiPartHeader(Some(a))[|MultiPartPrefix|..];
    }
  }

  /** A `MultiPartFormData` instance; its `Boundary` is the only thing that changes after construction. */
  class MultiPartFormData {
    var boundary: Option<string>

    /** `MultiPartFormData.Create()`: no boundary. */
    constructor Create()
      ensures boundary == None
    {
      boundary := None;
    }

    /** `MultiPartFormData.Create(b)`. */
    constructor CreateWith(b: Option<string>)
      ensures boundary == b
    {
      boundary := b;
    }

    /** `WithBoundary(b)`: sets the boundary and returns the same instance. */
    method WithBoundary(b: Option<string>) returns (self: MultiPartFormData)
      modifies this
      ensures boundary == b
      ensures self == this
    {
      boundary := b;
      self := this;
    }

    /** `ToString()`. */
    function ToString(): (s: string)
      reads this
      ensures StartsWith(s, "multipart/form-data")
      ensures StartsWith(s, MultiPartPrefix) && s[|MultiPartPrefix|..] == boundary.GetOr("")
    {
      MultiPartHeader(boundary)
    }
  }

  /** Two calls of `WithBoundary`: the last one wins, and the header shows it. */
  method WithBoundaryTwice(m: MultiPartFormData, a: string, b: string) returns (s: string)
    modifies m
    ensures m.boundary == Some(b)
    ensures s == MultiPartHeader(Some(b))
  {
    var m1 := m.WithBoundary(Some(a));
    var m2 := m1.WithBoundary(Some(b));
    s := m2.ToString();
  }
}
