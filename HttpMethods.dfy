/**
 * `HttpMethod`: a request method token (section 4 of RFC 7231, PATCH from
 * RFC 5789, the WebDAV methods ACL, PROPPATCH, ORDERPATCH and SEARCH)
 * validated once on construction.
 */
module HttpMethods {
  import opened Wrappers
  import opened Runtime
  import opened Text

  /** An immutable method name; the private constructor is reachable through `Create` and the named constants. */
  datatype HttpMethod = HttpMethod(name: string) {
    /** What the constructor accepts: a string that is neither empty nor white space only. */
    predicate Valid() {
      !IsBlank(name)
    }

    /** `ToString()`: the stored name. */
    function ToString(): string {
      name
    }
  }

  /**
   * `HttpMethod.Create(s)`: a null argument throws `ArgumentNullException`,
   * an empty or white-space argument throws `ArgumentException`, and any
   * other string is kept exactly (no case normalisation).
   */
  function Create(s: Option<string>): (r: Result<HttpMethod, Exn>)
    ensures s.None? ==> r == Failure(ArgumentNull)
    ensures s.Some? && IsBlank(s.value) ==> r == Failure(Argument)
    ensures r.Success? <==> s.Some? && !IsBlank(s.value)
    ensures r.Success? ==> r.value.Valid() && r.value.ToString() == s.value
  {
    var v :- RequireNonBlank(s);
    Success(HttpMethod(v))
  }

  /** Every valid method is what `Create` makes of its own rendering. */
  lemma CreateToString(m: HttpMethod)
    requires m.Valid()
    ensures Create(Some(m.ToString())) == Success(m)
  {
  }

  const ACL := HttpMethod("ACL")
  const CONNECT := HttpMethod("CONNECT")
  const DELETE := HttpMethod("DELETE")
  const GET := HttpMethod("GET")
  const HEAD := HttpMethod("HEAD")
  const OPTIONS := HttpMethod("OPTIONS")
  const PATCH := HttpMethod("PATCH")
  const POST := HttpMethod("POST")
  const PUT := HttpMethod("PUT")
  const PROPPATCH := HttpMethod("PROPPATCH")
  const TRACE := HttpMethod("TRACE")
  const ORDERPATCH := HttpMethod("ORDERPATCH")
  const SEARCH := HttpMethod("SEARCH")

  /** The thirteen named constants, in declaration order. */
  function NamedMethods(): seq<HttpMethod> {
    [ACL, CONNECT, DELETE, GET, HEAD, OPTIONS, PATCH, POST, PUT, PROPPATCH, TRACE, ORDERPATCH, SEARCH]
  }

  /** An upper-case ASCII letter. */
  predicate IsUpperLetter(c: char) {
    'A' <= c <= 'Z'
  }

  /** A token of upper-case letters passes the constructor's blank check. */
  lemma UpperTokenValid(s: string)
    requires |s| > 0 && forall i :: 0 <= i < |s| ==> IsUpperLetter(s[i])
    ensures !IsBlank(s)
  {
    assert !IsWhiteSpace(s[0]);
  }

  /** Each named constant is a non-blank token of upper-case letters, so none makes the constructor throw. */
  lemma NamedMethodsValid()
    ensures |NamedMethods()| == 13
    ensures forall i :: 0 <= i < |NamedMethods()| ==> NamedMethods()[i].Valid()
    ensures forall i :: 0 <= i < |NamedMethods()| ==> forall j :: 0 <= j < |NamedMethods()[i].name| ==> IsUpperLetter(NamedMethods()[i].name[j])
  {
    var ms := NamedMethods();
    forall i | 0 <= i < |ms| ensures forall j :: 0 <= j < |ms[i].name| ==> IsUpperLetter(ms[i].name[j]) {
    }
    forall i | 0 <= i < |ms| ensures ms[i].Valid() {
      UpperTokenValid(ms[i].name);
    }
  }
}
