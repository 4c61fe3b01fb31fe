/**
 * Anonymous objects passed as parameter bags. The library turns them into a
 * dictionary of their readable public properties by reflection; here an
 * object is given directly as that list of properties.
 */
module Objects {
  import opened Wrappers
  import opened Runtime
  import opened OrderedMaps

  /** The readable public properties of an object, in declaration order; `None` for a null reference. */
  type PropertyBag = Option<seq<(string, Value)>>

  /**
   * `ObjectToDictionary.ToDictionary`: `GetType()` on a null reference
   * throws, and `Dictionary.Add` throws on a repeated property name.
   */
  function ToDictionary(obj: PropertyBag): (r: Result<seq<(string, Value)>, Exn>)
    ensures obj.None? ==> r == Failure(NullReference)
    ensures obj.Some? && !KeysDistinct(obj.value) ==> r == Failure(Argument)
    ensures r.Success? <==> obj.Some? && KeysDistinct(obj.value)
    ensures r.Success? ==> r.value == obj.value
  {
    match obj
    case None => Failure(NullReference)
    case Some(props) => if KeysDistinct(props) then Success(props) else Failure(Argument)
  }

  /** The number of leading properties whose value is not null. */
  function LeadingTexts(props: seq<(string, Value)>): (k: nat)
    ensures k <= |props|
    ensures forall j :: 0 <= j < k ==> props[j].1.Text?
    ensures k < |props| ==> props[k].1.Null?
  {
    if |props| == 0 || props[0].1.Null? then 0 else 1 + LeadingTexts(props[1..])
  }

  /** Properties none of whose values is null, with each value replaced by its `ToString()`. */
  function Texts(props: seq<(string, Value)>): (m: seq<(string, string)>)
    requires forall j :: 0 <= j < |props| ==> props[j].1.Text?
    ensures |m| == |props|
    ensures forall j :: 0 <= j < |props| ==> m[j] == (props[j].0, props[j].1.text)
  {
    seq(|props|, j requires 0 <= j < |props| => (props[j].0, props[j].1.text))
  }

  /** The entries a `foreach` over the properties applies before it meets a null value. */
  function AppliedTexts(props: seq<(string, Value)>): seq<(string, string)> {
    Texts(props[..LeadingTexts(props)])
  }

  /** Extending the applied prefix by one property. */
  lemma TextsSnoc(props: seq<(string, Value)>, i: nat)
    requires i < |props| && forall j :: 0 <= j <= i ==> props[j].1.Text?
    ensures Texts(props[..i + 1]) == Texts(props[..i]) + [(props[i].0, props[i].1.text)]
  {
  }
}
