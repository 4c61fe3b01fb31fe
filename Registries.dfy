/**
 * The two content-type registries: `RestSerializerRegistry` (request body
 * serializers, looked up by exact content type) and `RestDeSerializerRegistry`
 * (response deserializers, looked up by the media type before any `;`
 * parameters, section 3.1.1.1 of RFC 7231). Both are append-or-replace
 * dictionaries with no removal; a miss yields null.
 */
module Registries {
  import opened Wrappers
  import opened Text
  import opened OrderedMaps

  /** The serializer strategies, as opaque tags; `CustomSerializer` stands for a user-supplied implementation. */
  datatype Serializer = JsonSerializer | FormSerializer | CustomSerializer(id: nat)

  /** The deserializer strategies, as opaque tags. */
  datatype Deserializer = JsonDeserializer | XmlDeserializer | CustomDeserializer(id: nat)

  /** `GetSerializer` on a table: the entry for exactly `contentType`, or null. */
  function FindSerializer(m: seq<(string, Serializer)>, contentType: string): (r: Option<Serializer>)
    ensures r.None? <==> !HasKey(m, contentType)
    ensures r.Some? ==> (contentType, r.value) in m
  {
    Lookup(m, contentType)
  }

  /**
   * The key `GetDeSerializer` looks up: the content type cut at its first
   * `;`, neither trimmed nor case folded.
   */
  function MediaTypeKey(contentType: string): (k: string)
    ensures ';' !in k
    ensures StartsWith(contentType, k)
    ensures ';' !in contentType ==> k == contentType
    ensures ';' in contentType ==> contentType[|k|] == ';'
  {
    PrefixBefore(contentType, ';')
  }

  /** `GetDeSerializer` on a table: the entry for the media type, or null. */
  function FindDeserializer(m: seq<(string, Deserializer)>, contentType: string): (r: Option<Deserializer>)
    ensures r.None? <==> !HasKey(m, MediaTypeKey(contentType))
    ensures r.Some? ==> (MediaTypeKey(contentType), r.value) in m
  {
    Lookup(m, MediaTypeKey(contentType))
  }

  class SerializerRegistry {
    var entries: seq<(string, Serializer)>

    ghost predicate Valid()
      reads this
    {
      KeysDistinct(entries)
    }

    constructor()
      ensures entries == [] && Valid()
    {
      entries := [];
    }

    /**
     * `Register(contentType, serializer)`: add the entry, or replace the
     * serializer of a content type already present in place.
     */
    method Register(contentType: string, serializer: Serializer)
      requires Valid()
      modifies this
      ensures Valid()
      ensures entries == Upsert(old(entries), contentType, serializer)
      ensures forall k :: HasKey(old(entries), k) ==> HasKey(entries, k)
    {
      ghost var before := entries;
      var i := 0;
      while i < |entries| && entries[i].0 != contentType
        invariant 0 <= i <= |entries|
        invariant forall n :: 0 <= n < i ==> entries[n].0 != contentType
      {
        i := i + 1;
      }
      if i == |entries| {
        entries := entries + [(contentType, serializer)];
      } else {
        IndexOfKeyAt(entries, contentType, i);
        entries := entries[i := (contentType, serializer)];
      }
      UpsertDistinct(before, contentType, serializer);
      UpsertKeys(before, contentType, serializer);
      forall k | HasKey(before, k) ensures HasKey(entries, k) {
        var j :| 0 <= j < |before| && before[j].0 == k;
        assert Keys(before)[j] == k;
        assert Keys(entries)[j] == k;
      }
    }

    /** `GetSerializer(contentType)`. */
    function GetSerializer(contentType: string): (r: Option<Serializer>)
      reads this
      ensures r.None? <==> !HasKey(entries, contentType)
      ensures r.Some? ==> (contentType, r.value) in entries
    {
      FindSerializer(entries, contentType)
    }
  }

  class DeSerializerRegistry {
    var entries: seq<(string, Deserializer)>

    ghost predicate Valid()
      reads this
    {
      KeysDistinct(entries)
    }

    constructor()
      ensures entries == [] && Valid()
    {
      entries := [];
    }

    /** `Register(contentType, deserializer)`: add, or replace in place. */
    method Register(contentType: string, deserializer: Deserializer)
      requires Valid()
      modifies this
      ensures Valid()
      ensures entries == Upsert(old(entries), contentType, deserializer)
      ensures forall k :: HasKey(old(entries), k) ==> HasKey(entries, k)
    {
      ghost var before := entries;
      var i := 0;
      while i < |entries| && entries[i].0 != contentType
        invariant 0 <= i <= |entries|
        invariant forall n :: 0 <= n < i ==> entries[n].0 != contentType
      {
        i := i + 1;
      }
      if i == |entries| {
        entries := entries + [(contentType, deserializer)];
      } else {
        IndexOfKeyAt(entries, contentType, i);
        entries := entries[i := (contentType, deserializer)];
      }
      UpsertDistinct(before, contentType, deserializer);
      UpsertKeys(before, contentType, deserializer);
      forall k | HasKey(before, k) ensures HasKey(entries, k) {
        var j :| 0 <= j < |before| && before[j].0 == k;
        assert Keys(before)[j] == k;
        assert Keys(entries)[j] == k;
      }
    }

    /** `GetDeSerializer(contentType)`. */
    function GetDeSerializer(contentType: string): (r: Option<Deserializer>)
      reads this
      ensures r.None? <==> !HasKey(entries, MediaTypeKey(contentType))
      ensures r.Some? ==> (MediaTypeKey(contentType), r.value) in entries
    {
      FindDeserializer(entries, contentType)
    }
  }

  // ---------------------------------------------------------------------------
  // Properties of the lookups

  /** After registering `k`, the serializer lookup of `k` finds the new strategy, whether `k` was new or present. */
  lemma SerializerRegisterFound(m: seq<(string, Serializer)>, k: string, s: Serializer)
    ensures FindSerializer(Upsert(m, k, s), k) == Some(s)
  {
    UpsertFound(m, k, s);
  }

  /** Registering `k` leaves the serializer lookup of every other key unchanged. */
  lemma SerializerRegisterOther(m: seq<(string, Serializer)>, k: string, s: Serializer, other: string)
    requires other != k
    ensures FindSerializer(Upsert(m, k, s), other) == FindSerializer(m, other)
  {
    UpsertOther(m, k, s, other);
  }

  /** The key the deserializer lookup uses is the content type without its parameters. */
  lemma {:induction false} MediaTypeKeyOfParameters(a: string, b: string)
    requires ';' !in a
    ensures MediaTypeKey(a + ";" + b) == a
  {
    var s := a + ";" + b;
    assert s[|a|] == ';';
    assert s[..|a|] == a;
    assert IndexOf(s, ';') == |a| by {
      assert ';' !in s[..|a|];
    }
  }

  /** `GetDeSerializer("a;b") == GetDeSerializer("a")`: parameters after `;` are ignored. */
  lemma DeserializerIgnoresParameters(m: seq<(string, Deserializer)>, a: string, b: string)
    requires ';' !in a
    ensures FindDeserializer(m, a + ";" + b) == FindDeserializer(m, a)
  {
    MediaTypeKeyOfParameters(a, b);
  }

  /** A deserializer registered under a key containing `;` is never returned: registering it changes no lookup. */
  lemma DeserializerSemicolonKeyInvisible(m: seq<(string, Deserializer)>, k: string, d: Deserializer, contentType: string)
    requires ';' in k
    ensures FindDeserializer(Upsert(m, k, d), contentType) == FindDeserializer(m, contentType)
  {
    UpsertOther(m, k, d, MediaTypeKey(contentType));
  }

  /** The last registration for a media type wins for every content type naming it; other media types are unchanged. */
  lemma DeserializerRegister(m: seq<(string, Deserializer)>, k: string, d: Deserializer, contentType: string)
    requires ';' !in k
    ensures MediaTypeKey(contentType) == k ==> FindDeserializer(Upsert(m, k, d), contentType) == Some(d)
    ensures MediaTypeKey(contentType) != k ==> FindDeserializer(Upsert(m, k, d), contentType) == FindDeserializer(m, contentType)
  {
    if MediaTypeKey(contentType) == k {
      UpsertFound(m, k, d);
    } else {
      UpsertOther(m, k, d, MediaTypeKey(contentType));
    }
  }

  /** A content type differs from a single registered key in its first character: the lookup misses (no trimming, no case folding). */
  lemma DeserializerExactPrefix(k: string, d: Deserializer, contentType: string)
    requires |k| > 0 && |contentType| > 0 && contentType[0] != k[0]
    ensures FindDeserializer([(k, d)], contentType) == None
  {
    var key := MediaTypeKey(contentType);
    if |key| > 0 {
      assert key[0] == contentType[0];
    }
    assert key != k;
  }

  /** `" application/json"` and `"Application/json"` do not find an `"application/json"` deserializer. */
  lemma DeserializerNoTrimNoFold(d: Deserializer)
    ensures FindDeserializer([("application/json", d)], " application/json") == None
    ensures FindDeserializer([("application/json", d)], "Application/json") == None
  {
    var k := "application/json";
    var t1 := " application/json";
    var t2 := "Application/json";
    DeserializerExactPrefix(k, d, t1);
    DeserializerExactPrefix(k, d, t2);
  }

  /** The serializer lookup is exact: a content type with a parameter misses the bare entry. */
  lemma SerializerExactMatch(s: Serializer)
    ensures FindSerializer([("application/json", s)], "application/json; charset=utf-8") == None
  {
    var k := "application/json";
    var t := "application/json; charset=utf-8";
    assert |t| != |k|;
  }
}
