/**
 * `RestConfiguration`: the process-wide pair of registries and the default
 * registrations its static constructor makes.
 */
module Configuration {
  import opened Wrappers
  import opened OrderedMaps
  import opened ContentTypes
  import opened Registries

  /** The deserializer registrations of the static constructor, in call order. */
  function DeserializerDefaults(): seq<(string, Deserializer)> {
    [ (ApplicationJson.ToString(), JsonDeserializer),
      (ApplicationXJson.ToString(), JsonDeserializer),
      (TextJson.ToString(), JsonDeserializer),
      (ApplicationXml.ToString(), XmlDeserializer),
      (TextXml.ToString(), XmlDeserializer) ]
  }

  /** The serializer registrations of the static constructor, in call order. */
  function SerializerDefaults(): seq<(string, Serializer)> {
    [ (ApplicationJson.ToString(), JsonSerializer),
      (ApplicationXJson.ToString(), JsonSerializer),
      (TextJson.ToString(), JsonSerializer),
      (ApplicationXWwwFormUrlEncoded.ToString(), FormSerializer) ]
  }

  /** The static configuration: one registry of each kind, filled once. */
  class RestConfiguration {
    const deSerializers: DeSerializerRegistry
    const serializers: SerializerRegistry

    /** The static constructor: the registrations run in source order on fresh registries. */
    constructor()
      ensures fresh(deSerializers) && fresh(serializers)
      ensures deSerializers.Valid() && serializers.Valid()
      ensures deSerializers.entries == DeserializerDefaults()
      ensures serializers.entries == SerializerDefaults()
    {
      var d := new DeSerializerRegistry();
      RegisterDefaultDeserializers(d);
      var s := new SerializerRegistry();
      RegisterDefaultSerializers(s);
      deSerializers := d;
      serializers := s;
    }
  }

  /** The five deserializer registrations; each adds a new key. */
  method RegisterDefaultDeserializers(d: DeSerializerRegistry)
    requires d.Valid() && d.entries == []
    modifies d
    ensures d.Valid() && d.entries == DeserializerDefaults()
  {
    ghost var dd := DeserializerDefaults();
    d.Register(ApplicationJson.ToString(), JsonDeserializer);
    assert d.entries == dd[..1];
    AppendNewKey(dd[..1], ApplicationXJson.ToString(), JsonDeserializer);
    d.Register(ApplicationXJson.ToString(), JsonDeserializer);
    assert d.entries == dd[..2];
    AppendNewKey(dd[..2], TextJson.ToString(), JsonDeserializer);
    d.Register(TextJson.ToString(), JsonDeserializer);
    assert d.entries == dd[..3];
    AppendNewKey(dd[..3], ApplicationXml.ToString(), XmlDeserializer);
    d.Register(ApplicationXml.ToString(), XmlDeserializer);
    assert d.entries == dd[..4];
    AppendNewKey(dd[..4], TextXml.ToString(), XmlDeserializer);
    d.Register(TextXml.ToString(), XmlDeserializer);
  }

  /** The four serializer registrations; each adds a new key. */
  method RegisterDefaultSerializers(s: SerializerRegistry)
    requires s.Valid() && s.entries == []
    modifies s
    ensures s.Valid() && s.entries == SerializerDefaults()
  {
    ghost var sd := SerializerDefaults();
    s.Register(ApplicationJson.ToString(), JsonSerializer);
    assert s.entries == sd[..1];
    AppendNewKey(sd[..1], ApplicationXJson.ToString(), JsonSerializer);
    s.Register(ApplicationXJson.ToString(), JsonSerializer);
    assert s.entries == sd[..2];
    AppendNewKey(sd[..2], TextJson.ToString(), JsonSerializer);
    s.Register(TextJson.ToString(), JsonSerializer);
    assert s.entries == sd[..3];
    AppendNewKey(sd[..3], ApplicationXWwwFormUrlEncoded.ToString(), FormSerializer);
    s.Register(ApplicationXWwwFormUrlEncoded.ToString(), FormSerializer);
  }

  /** Registering a key whose length differs from every key present appends it. */
  lemma AppendNewKey<V>(m: seq<(string, V)>, k: string, v: V)
    requires forall n :: 0 <= n < |m| ==> |m[n].0| != |k|
    ensures Upsert(m, k, v) == m + [(k, v)]
  {
  }

  /** The content types of the named constants have pairwise different lengths. */
  lemma KeysDistinctByLength<V>(m: seq<(string, V)>)
    requires forall i, j :: 0 <= i < j < |m| ==> |m[i].0| != |m[j].0|
    ensures KeysDistinct(m)
  {
  }

  /** The registrations use five different content types, so the table holds them all, in order. */
  lemma DeserializerDefaultsTable()
    ensures UpsertAll([], DeserializerDefaults()) == DeserializerDefaults()
    ensures |Keys(UpsertAll([], DeserializerDefaults()))| == 5
    ensures KeysDistinct(UpsertAll([], DeserializerDefaults()))
  {
    KeysDistinctByLength(DeserializerDefaults());
    UpsertAllFresh(DeserializerDefaults());
  }

  /** The four serializer registrations use different content types. */
  lemma SerializerDefaultsTable()
    ensures UpsertAll([], SerializerDefaults()) == SerializerDefaults()
    ensures |Keys(UpsertAll([], SerializerDefaults()))| == 4
    ensures KeysDistinct(UpsertAll([], SerializerDefaults()))
  {
    KeysDistinctByLength(SerializerDefaults());
    UpsertAllFresh(SerializerDefaults());
  }

  /** Upserting entries with distinct keys into an empty table gives the entries themselves. */
  lemma {:induction false} UpsertAllFresh<V>(kvs: seq<(string, V)>)
    requires KeysDistinct(kvs)
    ensures UpsertAll([], kvs) == kvs
    decreases |kvs|
  {
    if |kvs| > 0 {
      var init := kvs[..|kvs| - 1];
      var last := kvs[|kvs| - 1];
      UpsertAllFresh(init);
      assert !HasKey(init, last.0) by {
        forall n | 0 <= n < |init| ensures init[n].0 != last.0 {
          assert init[n] == kvs[n];
        }
      }
      assert kvs == init + [last];
    }
  }

  /**
   * After initialisation, the deserializer of a content type is decided by
   * its media type alone: JSON for the three JSON types, XML for the two XML
   * types, and null for everything else (the form type included).
   */
  lemma DefaultDeserializerFor(contentType: string)
    ensures FindDeserializer(DeserializerDefaults(), contentType) ==
      var key := MediaTypeKey(contentType);
      if key == ApplicationJson.ToString() || key == ApplicationXJson.ToString() || key == TextJson.ToString() then Some(JsonDeserializer)
      else if key == ApplicationXml.ToString() || key == TextXml.ToString() then Some(XmlDeserializer)
      else None
  {
    DefaultDeserializerKey(MediaTypeKey(contentType));
  }

  /** The deserializer table after initialisation, looked up by media type. */
  lemma DefaultDeserializerKey(key: string)
    ensures Lookup(DeserializerDefaults(), key) ==
      if key == ApplicationJson.ToString() || key == ApplicationXJson.ToString() || key == TextJson.ToString() then Some(JsonDeserializer)
      else if key == ApplicationXml.ToString() || key == TextXml.ToString() then Some(XmlDeserializer)
      else None
  {
    var dd := DeserializerDefaults();
    KeysDistinctByLength(dd);
    if key == dd[0].0 {
      LookupAt(dd, 0);
    } else if key == dd[1].0 {
      LookupAt(dd, 1);
    } else if key == dd[2].0 {
      LookupAt(dd, 2);
    } else if key == dd[3].0 {
      LookupAt(dd, 3);
    } else if key == dd[4].0 {
      LookupAt(dd, 4);
    } else {
      assert !HasKey(dd, key);
    }
  }

  /**
   * After initialisation, the serializer of a content type is JSON for the
   * three JSON types, the form serializer for the form type, and null for
   * everything else (the XML types included); the match is exact.
   */
  lemma DefaultSerializerFor(contentType: string)
    ensures FindSerializer(SerializerDefaults(), contentType) ==
      if contentType == ApplicationJson.ToString() || contentType == ApplicationXJson.ToString() || contentType == TextJson.ToString() then Some(JsonSerializer)
      else if contentType == ApplicationXWwwFormUrlEncoded.ToString() then Some(FormSerializer)
      else None
  {
    var sd := SerializerDefaults();
    KeysDistinctByLength(sd);
    if contentType == sd[0].0 {
      LookupAt(sd, 0);
    } else if contentType == sd[1].0 {
      LookupAt(sd, 1);
    } else if contentType == sd[2].0 {
      LookupAt(sd, 2);
    } else if contentType == sd[3].0 {
      LookupAt(sd, 3);
    } else {
      assert !HasKey(sd, contentType);
    }
  }
}
