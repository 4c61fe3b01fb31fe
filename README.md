# Resty.Net core, modelled in Dafny

Resty.Net is a small REST client for .NET. It is a thin layer over `HttpWebRequest`. This project models the parts of it that decide what goes over the wire and what a caller gets back. The transport itself is not modelled. The modelled parts are:

- `RestUri`, the URI composer. It holds insertion-ordered tables of template parameters and query entries, with upsert setters. `ToUri` substitutes `{name}` placeholders by repeated ordinal `String.Replace`, resolves the result against the base URI, and appends `k=v&k=v` to any existing query.
- `RestInvoker`. Its `CreateRestUri` routing sends a property to the template table when `{name}` occurs in the resource, and to the query otherwise. The model also covers the constructor defaults, the header table and the default content type of the overloads.
- The serializer and deserializer registries, and the default registrations that `RestConfiguration` makes. Serializer lookup is exact. Deserializer lookup uses the media type before `;` (section 3.1.1.1 of RFC 7231).
- The request bodies: object, plain text and raw bytes. Each has its `ToString(contentType)` and `ToByteArray(contentType)`. The form serializer percent-encodes values as `Uri.EscapeDataString` does (sections 2.1 and 2.3 of RFC 3986). Its output is UTF-8 encoded (RFC 3629).
- The validated wrappers `ContentType`, `HttpMethod` and `MultiPartFormData`. The last one carries the `boundary` parameter of section 4.1 of RFC 7578.
- The response side:
  - `RestResponse`, with 2xx as success per section 6.3 of RFC 7231;
  - `RestException`;
  - `RestResponseBody`, whose read-once caches for bytes, text and stream form a small state machine.

Files and modules:

- `Wrappers`: `Option`, `Result` and `Outcome`.
- `Runtime`: bytes, `object` arguments (a null reference or the text of its `ToString()`), and exception kinds.
- `Text`: the CLR string operations used:
  - `IsNullOrWhiteSpace`;
  - ordinal `IndexOf`/`Contains`;
  - `String.Replace`;
  - `String.Join`;
  - splitting;
  - ASCII case mapping.
- `OrderedMaps`: `Dictionary<K,V>` as a sequence of entries in insertion order. Its upsert is the `ContainsKey`/indexer/`Add` idiom every table in the library uses.
- `Encodings`: UTF-8, ASCII decoding and `EscapeDataString`, each with its decoder and round trip.
- `Objects`: a parameter object as the list of its readable properties, and `ToDictionary`.
- `RestUris`, `Invoker`, `Registries`, `Configuration`, `RequestBodies`, `ContentTypes`, `HttpMethods`, `Responses`: one module per part above.

The state the source updates in place is modelled in classes:

- `RestUri` and its two tables;
- `RestInvoker` and its headers;
- the registries;
- `MultiPartFormData.Boundary`;
- `RestResponseBody` and its caches;
- `RestResponse`.

Each method is specified by a function of the old state. The properties of that function are proved as lemmas.

Where the code and the library's own unit tests for `RestUri` disagree, the model follows the code:

- template values are not escaped;
- there is no valueless query marker;
- a literal query in the resource is not overridden by `SetQuery`;
- path merging is left to `Uri.TryCreate`.

## Model

| member | source | states |
|---|---|---|
| OrderedMaps.Lookup | src/Serialization/RestSerializerRegistry.cs:55-61 | a lookup finds a value exactly when the key is present, and the value found is one stored under that key |
| OrderedMaps.LookupLast | src/RestUri.cs:162-166 | with distinct keys, the last entry answers for its own key and the entries before it answer for every other key |
| OrderedMaps.Upsert | src/RestUri.cs:85-96 | the `ContainsKey`/indexer/`Add` idiom; `UpsertFound`, `UpsertOther`, `UpsertKeys`, `UpsertSize` and `UpsertDistinct` state what it does |
| OrderedMaps.UpsertAll | src/RestUri.cs:105-114 | a run of upserts applied first to last; `UpsertAllLookup` and `UpsertAllDistinct` state what it does |
| OrderedMaps.UpsertFound | src/RestUri.cs:85-96 | after an upsert of `k`, looking up `k` gives the new value, whether `k` was new or present (last write wins) |
| OrderedMaps.UpsertOther | src/RestUri.cs:85-96 | an upsert of `k` leaves the lookup of every other key unchanged |
| OrderedMaps.UpsertKeys | src/RestUri.cs:87-94 | an upsert of a present key keeps the key order; an upsert of a new key appends it at the end |
| OrderedMaps.UpsertSize | src/RestUri.cs:87-94 | the table grows by one entry exactly when the key is new |
| OrderedMaps.UpsertDistinct | src/Serialization/RestSerializerRegistry.cs:38-48 | an upsert keeps the keys of a dictionary distinct |
| OrderedMaps.UpsertAllLookup | src/RestUri.cs:105-114 | after a sequence of upserts, a key none of them names keeps its old value, and a key gets the value of its last upsert |
| OrderedMaps.UpsertAllDistinct | src/RestUri.cs:105-114 | a sequence of upserts keeps the keys distinct |
| Objects.ToDictionary | src/Extensions/ObjectToDictionary.cs:11-26 | a null object fails with a null reference; a repeated property name makes `Dictionary.Add` fail; otherwise the properties are returned in order |
| Objects.LeadingTexts | src/RestUri.cs:89-93 | the length of the non-null prefix of the properties; the property after it is null |
| Objects.Texts | src/RestUri.cs:89-93 | the `ToString()` of each non-null property, pointwise and in order |
| Text.Placeholder | src/RestUri.cs:165 | `{name}` is the name between one `{` and one `}` |
| Text.ReplaceAll | src/RestUri.cs:165 | ordinal `String.Replace`: leftmost, non-overlapping occurrences; `ReplaceAbsent`, `RestUris.ReplaceTemplate` and the lemmas below state what it does |
| Text.ReplaceAbsent | src/RestUri.cs:165 | `String.Replace` on a string that does not contain the pattern returns it unchanged |
| Text.ReplaceSelf | src/RestUri.cs:165 | replacing a pattern by itself changes nothing |
| Text.ReplaceOccurrence | src/RestUri.cs:165 | a `{name}` occurrence is replaced by the value, and the text around it is kept |
| Text.ReplaceKeepsOther | src/RestUri.cs:165 | replacing `{name}` leaves a `{other}` placeholder of another name intact |
| Text.ReplaceKeepsPrefix | src/RestUri.cs:165 | text at no position of which the pattern starts, even running into what follows, is kept and the replacement goes on after it |
| Text.ReplaceKeepsLiteral | src/RestUri.cs:165 | text without `{` in front of the rest is kept by replacing a placeholder |
| Text.ReplaceKeepsTail | src/RestUri.cs:165 | a placeholder of another name, or any suffix of it, is kept by replacing `{name}` |
| Text.SplitJoin | src/RestUri.cs:188-196 | splitting a join of parts that do not contain the separator returns the parts |
| Text.IndexOf | src/Serialization/RestDeSerializerRegistry.cs:57-60 | the first position of the character, or -1 exactly when it does not occur |
| RestUris.RestUri.constructor | src/RestUri.cs:49-52 | a new URI keeps its base and resource, and both tables start empty |
| RestUris.RestUri.FromBase | src/RestUri.cs:39-42 | the base-only constructor uses an empty resource, and both tables start empty |
| RestUris.RestUri.SetQuery | src/RestUri.cs:85-96 | a null value fails before any change; otherwise the query table is the upsert of the entry, and the template table is unchanged |
| RestUris.RestUri.SetQueryObject | src/RestUri.cs:105-114 | a failed `ToDictionary` changes nothing; otherwise the query table is the fold of single upserts over the properties up to the first null one, which then fails; the template table is unchanged |
| RestUris.RestUri.SetParameter | src/RestUri.cs:123-135 | a null value fails before any change; otherwise the template table is the upsert of the entry, and the query table is unchanged |
| RestUris.RestUri.SetParameterObject | src/RestUri.cs:143-152 | a failed `ToDictionary` changes nothing; otherwise the template table is the fold of single upserts up to the first null property, which then fails; the query table is unchanged |
| RestUris.RestUri.BuildQueryString | src/RestUri.cs:188-196 | the built query is the entries as unescaped `key=value`, in table order, joined by `&` |
| RestUris.RestUri.ToUri | src/RestUri.cs:159-182 | the URI is the substituted resource resolved against the base, with the query appended; a failed resolution fails; no state changes, so two renders are equal |
| RestUris.RestUri.ToString | src/RestUri.cs:198-201 | the formatted `ToUri` result, or its failure |
| RestUris.QueryStringBlank | src/RestUri.cs:188-196 | the built query is empty, and blank, exactly when there are no entries |
| RestUris.QueryRoundTrip | src/RestUri.cs:188-196 | parsing the built query at `&` and `=` gives back the entries, in order, when keys contain no `=` and nothing contains `&` |
| RestUris.QueryAppendedAfterExisting | src/RestUri.cs:171-179 | with an existing query, the entries follow the existing query's own pairs after one `&` |
| RestUris.NoEntriesKeepQuery | src/RestUri.cs:171-179 | with no entries, the resolved URI's query is left as it is |
| RestUris.SubstituteAll | src/RestUri.cs:162-166 | one `Replace("{k}", v)` per parameter, in table order; `SubstituteTemplate` states its result |
| RestUris.QueryString | src/RestUri.cs:188-196 | the built query is empty exactly when there are no entries |
| RestUris.AppendQuery | src/RestUri.cs:171-179 | the URI's own query is always kept as a prefix, and it is the whole result exactly when the built entries are blank |
| RestUris.ResolveUri | src/RestUri.cs:159-182 | what `ToUri` yields: the substituted resource resolved against the base, a null resolution rejected by `UriBuilder`, and the query appended; `ToUri` is proved to compute it |
| RestUris.SubstitutePassThrough | src/RestUri.cs:162-166 | a resource without `{` passes through substitution unchanged |
| RestUris.ReplaceTemplate | src/RestUri.cs:165 | one `Replace("{k}", v)` over a rendered template replaces exactly the `{k}` placeholders, and keeps the literal text and every other placeholder |
| RestUris.BindWellFormed | src/RestUri.cs:162-166 | binding with values that contain no `{` keeps a template well formed |
| RestUris.BindSnoc | src/RestUri.cs:162-166 | binding with one more parameter is binding its placeholder in the result of the parameters before it |
| RestUris.SubstituteTemplate | src/RestUri.cs:162-166 | for any template whose literal text has no `{`, with brace-free names and values without `{`: each placeholder a parameter names becomes that parameter's value and every other one stays `{name}`, whatever the number, order or repetition of the placeholders |
| RestUris.SubstituteUnknown | src/RestUri.cs:162-166 | amid any template, a `{name}` with no matching parameter passes through unchanged, and the templates around it are bound |
| RestUris.SubstituteKnown | src/RestUri.cs:162-166 | amid any template, a `{name}` with a parameter is replaced by that parameter's value, and the templates around it are bound |
| RestUris.ReopenedPlaceholder | src/RestUri.cs:162-166 | a substituted value is scanned again by the later replacements: `{p}id}` with `p = {` and then `id = 1` gives `1`, because the first value completes a placeholder for the second |
| RestUris.TemplateExample | src/RestUri.cs:162-166 | `account/{id}` with `id = 1` gives `account/1` |
| RestUris.TemplateRepeated | src/RestUri.cs:162-166 | `{a}/{b}/{a}/{c}` with `a = 1` and `b = 2` gives `1/2/1/{c}`: a repeated placeholder is replaced everywhere, an unknown one is kept |
| RestUris.AppendQueryExample | src/RestUri.cs:171-179 | the existing query `123456` and the entry `id=1` give `123456&id=1` |
| Invoker.Routed | src/Extras/RestInvoker.cs:653-663 | the properties of one route, in their original order; `RoutedPartition` and `RoutedMember` state what it selects |
| Invoker.RoutedPartition | src/Extras/RestInvoker.cs:653-663 | every property lands in exactly one of the two tables: the two routes are a partition of the properties as a multiset |
| Invoker.RoutedMember | src/Extras/RestInvoker.cs:655-662 | a property goes to the template table if and only if `{name}` occurs in the resource string, and to the query otherwise |
| Invoker.RoutedKeys | src/Extras/RestInvoker.cs:653-663 | a routed key is a key of the parameter object |
| Invoker.RoutedDistinct | src/Extras/RestInvoker.cs:653-663 | the routed tables have distinct keys when the object does |
| Invoker.RoutedNoBraces | src/Extras/RestInvoker.cs:655 | a resource without `{` sends every property to the query |
| Invoker.RoutedNamed | src/Extras/RestInvoker.cs:655-657 | a resource containing `{name}` sends `name` to the template table and not to the query |
| Invoker.CreateRestUri | src/Extras/RestInvoker.cs:647-666 | a new URI over the given base and resource; its tables are the two routes of the properties, decided on the resource string alone; a null object, a repeated name or a null value fails as the setters do |
| Invoker.RouteNoParameters | src/Extras/RestInvoker.cs:218-221 | an empty parameter object leaves both tables empty, as `new RestUri(base, resource)` does |
| Invoker.RouteExample | src/Extras/RestInvoker.cs:213-216 | `Person` with `mode` routes `mode` to the query; `Person/{id}` with `id` routes `id` to the template |
| Invoker.OverloadContentType | src/Extras/RestInvoker.cs:203-206 | an overload without a content type passes `application/x-www-form-urlencoded` |
| Invoker.DefaultOverloadIsForm | src/Extras/RestInvoker.cs:213-216 | an object body sent through such an overload is form encoded by the default serializers |
| Invoker.RestInvoker.constructor | src/Extras/RestInvoker.cs:105-117 | the defaults: redirects allowed, at most 50, mutual authentication requested, deflate and gzip, no cache and no store, a 6 minute time-out, a 2 hour keep-alive time-out, the `Resty.Net-RestRequest` user agent, no headers |
| Invoker.RestInvoker.WithBaseUrl | src/Extras/RestInvoker.cs:119-123 | the same defaults, with the base URL set |
| Invoker.RestInvoker.Add | src/Extras/RestInvoker.cs:135-143 | a key already present fails with an argument error and changes nothing; a new key is appended |
| Invoker.RestInvoker.AddHeader | src/Extras/RestInvoker.cs:135-138 | a null name fails with an argument-null error; a repeated name fails with an argument error and changes nothing; a new name is appended |
| Invoker.RestInvoker.AddStandardHeader | src/Extras/RestInvoker.cs:140-143 | a repeated standard header fails with an argument error and changes nothing; a new one is appended |
| Invoker.HeaderKindsDistinct | src/Extras/RestInvoker.cs:135-143 | a named header and a standard header never collide as keys |
| Invoker.AddHeaderTwice | src/Extras/RestInvoker.cs:135-138 | adding the same header name twice passes, then fails, and keeps the first value |
| Registries.FindSerializer | src/Serialization/RestSerializerRegistry.cs:55-61 | the serializer under exactly that content type, or null when none is registered |
| Registries.MediaTypeKey | src/Serialization/RestDeSerializerRegistry.cs:57-60 | the prefix before the first `;`, or the whole content type when it has none |
| Registries.FindDeserializer | src/Serialization/RestDeSerializerRegistry.cs:55-66 | the deserializer under the media type, or null |
| Registries.SerializerRegistry.constructor | src/Serialization/RestSerializerRegistry.cs:31 | a new registry is empty |
| Registries.SerializerRegistry.Register | src/Serialization/RestSerializerRegistry.cs:38-48 | the table is the upsert of the entry, with distinct keys; no registered key is ever lost |
| Registries.SerializerRegistry.GetSerializer | src/Serialization/RestSerializerRegistry.cs:55-61 | exact lookup: null exactly when the content type is not registered |
| Registries.DeSerializerRegistry.constructor | src/Serialization/RestDeSerializerRegistry.cs:31 | a new registry is empty |
| Registries.DeSerializerRegistry.Register | src/Serialization/RestDeSerializerRegistry.cs:38-48 | the table is the upsert of the entry, with distinct keys; no registered key is ever lost |
| Registries.DeSerializerRegistry.GetDeSerializer | src/Serialization/RestDeSerializerRegistry.cs:55-66 | lookup by media type: null exactly when the media type is not registered |
| Registries.SerializerRegisterFound | src/Serialization/RestSerializerRegistry.cs:38-58 | after `Register(k, s)`, the lookup of `k` gives `s`, whether `k` was new or present |
| Registries.SerializerRegisterOther | src/Serialization/RestSerializerRegistry.cs:38-48 | `Register(k, s)` leaves the lookup of every other key unchanged |
| Registries.SerializerExactMatch | src/Serialization/RestSerializerRegistry.cs:57 | `application/json; charset=utf-8` does not find an `application/json` entry |
| Registries.MediaTypeKeyOfParameters | src/Serialization/RestDeSerializerRegistry.cs:57-60 | the key of `a;b` is `a`, when `a` has no `;` |
| Registries.DeserializerIgnoresParameters | src/Serialization/RestDeSerializerRegistry.cs:57-62 | `GetDeSerializer("a;b")` equals `GetDeSerializer("a")` |
| Registries.DeserializerSemicolonKeyInvisible | src/Serialization/RestDeSerializerRegistry.cs:57-62 | registering a key that contains `;` changes no lookup, so it can never be returned |
| Registries.DeserializerRegister | src/Serialization/RestDeSerializerRegistry.cs:38-48 | the last registration for a media type wins for every content type naming it; other lookups are unchanged |
| Registries.DeserializerExactPrefix | src/Serialization/RestDeSerializerRegistry.cs:59-62 | a content type whose first character differs from the only registered key misses |
| Registries.DeserializerNoTrimNoFold | src/Serialization/RestDeSerializerRegistry.cs:59-62 | ` application/json` and `Application/json` miss an `application/json` entry: no trimming, no case folding |
| Configuration.RestConfiguration.constructor | src/Configuration/RestConfiguration.cs:32-50 | the static constructor fills fresh registries with the default registrations, in source order |
| Configuration.DeserializerDefaults | src/Configuration/RestConfiguration.cs:36-41 | the five deserializer registrations in call order; `DeserializerDefaultsTable` and `DefaultDeserializerFor` state the table they give |
| Configuration.SerializerDefaults | src/Configuration/RestConfiguration.cs:45-49 | the four serializer registrations in call order; `SerializerDefaultsTable` and `DefaultSerializerFor` state the table they give |
| Configuration.RegisterDefaultDeserializers | src/Configuration/RestConfiguration.cs:34-41 | the five deserializer registrations each add a new key |
| Configuration.RegisterDefaultSerializers | src/Configuration/RestConfiguration.cs:43-49 | the four serializer registrations each add a new key |
| Configuration.DeserializerDefaultsTable | src/Configuration/RestConfiguration.cs:36-41 | after initialisation the deserializer table has exactly 5 distinct keys |
| Configuration.SerializerDefaultsTable | src/Configuration/RestConfiguration.cs:45-49 | after initialisation the serializer table has exactly 4 distinct keys |
| Configuration.DefaultDeserializerFor | src/Configuration/RestConfiguration.cs:36-41 | JSON for the three JSON media types, XML for the two XML ones, and null otherwise, the form type included |
| Configuration.DefaultSerializerFor | src/Configuration/RestConfiguration.cs:45-49 | JSON for the three JSON types, the form serializer for the form type, and null otherwise, the XML types included |
| Encodings.Utf8 | src/RestRequestBody.cs:53-57 | one to four bytes per character (RFC 3629); one byte, the code itself, exactly for ASCII; otherwise a lead byte of at least 0xC0 and continuation bytes in 0x80..0xBF |
| Encodings.EscapeDataString | src/Serialization/RestRequestBodyToFormSerializer.cs:43 | `Uri.EscapeDataString` character by character; `EscapedChars`, `EscapeRoundTrip`, `EscapeIdentity` and `EscapeLength` state what it does |
| Encodings.Utf8RoundTrip | src/RestRequestBody.cs:53-57 | decoding the UTF-8 bytes of a string gives the string back |
| Encodings.AsciiDecode | src/RestRawRequestBody.cs:36-40 | one ASCII character per byte; a byte keeps its code exactly when it is below 0x80, and any other byte becomes `?` |
| Encodings.AsciiRoundTrip | src/RestRawRequestBody.cs:36-40 | re-encoding the ASCII decode gives the bytes back if and only if every byte is below 0x80 |
| Encodings.EscapedChars | src/Serialization/RestRequestBodyToFormSerializer.cs:43 | an escaped value holds only unreserved characters and `%`, and never `&` or `=` |
| Encodings.EscapeRoundTrip | src/Serialization/RestRequestBodyToFormSerializer.cs:43 | percent-decoding an escaped value gives the UTF-8 bytes of the value |
| Encodings.EscapeIdentity | src/Serialization/RestRequestBodyToFormSerializer.cs:43 | escaping leaves a value unchanged if and only if every character is unreserved |
| Encodings.EscapeLength | src/Serialization/RestRequestBodyToFormSerializer.cs:43 | escaping never shortens, and strictly lengthens a value with a reserved character |
| Encodings.EscapeAppend | src/Serialization/RestRequestBodyToFormSerializer.cs:43 | escaping works character by character: the escape of `a + b` is the escapes appended |
| Encodings.EscapeBetween | src/Serialization/RestRequestBodyToFormSerializer.cs:43 | one reserved ASCII character between unreserved text becomes `%XX`, and the rest is kept |
| Encodings.EscapeSpaceExample | src/Serialization/RestRequestBodyToFormSerializer.cs:43 | a space escapes to `%20` |
| Encodings.EscapeEmailExample | src/Serialization/RestRequestBodyToFormSerializer.cs:43 | `abc@abc.com` escapes to `abc%40abc.com` |
| RequestBodies.FormPair | src/Serialization/RestRequestBodyToFormSerializer.cs:42-43 | the verbatim key, `=`, then the escaped value |
| RequestBodies.FormPairs | src/Serialization/RestRequestBodyToFormSerializer.cs:40-44 | one pair per property, in property order: the i-th pair is the i-th property's `name=escaped value` |
| RequestBodies.FormEncode | src/Serialization/RestRequestBodyToFormSerializer.cs:46 | the output is empty exactly when there are no properties |
| RequestBodies.FormSerialize | src/Serialization/RestRequestBodyToFormSerializer.cs:35-47 | a null content fails with a null reference, a repeated property name fails, and otherwise the result is the form encoding of the properties |
| RequestBodies.Serialize | src/Serialization/RestRequestBodyToFormSerializer.cs:35-47 | a null content fails with a null reference; otherwise the pairs joined by `&` |
| RequestBodies.FormEncodeEmpty | src/Serialization/RestRequestBodyToFormSerializer.cs:38-46 | no properties give the empty string |
| RequestBodies.FormPairsNoAmpersand | src/Serialization/RestRequestBodyToFormSerializer.cs:43 | no pair contains `&` when no key does |
| RequestBodies.FormPairCount | src/Serialization/RestRequestBodyToFormSerializer.cs:40-46 | splitting the output at `&` gives exactly the pairs, one per property |
| RequestBodies.FormPairRoundTrip | src/Serialization/RestRequestBodyToFormSerializer.cs:42-43 | a pair decodes to its key and the UTF-8 bytes of its value |
| RequestBodies.FormRoundTrip | src/Serialization/RestRequestBodyToFormSerializer.cs:35-47 | decoding the output gives each property's key and value, in order |
| RequestBodies.FormNullValueExample | src/Serialization/RestRequestBodyToFormSerializer.cs:42 | a null `Email` renders as `Email=`; the key is kept |
| RequestBodies.FormSingle | src/Serialization/RestRequestBodyToFormSerializer.cs:46 | one property gives its pair with no `&` |
| RequestBodies.BodyToString | src/RestRequestBody.cs:42-46 | an object body uses the serializer registered under exactly the content type, and fails when there is none (the null is dereferenced); plain text returns its content; a raw body is its ASCII decode, one character per byte |
| RequestBodies.BodyToByteArray | src/RestRequestBody.cs:53-57 | a raw body returns its bytes verbatim; every other body returns the UTF-8 bytes of `ToString`, or its failure |
| RequestBodies.PlainTextIndependent | src/RestPlainTextRequestBody.cs:43-48 | plain text gives the same string and bytes for every content type and registry, even an empty one |
| RequestBodies.PlainTextBytesRoundTrip | src/RestPlainTextRequestBody.cs:32-35 | the bytes of a plain text body decode back to the stored string |
| RequestBodies.RawIndependent | src/RestRawRequestBody.cs:36-47 | a raw body depends on neither the content type nor the registry |
| RequestBodies.RawStringRoundTrip | src/RestRawRequestBody.cs:36-40 | a raw body's string encodes back to its bytes if and only if every byte is ASCII |
| RequestBodies.ObjectAsForm | src/RestRequestBody.cs:44-45 | an object body under the form content type is the form encoding of its properties |
| ContentTypes.Create | src/ContentType.cs:59-78 | a null argument fails with an argument-null error; an empty or white-space argument fails with an argument error; anything else is kept exactly |
| ContentTypes.CreateToString | src/ContentType.cs:84-87 | `Create(ct.ToString())` gives back the same content type |
| ContentTypes.NamedContentTypesValid | src/ContentType.cs:32-57 | the six named constants pass the constructor's checks |
| ContentTypes.MultiPartHeader | src/MultiPartFormData.cs:64-67 | `multipart/form-data; boundary=` followed by the boundary, which is empty when unset; it always starts with `multipart/form-data` |
| ContentTypes.MultiPartHeaderInjective | src/MultiPartFormData.cs:64-67 | two rendered headers are equal if and only if their boundaries are |
| ContentTypes.MultiPartFormData.Create | src/MultiPartFormData.cs:32-35 | `Create()` starts with no boundary |
| ContentTypes.MultiPartFormData.CreateWith | src/MultiPartFormData.cs:37-41 | `Create(b)` starts with boundary `b` |
| ContentTypes.MultiPartFormData.WithBoundary | src/MultiPartFormData.cs:48-52 | sets the boundary and returns the same instance |
| ContentTypes.MultiPartFormData.ToString | src/MultiPartFormData.cs:64-67 | the header for the current boundary |
| ContentTypes.WithBoundaryTwice | src/MultiPartFormData.cs:48-52 | of two `WithBoundary` calls, the last wins |
| HttpMethods.Create | src/HttpMethod.cs:56-75 | a null argument fails with an argument-null error; an empty or white-space argument fails with an argument error; anything else is kept exactly |
| HttpMethods.CreateToString | src/HttpMethod.cs:81-84 | `Create(m.ToString())` gives back the same method |
| HttpMethods.NamedMethodsValid | src/HttpMethod.cs:30-54 | the 13 named constants are upper-case tokens that pass the constructor's checks |
| Responses.Copied | src/RestResponseBody.cs:155-169 | a copy closes the response stream, records a fault in `Error`, and leaves the caches alone |
| Responses.CopyTaskAsWritten | src/RestResponseBody.cs:170 | as written, `CopyToAsync` returns a task that always runs to completion |
| Responses.CopyTask | src/RestResponseBody.cs:155-170 | the corrected copy task faults or is cancelled exactly when the copy does |
| Responses.ReadBytes | src/RestResponseBody.cs:117-143 | the byte read given the copy task's status: it leaves the string and stream caches alone, a returned array is the cached one, and a first read closes the stream and returns bytes exactly when the copy task completed |
| Responses.ReadStream | src/RestResponseBody.cs:84-110 | the stream read given the copy task's status: it leaves the byte and string caches alone, a returned stream is the cached one, and a first read closes the stream and returns the copied bytes at position 0 exactly when the copy task completed |
| Responses.ReadString | src/RestResponseBody.cs:52-77 | the string read as intended: the returned string is cached, the stream cache is left alone, and after a byte read the string is the decode of the cached bytes |
| Responses.ReadStringAsWritten | src/RestResponseBody.cs:52-77 | the string read as written, given the copy task's status: a returned string is cached; a failure is `ArgumentNullException` and leaves the string cache empty; a first read succeeds exactly when the copy task completed |
| Responses.GetEncoding | src/RestResponseBody.cs:177-190 | the encoding of the lower-cased character set when it is known; UTF-8 when the set is null or unknown |
| Responses.GetEncodingFallback | src/RestResponseBody.cs:179-189 | UTF-8 is chosen if and only if the character set is null or unknown |
| Responses.ReadBytesCached | src/RestResponseBody.cs:139-142 | a filled byte cache is returned without a copy, and nothing changes |
| Responses.ReadBytesFirst | src/RestResponseBody.cs:119-137 | a first byte read closes the stream and caches and returns the bytes only on completion; a fault is recorded and a cancellation is not; on either the cache stays empty |
| Responses.ReadBytesIdempotent | src/RestResponseBody.cs:117-143 | after a byte read that returned bytes, another read returns the same and changes nothing |
| Responses.ReadBytesRetry | src/RestResponseBody.cs:119-137 | after a failed byte read the cache is still empty, so the next read copies again, and returns that copy's bytes when it completes |
| Responses.ReadStringCached | src/RestResponseBody.cs:73-76 | a filled string cache is returned without reading, and nothing changes |
| Responses.ReadStringFirst | src/RestResponseBody.cs:56-71 | a first string read caches the decoded bytes; on a fault it records `Error` and caches ""; on a cancellation it caches "" and leaves `Error` alone |
| Responses.ReadStringAfterBytes | src/RestResponseBody.cs:56-70 | after a byte read, the string is decoded from the cached bytes without another copy |
| Responses.CachesIndependent | src/RestResponseBody.cs:86-110 | a byte read leaves the stream cache alone, and a stream read leaves the byte and string caches alone |
| Responses.ReadStreamOutcome | src/RestResponseBody.cs:84-110 | a cached stream is returned as is; otherwise the copied stream at position 0 is cached on completion, and null is returned otherwise, with a fault recorded in `Error` |
| Responses.CopyFaultHidden | src/RestResponseBody.cs:122-137 | as written, a faulted copy still hands its partial bytes to the byte read, which caches them as a success; only `Error` shows the fault |
| Responses.StreamFaultHidden | src/RestResponseBody.cs:89-104 | as written, a faulted copy still hands its partial bytes to the stream read, which caches them as a success; only `Error` shows the fault |
| Responses.PartialBytesDecoded | src/RestResponseBody.cs:56-70 | as written, the string read decodes and caches whatever bytes the copy wrote, even when it faulted |
| Responses.NullBytesReachGetString | src/RestResponseBody.cs:56-68 | as written, even over the corrected copy task, a failed copy gives the string read a null byte array: `GetString` throws `ArgumentNullException` and the string cache stays empty, where the corrected read caches "" |
| Responses.RestResponseBody.constructor | src/RestResponseBody.cs:41-45 | a new body has nothing cached, no error and an open stream, and keeps its character set |
| Responses.RestResponseBody.CopyToAsync | src/RestResponseBody.cs:150-171 | the stream is closed, a fault is recorded, and the destination holds the written bytes at position 0 |
| Responses.RestResponseBody.ReadAsByteArrayAsync | src/RestResponseBody.cs:117-143 | the new state and the result are those of the byte read over the corrected copy task |
| Responses.RestResponseBody.ReadAsStreamAsync | src/RestResponseBody.cs:84-110 | the new state and the result are those of the stream read over the corrected copy task |
| Responses.RestResponseBody.Encoding | src/RestResponseBody.cs:177-190 | UTF-8 when the body has no character set; a named encoding only for a known, lower-cased character set |
| Responses.RestResponseBody.ReadAsStringAsync | src/RestResponseBody.cs:52-77 | the new state and the result are those of the corrected string read in the body's encoding |
| Responses.RestResponseBody.Dispose | src/RestResponseBody.cs:192-198 | the response stream is closed and nothing else changes |
| Responses.RestExceptionAsWritten | src/RestException.cs:41-46 | the message is the status description; the inner exception and the body are kept; the status code is always 0 |
| Responses.StatusCodeLost | src/RestException.cs:44 | a 404 response yields an exception whose status code is not 404 |
| Responses.NewRestException | src/RestException.cs:41-46 | the corrected constructor: the message, inner exception, body and status code are all as given |
| Responses.NewRestException3 | src/RestException.cs:48-51 | the three-argument form is the four-argument one with no inner exception |
| Responses.NewRestExceptionInjective | src/RestException.cs:41-46 | two exceptions are equal if and only if all their arguments are |
| Responses.IsSuccess | src/RestResponse.cs:78-85 | a status in 200..299; `SuccessIsClass2` states it is exactly class 2 |
| Responses.StatusClass | src/RestResponse.cs:78-85 | the hundreds digit of a status code in 100..599 |
| Responses.SuccessIsClass2 | src/RestResponse.cs:78-85 | a status is a success if and only if it is in class 2xx |
| Responses.CookieValue | src/RestResponse.cs:171-181 | null if and only if no cookie name matches ignoring case; otherwise the value of the first matching cookie |
| Responses.RestResponse.IsSuccessStatusCode | src/RestResponse.cs:78-85 | the copied status is in 200..299 |
| Responses.RestResponse.constructor | src/RestResponse.cs:133-164 | without a response: status 0, no body and the given error; with one: its fields, a body over its stream, and for a non-2xx status an error built by the corrected exception constructor, so carrying the status (the code as written gives 0), its description and the body |
| Responses.RestResponse.EnsureSuccessStatusCode | src/RestResponse.cs:203-211 | `this` on success; otherwise an exception built by the corrected constructor, with the status code (0 as written) and the body |
| Responses.RestResponse.GetHeaderValue | src/RestResponse.cs:188-196 | null exactly for an absent key; a missing collection fails with a null reference |
| Responses.RestResponse.GetCookieValue | src/RestResponse.cs:171-181 | null exactly when no cookie name matches ignoring case; a missing collection fails with a null reference |
| Responses.RestResponse.Dispose | src/RestResponse.cs:216-222 | a non-null body is disposed, and nothing else changes |
| Responses.NoWebResponse | src/RestResponse.cs:133-139 | without a web response: not a success, no body, and exactly the supplied error |
| Responses.ResponseErrorCarriesStatus | src/RestResponse.cs:159-162 | the corrected error of a non-2xx response carries its status; it differs from the as-written one for every nonzero code |

## Left out

- Transport: creating and sending the HTTP request, its headers, cookies, certificates, time-outs, `Abort`, and the synchronous and asynchronous `GetResponse`. This is I/O and concurrency. `RestRequest`, `RestRequestBuilder`, `InvokeAsync` and `CreateRestRequest` are not part of this model.
- `RestInvoker`'s verb overloads (`GetAsync`, `PostAsync` and the rest, generic and not) only forward. They are modelled by what they forward: `CreateRestUri`, the default content type, or `new RestUri(base, resource)` for `DeleteAsync(string)`.
- `RestInvoker.AddCookie` adds to a `CookieCollection` that is only read by the transport, so it is left out.
- `ClientCertificates`, `Credentials` and `Referer` of `RestInvoker` keep their null defaults and are only read by the transport, so they are not modelled. The cookie collection is left out with `AddCookie`.
- `new Uri(baseUrl, UriKind.Absolute)` in `RestInvoker(string)` and `new Uri(baseUri)` in the `RestUri(string, …)` constructors validate the base. A malformed base URL fails there. `new Uri(resourceUri, UriKind.Relative)` in `RestUri(string, string)` and `RestUri(Uri, string)` (src/RestUri.cs:50 and 60) validates the resource, and throws for an absolute resource such as `http://other/x`. The model keeps both as text and does not model these `UriFormatException` failures.
- RestUris.SubstituteTemplate: covers templates whose literal text contains no `{`. A resource with a stray `{`, such as `{{id}`, is substituted by the same `SubstituteAll`, but no lemma describes its result.
- Base-and-relative resolution (section 5.2 of RFC 3986), `UriBuilder`'s handling of `?`, and default-port elision belong to `System.Uri`. `ToUri` takes them as a resolver parameter. The model owns only the substitution and the string-level query append.
- `Uri.ToString()` unescaping is a formatting parameter of `ToString`.
- Reflection: `ObjectToDictionary` reads the public readable properties of an object. Here an object is given directly as its ordered list of properties.
- `ToString()` of dates, GUIDs and numbers is culture dependent. A value is modelled as the text its `ToString()` produces.
- `IndexOf(string)` in the routing rule is culture sensitive. It is modelled as ordinal `Contains`. Both agree on ASCII names and resources.
- `String.ToLower` in `GetEncoding` is culture sensitive. It is modelled as ASCII lower-casing. `Encoding.GetEncoding` and `Encoding.GetString` are parameters (`known`, `decode`).
- UTF-16 surrogates: strings are sequences of Unicode scalar values, so unpaired surrogates, which `EscapeDataString` rejects, do not arise.
- Null keys and null texts: a property name or header value is never null here, and neither is the text of a plain or raw body. `SetQuery` and `SetParameter` with a null name would throw `ArgumentNullException`; that path is not modelled. A null `ContentType` passed to `ToString(contentType)` is modelled as a failure.
- The JSON and XML serializers and deserializers are opaque tags. An external serializer is a function parameter.
- The copy of the response stream (`StreamTaskParallelism.CopyToAsync`) is asynchronous I/O. Each read takes its outcome as a `Transfer`: the bytes written and how the copy ended. Reading a closed stream is part of that outcome.
- The position and aliasing of a `MemoryStream` after it is returned are not modelled. A returned stream is a value.
- `RestResponseBody.Dispose` with a null response stream is not modelled. A body always has its stream.
- The synchronous wrappers `ReadAsString`, `ReadAsStream` and `ReadAsByteArray` only wait for the asynchronous read. Waiting is not modelled.
- The typed `Data` decode of `RestResponse<T>` is not part of this model.
- `RestResponse` copies more fields of the response than are modelled: content encoding and length, cache and authentication flags, last-modified, method, protocol version, URI and server. They are copied as read and nothing in the library uses them.
- `MultiPartFormData` inherits from `ContentType` through a private constructor. It is modelled as its own class with its own `ToString`.
- `ContentType.MultiPartFormData` and `MimeTypes`, which tests refer to, are not part of this model.
- Responses.RestResponseBody.ReadAsStringAsync: follows the corrected `Responses.ReadString`, which fixes two things. It reads over the corrected copy task. It also caches "" for a failed byte read, as the branches at src/RestResponseBody.cs:58-66 intend. As written, the copy task always completes, and the string read decodes whatever bytes the copy wrote (`Responses.PartialBytesDecoded`). Even with the copy task corrected, the null byte result reaches `GetString`, which throws `ArgumentNullException` and leaves the cache empty (`Responses.NullBytesReachGetString`). The as-written read is `Responses.ReadStringAsWritten`.
- Responses.RestResponseBody.CopyToAsync: returns the copy's own status as its task (`Responses.CopyTask`, the corrected member). As written, the returned `Task` always runs to completion (`Responses.CopyTaskAsWritten`).
- Responses.RestResponseBody.ReadAsByteArrayAsync: follows `Responses.ReadBytes` over the corrected `Responses.CopyTask`. As written, it is `Responses.ReadBytes` over `Responses.CopyTaskAsWritten`, and a faulted copy's partial bytes are cached (`Responses.CopyFaultHidden`).
- Responses.RestResponseBody.ReadAsStreamAsync: follows `Responses.ReadStream` over the corrected `Responses.CopyTask`. As written, it is `Responses.ReadStream` over `Responses.CopyTaskAsWritten`, and a faulted copy's partial stream is cached (`Responses.StreamFaultHidden`).
- Responses.RestResponse.constructor: builds the error of a non-2xx response with the corrected `Responses.NewRestException3`, which carries the status code. As written, the code is 0 (`Responses.RestExceptionAsWritten`, `Responses.StatusCodeLost`).
- Responses.RestResponse.EnsureSuccessStatusCode: throws the exception of the corrected `Responses.NewRestException3`, with the status code. As written, its `StatusCode` is 0.
- Responses.CookieValue: matches names with ASCII case folding (`EqualsIgnoreCase`). The `CookieCollection` indexer uses `StringComparison.OrdinalIgnoreCase`, which also folds non-ASCII letters. Both agree on ASCII cookie names.

## Findings

| source | as written | input that shows it | evidently intended | confidence | as-written member | corrected member |
|---|---|---|---|---|---|---|
| src/RestException.cs:44 | `StatusCode` is assigned to itself, so the status code argument is dropped and every exception reports 0 | a 404 response: its `Error.StatusCode` is 0, not 404 | store the argument: `StatusCode = statusCode` | not executed | Responses.StatusCodeLost | Responses.ResponseErrorCarriesStatus |
| src/RestResponseBody.cs:56-68 | the byte read's continuation (lines 124-131) turns a faulted or cancelled copy into a completed task with a null result, so the string continuation's fault and cancel branches (lines 58-66) never run, even with the copy task corrected; line 68 passes null to `GetString` | with the copy task corrected, a cancelled copy: `ReadAsStringAsync` faults with `ArgumentNullException` and `_contentString` stays null | a failed byte read makes the string read cache and return "", as lines 58-66 intend | not executed | Responses.NullBytesReachGetString | Responses.ReadStringFirst |
| src/RestResponseBody.cs:89-104 | the stream read depends on the copy task of line 170, which always completes, so its fault and cancel branches (lines 91-98) never run | a copy that faults after writing some bytes: `ReadAsStreamAsync` caches and returns a stream over those partial bytes | a failed copy makes the stream read return null and leave its cache empty | not executed | Responses.StreamFaultHidden | Responses.ReadStreamOutcome |
| src/RestResponseBody.cs:170 | the trailing `ContinueWith(t => destination)` completes whatever the copy did, so the fault and cancel branches of the byte and stream reads (lines 91-98, 124-131) never run | a copy that faults after writing some bytes: `ReadAsByteArrayAsync` caches and returns those partial bytes as a success | the copy task faults or is cancelled when the copy does, so a failed read returns null and leaves the cache empty | not executed | Responses.CopyFaultHidden | Responses.ReadBytesFirst |
