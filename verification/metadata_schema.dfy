/**
 * The value `JSON.parse` produces and the zod schema `metadataSchema`
 * (lib/openai.ts:26-31, repeated at lib/grok.ts:22-27):
 * title a string of at most 100 characters, description at most 500,
 * hashtags an array of 3 to 5 strings, category absent or a string of at
 * most 50. `z.object` drops keys it does not know.
 */
module MetadataSchema {
  import opened Common

  /** A parsed JSON value (RFC 8259); numbers are kept as reals. */
  datatype Json =
    | JNull
    | JBool(b: bool)
    | JNumber(n: real)
    | JString(s: string)
    | JArray(items: seq<Json>)
    | JObject(fields: map<string, Json>)

  /** The metadata the generators return. */
  datatype Metadata = Metadata(title: string, description: string, hashtags: seq<string>, category: Option<string>)

  const MaxTitle: nat := 100
  const MaxDescription: nat := 500
  const MinHashtags: nat := 3
  const MaxHashtags: nat := 5
  const MaxCategory: nat := 50

  /** The message of a rejected object (the serialized zod issue list is not modelled). */
  const SchemaErrorMessage: string := "metadata does not match the schema"

  /** The bounds every accepted metadata object satisfies. */
  predicate WithinBounds(m: Metadata): (ok: bool)
    ensures ok <==>
      && |m.title| <= 100 && |m.description| <= 500 && 3 <= |m.hashtags| <= 5
      && (m.category.None? || |m.category.value| <= 50)
  {
    && |m.title| <= MaxTitle
    && |m.description| <= MaxDescription
    && MinHashtags <= |m.hashtags| <= MaxHashtags
    && (m.category.Some? ==> |m.category.value| <= MaxCategory)
  }

  /** `j` is an object whose known keys carry exactly the fields of `m`
      (other keys may be present). */
  predicate Describes(j: Json, m: Metadata) {
    && j.JObject?
    && "title" in j.fields && j.fields["title"] == JString(m.title)
    && "description" in j.fields && j.fields["description"] == JString(m.description)
    && "hashtags" in j.fields && j.fields["hashtags"] == JArray(Strings(m.hashtags))
    && (m.category.None? ==> "category" !in j.fields)
    && (m.category.Some? ==> "category" in j.fields && j.fields["category"] == JString(m.category.value))
  }

  /** A sequence of strings as JSON strings. */
  function Strings(ss: seq<string>): (r: seq<Json>)
    ensures |r| == |ss| && forall k :: 0 <= k < |ss| ==> r[k] == JString(ss[k])
  {
    if |ss| == 0 then [] else [JString(ss[0])] + Strings(ss[1..])
  }

  /** The strings of an array whose items are all strings. */
  function StringItems(items: seq<Json>): (r: Option<seq<string>>)
    ensures r.Some? <==> forall k :: 0 <= k < |items| ==> items[k].JString?
    ensures r.Some? ==> Strings(r.value) == items
  {
    if |items| == 0 then Some([])
    else if !items[0].JString? then None
    else match StringItems(items[1..])
      case None => None
      case Some(rest) =>
        assert Strings([items[0].s] + rest)[1..] == Strings(rest);
        Some([items[0].s] + rest)
  }

  /** The object written out as JSON. */
  function ToJson(m: Metadata): (j: Json)
    ensures Describes(j, m)
  {
    var base := map["title" := JString(m.title), "description" := JString(m.description),
                    "hashtags" := JArray(Strings(m.hashtags))];
    JObject(if m.category.Some? then base["category" := JString(m.category.value)] else base)
  }

  /** `metadataSchema.parse(j)`. */
  function Validate(j: Json): (r: Result<Metadata, string>)
    ensures r.Success? ==> WithinBounds(r.value) && Describes(j, r.value)
    ensures r.Failure? ==> r.error == SchemaErrorMessage
  {
    if !j.JObject? then Failure(SchemaErrorMessage)
    else
      var f := j.fields;
      if "title" !in f || !f["title"].JString? || |f["title"].s| > MaxTitle then Failure(SchemaErrorMessage)
      else if "description" !in f || !f["description"].JString? || |f["description"].s| > MaxDescription then Failure(SchemaErrorMessage)
      else if "hashtags" !in f || !f["hashtags"].JArray? then Failure(SchemaErrorMessage)
      else
        match StringItems(f["hashtags"].items)
        case None => Failure(SchemaErrorMessage)
        case Some(tags) =>
          if |tags| < MinHashtags || |tags| > MaxHashtags then Failure(SchemaErrorMessage)
          else if "category" !in f then Success(Metadata(f["title"].s, f["description"].s, tags, None))
          else if !f["category"].JString? || |f["category"].s| > MaxCategory then Failure(SchemaErrorMessage)
          else Success(Metadata(f["title"].s, f["description"].s, tags, Some(f["category"].s)))
  }

  lemma {:induction false} StringsInjective(a: seq<string>, b: seq<string>)
    requires Strings(a) == Strings(b)
    ensures a == b
  {
    assert |a| == |b|;
    forall k | 0 <= k < |a| ensures a[k] == b[k] {
      assert Strings(a)[k] == JString(a[k]) && Strings(b)[k] == JString(b[k]);
    }
  }

  /** The schema accepts exactly the objects that describe metadata within
      the bounds, and returns that metadata. */
  lemma ValidateAccepts(j: Json, m: Metadata)
    requires Describes(j, m)
    ensures Validate(j) == (if WithinBounds(m) then Success(m) else Failure(SchemaErrorMessage))
  {
    var items := j.fields["hashtags"].items;
    var tags := StringItems(items);
    assert tags.Some?;
    StringsInjective(tags.value, m.hashtags);
  }

  /** Writing metadata out and validating it gives it back exactly when it is
      within the bounds. */
  lemma ValidateToJson(m: Metadata)
    ensures Validate(ToJson(m)).Success? <==> WithinBounds(m)
    ensures WithinBounds(m) ==> Validate(ToJson(m)) == Success(m)
  {
    ValidateAccepts(ToJson(m), m);
  }
}
