/** The string-encoded fields of a Power BI report layout. In the layout file the
    fields `config`, `filters`, `query` and `dataTransforms` of every visual
    container hold JSON text; the source form of the report holds the parsed
    values instead (powercicd/powerbi/powerbi_utils.py, lines 101-106 and
    178-183). */
module LayoutCodec {
  import opened Results
  import opened Json
  import opened JsonText
  import opened JsonPath

  /** `$.sections[*].visualContainers[*]` */
  const ContainersQuery: Query := [Field("sections"), Wildcard, Field("visualContainers"), Wildcard]

  const EncodedFields: seq<string> := ["config", "filters", "query", "dataTransforms"]

  /** `$.sections[*].visualContainers[*][config,filters,query,dataTransforms]` */
  const CodecQuery: Query := ContainersQuery + [Fields(EncodedFields)]

  lemma CodecQuerySimple()
    ensures SimpleQuery(CodecQuery) && |CodecQuery| == 5
  {
    assert Distinct(EncodedFields);
    assert forall i :: 0 <= i < 4 ==> CodecQuery[i].Fields? ==> |CodecQuery[i].names| == 1;
  }

  /** `json.loads(value)`: only a string can be decoded. */
  function DecodeField(v: Value): Result<Value>
  {
    match v
    case Str(text) => Parse(text)
    case _ => Err(TypeError("the JSON object must be str, bytes or bytearray"))
  }

  /** `json.dumps(value, ensure_ascii=False, separators=(',', ':'))` */
  function EncodeField(v: Value): Result<Value>
  {
    Ok(Str(Serialize(v)))
  }

  /** Decoding an encoded field gives the field back. */
  lemma DecodeEncodeField(v: Value)
    ensures EncodeField(v).Ok? && DecodeField(EncodeField(v).value) == Ok(v)
  {
    ParseSerialize(v);
  }

  /** The decode loop: every encoded field of every visual container is parsed. */
  function DecodeLayout(layout: Value): Result<Value>
  {
    Rewrite(layout, Find(layout, CodecQuery), DecodeField)
  }

  /** The encode loop: every such field is written back as compact JSON text. */
  function EncodeLayout(layout: Value): Value
  {
    var r := Rewrite(layout, Find(layout, CodecQuery), EncodeField);
    assert r.Ok? by {
      RewriteOk(layout, Find(layout, CodecQuery), EncodeField);
    }
    r.value
  }

  lemma CodecMatchesPart(layout: Value)
    ensures PairwiseDiverge(Find(layout, CodecQuery))
    ensures forall l :: l in Find(layout, CodecQuery) ==> |l| == 5 && Get(layout, l).Some?
  {
    CodecQuerySimple();
    FindDiverge(layout, CodecQuery);
    forall l | l in Find(layout, CodecQuery)
      ensures |l| == 5 && Get(layout, l).Some?
    {
      FindShape(layout, CodecQuery, l);
    }
  }

  /** Decoding fails exactly when some encoded field cannot be decoded: it is
      not a string, or its text is not valid JSON. */
  lemma DecodeLayoutOk(layout: Value)
    ensures DecodeLayout(layout).Ok? <==>
      forall l :: l in Find(layout, CodecQuery) ==> Get(layout, l).Some? && DecodeField(Get(layout, l).value).Ok?
  {
    var ls := Find(layout, CodecQuery);
    CodecMatchesPart(layout);
    RewriteOk(layout, ls, DecodeField);
    if DecodeLayout(layout).Ok? {
      forall l | l in ls
        ensures Get(layout, l).Some? && DecodeField(Get(layout, l).value).Ok?
      {
        var i :| 0 <= i < |ls| && ls[i] == l;
      }
    }
  }

  /** A field that decodes is a string, and decoding it parses its text. */
  lemma DecodeFieldParses(v: Value)
    requires DecodeField(v).Ok?
    ensures v.Str? && Parse(v.s).Ok? && DecodeField(v) == Parse(v.s)
  {
  }

  /** After decoding, each encoded field holds the value its text denotes. */
  lemma DecodeLayoutFields(layout: Value, d: Value)
    requires DecodeLayout(layout) == Ok(d)
    ensures forall l :: l in Find(layout, CodecQuery) ==>
      Get(layout, l).Some? && Get(layout, l).value.Str? && Parse(Get(layout, l).value.s).Ok? &&
      Get(d, l) == Some(Parse(Get(layout, l).value.s).value)
  {
    var ls := Find(layout, CodecQuery);
    CodecMatchesPart(layout);
    RewriteGetMember(layout, ls, DecodeField, d);
    forall l | l in ls
      ensures Get(layout, l).Some? && Get(layout, l).value.Str? && Parse(Get(layout, l).value.s).Ok? &&
        Get(d, l) == Some(Parse(Get(layout, l).value.s).value)
    {
      DecodeFieldParses(Get(layout, l).value);
    }
  }

  /** Rewriting the encoded fields, by any function, leaves every other location unchanged. */
  lemma CodecKeepsRest(layout: Value, f: Value -> Result<Value>, d: Value)
    requires Rewrite(layout, Find(layout, CodecQuery), f) == Ok(d)
    ensures forall m :: (forall l :: l in Find(layout, CodecQuery) ==> Diverge(l, m)) ==> Get(d, m) == Get(layout, m)
  {
    CodecMatchesPart(layout);
    RewriteKeepsRest(layout, Find(layout, CodecQuery), f, d);
  }

  /** Decoding leaves every location apart from the encoded fields unchanged. */
  lemma DecodeLayoutKeepsRest(layout: Value, d: Value)
    requires DecodeLayout(layout) == Ok(d)
    ensures forall m :: (forall l :: l in Find(layout, CodecQuery) ==> Diverge(l, m)) ==> Get(d, m) == Get(layout, m)
  {
    CodecKeepsRest(layout, DecodeField, d);
  }

  /** After encoding, each encoded field holds the compact text of its old value. */
  lemma EncodeLayoutFields(layout: Value)
    ensures forall l :: l in Find(layout, CodecQuery) ==>
      Get(layout, l).Some? && Get(EncodeLayout(layout), l) == Some(Str(Serialize(Get(layout, l).value)))
  {
    var ls := Find(layout, CodecQuery);
    CodecMatchesPart(layout);
    EncodeLayoutRewrite(layout);
    RewriteGetMember(layout, ls, EncodeField, EncodeLayout(layout));
  }

  /** Encoding leaves every location apart from the encoded fields unchanged. */
  lemma EncodeLayoutKeepsRest(layout: Value)
    ensures forall m :: (forall l :: l in Find(layout, CodecQuery) ==> Diverge(l, m)) ==>
      Get(EncodeLayout(layout), m) == Get(layout, m)
  {
    EncodeLayoutRewrite(layout);
    CodecKeepsRest(layout, EncodeField, EncodeLayout(layout));
  }

  /** Rewriting the encoded fields does not change which fields the query finds. */
  lemma CodecFindStable(layout: Value, f: Value -> Result<Value>, d: Value)
    requires Rewrite(layout, Find(layout, CodecQuery), f) == Ok(d)
    ensures Find(d, CodecQuery) == Find(layout, CodecQuery)
  {
    var ls := Find(layout, CodecQuery);
    CodecMatchesPart(layout);
    forall i | 0 <= i < |ls|
      ensures Untouched(ls[i], CodecQuery)
    {
      UntouchedDeep(ls[i], CodecQuery);
    }
    RewriteFind(layout, ls, f, d, CodecQuery);
  }

  /** Converting the source form to the layout file form and back gives the
      source form again. */
  lemma DecodeEncodeLayout(layout: Value)
    ensures DecodeLayout(EncodeLayout(layout)) == Ok(layout)
  {
    var ls := Find(layout, CodecQuery);
    var e := EncodeLayout(layout);
    EncodeLayoutRewrite(layout);
    CodecMatchesPart(layout);
    CodecFindStable(layout, EncodeField, e);
    DecodeLayoutAt(e, ls);
    FieldCodecInverse(layout, ls, e);
  }

  lemma EncodeLayoutRewrite(layout: Value)
    ensures Rewrite(layout, Find(layout, CodecQuery), EncodeField) == Ok(EncodeLayout(layout))
  {
    RewriteOk(layout, Find(layout, CodecQuery), EncodeField);
  }

  lemma DecodeLayoutAt(e: Value, ls: seq<Location>)
    requires Find(e, CodecQuery) == ls
    ensures DecodeLayout(e) == Rewrite(e, ls, DecodeField)
  {
  }

  lemma FieldCodecInverse(layout: Value, ls: seq<Location>, e: Value)
    requires PairwiseDiverge(ls) && Rewrite(layout, ls, EncodeField) == Ok(e)
    requires forall l :: l in ls ==> Get(layout, l).Some?
    ensures Rewrite(e, ls, DecodeField) == Ok(layout)
  {
    forall w
      ensures EncodeField(w).Ok? && DecodeField(EncodeField(w).value) == Ok(w)
    {
      DecodeEncodeField(w);
    }
    RewriteInverse(layout, ls, EncodeField, DecodeField, e);
  }
}
