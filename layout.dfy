/** The layout file of a report as a document changed in place: decoding and
    encoding its string fields, the placeholder substitutions, and the two
    conversions between the report's layout file and its source form
    (powercicd/powerbi/powerbi_utils.py). */
module Layout {
  import opened Results
  import opened Json
  import opened JsonPath
  import opened LayoutCodec
  import opened Placeholders

  /** The substitutions applied when a report is turned into source form. */
  function RemoveBuildValues(layout: Value): Result<Value>
  {
    var v :- Replace(layout, ExportVersionRule);
    Replace(v, ExportAppRule)
  }

  /** The substitutions applied when a report is built from source form. */
  function InsertBuildValues(layout: Value, ids: map<string, string>, version: string): Result<Value>
  {
    var v :- Replace(layout, ImportVersionRule(version));
    Replace(v, ImportAppRule(ids))
  }

  /** `convert_original_to_src_layout` on the layout tree. */
  function OriginalToSource(layout: Value): Result<Value>
  {
    var decoded :- DecodeLayout(layout);
    RemoveBuildValues(decoded)
  }

  /** `convert_src_code_to_original_layout` on the layout tree. */
  function SourceToOriginal(layout: Value, ids: map<string, string>, version: string): Result<Value>
  {
    var filled :- InsertBuildValues(layout, ids, version);
    Ok(EncodeLayout(filled))
  }

  /** A layout file produced by a build decodes to the source form with the
      build values inserted. */
  lemma SourceToOriginalDecodes(layout: Value, ids: map<string, string>, version: string)
    ensures SourceToOriginal(layout, ids, version).Ok? <==> InsertBuildValues(layout, ids, version).Ok?
    ensures SourceToOriginal(layout, ids, version).Ok? ==>
      DecodeLayout(SourceToOriginal(layout, ids, version).value) == InsertBuildValues(layout, ids, version)
  {
    if InsertBuildValues(layout, ids, version).Ok? {
      DecodeEncodeLayout(InsertBuildValues(layout, ids, version).value);
    }
  }

  /** Removing the build values twice is removing them once, rule by rule. */
  lemma RemoveBuildValuesRuleIdempotent(layout: Value, d: Value)
    requires Replace(layout, ExportVersionRule) == Ok(d)
    ensures Replace(d, ExportVersionRule) == Ok(d)
    ensures Replace(d, ExportAppRule).Ok? ==>
      Replace(Replace(d, ExportAppRule).value, ExportAppRule) == Replace(d, ExportAppRule)
  {
    RulesSeparated("", map[]);
    ReplaceIdempotent(layout, ExportVersionRule, d);
    if Replace(d, ExportAppRule).Ok? {
      ReplaceIdempotent(d, ExportAppRule, Replace(d, ExportAppRule).value);
    }
  }

  /** The per-container step of a rule, for the loop below. */
  method FillContainer(c: Value, targets: seq<Location>, text: string) returns (d: Value)
    requires targets != []
    ensures d == Fill(c, targets, text)
  {
    d := Set(c, targets[0], Str(text));
    var first := d;
    var j := 1;
    while j < |targets|
      invariant 1 <= j <= |targets|
      invariant Rewrite(first, targets[1..j], Blank) == Ok(d)
    {
      assert targets[1..j + 1][..j - 1] == targets[1..j];
      match Get(first, targets[j]) {
        case None =>
        case Some(_) =>
          d := Set(d, targets[j], Str(""));
      }
      j := j + 1;
    }
    assert targets[1..j] == targets[1..];
    FillRewrite(c, targets, text);
  }

  /** The body of the container loop of `replace_field_value`: the new
      container when the rule writes to it, `None` when it is skipped. */
  method SubstituteInContainer(c: Value, rule: Rule) returns (r: Result<Option<Value>>)
    ensures r.Err? ==> SubstituteContainer(c, rule) == Err(r.error)
    ensures r.Ok? && r.value.None? ==> SubstituteContainer(c, rule) == Ok(c) && !Writes(c, rule)
    ensures r.Ok? && r.value.Some? ==> SubstituteContainer(c, rule) == Ok(r.value.value) && Writes(c, rule)
  {
    var decision := Decide(c, rule);
    if decision.Err? {
      return Err(decision.error);
    }
    match decision.value {
      case Skip =>
        return Ok(None);
      case Write(groups, targets) =>
        var text := Substitute(rule.substitution, groups);
        if text.Err? {
          return Err(text.error);
        }
        var updated := FillContainer(c, targets, text.value);
        return Ok(Some(updated));
    }
  }

  /** A report layout held in memory and changed in place. */
  class LayoutDocument {
    var root: Value

    constructor(root: Value)
      ensures this.root == root
    {
      this.root := root;
    }

    /** The decode loop: `json.loads` of every string-encoded field. On
        failure the error of the first field that cannot be decoded. */
    method DecodeStrings() returns (r: Result<()>)
      modifies this
      ensures r.Ok? ==> DecodeLayout(old(root)) == Ok(root)
      ensures r.Err? ==> DecodeLayout(old(root)) == Err(r.error)
    {
      var orig := root;
      var ls := Find(orig, CodecQuery);
      var i := 0;
      while i < |ls|
        invariant 0 <= i <= |ls|
        invariant Rewrite(orig, ls[..i], DecodeField) == Ok(root)
      {
        match Get(orig, ls[i]) {
          case None =>
            RewriteNextSkips(orig, ls, DecodeField, i, root);
          case Some(field) =>
            var x := DecodeField(field);
            if x.Err? {
              RewriteNextFails(orig, ls, DecodeField, i, root);
              return Err(x.error);
            }
            RewriteNextSets(orig, ls, DecodeField, i, root, x.value);
            root := Set(root, ls[i], x.value);
        }
        i := i + 1;
      }
      assert ls[..i] == ls;
      return Ok(());
    }

    /** The encode loop: every string-encoded field becomes its compact JSON
        text. */
    method EncodeStrings()
      modifies this
      ensures root == EncodeLayout(old(root))
    {
      var orig := root;
      var ls := Find(orig, CodecQuery);
      var i := 0;
      while i < |ls|
        invariant 0 <= i <= |ls|
        invariant Rewrite(orig, ls[..i], EncodeField) == Ok(root)
      {
        match Get(orig, ls[i]) {
          case None =>
            RewriteNextSkips(orig, ls, EncodeField, i, root);
          case Some(field) =>
            RewriteNextSets(orig, ls, EncodeField, i, root, EncodeField(field).value);
            root := Set(root, ls[i], EncodeField(field).value);
        }
        i := i + 1;
      }
      assert ls[..i] == ls;
      EncodeLayoutRewrite(orig);
    }

    /** `replace_field_value`: applies a rule to every visual container and
        returns the number of containers written to. On failure the error of
        the first container whose key is not a string or whose substitution
        fails. */
    method ReplaceFieldValue(rule: Rule) returns (r: Result<nat>)
      modifies this
      ensures r.Ok? ==> Replace(old(root), rule) == Ok(root) && r.value == Count(old(root), rule)
      ensures r.Err? ==> Replace(old(root), rule) == Err(r.error)
    {
      var orig := root;
      var cs := Find(orig, ContainersQuery);
      ghost var f := ContainerStep(rule);
      ContainersQuerySimple();
      FindDiverge(orig, ContainersQuery);
      assert cs[..0] == [];
      var count := 0;
      var i := 0;
      while i < |cs|
        invariant 0 <= i <= |cs|
        invariant Rewrite(orig, cs[..i], f) == Ok(root)
        invariant count == CountWrites(orig, cs[..i], rule)
      {
        var l := cs[i];
        match Get(orig, l) {
          case None =>
            ReplaceNextMissing(orig, cs, rule, i, root);
          case Some(c) =>
            var outcome := SubstituteInContainer(c, rule);
            match outcome {
              case Err(e) =>
                ReplaceNextFails(orig, cs, rule, i, root, e);
                return Err(e);
              case Ok(None) =>
                ReplaceNextSkips(orig, cs, rule, i, root);
              case Ok(Some(updated)) =>
                ReplaceNextWrites(orig, cs, rule, i, root, updated);
                root := Set(root, l, updated);
                count := count + 1;
            }
        }
        i := i + 1;
      }
      assert cs[..i] == cs;
      return Ok(count);
    }

    /** `convert_original_to_src_layout` without the file handling: decode the
        string fields, then remove the report version and the app ids. */
    method ConvertOriginalToSource() returns (r: Result<()>)
      modifies this
      ensures r.Ok? ==> OriginalToSource(old(root)) == Ok(root)
      ensures r.Err? ==> OriginalToSource(old(root)) == Err(r.error)
    {
      var decoded := DecodeStrings();
      if decoded.Err? {
        return Err(decoded.error);
      }
      var versions := ReplaceFieldValue(ExportVersionRule);
      if versions.Err? {
        return Err(versions.error);
      }
      var apps := ReplaceFieldValue(ExportAppRule);
      if apps.Err? {
        return Err(apps.error);
      }
      return Ok(());
    }

    /** `convert_src_code_to_original_layout` without the file handling:
        insert the report version and the app ids, then encode the string
        fields. */
    method ConvertSourceToOriginal(ids: map<string, string>, version: string) returns (r: Result<()>)
      modifies this
      ensures r.Ok? ==> SourceToOriginal(old(root), ids, version) == Ok(root)
      ensures r.Err? ==> SourceToOriginal(old(root), ids, version) == Err(r.error)
    {
      var versions := ReplaceFieldValue(ImportVersionRule(version));
      if versions.Err? {
        return Err(versions.error);
      }
      var apps := ReplaceFieldValue(ImportAppRule(ids));
      if apps.Err? {
        return Err(apps.error);
      }
      EncodeStrings();
      return Ok(());
    }
  }

  lemma ReplaceNextMissing(orig: Value, cs: seq<Location>, rule: Rule, i: nat, d: Value)
    requires i < |cs| && Get(orig, cs[i]).None?
    requires Rewrite(orig, cs[..i], ContainerStep(rule)) == Ok(d)
    ensures Rewrite(orig, cs[..i + 1], ContainerStep(rule)) == Ok(d)
    ensures CountWrites(orig, cs[..i + 1], rule) == CountWrites(orig, cs[..i], rule)
  {
    assert cs[..i + 1][..i] == cs[..i];
  }

  lemma ReplaceNextFails(orig: Value, cs: seq<Location>, rule: Rule, i: nat, d: Value, e: Error)
    requires i < |cs| && Get(orig, cs[i]).Some?
    requires Rewrite(orig, cs[..i], ContainerStep(rule)) == Ok(d)
    requires SubstituteContainer(Get(orig, cs[i]).value, rule) == Err(e)
    ensures Rewrite(orig, cs, ContainerStep(rule)) == Err(e)
  {
    assert cs[..i + 1][..i] == cs[..i];
    RewriteErrPrefix(orig, cs, ContainerStep(rule), i + 1);
  }

  lemma ReplaceNextSkips(orig: Value, cs: seq<Location>, rule: Rule, i: nat, d: Value)
    requires i < |cs| && PairwiseDiverge(cs) && Get(orig, cs[i]).Some?
    requires Rewrite(orig, cs[..i], ContainerStep(rule)) == Ok(d)
    requires SubstituteContainer(Get(orig, cs[i]).value, rule) == Ok(Get(orig, cs[i]).value)
    requires !Writes(Get(orig, cs[i]).value, rule)
    ensures Rewrite(orig, cs[..i + 1], ContainerStep(rule)) == Ok(d)
    ensures CountWrites(orig, cs[..i + 1], rule) == CountWrites(orig, cs[..i], rule)
  {
    assert cs[..i + 1][..i] == cs[..i];
    NextContainerUnchanged(orig, cs, ContainerStep(rule), i, d);
    SetGetSame(d, cs[i], Get(orig, cs[i]).value);
  }

  lemma ReplaceNextWrites(orig: Value, cs: seq<Location>, rule: Rule, i: nat, d: Value, updated: Value)
    requires i < |cs| && Get(orig, cs[i]).Some?
    requires Rewrite(orig, cs[..i], ContainerStep(rule)) == Ok(d)
    requires SubstituteContainer(Get(orig, cs[i]).value, rule) == Ok(updated)
    requires Writes(Get(orig, cs[i]).value, rule)
    ensures Rewrite(orig, cs[..i + 1], ContainerStep(rule)) == Ok(Set(d, cs[i], updated))
    ensures CountWrites(orig, cs[..i + 1], rule) == CountWrites(orig, cs[..i], rule) + 1
  {
    assert cs[..i + 1][..i] == cs[..i];
  }

  /** A container not yet visited still holds its original value. */
  lemma NextContainerUnchanged(orig: Value, cs: seq<Location>, f: Value -> Result<Value>, i: nat, d: Value)
    requires i < |cs| && PairwiseDiverge(cs) && Rewrite(orig, cs[..i], f) == Ok(d)
    ensures Get(d, cs[i]) == Get(orig, cs[i])
  {
    var init := cs[..i];
    assert PairwiseDiverge(init) by {
      forall a, b | 0 <= a < |init| && 0 <= b < |init| && a != b
        ensures Diverge(init[a], init[b])
      {
        assert init[a] == cs[a] && init[b] == cs[b];
      }
    }
    RewriteGet(orig, init, f, d);
    forall a | 0 <= a < |init|
      ensures Diverge(init[a], cs[i])
    {
      assert init[a] == cs[a];
    }
  }
}
