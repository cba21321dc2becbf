/** Placeholder substitution in a report layout (`replace_field_value` and the
    rules it is called with, powercicd/powerbi/powerbi_utils.py). A visual
    container's alternative text may carry a marker such as
    `[[[report_version]]]` or `[[[powerapps:<app name>]]]`; the rule then writes
    a value (a fixed text, the report version, or a Power Apps app path) into
    another field of the same container. */
module Placeholders {
  import opened Results
  import opened Json
  import opened JsonPath
  import opened LayoutCodec

  // ---------------------------------------------------------------------
  // Marker recognisers
  // ---------------------------------------------------------------------

  /** The named groups of a successful match (`groupdict()`). */
  type Groups = map<string, string>

  predicate OccursAt(t: string, p: string, i: int)
  {
    0 <= i && i + |p| <= |t| && t[i..i + |p|] == p
  }

  predicate NewlineFree(t: string)
  {
    forall i :: 0 <= i < |t| ==> t[i] != '\n'
  }

  /** The part of `s` that `.*` and `$` can span: `.` never matches a newline,
      and `$` also matches just before a final newline. */
  function Line(s: string): (t: string)
    ensures t == s || (s == t + "\n")
  {
    if |s| > 0 && s[|s| - 1] == '\n' then s[..|s| - 1] else s
  }

  /** Start of the last occurrence of `p` in `t` that ends at or before `limit`. */
  function LastOccurrence(t: string, p: string, limit: nat): (r: Option<nat>)
    requires limit <= |t|
    ensures r.Some? ==> r.value + |p| <= limit && OccursAt(t, p, r.value)
    ensures r.Some? ==> forall j :: r.value < j && j + |p| <= limit ==> !OccursAt(t, p, j)
    ensures r.None? ==> forall j :: 0 <= j && j + |p| <= limit ==> !OccursAt(t, p, j)
    decreases limit
  {
    if limit < |p| then None
    else if OccursAt(t, p, limit - |p|) then Some(limit - |p|)
    else LastOccurrence(t, p, limit - 1)
  }

  const VersionMarker: string := "[[[report_version]]]"
  const AppOpen: string := "[[[powerapps:"
  const AppClose: string := "]]]"

  /** `re.match(r"^.*\[\[\[report_version\]\]\].*$", s)`: the line holds the
      marker anywhere; there are no named groups. */
  function MatchVersion(s: string): (r: Option<Groups>)
    ensures r.Some? <==> NewlineFree(Line(s)) && exists i :: OccursAt(Line(s), VersionMarker, i)
    ensures r.Some? ==> r.value == map[]
  {
    var t := Line(s);
    if NewlineFree(t) && LastOccurrence(t, VersionMarker, |t|).Some? then Some(map[]) else None
  }

  /** The app name can sit between an opening marker at `i` and `]]]` at `k`. */
  predicate AppSplit(t: string, i: int, k: int)
  {
    OccursAt(t, AppOpen, i) && i + |AppOpen| <= k && OccursAt(t, AppClose, k)
  }

  /** The split a backtracking matcher settles on: the greedy `.*` before the
      marker takes the latest opening, then the greedy group takes the latest
      closing. */
  ghost predicate GreedySplit(t: string, i: int, k: int)
  {
    AppSplit(t, i, k) &&
    (forall i', k' :: AppSplit(t, i', k') ==> i' <= i) &&
    (forall k' :: AppSplit(t, i, k') ==> k' <= k)
  }

  /** Positions of the opening marker and of the closing `]]]` of the match. */
  function AppSpan(t: string): (r: Option<(nat, nat)>)
    ensures r.Some? ==> GreedySplit(t, r.value.0, r.value.1)
    ensures r.None? <==> forall i, k :: !AppSplit(t, i, k)
  {
    match LastOccurrence(t, AppClose, |t|)
    case None => None
    case Some(k) =>
      if k < |AppOpen| then None
      else
        match LastOccurrence(t, AppOpen, k)
        case None => None
        case Some(i) => Some((i, k))
  }

  /** `re.match(r"^.*\[\[\[powerapps\:(?P<app_name>.*)\]\]\].*$", s)`. */
  function MatchApp(s: string): (r: Option<Groups>)
    ensures r.Some? <==> NewlineFree(Line(s)) && exists i, k :: AppSplit(Line(s), i, k)
    ensures r.Some? ==> exists i, k :: (GreedySplit(Line(s), i, k) &&
      r.value == map["app_name" := Line(s)[i + |AppOpen|..k]])
  {
    var t := Line(s);
    if !NewlineFree(t) then None
    else
      match AppSpan(t)
      case None => None
      case Some(span) => Some(map["app_name" := t[span.0 + |AppOpen|..span.1]])
  }

  datatype Marker = ReportVersion | PowerAppsApp

  function Recognise(m: Marker, s: string): Option<Groups>
  {
    match m
    case ReportVersion => MatchVersion(s)
    case PowerAppsApp => MatchApp(s)
  }

  lemma MismatchAt(t: string, p: string, i: int, j: nat)
    requires j < |p| && 0 <= i && i + j < |t| && t[i + j] != p[j]
    ensures !OccursAt(t, p, i)
  {
  }

  /** A line made of the opening marker, a name and the closing marker yields
      that name, provided the name holds no newline and no `[`. */
  lemma MatchMarkedApp(name: string)
    requires forall i :: 0 <= i < |name| ==> name[i] != '\n' && name[i] != '['
    ensures MatchApp(AppOpen + name + AppClose) == Some(map["app_name" := name])
  {
    var s := AppOpen + name + AppClose;
    var k := |AppOpen| + |name|;
    assert s[..|AppOpen|] == AppOpen;
    assert s[|AppOpen|..k] == name;
    assert s[k..] == AppClose;
    assert Line(s) == s by {
      assert s[|s| - 1] == AppClose[2];
    }
    assert NewlineFree(s) by {
      forall i | 0 <= i < |s|
        ensures s[i] != '\n'
      {
        if i < |AppOpen| {
          assert s[i] == AppOpen[i];
        } else if i < k {
          assert s[i] == name[i - |AppOpen|];
        } else {
          assert s[i] == AppClose[i - k];
        }
      }
    }
    assert OccursAt(s, AppClose, k);
    assert OccursAt(s, AppOpen, 0);
    forall j | 0 < j && j + |AppOpen| <= k
      ensures !OccursAt(s, AppOpen, j)
    {
      if j < 3 {
        assert s[j + (3 - j)] == AppOpen[3];
        MismatchAt(s, AppOpen, j, 3 - j);
      } else if j < |AppOpen| {
        assert s[j] == AppOpen[j];
        MismatchAt(s, AppOpen, j, 0);
      } else {
        assert s[j] == name[j - |AppOpen|];
        MismatchAt(s, AppOpen, j, 0);
      }
    }
    assert AppSpan(s) == Some((0, k));
  }

  // ---------------------------------------------------------------------
  // Substitutions
  // ---------------------------------------------------------------------

  /** What a rule writes: a fixed text (a non-callable argument, wrapped by
      `constant_fn_factory`), or the app path looked up by the captured name
      (`powerapps_id_by_name_fn`). */
  datatype Substitution = Constant(text: string) | AppIdByName(ids: map<string, string>)

  const AppPathPrefix: string := "'/providers/Microsoft.PowerApps/apps/"
  const UnknownAppId: string := "12345678-1234-1234-1234-999999999999"

  /** The quoted app path for a name; an unknown name gets a placeholder id. */
  function AppPath(ids: map<string, string>, name: string): (r: string)
    ensures name in ids ==> r == AppPathPrefix + ids[name] + "'"
    ensures name !in ids ==> r == AppPathPrefix + UnknownAppId + "'"
  {
    var id := if name in ids then ids[name] else UnknownAppId;
    AppPathPrefix + id + "'"
  }

  function Substitute(sub: Substitution, groups: Groups): Result<string>
  {
    match sub
    case Constant(text) => Ok(text)
    case AppIdByName(ids) =>
      if "app_name" in groups then Ok(AppPath(ids, groups["app_name"])) else Err(KeyError("app_name"))
  }

  /** A constant substitution writes its text whatever the match captured. */
  lemma ConstantIgnoresGroups(text: string, g: Groups, h: Groups)
    ensures Substitute(Constant(text), g) == Substitute(Constant(text), h) == Ok(text)
  {
  }

  /** The app id can be read back from the path written for a known app. */
  lemma AppPathId(ids: map<string, string>, name: string)
    requires name in ids
    ensures var p := AppPath(ids, name);
      |p| == |AppPathPrefix| + |ids[name]| + 1 && p[|AppPathPrefix|..|p| - 1] == ids[name]
  {
  }

  /** Two known apps get the same path only if they have the same id. */
  lemma AppPathInjective(ids: map<string, string>, a: string, b: string)
    requires a in ids && b in ids && AppPath(ids, a) == AppPath(ids, b)
    ensures ids[a] == ids[b]
  {
    AppPathId(ids, a);
    AppPathId(ids, b);
  }

  /** The mapping of the example report. */
  lemma AppPathExample()
    ensures Substitute(AppIdByName(map["my_powerapps_app" := "b944ef36-81f7-482c-a6d6-f29c9f89eabc"]),
                       map["app_name" := "my_powerapps_app"])
      == Ok(AppPathPrefix + "b944ef36-81f7-482c-a6d6-f29c9f89eabc" + "'")
  {
    var ids := map["my_powerapps_app" := "b944ef36-81f7-482c-a6d6-f29c9f89eabc"];
    assert "my_powerapps_app" in ids;
  }

  // ---------------------------------------------------------------------
  // Rules
  // ---------------------------------------------------------------------

  /** Relative to a visual container: the key field to test, the field to
      write, the marker and what to write. */
  datatype Rule = Rule(keyQuery: Query, valueQuery: Query, marker: Marker, substitution: Substitution)

  /** `$.config.singleVisual.vcObjects.general[0].properties.altText.expr.Literal.Value` */
  const AltTextQuery: Query :=
    [Field("config"), Field("singleVisual"), Field("vcObjects"), Field("general"), Index(0),
     Field("properties"), Field("altText"), Field("expr"), Field("Literal"), Field("Value")]

  /** `$.config.singleVisual.objects.general[0].properties.paragraphs[*].textRuns[*].value` */
  const AllTextRunsQuery: Query :=
    [Field("config"), Field("singleVisual"), Field("objects"), Field("general"), Index(0),
     Field("properties"), Field("paragraphs"), Wildcard, Field("textRuns"), Wildcard, Field("value")]

  /** `$.config.singleVisual.objects.general[0].properties.paragraphs[0].textRuns[0].value` */
  const FirstTextRunQuery: Query :=
    [Field("config"), Field("singleVisual"), Field("objects"), Field("general"), Index(0),
     Field("properties"), Field("paragraphs"), Index(0), Field("textRuns"), Index(0), Field("value")]

  /** `$.config.singleVisual.objects.general[0].properties.appId.expr.Literal.Value` */
  const AppIdQuery: Query :=
    [Field("config"), Field("singleVisual"), Field("objects"), Field("general"), Index(0),
     Field("properties"), Field("appId"), Field("expr"), Field("Literal"), Field("Value")]

  /** Version text removed when a report is turned into source form. */
  const ExportVersionRule: Rule :=
    Rule(AltTextQuery, AllTextRunsQuery, ReportVersion, Constant("REPORT_VERSION_REMOVED_BY_BUILD_SCRIPT"))

  /** App id removed when a report is turned into source form. */
  const ExportAppRule: Rule :=
    Rule(AltTextQuery, AppIdQuery, PowerAppsApp, Constant("POWERAPPS_APP_ID_REMOVED_BY_BUILD_SCRIPT"))

  /** The report version written when a report is built from source form. */
  function ImportVersionRule(version: string): Rule
  {
    Rule(AltTextQuery, FirstTextRunQuery, ReportVersion, Constant(version))
  }

  /** The app path written when a report is built from source form. */
  function ImportAppRule(ids: map<string, string>): Rule
  {
    Rule(AltTextQuery, AppIdQuery, PowerAppsApp, AppIdByName(ids))
  }

  /** The key is read under `vcObjects` and the value written under `objects`,
      so a write never reaches the key. */
  predicate Separated(rule: Rule)
  {
    |rule.keyQuery| > 2 && |rule.valueQuery| > 2 &&
    rule.keyQuery[2] == Field("vcObjects") && rule.valueQuery[2] == Field("objects") &&
    SimpleQuery(rule.valueQuery)
  }

  lemma RulesSeparated(version: string, ids: map<string, string>)
    ensures Separated(ExportVersionRule) && Separated(ExportAppRule)
    ensures Separated(ImportVersionRule(version)) && Separated(ImportAppRule(ids))
  {
    assert "vcObjects" != "objects";
    assert forall i :: 0 <= i < |AllTextRunsQuery| && AllTextRunsQuery[i].Fields? ==> |AllTextRunsQuery[i].names| == 1;
    assert forall i :: 0 <= i < |FirstTextRunQuery| && FirstTextRunQuery[i].Fields? ==> |FirstTextRunQuery[i].names| == 1;
    assert forall i :: 0 <= i < |AppIdQuery| && AppIdQuery[i].Fields? ==> |AppIdQuery[i].names| == 1;
  }

  // ---------------------------------------------------------------------
  // One visual container
  // ---------------------------------------------------------------------

  /** What `replace_field_value` decides for one container: leave it, or write
      at the value matches with the groups the key's marker captured. */
  datatype Decision = Skip | Write(groups: Groups, targets: seq<Location>)

  function Decide(c: Value, rule: Rule): (r: Result<Decision>)
    ensures r.Ok? && r.value.Write? ==> r.value.targets == Find(c, rule.valueQuery) && r.value.targets != []
  {
    var keys := Find(c, rule.keyQuery);
    if keys == [] then Ok(Skip)
    else
      match Get(c, keys[0])
      case Some(Str(s)) =>
        (match Recognise(rule.marker, s)
         case None => Ok(Skip)
         case Some(groups) =>
           var targets := Find(c, rule.valueQuery);
           if targets == [] then Ok(Skip) else Ok(Write(groups, targets)))
      case _ => Err(TypeError("expected string or bytes-like object"))
  }

  function Blank(v: Value): Result<Value>
  {
    Ok(Str(""))
  }

  /** The intended writes: the substituted text at the first value match and
      the empty string at every further one. */
  function Fill(c: Value, targets: seq<Location>, text: string): Value
    requires targets != []
  {
    var first := Set(c, targets[0], Str(text));
    var r := Rewrite(first, targets[1..], Blank);
    assert r.Ok? by {
      RewriteOk(first, targets[1..], Blank);
    }
    r.value
  }

  /** The writes of the loop over `value_matches[1:]` as written: each pass
      writes `""` through the first match's path again (repeating that write
      is the same as writing once), so the first match ends empty and the
      others keep their values. */
  function FillAsWritten(c: Value, targets: seq<Location>, text: string): Value
    requires targets != []
  {
    var first := Set(c, targets[0], Str(text));
    if |targets| > 1 then Set(first, targets[0], Str("")) else first
  }

  /** The container after the rule, as intended. */
  function SubstituteContainer(c: Value, rule: Rule): Result<Value>
  {
    var d :- Decide(c, rule);
    match d
    case Skip => Ok(c)
    case Write(groups, targets) =>
      var text :- Substitute(rule.substitution, groups);
      Ok(Fill(c, targets, text))
  }

  /** The container after the rule, as the code is written. */
  function SubstituteContainerAsWritten(c: Value, rule: Rule): Result<Value>
  {
    var d :- Decide(c, rule);
    match d
    case Skip => Ok(c)
    case Write(groups, targets) =>
      var text :- Substitute(rule.substitution, groups);
      Ok(FillAsWritten(c, targets, text))
  }

  /** Value matches that exist and pairwise part. */
  predicate TargetsApart(c: Value, targets: seq<Location>)
  {
    targets != [] && PairwiseDiverge(targets) && forall l :: l in targets ==> Get(c, l).Some?
  }

  lemma FillRewrite(c: Value, targets: seq<Location>, text: string)
    requires targets != []
    ensures Rewrite(Set(c, targets[0], Str(text)), targets[1..], Blank) == Ok(Fill(c, targets, text))
  {
    RewriteOk(Set(c, targets[0], Str(text)), targets[1..], Blank);
  }

  lemma FillWrites(c: Value, targets: seq<Location>, text: string)
    requires TargetsApart(c, targets)
    ensures Get(Fill(c, targets, text), targets[0]) == Some(Str(text))
    ensures forall i :: 1 <= i < |targets| ==> Get(Fill(c, targets, text), targets[i]) == Some(Str(""))
    ensures forall m :: (forall i :: 0 <= i < |targets| ==> Diverge(targets[i], m)) ==>
      Get(Fill(c, targets, text), m) == Get(c, m)
  {
    var t0 := targets[0];
    var rest := targets[1..];
    var c1 := Set(c, t0, Str(text));
    var d := Fill(c, targets, text);
    FillRewrite(c, targets, text);
    assert PairwiseDiverge(rest) by {
      forall i, j | 0 <= i < |rest| && 0 <= j < |rest| && i != j
        ensures Diverge(rest[i], rest[j])
      {
        assert rest[i] == targets[i + 1] && rest[j] == targets[j + 1];
      }
    }
    assert t0 in targets;
    GetSetSame(c, t0, Str(text));
    RewriteGet(c1, rest, Blank, d);
    forall i | 0 <= i < |rest|
      ensures Diverge(rest[i], t0)
    {
      assert rest[i] == targets[i + 1];
    }
    forall i | 1 <= i < |targets|
      ensures Get(d, targets[i]) == Some(Str(""))
    {
      assert targets[i] == rest[i - 1] && targets[i] in targets;
      GetSetDiverge(c, t0, rest[i - 1], Str(text));
    }
    forall m | forall i :: 0 <= i < |targets| ==> Diverge(targets[i], m)
      ensures Get(d, m) == Get(c, m)
    {
      assert Diverge(targets[0], m);
      GetSetDiverge(c, t0, m, Str(text));
      forall i | 0 <= i < |rest|
        ensures Diverge(rest[i], m)
      {
        assert rest[i] == targets[i + 1];
      }
    }
  }

  lemma FillFind(c: Value, targets: seq<Location>, text: string, q: Query)
    requires targets != [] && forall l :: l in targets ==> Untouched(l, q)
    ensures Find(Fill(c, targets, text), q) == Find(c, q)
  {
    var rest := targets[1..];
    var c1 := Set(c, targets[0], Str(text));
    assert targets[0] in targets;
    FindSet(c, q, targets[0], Str(text));
    forall i | 0 <= i < |rest|
      ensures Untouched(rest[i], q)
    {
      assert rest[i] in targets;
    }
    FillRewrite(c, targets, text);
    RewriteFind(c1, rest, Blank, Fill(c, targets, text), q);
  }

  lemma FillFixpoint(c: Value, targets: seq<Location>, text: string)
    requires TargetsApart(c, targets)
    requires Get(c, targets[0]) == Some(Str(text))
    requires forall i :: 1 <= i < |targets| ==> Get(c, targets[i]) == Some(Str(""))
    ensures Fill(c, targets, text) == c
  {
    SetGetSame(c, targets[0], Str(text));
    var rest := targets[1..];
    forall i | 0 <= i < |rest| && Get(c, rest[i]).Some?
      ensures Blank(Get(c, rest[i]).value) == Ok(Get(c, rest[i]).value)
    {
      assert rest[i] == targets[i + 1];
    }
    RewriteFixpoint(c, rest, Blank);
  }

  lemma DivergeAt(l: Location, m: Location, i: nat)
    requires i < |l| && i < |m| && l[i] != m[i]
    ensures Diverge(l, m)
    decreases i
  {
    if l[0] == m[0] {
      DivergeAt(l[1..], m[1..], i - 1);
    }
  }

  lemma UntouchedAt(l: Location, q: Query, i: nat)
    requires i < |l| && i < |q| && !Admits(q[i], l[i])
    ensures Untouched(l, q)
    decreases i
  {
    if i > 0 && Admits(q[0], l[0]) {
      UntouchedAt(l[1..], q[1..], i - 1);
    }
  }

  /** Under a separated rule the value matches exist, part pairwise, stay
      apart from every key match and change neither query's matches. */
  lemma RuleTargets(c: Value, rule: Rule)
    requires Separated(rule)
    ensures TargetsApart(c, Find(c, rule.valueQuery)) || Find(c, rule.valueQuery) == []
    ensures forall l :: l in Find(c, rule.valueQuery) ==>
      Untouched(l, rule.keyQuery) && Untouched(l, rule.valueQuery)
    ensures forall l, k :: l in Find(c, rule.valueQuery) && k in Find(c, rule.keyQuery) ==> Diverge(l, k)
  {
    var vq := rule.valueQuery;
    var kq := rule.keyQuery;
    FindDiverge(c, vq);
    forall l | l in Find(c, vq)
      ensures Get(c, l).Some? && Untouched(l, kq) && Untouched(l, vq)
    {
      FindShape(c, vq, l);
      FindMatches(c, vq, l);
      assert Admits(vq[2], l[2]);
      UntouchedAt(l, kq, 2);
      UntouchedDeep(l, vq);
    }
    forall l, k | l in Find(c, vq) && k in Find(c, kq)
      ensures Diverge(l, k)
    {
      FindMatches(c, vq, l);
      FindMatches(c, kq, k);
      assert Admits(kq[2], k[2]) && Admits(vq[2], l[2]);
      DivergeAt(l, k, 2);
    }
  }

  /** Everything the substitution of one container establishes: the text at
      the first value match, the empty string at the others, every other
      location as it was, and the same key and value matches as before. */
  lemma SubstituteContainerWrites(c: Value, rule: Rule, groups: Groups, targets: seq<Location>, text: string)
    requires Separated(rule)
    requires Decide(c, rule) == Ok(Write(groups, targets))
    requires Substitute(rule.substitution, groups) == Ok(text)
    ensures SubstituteContainer(c, rule).Ok?
    ensures var d := SubstituteContainer(c, rule).value;
      Get(d, targets[0]) == Some(Str(text)) &&
      (forall i :: 1 <= i < |targets| ==> Get(d, targets[i]) == Some(Str(""))) &&
      (forall m :: (forall i :: 0 <= i < |targets| ==> Diverge(targets[i], m)) ==> Get(d, m) == Get(c, m)) &&
      Find(d, rule.keyQuery) == Find(c, rule.keyQuery) && Find(d, rule.valueQuery) == targets
  {
    assert SubstituteContainer(c, rule) == Ok(Fill(c, targets, text));
    RuleTargets(c, rule);
    FillWrites(c, targets, text);
    FillFind(c, targets, text, rule.keyQuery);
    FillFind(c, targets, text, rule.valueQuery);
  }

  /** With a non-empty text, exactly one value match of the container holds
      it afterwards: the first. */
  lemma TextWrittenOnce(c: Value, rule: Rule, groups: Groups, targets: seq<Location>, text: string)
    requires Separated(rule)
    requires Decide(c, rule) == Ok(Write(groups, targets))
    requires Substitute(rule.substitution, groups) == Ok(text) && text != ""
    ensures SubstituteContainer(c, rule).Ok?
    ensures forall i :: 0 <= i < |targets| ==>
      (Get(SubstituteContainer(c, rule).value, targets[i]) == Some(Str(text)) <==> i == 0)
  {
    SubstituteContainerWrites(c, rule, groups, targets, text);
  }

  lemma DecideSame(c: Value, d: Value, rule: Rule)
    requires Find(d, rule.keyQuery) == Find(c, rule.keyQuery)
    requires Find(d, rule.valueQuery) == Find(c, rule.valueQuery)
    requires Find(c, rule.keyQuery) != [] ==> Get(d, Find(c, rule.keyQuery)[0]) == Get(c, Find(c, rule.keyQuery)[0])
    ensures Decide(d, rule) == Decide(c, rule)
  {
  }

  /** Substituting an already substituted container changes nothing, and the
      rule still applies to it in the same way. */
  lemma SubstituteContainerIdempotent(c: Value, rule: Rule)
    requires Separated(rule) && SubstituteContainer(c, rule).Ok?
    ensures SubstituteContainer(SubstituteContainer(c, rule).value, rule) == SubstituteContainer(c, rule)
    ensures Decide(SubstituteContainer(c, rule).value, rule) == Decide(c, rule)
  {
    match Decide(c, rule).value
    case Skip =>
    case Write(groups, targets) =>
      var text := Substitute(rule.substitution, groups).value;
      var d := Fill(c, targets, text);
      SubstituteContainerWrites(c, rule, groups, targets, text);
      RuleTargets(c, rule);
      var keys := Find(c, rule.keyQuery);
      if keys != [] {
        assert keys[0] in keys;
        assert forall i :: 0 <= i < |targets| ==> targets[i] in targets;
      }
      DecideSame(c, d, rule);
      assert TargetsApart(d, targets) by {
        forall l | l in targets
          ensures Get(d, l).Some?
        {
          var i :| 0 <= i < |targets| && targets[i] == l;
        }
      }
      FillFixpoint(d, targets, text);
  }

  /** With a single value match the code as written and the intended code agree. */
  lemma AsWrittenAgreesOnSingleMatch(c: Value, targets: seq<Location>, text: string)
    requires |targets| == 1
    ensures FillAsWritten(c, targets, text) == Fill(c, targets, text)
  {
    RewriteFixpoint(Set(c, targets[0], Str(text)), [], Blank);
  }

  /** With two or more value matches the code as written loses the substituted
      text: the first match ends empty and the second keeps its old value,
      where the intended result holds the text at the first match and empties
      the second. */
  lemma AsWrittenLosesSubstitution(c: Value, targets: seq<Location>, text: string)
    requires TargetsApart(c, targets) && |targets| >= 2
    ensures Get(FillAsWritten(c, targets, text), targets[0]) == Some(Str(""))
    ensures Get(FillAsWritten(c, targets, text), targets[1]) == Get(c, targets[1])
    ensures Get(Fill(c, targets, text), targets[0]) == Some(Str(text))
    ensures Get(Fill(c, targets, text), targets[1]) == Some(Str(""))
    ensures text != "" ==> FillAsWritten(c, targets, text) != Fill(c, targets, text)
  {
    var t0 := targets[0];
    assert t0 in targets;
    SetSetSame(c, t0, Str(text), Str(""));
    GetSetSame(c, t0, Str(""));
    assert Diverge(t0, targets[1]);
    GetSetDiverge(c, t0, targets[1], Str(""));
    FillWrites(c, targets, text);
  }

  /** The same, for a whole container a separated rule writes to. */
  lemma AsWrittenLosesSubstitutionInContainer(c: Value, rule: Rule, groups: Groups, targets: seq<Location>, text: string)
    requires Separated(rule)
    requires Decide(c, rule) == Ok(Write(groups, targets)) && |targets| >= 2
    requires Substitute(rule.substitution, groups) == Ok(text) && text != ""
    ensures SubstituteContainerAsWritten(c, rule).Ok? && SubstituteContainer(c, rule).Ok?
    ensures SubstituteContainerAsWritten(c, rule) != SubstituteContainer(c, rule)
  {
    RuleTargets(c, rule);
    AsWrittenLosesSubstitution(c, targets, text);
  }

  // ---------------------------------------------------------------------
  // The whole layout
  // ---------------------------------------------------------------------

  /** The per-container step as the function the container loop applies. */
  function ContainerStep(rule: Rule): (f: Value -> Result<Value>)
    ensures forall c :: f(c) == SubstituteContainer(c, rule)
  {
    c => SubstituteContainer(c, rule)
  }

  /** `replace_field_value(layout, ...)` on the layout tree. */
  function Replace(layout: Value, rule: Rule): Result<Value>
  {
    Rewrite(layout, Find(layout, ContainersQuery), ContainerStep(rule))
  }

  /** The rule writes to the container (and `count` goes up). */
  predicate Writes(c: Value, rule: Rule)
  {
    Decide(c, rule).Ok? && Decide(c, rule).value.Write?
  }

  /** Number of containers, among the given matches, that the rule writes to. */
  function CountWrites(layout: Value, containers: seq<Location>, rule: Rule): nat
    decreases |containers|
  {
    if containers == [] then 0
    else
      var last := containers[|containers| - 1];
      var here := match Get(layout, last)
        case Some(c) => if Writes(c, rule) then 1 else 0
        case None => 0;
      CountWrites(layout, containers[..|containers| - 1], rule) + here
  }

  /** The value of `count` when the loop completes. */
  function Count(layout: Value, rule: Rule): nat
  {
    CountWrites(layout, Find(layout, ContainersQuery), rule)
  }

  lemma ContainersQuerySimple()
    ensures SimpleQuery(ContainersQuery) && |ContainersQuery| == 4
  {
  }

  lemma ContainersPart(layout: Value)
    ensures PairwiseDiverge(Find(layout, ContainersQuery))
    ensures forall l :: l in Find(layout, ContainersQuery) ==> |l| == 4 && Get(layout, l).Some?
  {
    ContainersQuerySimple();
    FindDiverge(layout, ContainersQuery);
    forall l | l in Find(layout, ContainersQuery)
      ensures |l| == 4 && Get(layout, l).Some?
    {
      FindShape(layout, ContainersQuery, l);
    }
  }

  /** Each visual container becomes its substituted form, and nothing outside
      the visual containers changes. */
  lemma ReplaceContainers(layout: Value, rule: Rule, d: Value)
    requires Replace(layout, rule) == Ok(d)
    ensures forall l :: l in Find(layout, ContainersQuery) ==>
      Get(layout, l).Some? && SubstituteContainer(Get(layout, l).value, rule).Ok? &&
      Get(d, l) == Some(SubstituteContainer(Get(layout, l).value, rule).value)
    ensures forall m :: (forall l :: l in Find(layout, ContainersQuery) ==> Diverge(l, m)) ==> Get(d, m) == Get(layout, m)
  {
    var cs := Find(layout, ContainersQuery);
    ContainersPart(layout);
    RewriteGetMember(layout, cs, ContainerStep(rule), d);
    RewriteGet(layout, cs, ContainerStep(rule), d);
  }

  /** The substitution fails exactly when some container's key is not a string
      or the substitution function fails for some container. */
  lemma ReplaceOk(layout: Value, rule: Rule)
    ensures Replace(layout, rule).Ok? <==>
      forall l :: l in Find(layout, ContainersQuery) ==> Get(layout, l).Some? && SubstituteContainer(Get(layout, l).value, rule).Ok?
  {
    var cs := Find(layout, ContainersQuery);
    ContainersPart(layout);
    RewriteOk(layout, cs, ContainerStep(rule));
    if Replace(layout, rule).Ok? {
      forall l | l in cs
        ensures Get(layout, l).Some? && SubstituteContainer(Get(layout, l).value, rule).Ok?
      {
        var i :| 0 <= i < |cs| && cs[i] == l;
      }
    }
  }

  /** Applying a rule a second time changes neither the layout nor the count. */
  lemma ReplaceIdempotent(layout: Value, rule: Rule, d: Value)
    requires Separated(rule) && Replace(layout, rule) == Ok(d)
    ensures Replace(d, rule) == Ok(d)
    ensures Count(d, rule) == Count(layout, rule)
  {
    var cs := Find(layout, ContainersQuery);
    var f := ContainerStep(rule);
    ContainersPart(layout);
    ReplaceContainers(layout, rule, d);
    forall i | 0 <= i < |cs|
      ensures Untouched(cs[i], ContainersQuery)
    {
      assert cs[i] in cs;
      UntouchedDeep(cs[i], ContainersQuery);
    }
    RewriteFind(layout, cs, f, d, ContainersQuery);
    forall i | 0 <= i < |cs| && Get(d, cs[i]).Some?
      ensures f(Get(d, cs[i]).value) == Ok(Get(d, cs[i]).value)
    {
      assert cs[i] in cs;
      SubstituteContainerIdempotent(Get(layout, cs[i]).value, rule);
    }
    RewriteFixpoint(d, cs, f);
    CountStable(layout, d, cs, rule);
  }

  lemma {:induction false} CountStable(layout: Value, d: Value, cs: seq<Location>, rule: Rule)
    requires Separated(rule)
    requires forall l :: l in cs ==> (Get(layout, l).Some? && SubstituteContainer(Get(layout, l).value, rule).Ok? &&
      Get(d, l) == Some(SubstituteContainer(Get(layout, l).value, rule).value))
    ensures CountWrites(d, cs, rule) == CountWrites(layout, cs, rule)
    decreases |cs|
  {
    if cs != [] {
      var last := cs[|cs| - 1];
      var pre := cs[..|cs| - 1];
      assert last in cs;
      assert forall l :: l in pre ==> l in cs;
      CountStable(layout, d, pre, rule);
      WritesStable(Get(layout, last).value, rule);
    }
  }

  /** The rule writes to a substituted container exactly when it writes to
      the original one. */
  lemma WritesStable(c: Value, rule: Rule)
    requires Separated(rule) && SubstituteContainer(c, rule).Ok?
    ensures Writes(SubstituteContainer(c, rule).value, rule) == Writes(c, rule)
  {
    SubstituteContainerIdempotent(c, rule);
  }
}
