# powercicd in Dafny

A model of the core of powercicd, a command-line tool that turns Power BI
report files into source code and deploys them. The model covers four
parts.

- **Layout conversion.** A report's layout is a JSON document. Some fields
  of its visual containers hold JSON as text (`config`, `filters`, `query`,
  `dataTransforms`). Exporting to source decodes them and blanks out the
  build values. Importing back fills in the report version and the
  PowerApps app ids, then encodes the fields again.
- **The deployment client.** It takes over a staging report, imports a
  file, waits for dataset refreshes to end, binds the dataset's datasources
  to the tenant's gateway clusters, refreshes the dataset, promotes the
  staging report to the final report, and sweeps away old reports and
  unused datasets.
- **Versioning.** The version string is built from the configured
  major/minor numbers, the commit count and a dirty flag.
- **Project root search.** The tool walks up from a start directory until it
  finds the one that holds the project file.

## How the model is organised

- **JSON and paths.**
  - `Json`, `Records` and `Results` hold JSON values, dictionaries-as-records
    and the Python exceptions, which are modelled as `Err` values.
  - `JsonText` is a serialiser and parser. Its round trip is proved.
  - `JsonPath` covers the JSONPath queries the code uses: `find` and
    `full_path.update`.
- **Layout.**
  - `LayoutCodec` decodes and encodes the layout.
  - `Placeholders` holds the key patterns, the substitutions and
    `replace_field_value` for one container.
  - `Layout` holds the whole-layout transformations. Its class
    `LayoutDocument` rewrites a layout held in a field, in place.
- **Workspace and client.**
  - The workspace is a `Remote` value. It gives the lists the REST API would
    return after a given history of calls.
  - The client is the class `PowerBiWebClient`. Its field `history` records
    every state-changing call.
  - Each client method is proved to end with exactly the history and result
    that a function of `RefreshWait`, `Cleanup` or `Deploy` describes.
  - The ordering guarantees of `deploy_report` are proved about those
    functions.
  - `deploy_report` itself is split into phase methods. Each loop is a
    method of its own, proved against a fold over a prefix of its list.
- **`DatasourceKeys` and `Datasources`** cover `build_datasource_key` and
  the partition of datasources into managed and unmanaged.
- **`Versioning`** covers `get_current_version`. **`FileUtils`** covers
  `find_parent_dir_where_exists_file`.

Where the code and its evident intent disagree, the code is modelled as
written and the corrected behaviour is modelled beside it. The rest of the
model uses the corrected behaviour. Each such case is a row under
"## Findings".

## Model

| member | source | states |
|---|---|---|
| Json.KeyIndex | powercicd/powerbi/powerbi_utils.py:52-53 | the index found holds the key and is the first such one; `None` means no member has the key |
| Records.Lookup | powercicd/powerbi/powerbi_client.py:120 | a dictionary lookup finds a value exactly when some member has the key, and the member is in the record |
| Records.Field | powercicd/powerbi/powerbi_client.py:387-388 | `d[key]` succeeds exactly when the key is present and raises `KeyError(key)` otherwise |
| Records.LookupDistinct | powercicd/powerbi/powerbi_client.py:120 | with distinct keys, a lookup yields `v` exactly when the member `key: v` is in the record |
| Records.Matching | powercicd/powerbi/powerbi_client.py:136 | a list filter on `x[field] == value` keeps exactly the matching items, and fails with `KeyError` exactly when some item lacks the field |
| Records.MatchingEmpty | powercicd/powerbi/powerbi_client.py:121-122 | the filtered list is empty exactly when no item matches |
| Records.MatchingStep | powercicd/powerbi/powerbi_client.py:120 | the filter keeps the list order: the first item, if it matches, followed by the filter of the rest |
| Records.MatchingMany | powercicd/powerbi/powerbi_client.py:123-124 | the filtered list has two or more items exactly when two distinct positions match |
| Records.MatchingOne | powercicd/powerbi/powerbi_client.py:125 | a one-item result is the only matching item of the list |
| PowerBiApi.TryGetByName | powercicd/powerbi/powerbi_client.py:117-141 | definition of the two name lookups: the items whose `Name` equals the name exactly, `None` for none, the item for one, the duplicate `ValueError` for more |
| PowerBiApi.TryGetByNameSpec | powercicd/powerbi/powerbi_client.py:117-141 | `try_get_group_by_name`/`try_get_report_by_name` return `None` exactly when no item bears the name, fail with the duplicate error exactly when two do, return the single item otherwise, and raise `KeyError` on an unnamed item |
| PowerBiApi.GetByName | powercicd/powerbi/powerbi_client.py:143-147 | `get_..._by_name` succeeds exactly when the lookup finds an item, which bears the name, and fails with "not found" when there is none |
| PowerBiApi.LookupOfPair | powercicd/powerbi/powerbi_client.py:120 | special case, used by the examples: a lookup in a two-member record with distinct keys yields the member's value or nothing |
| PowerBiApi.LookupExample | powercicd/powerbi/powerbi_client.py:117-125 | two groups named alike make the lookup fail |
| PowerBiApi.LookupUniqueExample | powercicd/powerbi/powerbi_client.py:117-125 | a uniquely named group is found, and names are compared case-sensitively |
| JsonText.Parse | powercicd/powerbi/powerbi_utils.py:105 | definition of `json.loads`: one JSON value with optional surrounding whitespace, `JSONDecodeError` otherwise |
| JsonText.Serialize | powercicd/powerbi/powerbi_utils.py:182 | definition of `json.dumps` with `separators=(",", ":")` and `ensure_ascii=False`: compact text, string escapes only where JSON needs them |
| JsonText.ParseSerialize | powercicd/powerbi/powerbi_utils.py:100-106 | `json.loads(json.dumps(v, separators=(',', ':')))` gives back `v` for every float-free JSON value |
| JsonText.ParseSerialized | powercicd/powerbi/powerbi_utils.py:105 | the parser reads a serialised value back and stops right after it, whatever delimited text follows |
| JsonText.ParseQuoted | powercicd/powerbi/powerbi_utils.py:182 | an escaped string followed by its closing quote parses back to the original string |
| JsonText.ParseSerializedItems | powercicd/powerbi/powerbi_utils.py:105 | a serialised non-empty array body parses back to its items |
| JsonText.ParseSerializedMembers | powercicd/powerbi/powerbi_utils.py:105 | a serialised non-empty object body parses back to its members, in order |
| JsonText.ParseIntText | powercicd/powerbi/powerbi_utils.py:105 | a serialised integer parses back to that integer |
| JsonText.SkipWhitespace | powercicd/powerbi/powerbi_utils.py:105 | the result is no longer than the input and is empty or starts with a non-whitespace character |
| JsonText.SkipWhitespaceSkipsOnly | powercicd/powerbi/powerbi_utils.py:105 | the result is a suffix of the input and every character dropped is whitespace |
| JsonText.IntText | powercicd/config.py:44-48 | the decimal text of an integer is non-empty and starts with `-` exactly for negatives |
| JsonPath.Get | powercicd/powerbi/powerbi_utils.py:101-106 | definition: the value at a full path, absent when some step does not exist |
| JsonPath.Set | powercicd/powerbi/powerbi_utils.py:75 | definition of `full_path.update`: the value at the path is replaced, nothing when the path does not exist |
| JsonPath.Find | powercicd/powerbi/powerbi_utils.py:101-102 | definition of `parse(q).find(v)` for the queries the code uses: full paths of all matches, in the library's order |
| JsonPath.Rewrite | powercicd/powerbi/powerbi_utils.py:102-106 | definition of the update loop over found matches: each path gets `f` of the value matched, and the first failure ends the loop |
| JsonPath.GetSetSame | powercicd/powerbi/powerbi_utils.py:75 | after `path.update(v, x)` at an existing path, reading that path gives `x` |
| JsonPath.GetSetDiverge | powercicd/powerbi/powerbi_utils.py:75 | an update at one path leaves every diverging path unchanged |
| JsonPath.SetSetSame | powercicd/powerbi/powerbi_utils.py:75-79 | a second update of a path overwrites the first |
| JsonPath.SetGetSame | powercicd/powerbi/powerbi_utils.py:75 | writing back the value a path holds changes nothing |
| JsonPath.SetCommute | powercicd/powerbi/powerbi_utils.py:102-106 | updates at diverging paths commute |
| JsonPath.Select | powercicd/powerbi/powerbi_utils.py:101 | one selector step yields exactly the admitted children that exist, without repeats |
| JsonPath.PresentKeys | powercicd/powerbi/powerbi_utils.py:101 | a field list `[a,b,…]` selects exactly the listed keys that are present |
| JsonPath.Extend | powercicd/powerbi/powerbi_utils.py:48 | prefixing a step onto found paths keeps their number and order |
| JsonPath.FindMatches | powercicd/powerbi/powerbi_utils.py:101-102 | `find` yields exactly the paths that conform to the query and exist in the document |
| JsonPath.FindShape | powercicd/powerbi/powerbi_utils.py:47 | every found path has one step per selector and exists |
| JsonPath.FindDistinct | powercicd/powerbi/powerbi_utils.py:102 | a query whose field lists have no repeats finds no path twice |
| JsonPath.FindDiverge | powercicd/powerbi/powerbi_utils.py:102-106 | the paths such a query finds pairwise diverge, so updating one leaves the others alone |
| JsonPath.FindSet | powercicd/powerbi/powerbi_utils.py:102-106 | an update at or below a found path does not change what the query finds |
| JsonPath.RewriteOk | powercicd/powerbi/powerbi_utils.py:102-106 | the rewrite loop succeeds exactly when the function succeeds on every found value |
| JsonPath.RewriteGet | powercicd/powerbi/powerbi_utils.py:102-106 | after the loop each found path holds the function of its original value, and every other path is unchanged |
| JsonPath.RewriteErrPrefix | powercicd/powerbi/powerbi_utils.py:102-106 | once one step of the loop fails, the rest of the list does not change the outcome |
| JsonPath.RewriteGetMember | powercicd/powerbi/powerbi_utils.py:102-106 | every listed path ends holding the function of the value it first held |
| JsonPath.RewriteKeepsRest | powercicd/powerbi/powerbi_utils.py:102-106 | a rewrite loop leaves every location that is apart from all the listed paths unchanged |
| JsonPath.RewriteFind | powercicd/powerbi/powerbi_utils.py:102-106 | rewriting at or below the found paths does not change what the query finds |
| JsonPath.RewriteFixpoint | powercicd/powerbi/powerbi_utils.py:102-106 | a loop whose function leaves every value unchanged leaves the document unchanged |
| JsonPath.RewriteSet | powercicd/powerbi/powerbi_utils.py:75-79 | an update at a path apart from all rewritten paths commutes with the rewrite |
| JsonPath.RewriteInverse | powercicd/powerbi/powerbi_utils.py:102-106 | rewriting with `g` after `f`, where `g` undoes `f`, restores the document |
| LayoutCodec.DecodeLayout | powercicd/powerbi/powerbi_utils.py:100-106 | definition: `json.loads` applied to every `config`, `filters`, `query` and `dataTransforms` field of every visual container |
| LayoutCodec.EncodeLayout | powercicd/powerbi/powerbi_utils.py:177-183 | definition: compact `json.dumps` applied to the same fields |
| LayoutCodec.CodecQuerySimple | powercicd/powerbi/powerbi_utils.py:101 | the codec query `$.sections[*].visualContainers[*][config,filters,query,dataTransforms]` has five steps and no repeated field |
| LayoutCodec.DecodeEncodeField | powercicd/powerbi/powerbi_utils.py:182 | encoding one field always succeeds, and decoding the result gives the field back |
| LayoutCodec.CodecMatchesPart | powercicd/powerbi/powerbi_utils.py:101-102 | the codec's matches are pairwise apart, five steps deep and present |
| LayoutCodec.DecodeLayoutOk | powercicd/powerbi/powerbi_utils.py:100-106 | decoding succeeds exactly when every matched field is a string holding valid JSON |
| LayoutCodec.DecodeLayoutFields | powercicd/powerbi/powerbi_utils.py:100-106 | after decoding, each matched field was a string of valid JSON and holds the parse of its text |
| LayoutCodec.DecodeLayoutKeepsRest | powercicd/powerbi/powerbi_utils.py:100-106 | decoding leaves every location outside the matched fields unchanged |
| LayoutCodec.EncodeLayoutFields | powercicd/powerbi/powerbi_utils.py:177-183 | after encoding, each matched field holds the compact text of its value |
| LayoutCodec.EncodeLayoutKeepsRest | powercicd/powerbi/powerbi_utils.py:177-183 | encoding leaves every location outside the matched fields unchanged |
| LayoutCodec.CodecFindStable | powercicd/powerbi/powerbi_utils.py:102-106 | rewriting the matched fields does not change which fields match |
| LayoutCodec.DecodeEncodeLayout | powercicd/powerbi/powerbi_utils.py:177-183 | decoding an encoded layout gives back the layout |
| LayoutCodec.EncodeLayoutRewrite | powercicd/powerbi/powerbi_utils.py:179-183 | the encoding is the rewrite loop with the field encoder, and it cannot fail |
| LayoutCodec.FieldCodecInverse | powercicd/powerbi/powerbi_utils.py:102-106 | decoding at the locations an encode rewrote restores the original |
| Placeholders.SubstituteContainer | powercicd/powerbi/powerbi_utils.py:52-82 | definition of one pass of the container loop: skip on a missing or non-matching key or a missing value, otherwise write the substitution |
| Placeholders.Fill | powercicd/powerbi/powerbi_utils.py:74-79 | definition of the intended writes: the text at the first value match, `""` at every further one |
| Placeholders.FillAsWritten | powercicd/powerbi/powerbi_utils.py:74-79 | definition of the writes as written: the text, then `""`, both at the first match |
| Placeholders.Replace | powercicd/powerbi/powerbi_utils.py:30-87 | definition of `replace_field_value` on the layout tree: every visual container substituted in order |
| Placeholders.Line | powercicd/powerbi/powerbi_utils.py:58 | the text `$` anchors on: the key itself, or the key without one final newline |
| Placeholders.LastOccurrence | powercicd/powerbi/powerbi_utils.py:124 | the greedy `.*` ends at the last occurrence of the pattern before the limit, and there is none after it |
| Placeholders.MatchVersion | powercicd/powerbi/powerbi_utils.py:154 | `^.*\[\[\[report_version\]\]\].*$` matches exactly a newline-free key containing the marker, with no groups |
| Placeholders.AppSpan | powercicd/powerbi/powerbi_utils.py:173 | the app pattern's split is the greedy one, and there is none exactly when no split exists |
| Placeholders.MatchApp | powercicd/powerbi/powerbi_utils.py:173 | the app pattern matches exactly a newline-free key with `[[[powerapps:` before a later `]]]`, and `app_name` is the greedy span between them |
| Placeholders.MatchMarkedApp | powercicd/powerbi/powerbi_utils.py:124 | a key `[[[powerapps:NAME]]]` yields the group `app_name = NAME` |
| Placeholders.AppPath | powercicd/powerbi/powerbi_utils.py:161-167 | a known app name maps to `'/providers/Microsoft.PowerApps/apps/<id>'`, and an unknown one to the fixed placeholder GUID |
| Placeholders.ConstantIgnoresGroups | powercicd/powerbi/powerbi_utils.py:22-27 | the function that `constant_fn_factory` builds returns its constant whatever the groups |
| Placeholders.AppPathId | powercicd/powerbi/powerbi_utils.py:165-167 | the app path is the fixed prefix, then the id, then a closing quote |
| Placeholders.AppPathInjective | powercicd/powerbi/powerbi_utils.py:161-167 | two known names get the same path only if they have the same id |
| Placeholders.AppPathExample | unit_tests/test_powerbi_utils.py:50-67 | the test's app name is substituted by the path to its configured id |
| Placeholders.RulesSeparated | powercicd/powerbi/powerbi_utils.py:111-175 | in all four rules the key field (`altText`) and the value fields lie apart, so writing values never changes the key |
| Placeholders.Decide | powercicd/powerbi/powerbi_utils.py:52-69 | a write decision targets exactly the value matches, and there is at least one |
| Placeholders.FillRewrite | powercicd/powerbi/powerbi_utils.py:74-79 | the corrected fill writes the text at the first match, then blanks each other match |
| Placeholders.FillWrites | powercicd/powerbi/powerbi_utils.py:74-79 | after the corrected fill, the first match holds the text, the others hold "", and the rest of the container is unchanged |
| Placeholders.FillFind | powercicd/powerbi/powerbi_utils.py:74-79 | filling does not change what any query finds |
| Placeholders.FillFixpoint | powercicd/powerbi/powerbi_utils.py:74-79 | filling a container that already holds the text and blanks changes nothing |
| Placeholders.RuleTargets | powercicd/powerbi/powerbi_utils.py:52-79 | a rule's value matches are apart from each other and from its key matches |
| Placeholders.SubstituteContainerWrites | powercicd/powerbi/powerbi_utils.py:52-82 | a container whose key matches is rewritten with the substitution's text at the first value match and blanks at the others |
| Placeholders.TextWrittenOnce | powercicd/powerbi/powerbi_utils.py:77-79 | after substitution the text appears at exactly one value match |
| Placeholders.DecideSame | powercicd/powerbi/powerbi_utils.py:52-61 | substituting never changes the key, so the decision for the container stays the same |
| Placeholders.SubstituteContainerIdempotent | powercicd/powerbi/powerbi_utils.py:47-82 | substituting a container twice is the same as substituting it once |
| Placeholders.AsWrittenAgreesOnSingleMatch | powercicd/powerbi/powerbi_utils.py:74-79 | with a single value match, the code as written and the corrected fill agree |
| Placeholders.AsWrittenLosesSubstitution | powercicd/powerbi/powerbi_utils.py:75-79 | with two or more matches, the code as written blanks the first match and leaves the second unchanged |
| Placeholders.AsWrittenLosesSubstitutionInContainer | powercicd/powerbi/powerbi_utils.py:74-79 | in a whole container with two value matches, the as-written substitution differs from the intended one |
| Placeholders.ContainersPart | powercicd/powerbi/powerbi_utils.py:41-47 | `$.sections[*].visualContainers[*]` finds present containers, four steps deep and pairwise apart |
| Placeholders.ReplaceContainers | powercicd/powerbi/powerbi_utils.py:47-82 | `replace_field_value` leaves each container substituted and everything outside the containers unchanged |
| Placeholders.ReplaceOk | powercicd/powerbi/powerbi_utils.py:30-87 | `replace_field_value` succeeds exactly when every container's substitution does |
| Placeholders.ReplaceIdempotent | powercicd/powerbi/powerbi_utils.py:30-87 | replacing twice is the same as replacing once, and the count of substitutions is the same |
| Placeholders.CountStable | powercicd/powerbi/powerbi_utils.py:82 | the count of substitutions is unchanged by a replacement |
| Placeholders.WritesStable | powercicd/powerbi/powerbi_utils.py:74-82 | a rule writes to a substituted container exactly when it writes to the original |
| Layout.RemoveBuildValues | powercicd/powerbi/powerbi_utils.py:109-126 | definition: the version rule, then the app rule, with the build-script placeholders |
| Layout.InsertBuildValues | powercicd/powerbi/powerbi_utils.py:148-175 | definition: the version rule with the report version, then the app rule with `powerapps_id_by_name_fn` |
| Layout.OriginalToSource | powercicd/powerbi/powerbi_utils.py:100-126 | definition of `convert_original_to_src_layout` on the tree: decode, then remove build values |
| Layout.SourceToOriginal | powercicd/powerbi/powerbi_utils.py:148-183 | definition of `convert_src_code_to_original_layout` on the tree: insert build values, then encode |
| Layout.SourceToOriginalDecodes | powercicd/powerbi/powerbi_utils.py:148-183 | the conversion back to the original succeeds exactly when the insertions do, and the result decodes to the inserted layout |
| Layout.RemoveBuildValuesRuleIdempotent | powercicd/powerbi/powerbi_utils.py:109-126 | a layout with its build values removed is left unchanged by the version rule, and the app rule is idempotent |
| Layout.FillContainer | powercicd/powerbi/powerbi_utils.py:74-79 | the in-place loop over the value matches ends with the corrected fill |
| Layout.SubstituteInContainer | powercicd/powerbi/powerbi_utils.py:52-82 | returns the error, "no change", or the new container, exactly as the container substitution does |
| Layout.LayoutDocument.constructor | powercicd/powerbi/powerbi_utils.py:146 | the document holds the loaded layout |
| Layout.LayoutDocument.DecodeStrings | powercicd/powerbi/powerbi_utils.py:100-106 | the layout is replaced by its decoding, or the error is returned |
| Layout.LayoutDocument.EncodeStrings | powercicd/powerbi/powerbi_utils.py:177-183 | the layout is replaced by its encoding |
| Layout.LayoutDocument.ReplaceFieldValue | powercicd/powerbi/powerbi_utils.py:30-87 | the layout is replaced by the replacement of every container, and the count returned is the number of containers written |
| Layout.LayoutDocument.ConvertOriginalToSource | powercicd/powerbi/powerbi_utils.py:90-126 | the layout is decoded and then its build values are removed |
| Layout.LayoutDocument.ConvertSourceToOriginal | powercicd/powerbi/powerbi_utils.py:137-183 | the version and app ids are inserted, then the layout is encoded |
| Layout.ReplaceNextMissing | powercicd/powerbi/powerbi_utils.py:47-50 | a container path that no longer exists leaves the loop state and the count unchanged |
| Layout.ReplaceNextFails | powercicd/powerbi/powerbi_utils.py:52-82 | a container whose substitution fails ends the whole replacement with that error |
| Layout.ReplaceNextSkips | powercicd/powerbi/powerbi_utils.py:54-69 | a container that is skipped leaves the layout and the count unchanged |
| Layout.ReplaceNextWrites | powercicd/powerbi/powerbi_utils.py:71-82 | a container that is written is stored back and counted once |
| Layout.NextContainerUnchanged | powercicd/powerbi/powerbi_utils.py:47-49 | containers not yet visited still hold their original value |
| Versioning.CurrentVersion | powercicd/config.py:44-48 | definition of `get_current_version`: `major.minor.build` with `build = count_commits - build_ground`, `M` appended when the tree has changes |
| Versioning.FirstIndex | powercicd/config.py:44-48 | the first position of a character, or none at all |
| Versioning.ReadIntText | powercicd/config.py:44-48 | the decimal text of an integer reads back to it |
| Versioning.IntTextShape | powercicd/config.py:47-48 | an integer's text has no dot and ends in a digit |
| Versioning.FirstDotAfter | powercicd/config.py:47-48 | in `a.rest`, the first dot is right after `a` |
| Versioning.ReadNumbersOf | powercicd/config.py:47-48 | `major.minor.build` reads back to its three numbers |
| Versioning.BaseEndsInDigit | powercicd/config.py:48 | the clean version ends in a digit, so the `M` flag cannot be confused with it |
| Versioning.ReadMarked | powercicd/config.py:45-48 | a trailing `M` is read as the dirty flag |
| Versioning.ReadCurrentVersion | powercicd/config.py:37-50 | the version string gives back major, minor, `count_commits - build_ground` and the dirty flag |
| Versioning.CurrentVersionInjective | powercicd/config.py:37-50 | two versions are equal only when major, minor, build number and dirty flag are |
| Versioning.CurrentVersionShape | powercicd/config.py:45-48 | the version starts with `major.minor.` and ends in `M` exactly when the tree is dirty |
| Versioning.NegativeBuildExample | powercicd/config.py:44 | a build ground above the commit count gives a negative build number |
| Versioning.CleanAndDirtyExample | powercicd/config.py:44-48 | 137 commits over a ground of 100 give `1.2.37`, or `1.2.37M` when dirty |
| FileUtils.Normpath | powercicd/powerbi/file_utils.py:5 | definition of `os.path.normpath`: empty and `.` parts dropped, `..` resolved where a parent exists |
| FileUtils.Dirname | powercicd/powerbi/file_utils.py:11 | definition of `os.path.dirname` on a normal path; the dirname of `/` is `/` |
| FileUtils.Search | powercicd/powerbi/file_utils.py:4-15 | definition of the corrected walk: the first folder upwards holding the file, or the "not found" exception |
| FileUtils.WalkAsWritten | powercicd/powerbi/file_utils.py:7-15 | definition of the loop as written, bounded by fuel: steps to the dirname unconditionally |
| FileUtils.NormStepNormal | powercicd/powerbi/file_utils.py:5 | one normalisation step keeps a normal path normal |
| FileUtils.NormpathNormal | powercicd/powerbi/file_utils.py:5 | `os.path.normpath` yields a normal path: no `.`, no empty part, and `..` only leading a relative path |
| FileUtils.NormpathOfNormal | powercicd/powerbi/file_utils.py:5 | a normal path is its own normalisation |
| FileUtils.NormpathIdempotent | powercicd/powerbi/file_utils.py:5 | normalising twice is normalising once |
| FileUtils.ParentOfPrefix | powercicd/powerbi/file_utils.py:7-11 | the loop's `dirname` walks one part up, until the empty relative path ends the loop |
| FileUtils.ParentIsDirnameBelowRoot | powercicd/powerbi/file_utils.py:11 | below the root, the corrected parent is `os.path.dirname` |
| FileUtils.SearchFindsDeepest | powercicd/powerbi/file_utils.py:4-15 | the search returns the deepest ancestor holding the file, and fails with "not found in any parent directory" exactly when none does |
| FileUtils.FindParentDir | powercicd/powerbi/file_utils.py:4-15 | the loop over the normalised start path returns the search's result |
| FileUtils.AsWrittenLoopsOnAbsolute | powercicd/powerbi/file_utils.py:7-11 | from an absolute path with no ancestor holding the file, the loop as written never ends |
| FileUtils.AsWrittenLoopsFromRoot | powercicd/powerbi/file_utils.py:7-11 | from `/`, with no file, the loop as written never ends |
| FileUtils.AsWrittenAgreesOnRelative | powercicd/powerbi/file_utils.py:4-15 | on relative paths, the loop as written ends with the search's result |
| DatasourceKeys.BuildKey | powercicd/powerbi/powerbi_client.py:30-31 | definition of `build_datasource_key`: the stripped string fields in sorted key order, joined with `_` |
| DatasourceKeys.BeforeIrreflexive | powercicd/powerbi/powerbi_client.py:31 | the string order of `sorted` is irreflexive |
| DatasourceKeys.BeforeTransitive | powercicd/powerbi/powerbi_client.py:31 | the string order is transitive |
| DatasourceKeys.BeforeTotal | powercicd/powerbi/powerbi_client.py:31 | the string order is total |
| DatasourceKeys.BeforeAsymmetric | powercicd/powerbi/powerbi_client.py:31 | the string order is asymmetric |
| DatasourceKeys.SortedUnique | powercicd/powerbi/powerbi_client.py:401-402 | two strictly sorted lists with the same elements are equal, so `sorted` of a set is determined by the set |
| DatasourceKeys.Insert | powercicd/powerbi/powerbi_client.py:31 | insertion adds exactly the new element |
| DatasourceKeys.InsertSorted | powercicd/powerbi/powerbi_client.py:31 | insertion keeps a list strictly sorted |
| DatasourceKeys.SortStrings | powercicd/powerbi/powerbi_client.py:401-402 | `sorted(set(...))` is strictly sorted and has exactly the given elements |
| DatasourceKeys.Filter | powercicd/powerbi/powerbi_client.py:31 | the filter keeps exactly the elements satisfying the test |
| DatasourceKeys.FilterSorted | powercicd/powerbi/powerbi_client.py:31 | filtering keeps a list sorted |
| DatasourceKeys.Leading | powercicd/powerbi/powerbi_client.py:31 | the number of leading spaces and slashes that `strip(" /")` removes |
| DatasourceKeys.Trailing | powercicd/powerbi/powerbi_client.py:31 | the number of trailing spaces and slashes that `strip(" /")` removes |
| DatasourceKeys.Strip | powercicd/powerbi/powerbi_client.py:31 | `strip(" /")` removes exactly the leading and trailing spaces and slashes |
| DatasourceKeys.StripIdempotent | powercicd/powerbi/powerbi_client.py:31 | stripping twice is stripping once |
| DatasourceKeys.SortedStringFields | powercicd/powerbi/powerbi_client.py:31 | the key uses exactly the keys with string values, in sorted order |
| DatasourceKeys.KeyParts | powercicd/powerbi/powerbi_client.py:31 | each part of the key is the stripped value of the matching sorted string field |
| DatasourceKeys.KeyDependsOnlyOnStringFields | powercicd/powerbi/powerbi_client.py:30-31 | datasources with the same string fields get the same key |
| DatasourceKeys.KeyIgnoresFieldOrder | powercicd/powerbi/powerbi_client.py:30-31 | reordering a datasource's fields does not change its key |
| DatasourceKeys.ExampleFields | powercicd/powerbi/powerbi_client.py:31 | example: the sample datasource's string fields are `database` and `server` |
| DatasourceKeys.ExampleStrips | powercicd/powerbi/powerbi_client.py:31 | example: `" srv/ "` and `"/db"` strip to `srv` and `db` |
| DatasourceKeys.ExampleSameStrings | powercicd/powerbi/powerbi_client.py:31 | example: the sample and its reordering with an extra integer field share their string fields |
| DatasourceKeys.ExampleParts | powercicd/powerbi/powerbi_client.py:31 | example: the sample's key parts are `db`, `srv` |
| DatasourceKeys.JoinTwo | powercicd/powerbi/powerbi_client.py:31 | special case, used by the examples: `"_".join` of two parts puts the separator between them |
| DatasourceKeys.JoinExample | powercicd/powerbi/powerbi_client.py:31 | `"_".join(["db", "srv"])` is `db_srv` |
| DatasourceKeys.BuildKeyExample | powercicd/powerbi/powerbi_client.py:30-31 | both samples get the key `db_srv`; the integer field is ignored |
| Datasources.ByKey | powercicd/powerbi/powerbi_client.py:399-400 | definition of the key dictionaries: a later datasource with the same key replaces an earlier one |
| Datasources.PartitionKeys | powercicd/powerbi/powerbi_client.py:399-402 | definition of `unmanaged_datasource_keys` and `managed_datasource_keys` |
| Datasources.ManagedByCluster | powercicd/powerbi/powerbi_client.py:403-407 | definition of `managed_datasource_by_gateway_id` |
| Datasources.KeyList | powercicd/powerbi/powerbi_client.py:399-400 | the keys of the list, one per datasource, in order |
| Datasources.ByKeyLast | powercicd/powerbi/powerbi_client.py:399-400 | the dictionary comprehension maps exactly the keys that occur, each to the last datasource with that key |
| Datasources.PartitionSpec | powercicd/powerbi/powerbi_client.py:399-402 | the unmanaged and managed keys are sorted, disjoint and cover the dataset's keys: those the tenant lacks and those it has |
| Datasources.ManagedKeysCanonical | powercicd/powerbi/powerbi_client.py:402 | any strictly sorted list of the shared keys is the managed list |
| Datasources.DictIndex | powercicd/powerbi/powerbi_client.py:403-407 | the position of a key in an ordered dictionary, or none |
| Datasources.DictPut | powercicd/powerbi/powerbi_client.py:403-407 | a dictionary store keeps keys distinct and in first-insertion order, replaces the value of an existing key, and appends a new one |
| Datasources.Entry | powercicd/powerbi/powerbi_client.py:404 | an entry pairs a managed key's tenant datasource with its `ClusterId` |
| Datasources.MapResults | powercicd/powerbi/powerbi_client.py:403-407 | the comprehension succeeds exactly when every element does, and keeps the order |
| Datasources.DictOf | powercicd/powerbi/powerbi_client.py:403-407 | the dictionary built from pairs has distinct keys |
| Datasources.DictOfCovers | powercicd/powerbi/powerbi_client.py:403-407 | every key assigned is in the dictionary |
| Datasources.DictOfLastWins | powercicd/powerbi/powerbi_client.py:403-407 | each key holds the last value assigned to it |
| Datasources.ManagedByClusterOk | powercicd/powerbi/powerbi_client.py:403-407 | the dictionary by gateway id is built exactly when every managed tenant datasource has a `ClusterId` |
| Datasources.ManagedByClusterCovers | powercicd/powerbi/powerbi_client.py:403-407 | every managed key's cluster is a key of the dictionary, and the keys are distinct |
| Datasources.ManagedByClusterLastWins | powercicd/powerbi/powerbi_client.py:403-407 | for each cluster, the dictionary keeps the datasource of its last managed key |
| RefreshWait.ActiveRefreshes | powercicd/powerbi/powerbi_client.py:157 | definition of the intended selection: the refreshes whose `status` is `Unknown` |
| RefreshWait.ActiveRefreshesAsWritten | powercicd/powerbi/powerbi_client.py:157 | definition of the selection as written: `r.status` on a dictionary raises `AttributeError` |
| RefreshWait.Waited | powercicd/powerbi/powerbi_client.py:150-162 | definition of the wait loop over clock readings and polls: timeout, poll error, return when idle, else sleep and poll again |
| RefreshWait.PollUntilIdle | powercicd/powerbi/powerbi_client.py:150-161 | the polling loop returns exactly what the wait specification gives: the timeout, the error of a poll, or the number of polls when one finds nothing running |
| RefreshWait.ElapsedGrows | powercicd/powerbi/powerbi_client.py:153-162 | each poll adds at least the polling interval to the elapsed time |
| RefreshWait.WaitedSkipsBusy | powercicd/powerbi/powerbi_client.py:152-162 | polls that find refreshes still running do not change how the wait ends |
| RefreshWait.WaitedReachesIdle | powercicd/powerbi/powerbi_client.py:152-162 | every wait reaches a first poll that is not busy |
| RefreshWait.WaitedOk | powercicd/powerbi/powerbi_client.py:152-160 | the wait returns after `k+1` polls exactly when polls `0..k-1` were busy and poll `k` came in time and found nothing in status `Unknown` |
| RefreshWait.WaitedTimesOut | powercicd/powerbi/powerbi_client.py:153-154 | once more than 20 hours pass with every poll busy, the wait raises the timeout error |
| RefreshWait.WaitedFailsWithPoll | powercicd/powerbi/powerbi_client.py:156-157 | a poll whose refreshes cannot be read ends the wait with that error |
| RefreshWait.WaitedPollBound | powercicd/powerbi/powerbi_client.py:150-162 | a successful wait polls at least once and at most `Timeout / Polling + 1` times |
| RefreshWait.AsWrittenWaitNeedsEmptyHistory | powercicd/powerbi/powerbi_client.py:157 | as written, the wait returns only on an empty refresh history, and any refresh raises `AttributeError` |
| RefreshWait.FinishedRefreshExample | powercicd/powerbi/powerbi_client.py:156-160 | one completed refresh: the intended wait returns after one poll, and the code as written fails |
| Cleanup.DeleteReports | powercicd/powerbi/powerbi_client.py:345-352 | definition of the report deletion loop |
| Cleanup.DeleteDatasets | powercicd/powerbi/powerbi_client.py:358-365 | definition of the dataset deletion loop |
| Cleanup.CleanupRun | powercicd/powerbi/powerbi_client.py:338-365 | definition of `cleanup_reports`: the report sweep, then the dataset sweep over re-fetched lists |
| Cleanup.NameText | powercicd/powerbi/powerbi_client.py:344 | `re.match(..., r["Name"])` reads the name, which must be present and a string |
| Cleanup.ReportsToDelete | powercicd/powerbi/powerbi_client.py:343-344 | the doomed reports are exactly those whose name matches and is not excluded; a missing or non-string name raises |
| Cleanup.DeleteReportsSpec | powercicd/powerbi/powerbi_client.py:345-352 | the loop deletes the doomed reports in order, and stops with `KeyError("Id")` at the first report without an id |
| Cleanup.DeleteReportsStuck | powercicd/powerbi/powerbi_client.py:345-346 | once the loop has raised, the remaining reports change nothing |
| Cleanup.ReferencedDatasetIds | powercicd/powerbi/powerbi_client.py:355 | the set of referenced ids is exactly the `DatasetId`s of the reports, and fails when one is missing or unhashable |
| Cleanup.DatasetsToDelete | powercicd/powerbi/powerbi_client.py:357 | the doomed datasets are exactly those whose id no report references |
| Cleanup.DeleteDatasetsStuck | powercicd/powerbi/powerbi_client.py:358-359 | once the loop has raised, the remaining datasets change nothing |
| Cleanup.DatasetPassExtends | powercicd/powerbi/powerbi_client.py:358-365 | one pass of the dataset loop extends the in-order deletions or stops with the `KeyError` |
| Cleanup.DeleteDatasetsSpec | powercicd/powerbi/powerbi_client.py:358-365 | the loop deletes the doomed datasets in order, and stops at the first without an id or a name |
| Cleanup.ReportSweepExact | powercicd/powerbi/powerbi_client.py:343-352 | a sweep that ends normally deletes exactly the selected reports |
| Cleanup.UnreferencedIff | powercicd/powerbi/powerbi_client.py:355-357 | a dataset is unreferenced exactly when its id is not in the referenced set |
| Cleanup.DatasetDeletionsExact | powercicd/powerbi/powerbi_client.py:354-365 | a dataset sweep that ends normally deletes exactly the datasets no report uses |
| Cleanup.DeletedDatasetsUnreferenced | powercicd/powerbi/powerbi_client.py:354-365 | every dataset the sweep deletes is used by no report |
| Cleanup.UnreferencedDatasetsDeleted | powercicd/powerbi/powerbi_client.py:354-365 | every dataset that no report uses is deleted |
| Cleanup.DatasetSweepExact | powercicd/powerbi/powerbi_client.py:354-365 | the second sweep, over freshly fetched lists, deletes exactly the unused datasets |
| Cleanup.CleanupExact | powercicd/powerbi/powerbi_client.py:338-365 | a cleanup that ends normally deletes exactly the selected reports, then exactly the datasets that no remaining report uses |
| Cleanup.CleanupSparesExcluded | powercicd/powerbi/powerbi_client.py:338-352 | whatever happens, the cleanup only deletes, and every report it deletes matches the pattern and is not excluded |
| Cleanup.DatasetSweepPrefix | powercicd/powerbi/powerbi_client.py:354-365 | the dataset sweep only appends dataset deletions |
| Deploy.WaitStep | powercicd/powerbi/powerbi_client.py:150-162 | a wait adds its end to the history exactly when it succeeds, and fails exactly when the wait fails |
| Deploy.ImportStaging | powercicd/powerbi/powerbi_client.py:384-392 | the import is recorded before anything that follows it |
| Deploy.UploadPhase | powercicd/powerbi/powerbi_client.py:378-392 | the upload only appends to the history |
| Deploy.UploadTakesOverFirst | powercicd/powerbi/powerbi_client.py:378-384 | an existing staging report is taken over right before the import |
| Deploy.UploadImportsFirst | powercicd/powerbi/powerbi_client.py:378-384 | without a staging report, the import is the first call |
| Deploy.ParametersPhase | powercicd/powerbi/powerbi_client.py:393-394 | the corrected parameter update records one update of the dataset when parameters are given, and nothing otherwise |
| Deploy.ParametersPhaseAsWritten | powercicd/powerbi/powerbi_client.py:393-394 | definition of the parameter update as written |
| Deploy.ParametersAsWrittenAlwaysFail | powercicd/powerbi/powerbi_client.py:394 | as written, any given parameters raise `TypeError` without a call; the corrected update records the call |
| Deploy.BindAll | powercicd/powerbi/powerbi_client.py:411-413 | definition of the corrected binding loop over `managed_datasource_by_gateway_id.items()` |
| Deploy.BindAllStuck | powercicd/powerbi/powerbi_client.py:411-413 | once a binding has raised, the remaining gateways change nothing |
| Deploy.BindPassExtends | powercicd/powerbi/powerbi_client.py:411-413 | one pass binds the next gateway to its datasource's id, or stops with `KeyError` |
| Deploy.BindAllSpec | powercicd/powerbi/powerbi_client.py:411-413 | the corrected loop binds each gateway, in dictionary order, to its datasource's id, stopping at the first without an id |
| Deploy.BindAsWrittenFails | powercicd/powerbi/powerbi_client.py:411-412 | as written, iterating a datasource dictionary yields its keys, and `ds["Id"]` on a string raises `TypeError` |
| Deploy.BindAsWrittenOnlyFailsOnStrings | powercicd/powerbi/powerbi_client.py:412 | the only error of the loop as written is that `TypeError` |
| Deploy.ManagedBindingAsWrittenFails | powercicd/powerbi/powerbi_client.py:403-413 | as written, any managed datasource makes the binding fail |
| Deploy.BindPhase | powercicd/powerbi/powerbi_client.py:397-413 | the binding only appends to the history |
| Deploy.RefreshPhase | powercicd/powerbi/powerbi_client.py:416-422 | the refresh only appends to the history |
| Deploy.RefreshCalls | powercicd/powerbi/powerbi_client.py:416-422 | the refresh phase records nothing, or a wait and a trigger when the second wait fails, or on success a wait, a trigger, a wait and the schedule call exactly when a schedule is given |
| Deploy.RefreshBracketed | powercicd/powerbi/powerbi_client.py:416-422 | the refresh is triggered right after a wait, is followed by a wait, and a normal end records wait, trigger, wait and the schedule |
| Deploy.PromoteExisting | powercicd/powerbi/powerbi_client.py:425-432 | promoting onto an existing final report only appends to the history |
| Deploy.PromoteExistingAsWritten | powercicd/powerbi/powerbi_client.py:425-432 | definition of the promotion onto an existing report as written, with the content update reversed |
| Deploy.PromoteExistingOrder | powercicd/powerbi/powerbi_client.py:425-432 | the corrected promotion copies the staging report into the final one, but the code as written copies the final into the staging one |
| Deploy.PromoteExistingCalls | powercicd/powerbi/powerbi_client.py:425-432 | once the wait on the final report's dataset ends, the promotion records take over, wait end, content update from staging to final, rebind |
| Deploy.PromoteExistingAsWrittenCalls | powercicd/powerbi/powerbi_client.py:431 | as written, the same calls but with the content update from the final report into the staging report |
| Deploy.PromoteNewWith | powercicd/powerbi/powerbi_client.py:433-437 | the clone branch records exactly one clone under the final name |
| Deploy.PromoteNew | powercicd/powerbi/powerbi_client.py:433-437 | definition of the intended clone step, reading `Id` and `DatasetId` |
| Deploy.PromoteNewAsWrittenFails | powercicd/powerbi/powerbi_client.py:436-437 | on a clone whose record has `Id` and `DatasetId`, the corrected branch succeeds and the code as written raises `KeyError("id")` |
| Deploy.PromotePhase | powercicd/powerbi/powerbi_client.py:424-437 | the promotion only appends to the history |
| Deploy.CleanupPhase | powercicd/powerbi/powerbi_client.py:439-441 | the cleanup step only appends to the history |
| Deploy.AfterBind | powercicd/powerbi/powerbi_client.py:415-441 | the steps after the binding only append to the history |
| Deploy.DeployRun | powercicd/powerbi/powerbi_client.py:368-441 | the deployment extends the history its upload leaves |
| Deploy.ExtendsChain | powercicd/powerbi/powerbi_client.py:368-441 | extending an extension is an extension |
| Deploy.AppendQuiet | powercicd/powerbi/powerbi_client.py:368-441 | appending calls that neither trigger nor delete adds no trigger and no deletion |
| Deploy.NoTriggerChain | powercicd/powerbi/powerbi_client.py:368-441 | two stretches without a trigger make one |
| Deploy.NoDeletionChain | powercicd/powerbi/powerbi_client.py:368-441 | two stretches without a deletion make one |
| Deploy.BracketsBefore | powercicd/powerbi/powerbi_client.py:416-418 | bracketed triggers stay bracketed after a trigger-free prefix |
| Deploy.BracketsAfter | powercicd/powerbi/powerbi_client.py:416-418 | bracketed triggers stay bracketed when a trigger-free suffix follows a non-trigger |
| Deploy.ImportKinds | powercicd/powerbi/powerbi_client.py:384-392 | the import phase neither triggers nor deletes |
| Deploy.TakeOverKinds | powercicd/powerbi/powerbi_client.py:378-384 | taking over an earlier staging report only appends, and neither triggers nor deletes |
| Deploy.ImportWaitKinds | powercicd/powerbi/powerbi_client.py:384-392 | the import, take-over and wait neither trigger nor delete |
| Deploy.UploadKinds | powercicd/powerbi/powerbi_client.py:378-392 | the upload neither triggers nor deletes |
| Deploy.BindKinds | powercicd/powerbi/powerbi_client.py:397-413 | the binding neither triggers nor deletes |
| Deploy.BindAllKinds | powercicd/powerbi/powerbi_client.py:411-413 | binding the datasources only appends gateway bindings |
| Deploy.ParametersKinds | powercicd/powerbi/powerbi_client.py:393-394 | the parameter update only appends, and neither triggers nor deletes |
| Deploy.PromoteKinds | powercicd/powerbi/powerbi_client.py:424-437 | the promotion neither triggers nor deletes, and a normal end finishes with a rebind or a clone |
| Deploy.PromoteNewKinds | powercicd/powerbi/powerbi_client.py:433-437 | cloning a new final report neither triggers nor deletes, and ends with the clone |
| Deploy.PromoteExistingKinds | powercicd/powerbi/powerbi_client.py:425-432 | promoting onto an existing report neither triggers nor deletes, and a normal end finishes with the rebind |
| Deploy.PromoteDeletesNothing | powercicd/powerbi/powerbi_client.py:424-437 | the promotion deletes nothing, and a normal end finishes with a rebind or a clone |
| Deploy.PromoteTriggersNothing | powercicd/powerbi/powerbi_client.py:424-437 | the promotion triggers no refresh, and a normal end finishes with a rebind or a clone |
| Deploy.RefreshKinds | powercicd/powerbi/powerbi_client.py:416-422 | the refresh phase deletes nothing |
| Deploy.RefreshTriggers | powercicd/powerbi/powerbi_client.py:416-422 | each trigger of the refresh phase sits between two waits, and a normal end does not finish on a trigger |
| Deploy.CleanupKinds | powercicd/powerbi/powerbi_client.py:439-441 | the cleanup triggers nothing |
| Deploy.AfterBindBracketed | powercicd/powerbi/powerbi_client.py:415-441 | after the binding, every trigger lies between two waits |
| Deploy.BeforeRefreshKinds | powercicd/powerbi/powerbi_client.py:378-413 | up to the end of the binding, nothing is triggered or deleted |
| Deploy.DeployTriggersBetweenWaits | powercicd/powerbi/powerbi_client.py:368-441 | the deployment triggers a refresh only right after a wait on the dataset has ended, and the next call, if any, is the end of another wait |
| Deploy.DeletionsInCleanup | powercicd/powerbi/powerbi_client.py:439-441 | deletions come only from the cleanup run after the promotion, and delete only selected reports |
| Deploy.AfterBindDeletes | powercicd/powerbi/powerbi_client.py:415-441 | after the binding, deletions follow the promotion and delete only selected reports |
| Deploy.DeletesAfterPromotionBefore | powercicd/powerbi/powerbi_client.py:368-441 | a deletion-free prefix keeps that property |
| Deploy.DeployDeletesOnlyAfterPromotion | powercicd/powerbi/powerbi_client.py:368-441 | the deployment deletes only when given a cleanup pattern, only after the final report was rebound or cloned, and only reports the sweep selected, never one named like the final report |
| Deploy.DeployTakesOverStagingFirst | powercicd/powerbi/powerbi_client.py:378-384 | a staging report left by an earlier run is taken over right before the new import |
| PowerBiClient.PowerBiWebClient.constructor | powercicd/powerbi/powerbi_client.py:35-40 | a new client has made no call |
| PowerBiClient.PowerBiWebClient.WaitForEndOfAnyActiveDatasetRefresh | powercicd/powerbi/powerbi_client.py:150-162 | the wait ends exactly as the wait specification does, and records its end only when it returns |
| PowerBiClient.PowerBiWebClient.CleanupReports | powercicd/powerbi/powerbi_client.py:338-365 | the cleanup makes exactly the calls of the cleanup specification and ends as it does |
| PowerBiClient.PowerBiWebClient.DeleteEachReport | powercicd/powerbi/powerbi_client.py:345-352 | the report loop makes exactly the deletions of its fold and stops where it does |
| PowerBiClient.PowerBiWebClient.DeleteEachDataset | powercicd/powerbi/powerbi_client.py:358-365 | the dataset loop makes exactly the deletions of its fold and stops where it does |
| PowerBiClient.PowerBiWebClient.UploadStagingReport | powercicd/powerbi/powerbi_client.py:378-392 | the upload makes exactly the calls of the upload phase and returns its ids |
| PowerBiClient.PowerBiWebClient.ImportStagingReport | powercicd/powerbi/powerbi_client.py:384-392 | the import, take-over and wait record what the import specification says and return the report's and dataset's ids |
| PowerBiClient.PowerBiWebClient.BindManagedDatasources | powercicd/powerbi/powerbi_client.py:396-413 | the binding makes exactly the calls of the corrected binding phase |
| PowerBiClient.PowerBiWebClient.BindEachGateway | powercicd/powerbi/powerbi_client.py:411-413 | the gateway loop makes exactly the bindings of its fold |
| PowerBiClient.PowerBiWebClient.RefreshDataset | powercicd/powerbi/powerbi_client.py:415-422 | the refresh makes exactly the calls of the refresh phase |
| PowerBiClient.PowerBiWebClient.FinalizeReport | powercicd/powerbi/powerbi_client.py:424-437 | the promotion makes exactly the calls of the corrected promotion phase |
| PowerBiClient.PowerBiWebClient.PromoteOntoFinal | powercicd/powerbi/powerbi_client.py:425-432 | promoting onto the existing final report records what the promotion specification says |
| PowerBiClient.PowerBiWebClient.CloneAsFinal | powercicd/powerbi/powerbi_client.py:433-437 | cloning the final report records the clone and fails as the lookup of the clone does |
| PowerBiClient.PowerBiWebClient.DeployReport | powercicd/powerbi/powerbi_client.py:368-441 | the deployment makes exactly the calls of the corrected deployment and ends as it does, so the ordering lemmas of `Deploy` hold for it |

## Left out

- Floating-point numbers in JSON are not modelled. Values are null, booleans, integers, strings, arrays and objects.
- JSON text: `\u` surrogate pairs and Unicode beyond a `char` are not modelled. Duplicate object keys are kept as written rather than collapsed to the last one, so a lookup (`Json.KeyIndex`, `Records.Lookup`) sees the first of them where `json.loads` would keep the last.
- The other direction of the codec round trip, `dumps(loads(t)) == t`, is not claimed: it fails on whitespace and on escape spellings.
- JSONPath: `[*]` and indices are modelled on arrays only. The library's quirk of applying `[*]` to a dictionary or a scalar is left out. Only the selector shapes the code uses are modelled.
- The regular-expression engine is not modelled. The two fixed key patterns are recognised by their own functions. The cleanup pattern is an abstract `matches` predicate, so an invalid pattern (`re.compile` failing) is not modelled.
- A Python key that is `True` and one that is `1` are not merged in dictionaries: values are compared as JSON values.
- Files, zip archives, UTF-16 text, directory creation, and the intermediate dumps of `save_layout_transformation_step` are left out. The layout is passed in and out as a value.
- `convert_pbix_to_src_code`, `convert_src_code_to_pbix`, `retrieve_report` and `deploy_app` are left out. They are file handling and browser automation around the modelled core.
- HTTP, authentication, the browser session and the request bodies are left out. A call is recorded as a `Call` value, and the workspace's answers are functions of the history in `Remote`.
- HTTP failures are not modelled. `session.delete` does not raise on an error status, so the `except` handlers in the cleanup only matter through the `report['Name']`/`dataset['Name']` reads, which are modelled.
- Logging, `time.monotonic` and `time.sleep` are left out. The clock is the abstract `lag` function plus the polling interval.
- `get_dataset` (powerbi_client.py:389) is not modelled as a call: its result only feeds the call that fails for lack of an argument. Its failure modes are not part of the model.
- The refresh schedule body and the file path of the import are left out. `SetSchedule` and `Import` record only the dataset and the report name.
- The group id only appears in URLs and messages, so it is a field of `DeployArgs` and is used in the error texts alone.
- Configuration loading, the command line and the `git` commands are left out. `get_current_version` takes the commit count and the dirty flag as parameters.
- `os.path` details beyond `normpath` and `dirname` on `/`-separated paths are left out: a leading `//`, drive letters and symlinks.
- The gateway binding, as written and corrected, keeps one datasource per gateway cluster: `managed_datasource_by_gateway_id` maps a cluster id to a single tenant datasource, the one for the last managed key in sorted order. Other managed datasources on a shared cluster are never bound. `Deploy.BindAllSpec` states this one-datasource binding, which is what the dictionary at powercicd/powerbi/powerbi_client.py:403-407 builds.
- Placeholders.AppPath: an app name missing from the configuration yields the fixed placeholder GUID path, as the code does, rather than raising an error.
- FileUtils.FindParentDir: proved against the corrected walk, which stops above the root. The loop as written is `WalkAsWritten`, with fuel standing in for non-termination.

## Findings

| source | as written | input that shows it | evidently intended | confidence | as-written member | corrected member |
|---|---|---|---|---|---|---|
| powercicd/powerbi/powerbi_utils.py:77-79 | the loop over the other value matches writes "" at `value_path`, the first match, each time | a container with two text runs for the version placeholder: the first ends as "" and the second keeps its old text | write the text at the first match and "" at every other match | high (not executed) | Placeholders.AsWrittenLosesSubstitution | Placeholders.FillWrites |
| powercicd/powerbi/powerbi_client.py:157 | `r.status` is read on each refresh, but refreshes are dictionaries | a refresh history holding one completed refresh: `AttributeError` | select the refreshes whose `status` key is `Unknown` | high (not executed) | RefreshWait.FinishedRefreshExample | RefreshWait.WaitedOk |
| powercicd/powerbi/powerbi_client.py:394 | `update_dataset_parameters(dataset, dataset_parameters)` passes two arguments to a method that takes three | any `dataset_parameters`: `TypeError`, with no call made | update the parameters of the staging dataset | high (not executed) | Deploy.ParametersAsWrittenAlwaysFail | Deploy.ParametersPhase |
| powercicd/powerbi/powerbi_client.py:411-413 | iterating a datasource dictionary yields its keys, so `ds["Id"]` indexes a string | any dataset with one datasource the tenant also registers: `TypeError` | bind each gateway to the id of its datasource | high (not executed) | Deploy.ManagedBindingAsWrittenFails | Deploy.BindAllSpec |
| powercicd/powerbi/powerbi_client.py:431 | `update_report_content(group_id, final_report_id, report_id)` against the signature at line 261 | an existing final report: its content is copied into the staging report | copy the staging report's content into the final report | medium (not executed) | Deploy.PromoteExistingOrder | Deploy.PromoteExisting |
| powercicd/powerbi/powerbi_client.py:436-437 | the cloned report is read with the keys `id` and `datasetId` | any first deployment of a report: `KeyError('id')` | read `Id` and `DatasetId`, the keys used everywhere else | high (not executed) | Deploy.PromoteNewAsWrittenFails | Deploy.PromoteNewWith |
| powercicd/powerbi/file_utils.py:7-11 | the loop runs while `folder` is non-empty, but `dirname('/')` is `/` | an absolute start path with no ancestor holding the file: the loop never ends | stop above the root and raise "not found" | high (not executed) | FileUtils.AsWrittenLoopsOnAbsolute | FileUtils.SearchFindsDeepest |
