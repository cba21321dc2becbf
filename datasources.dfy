/** Correlating the datasources a dataset declares with the datasources
    registered on the tenant's cloud gateways (the key bookkeeping of
    `deploy_report`, powercicd/powerbi/powerbi_client.py). */
module Datasources {
  import opened Results
  import opened Json
  import opened Records
  import opened DatasourceKeys

  // ---------------------------------------------------------------------
  // Managed and unmanaged datasources
  // ---------------------------------------------------------------------

  /** `[key(ds) for ds in dss]` */
  function KeyList(dss: seq<Record>, key: Record -> string): (ks: seq<string>)
    ensures |ks| == |dss| && forall i :: 0 <= i < |dss| ==> ks[i] == key(dss[i])
  {
    if dss == [] then [] else KeyList(dss[..|dss| - 1], key) + [key(dss[|dss| - 1])]
  }

  /** `{key(ds): ds for ds in dss}`: a later datasource with the same key
      replaces an earlier one. */
  function ByKey(dss: seq<Record>, key: Record -> string): map<string, Record>
  {
    if dss == [] then map[]
    else ByKey(dss[..|dss| - 1], key)[key(dss[|dss| - 1]) := dss[|dss| - 1]]
  }

  /** The dictionary holds one entry per key, and it is the last datasource
      with that key. */
  lemma {:induction false} ByKeyLast(dss: seq<Record>, key: Record -> string, k: string)
    ensures k in ByKey(dss, key) <==> k in KeyList(dss, key)
    ensures k in ByKey(dss, key) ==> exists i :: (0 <= i < |dss| && key(dss[i]) == k && ByKey(dss, key)[k] == dss[i] &&
      forall j :: i < j < |dss| ==> key(dss[j]) != k)
    decreases |dss|
  {
    if dss != [] {
      var init := dss[..|dss| - 1];
      ByKeyLast(init, key, k);
      assert KeyList(dss, key) == KeyList(init, key) + [key(dss[|dss| - 1])];
      if k in ByKey(dss, key) && k != key(dss[|dss| - 1]) {
        var i :| 0 <= i < |init| && key(init[i]) == k && ByKey(init, key)[k] == init[i] &&
          forall j :: i < j < |init| ==> key(init[j]) != k;
        assert dss[i] == init[i];
      }
    }
  }

  datatype Partition = Partition(unmanaged: seq<string>, managed: seq<string>)

  /** `unmanaged_datasource_keys` and `managed_datasource_keys`: the sorted keys
      of the dataset's datasources that the tenant does not and does register. */
  function PartitionKeys(dataset: seq<Record>, tenant: seq<Record>): Partition
  {
    var tk := ByKey(tenant, BuildKey);
    var dkeys := KeyList(dataset, BuildKey);
    Partition(SortStrings(Filter(dkeys, k => k !in tk)), SortStrings(Filter(dkeys, k => k in tk)))
  }

  /** Both lists are sorted and disjoint; together they hold exactly the keys
      of the dataset's datasources, split by whether the tenant registers them. */
  lemma PartitionSpec(dataset: seq<Record>, tenant: seq<Record>)
    ensures var p := PartitionKeys(dataset, tenant);
      var dk := ByKey(dataset, BuildKey);
      var tk := ByKey(tenant, BuildKey);
      StrictlySorted(p.unmanaged) && StrictlySorted(p.managed) &&
      (forall k :: k in p.unmanaged <==> k in dk && k !in tk) &&
      (forall k :: k in p.managed <==> k in dk && k in tk) &&
      (forall k :: !(k in p.unmanaged && k in p.managed)) &&
      (forall k :: k in dk <==> k in p.unmanaged || k in p.managed)
  {
    forall k {
      ByKeyLast(dataset, BuildKey, k);
    }
  }

  /** The managed keys are the keys of the dataset's datasources registered by
      the tenant, listed in ascending order, each once. */
  lemma ManagedKeysCanonical(dataset: seq<Record>, tenant: seq<Record>, ks: seq<string>)
    requires StrictlySorted(ks)
    requires forall k :: k in ks <==> k in ByKey(dataset, BuildKey) && k in ByKey(tenant, BuildKey)
    ensures PartitionKeys(dataset, tenant).managed == ks
  {
    PartitionSpec(dataset, tenant);
    SortedUnique(PartitionKeys(dataset, tenant).managed, ks);
  }

  // ---------------------------------------------------------------------
  // managed_datasource_by_gateway_id
  // ---------------------------------------------------------------------

  /** A Python dictionary keeps its keys in insertion order; assigning to an
      existing key replaces the value in place. */
  type Dict = seq<(Value, Record)>

  predicate DistinctDictKeys(d: Dict)
  {
    forall i, j :: 0 <= i < j < |d| ==> d[i].0 != d[j].0
  }

  /** Position of key `k` in the dictionary. */
  function DictIndex(d: Dict, k: Value): (r: Option<nat>)
    ensures r.Some? ==> r.value < |d| && d[r.value].0 == k
    ensures r.None? ==> forall i :: 0 <= i < |d| ==> d[i].0 != k
  {
    if d == [] then None
    else if d[0].0 == k then Some(0)
    else match DictIndex(d[1..], k)
      case None => None
      case Some(i) => Some(i + 1)
  }

  /** `d[k] = v` */
  function DictPut(d: Dict, k: Value, v: Record): (r: Dict)
    requires DistinctDictKeys(d)
    ensures DistinctDictKeys(r)
    ensures |d| <= |r| <= |d| + 1
    ensures forall i :: 0 <= i < |r| ==> r[i] == (k, v) || (i < |d| && r[i] == d[i] && d[i].0 != k)
    ensures forall i :: 0 <= i < |d| ==> r[i].0 == d[i].0
    ensures exists i :: 0 <= i < |r| && r[i] == (k, v)
  {
    match DictIndex(d, k)
    case Some(i) => assert d[i := (k, v)][i] == (k, v); d[i := (k, v)]
    case None => assert (d + [(k, v)])[|d|] == (k, v); d + [(k, v)]
  }

  /** `(ds["ClusterId"], ds)` for the tenant datasource `ds` of a managed key;
      a list or an object cannot be a dictionary key. */
  function Entry(tk: map<string, Record>, key: string): (r: Result<(Value, Record)>)
    ensures r.Ok? ==> key in tk && r.value.1 == tk[key] && Lookup(tk[key], "ClusterId") == Some(r.value.0)
  {
    if key !in tk then Err(KeyError(key))
    else
      var c :- Field(tk[key], "ClusterId");
      if c.Arr? || c.Obj? then Err(TypeError("unhashable type")) else Ok((c, tk[key]))
  }

  /** `[f(x) for x in xs]` where `f` may raise: the first failure in order
      ends the comprehension. */
  function MapResults<T>(xs: seq<string>, f: string -> Result<T>): (r: Result<seq<T>>)
    ensures r.Ok? <==> forall j :: 0 <= j < |xs| ==> f(xs[j]).Ok?
    ensures r.Ok? ==> |r.value| == |xs| && forall j :: 0 <= j < |xs| ==> f(xs[j]) == Ok(r.value[j])
  {
    if xs == [] then Ok([])
    else
      var y :- f(xs[0]);
      var ys :- MapResults(xs[1..], f);
      assert forall j :: 1 <= j < |xs| ==> xs[j] == xs[1..][j - 1];
      Ok([y] + ys)
  }

  /** The dictionary built by assigning the pairs in order. */
  function DictOf(ps: seq<(Value, Record)>): (d: Dict)
    ensures DistinctDictKeys(d)
  {
    if ps == [] then [] else DictPut(DictOf(ps[..|ps| - 1]), ps[|ps| - 1].0, ps[|ps| - 1].1)
  }

  /** The dictionary has an entry for key `k`. */
  predicate HasEntry(d: Dict, k: Value)
  {
    exists i :: 0 <= i < |d| && d[i].0 == k
  }

  /** Every key assigned has an entry. */
  lemma {:induction false} DictOfCovers(ps: seq<(Value, Record)>)
    ensures forall j :: 0 <= j < |ps| ==> HasEntry(DictOf(ps), ps[j].0)
    decreases |ps|
  {
    if ps != [] {
      var n := |ps| - 1;
      var d0 := DictOf(ps[..n]);
      var d := DictOf(ps);
      DictOfCovers(ps[..n]);
      forall j | 0 <= j < |ps|
        ensures HasEntry(d, ps[j].0)
      {
        if j < n {
          assert ps[..n][j] == ps[j];
          assert HasEntry(d0, ps[..n][j].0);
          var i :| 0 <= i < |d0| && d0[i].0 == ps[..n][j].0;
          assert d[i].0 == d0[i].0;
        } else {
          var i :| 0 <= i < |d| && d[i] == ps[n];
        }
      }
    }
  }

  /** The pair at `j` is the last one assigned to its key. */
  predicate LastAssigned(ps: seq<(Value, Record)>, e: (Value, Record), j: int)
  {
    0 <= j < |ps| && ps[j] == e && forall j' :: j < j' < |ps| ==> ps[j'].0 != e.0
  }

  predicate AssignedLast(ps: seq<(Value, Record)>, e: (Value, Record))
  {
    exists j :: 0 <= j < |ps| && LastAssigned(ps, e, j)
  }

  /** Each entry holds the value last assigned to its key. */
  lemma {:induction false} DictOfLastWins(ps: seq<(Value, Record)>)
    ensures forall i :: 0 <= i < |DictOf(ps)| ==> AssignedLast(ps, DictOf(ps)[i])
    decreases |ps|
  {
    if ps != [] {
      var n := |ps| - 1;
      var init := ps[..n];
      var d0 := DictOf(init);
      var d := DictOf(ps);
      DictOfLastWins(init);
      forall i | 0 <= i < |d|
        ensures AssignedLast(ps, d[i])
      {
        if d[i] == ps[n] {
          assert LastAssigned(ps, d[i], n);
        } else {
          assert d[i] == d0[i] && d0[i].0 != ps[n].0;
          assert AssignedLast(init, d0[i]);
          var j :| 0 <= j < |init| && LastAssigned(init, d0[i], j);
          assert init[j] == ps[j];
          forall j' | j < j' < |ps|
            ensures ps[j'].0 != d[i].0
          {
            if j' < n {
              assert init[j'] == ps[j'];
            }
          }
          assert LastAssigned(ps, d[i], j);
        }
      }
    }
  }

  /** `{tk[key]["ClusterId"]: tk[key] for key in managed}` */
  function ManagedByCluster(tk: map<string, Record>, managed: seq<string>): (r: Result<Dict>)
  {
    var ps :- MapResults(managed, key => Entry(tk, key));
    Ok(DictOf(ps))
  }

  /** The datasource `e.1` of the managed key at `j` has cluster `e.0`, and
      no later managed key has that cluster. */
  predicate LastOfCluster(tk: map<string, Record>, managed: seq<string>, e: (Value, Record), j: int)
  {
    0 <= j < |managed| && Entry(tk, managed[j]) == Ok(e) &&
    forall j' :: j < j' < |managed| ==> Entry(tk, managed[j']).Ok? ==> Entry(tk, managed[j']).value.0 != e.0
  }

  predicate FromLastOfCluster(tk: map<string, Record>, managed: seq<string>, e: (Value, Record))
  {
    exists j :: 0 <= j < |managed| && LastOfCluster(tk, managed, e, j)
  }

  /** The dictionary fails exactly when some managed key has no usable
      cluster id. */
  lemma ManagedByClusterOk(tk: map<string, Record>, managed: seq<string>)
    ensures ManagedByCluster(tk, managed).Ok? <==> forall j :: 0 <= j < |managed| ==> Entry(tk, managed[j]).Ok?
  {
    var f := key => Entry(tk, key);
    assert forall j :: 0 <= j < |managed| ==> f(managed[j]) == Entry(tk, managed[j]);
  }

  /** Every cluster of a managed key has an entry, and no cluster has two. */
  lemma ManagedByClusterCovers(tk: map<string, Record>, managed: seq<string>, d: Dict)
    requires ManagedByCluster(tk, managed) == Ok(d)
    ensures DistinctDictKeys(d)
    ensures forall j :: 0 <= j < |managed| ==> Entry(tk, managed[j]).Ok? && HasEntry(d, Entry(tk, managed[j]).value.0)
  {
    var f := key => Entry(tk, key);
    var ps := MapResults(managed, f).value;
    DictOfCovers(ps);
    forall j | 0 <= j < |managed|
      ensures Entry(tk, managed[j]).Ok? && HasEntry(d, Entry(tk, managed[j]).value.0)
    {
      assert f(managed[j]) == Ok(ps[j]);
    }
  }

  /** Each entry is the datasource of the last managed key of its cluster: a
      later key of the same cluster replaces an earlier one. */
  lemma ManagedByClusterLastWins(tk: map<string, Record>, managed: seq<string>, d: Dict)
    requires ManagedByCluster(tk, managed) == Ok(d)
    ensures forall i :: 0 <= i < |d| ==> FromLastOfCluster(tk, managed, d[i])
  {
    var f := key => Entry(tk, key);
    var ps := MapResults(managed, f).value;
    DictOfLastWins(ps);
    forall i | 0 <= i < |d|
      ensures FromLastOfCluster(tk, managed, d[i])
    {
      assert AssignedLast(ps, d[i]);
      var j :| 0 <= j < |ps| && LastAssigned(ps, d[i], j);
      assert f(managed[j]) == Ok(ps[j]);
      forall j' | j < j' < |managed|
        ensures Entry(tk, managed[j']).Ok? ==> Entry(tk, managed[j']).value.0 != d[i].0
      {
        assert f(managed[j']) == Ok(ps[j']);
      }
      assert LastOfCluster(tk, managed, d[i], j);
    }
  }
}
