/** Locations in a JSON tree and the restricted JSONPath queries the layout
    code uses (`jsonpath_ng`): a field or a union of fields, an array index,
    and `[*]`. A match is reported by its full path, which `update` then
    writes through. */
module JsonPath {
  import opened Results
  import opened Json

  // ---------------------------------------------------------------------
  // Locations
  // ---------------------------------------------------------------------

  /** One step down the tree: a member of an object or an element of an array. */
  datatype Step = Key(name: string) | At(index: nat)

  type Location = seq<Step>

  /** The child of `v` that one step reaches, if `v` has it. A key reaches the
      first member with that name. */
  function Child(v: Value, s: Step): Option<Value>
  {
    match s
    case Key(k) =>
      if v.Obj? then
        match KeyIndex(v.members, k)
        case Some(j) => Some(v.members[j].value)
        case None => None
      else None
    case At(i) => if v.Arr? && i < |v.items| then Some(v.items[i]) else None
  }

  /** `v` with the child that `s` reaches replaced by `x`; `v` itself when there
      is no such child (`update` only writes where the path exists). */
  function ReplaceChild(v: Value, s: Step, x: Value): Value
  {
    match s
    case Key(k) =>
      if v.Obj? then
        match KeyIndex(v.members, k)
        case Some(j) => Obj(v.members[j := Member(k, x)])
        case None => v
      else v
    case At(i) => if v.Arr? && i < |v.items| then Arr(v.items[i := x]) else v
  }

  /** The value at `l`, if every step of `l` exists. */
  function Get(v: Value, l: Location): Option<Value>
  {
    if l == [] then Some(v)
    else match Child(v, l[0])
      case None => None
      case Some(c) => Get(c, l[1..])
  }

  /** `full_path.update(v, x)`: the value at `l` becomes `x`. */
  function Set(v: Value, l: Location, x: Value): Value
  {
    if l == [] then x
    else match Child(v, l[0])
      case None => v
      case Some(c) => ReplaceChild(v, l[0], Set(c, l[1..], x))
  }

  /** Neither location is a prefix of the other: they part at some step. */
  predicate Diverge(l: Location, m: Location)
  {
    l != [] && m != [] && (l[0] != m[0] || Diverge(l[1..], m[1..]))
  }

  predicate PairwiseDiverge(ls: seq<Location>)
  {
    forall i, j :: 0 <= i < |ls| && 0 <= j < |ls| && i != j ==> Diverge(ls[i], ls[j])
  }

  // ---------------------------------------------------------------------
  // One step
  // ---------------------------------------------------------------------

  lemma {:induction false} KeyIndexKeepsKeys(ms: seq<Member>, j: nat, x: Value, k: string)
    requires j < |ms|
    ensures KeyIndex(ms[j := Member(ms[j].key, x)], k) == KeyIndex(ms, k)
  {
    if j > 0 {
      assert ms[j := Member(ms[j].key, x)][1..] == ms[1..][j - 1 := Member(ms[j].key, x)];
      KeyIndexKeepsKeys(ms[1..], j - 1, x, k);
    }
  }

  lemma ChildReplaceSame(v: Value, s: Step, x: Value)
    requires Child(v, s).Some?
    ensures Child(ReplaceChild(v, s, x), s) == Some(x)
  {
    if s.Key? {
      var j := KeyIndex(v.members, s.name).value;
      KeyIndexKeepsKeys(v.members, j, x, s.name);
    }
  }

  lemma ChildReplaceOther(v: Value, s: Step, t: Step, x: Value)
    requires s != t
    ensures Child(ReplaceChild(v, s, x), t) == Child(v, t)
  {
    if s.Key? && v.Obj? && KeyIndex(v.members, s.name).Some? {
      var j := KeyIndex(v.members, s.name).value;
      if t.Key? {
        KeyIndexKeepsKeys(v.members, j, x, t.name);
      }
    }
  }

  lemma ReplaceChildId(v: Value, s: Step, c: Value)
    requires Child(v, s) == Some(c)
    ensures ReplaceChild(v, s, c) == v
  {
    if s.Key? {
      var j := KeyIndex(v.members, s.name).value;
      assert v.members[j := Member(s.name, c)] == v.members;
    } else {
      assert v.items[s.index := c] == v.items;
    }
  }

  lemma ReplaceChildTwice(v: Value, s: Step, x: Value, y: Value)
    ensures ReplaceChild(ReplaceChild(v, s, x), s, y) == ReplaceChild(v, s, y)
  {
    if s.Key? && v.Obj? && KeyIndex(v.members, s.name).Some? {
      var j := KeyIndex(v.members, s.name).value;
      KeyIndexKeepsKeys(v.members, j, x, s.name);
      assert v.members[j := Member(s.name, x)][j := Member(s.name, y)] == v.members[j := Member(s.name, y)];
    }
  }

  lemma ReplaceChildCommute(v: Value, s: Step, t: Step, x: Value, y: Value)
    requires s != t
    ensures ReplaceChild(ReplaceChild(v, s, x), t, y) == ReplaceChild(ReplaceChild(v, t, y), s, x)
  {
    if v.Obj? && s.Key? && t.Key? && KeyIndex(v.members, s.name).Some? && KeyIndex(v.members, t.name).Some? {
      var i := KeyIndex(v.members, s.name).value;
      var j := KeyIndex(v.members, t.name).value;
      KeyIndexKeepsKeys(v.members, i, x, t.name);
      KeyIndexKeepsKeys(v.members, j, y, s.name);
      assert v.members[i := Member(s.name, x)][j := Member(t.name, y)]
          == v.members[j := Member(t.name, y)][i := Member(s.name, x)];
    } else if v.Obj? && s.Key? && t.Key? && KeyIndex(v.members, s.name).Some? {
      var i := KeyIndex(v.members, s.name).value;
      KeyIndexKeepsKeys(v.members, i, x, t.name);
    } else if v.Obj? && s.Key? && t.Key? && KeyIndex(v.members, t.name).Some? {
      var j := KeyIndex(v.members, t.name).value;
      KeyIndexKeepsKeys(v.members, j, y, s.name);
    } else if v.Arr? && s.At? && t.At? && s.index < |v.items| && t.index < |v.items| {
      assert v.items[s.index := x][t.index := y] == v.items[t.index := y][s.index := x];
    }
  }

  // ---------------------------------------------------------------------
  // Get and Set
  // ---------------------------------------------------------------------

  /** Reading back a written location gives the written value. */
  lemma {:induction false} GetSetSame(v: Value, l: Location, x: Value)
    requires Get(v, l).Some?
    ensures Get(Set(v, l, x), l) == Some(x)
  {
    if l != [] {
      var c := Child(v, l[0]).value;
      GetSetSame(c, l[1..], x);
      ChildReplaceSame(v, l[0], Set(c, l[1..], x));
    }
  }

  /** Writing one location leaves every location that parts from it unchanged. */
  lemma {:induction false} GetSetDiverge(v: Value, l: Location, m: Location, x: Value)
    requires Diverge(l, m)
    ensures Get(Set(v, l, x), m) == Get(v, m)
  {
    match Child(v, l[0])
    case None =>
    case Some(c) =>
      if l[0] == m[0] {
        ChildReplaceSame(v, l[0], Set(c, l[1..], x));
        GetSetDiverge(c, l[1..], m[1..], x);
      } else {
        ChildReplaceOther(v, l[0], m[0], Set(c, l[1..], x));
      }
  }

  /** The second of two writes to one location wins. */
  lemma {:induction false} SetSetSame(v: Value, l: Location, x: Value, y: Value)
    ensures Set(Set(v, l, x), l, y) == Set(v, l, y)
  {
    if l != [] {
      match Child(v, l[0])
      case None =>
      case Some(c) =>
        ChildReplaceSame(v, l[0], Set(c, l[1..], x));
        SetSetSame(c, l[1..], x, y);
        ReplaceChildTwice(v, l[0], Set(c, l[1..], x), Set(c, l[1..], y));
    }
  }

  /** Writing back the value already there changes nothing. */
  lemma {:induction false} SetGetSame(v: Value, l: Location, w: Value)
    requires Get(v, l) == Some(w)
    ensures Set(v, l, w) == v
  {
    if l != [] {
      var c := Child(v, l[0]).value;
      SetGetSame(c, l[1..], w);
      ReplaceChildId(v, l[0], c);
    }
  }

  /** Writes to locations that part commute. */
  lemma {:induction false} SetCommute(v: Value, l: Location, m: Location, x: Value, y: Value)
    requires Diverge(l, m)
    ensures Set(Set(v, l, x), m, y) == Set(Set(v, m, y), l, x)
  {
    match Child(v, l[0]) {
    case None =>
      match Child(v, m[0]) {
        case None =>
        case Some(d) =>
          if l[0] != m[0] {
            ChildReplaceOther(v, m[0], l[0], Set(d, m[1..], y));
          }
      }
    case Some(c) =>
      if l[0] == m[0] {
        var v1 := ReplaceChild(v, l[0], Set(c, l[1..], x));
        ChildReplaceSame(v, l[0], Set(c, l[1..], x));
        var v2 := ReplaceChild(v, m[0], Set(c, m[1..], y));
        ChildReplaceSame(v, m[0], Set(c, m[1..], y));
        SetCommute(c, l[1..], m[1..], x, y);
        ReplaceChildTwice(v, l[0], Set(c, l[1..], x), Set(Set(c, l[1..], x), m[1..], y));
        ReplaceChildTwice(v, l[0], Set(c, m[1..], y), Set(Set(c, m[1..], y), l[1..], x));
      } else {
        var cx := Set(c, l[1..], x);
        ChildReplaceOther(v, l[0], m[0], cx);
        match Child(v, m[0])
        case None =>
        case Some(d) =>
          var dy := Set(d, m[1..], y);
          ChildReplaceOther(v, m[0], l[0], dy);
          ReplaceChildCommute(v, l[0], m[0], cx, dy);
      }
    }
  }

  lemma {:induction false} DivergeSymmetric(l: Location, m: Location)
    requires Diverge(l, m)
    ensures Diverge(m, l)
  {
    if l[0] == m[0] {
      DivergeSymmetric(l[1..], m[1..]);
    }
  }

  /** Two different locations of the same length part. */
  lemma {:induction false} DistinctSameLengthDiverge(l: Location, m: Location)
    requires |l| == |m| && l != m
    ensures Diverge(l, m)
  {
    if l[0] == m[0] {
      assert l == [l[0]] + l[1..] && m == [m[0]] + m[1..];
      DistinctSameLengthDiverge(l[1..], m[1..]);
    }
  }

  // ---------------------------------------------------------------------
  // Queries
  // ---------------------------------------------------------------------

  /** One bracket or dot of a JSONPath: `a` and `[a,b]` are `Fields`, `[0]` is
      `Index`, `[*]` is `Wildcard`. */
  datatype Selector = Fields(names: seq<string>) | Index(index: nat) | Wildcard

  type Query = seq<Selector>

  /** The plain dotted field `.name`. */
  function Field(name: string): (sel: Selector)
    ensures sel.Fields? && sel.names == [name]
  {
    Fields([name])
  }

  /** Whether the step `s` is one that `sel` can take. */
  predicate Admits(sel: Selector, s: Step)
  {
    match sel
    case Fields(ks) => s.Key? && s.name in ks
    case Index(i) => s == At(i)
    case Wildcard => s.At?
  }

  /** A location of the shape `q` describes. */
  predicate Conforms(l: Location, q: Query)
  {
    |l| == |q| && forall i :: 0 <= i < |l| ==> Admits(q[i], l[i])
  }

  predicate Distinct<T(==)>(xs: seq<T>)
  {
    forall i, j :: 0 <= i < |xs| && 0 <= j < |xs| && i != j ==> xs[i] != xs[j]
  }

  /** No field union names the same field twice. */
  predicate SimpleQuery(q: Query)
  {
    forall i :: 0 <= i < |q| ==> q[i].Fields? ==> Distinct(q[i].names)
  }

  /** The listed fields that are present, in the order listed. */
  function PresentKeys(ms: seq<Member>, ks: seq<string>): (r: seq<Step>)
    ensures forall s :: s in r <==> s.Key? && s.name in ks && HasKey(ms, s.name)
    ensures Distinct(ks) ==> Distinct(r)
  {
    if ks == [] then []
    else
      var rest := PresentKeys(ms, ks[1..]);
      assert forall s :: s in rest ==> s != Key(ks[0]) || ks[0] in ks[1..];
      (if HasKey(ms, ks[0]) then [Key(ks[0])] else []) + rest
  }

  /** The steps `sel` takes from `v`, in the order the library yields them. */
  function Select(v: Value, sel: Selector): (r: seq<Step>)
    ensures forall s :: s in r <==> Admits(sel, s) && Child(v, s).Some?
    ensures sel.Fields? && Distinct(sel.names) ==> Distinct(r)
    ensures !sel.Fields? ==> Distinct(r)
  {
    match sel
    case Fields(ks) => if v.Obj? then PresentKeys(v.members, ks) else []
    case Index(i) => if v.Arr? && i < |v.items| then [At(i)] else []
    case Wildcard =>
      if v.Arr? then
        var r := seq(|v.items|, i requires 0 <= i < |v.items| => At(i));
        assert forall s: Step :: s.At? && s.index < |v.items| ==> s == r[s.index];
        r
      else []
  }

  /** `parse(q).find(v)`: the full paths of all matches, in library order. */
  function Find(v: Value, q: Query): seq<Location>
    decreases |q|, 1
  {
    if q == [] then [[]] else FindUnder(v, Select(v, q[0]), q[1..])
  }

  /** The matches of `q` below each of the children `steps` of `v`, in turn. */
  function FindUnder(v: Value, steps: seq<Step>, q: Query): seq<Location>
    decreases |q| + 1, 0, |steps|
  {
    if steps == [] then []
    else
      var here := match Child(v, steps[0])
        case None => []
        case Some(c) => Extend(steps[0], Find(c, q));
      here + FindUnder(v, steps[1..], q)
  }

  /** Each location of `ls`, one step further from the root. */
  function Extend(s: Step, ls: seq<Location>): (r: seq<Location>)
    ensures |r| == |ls| && forall i :: 0 <= i < |ls| ==> r[i] == [s] + ls[i]
  {
    seq(|ls|, i requires 0 <= i < |ls| => [s] + ls[i])
  }

  lemma ExtendMember(s: Step, ls: seq<Location>, l: Location)
    ensures l in Extend(s, ls) <==> |l| > 0 && l[0] == s && l[1..] in ls
  {
    var r := Extend(s, ls);
    if |l| > 0 && l[0] == s && l[1..] in ls {
      var i :| 0 <= i < |ls| && ls[i] == l[1..];
      assert r[i] == l;
    }
  }

  lemma {:induction false} FindUnderMember(v: Value, steps: seq<Step>, q: Query, l: Location)
    ensures l in FindUnder(v, steps, q) <==>
      |l| > 0 && l[0] in steps && Child(v, l[0]).Some? && l[1..] in Find(Child(v, l[0]).value, q)
    decreases |steps|
  {
    if steps != [] {
      FindUnderMember(v, steps[1..], q, l);
      match Child(v, steps[0])
      case None =>
      case Some(c) => ExtendMember(steps[0], Find(c, q), l);
    }
  }

  /** A location is a match of `q` exactly when it has the shape `q` describes
      and exists in `v`. */
  lemma {:induction false} FindMatches(v: Value, q: Query, l: Location)
    ensures l in Find(v, q) <==> Conforms(l, q) && Get(v, l).Some?
  {
    if q != [] {
      FindUnderMember(v, Select(v, q[0]), q[1..], l);
      if |l| > 0 {
        match Child(v, l[0])
        case None =>
        case Some(c) =>
          FindMatches(c, q[1..], l[1..]);
          if Conforms(l, q) {
            assert forall i :: 0 <= i < |l| - 1 ==> Admits(q[1..][i], l[1..][i]) by {
              forall i | 0 <= i < |l| - 1
                ensures Admits(q[1..][i], l[1..][i])
              {
                assert Admits(q[i + 1], l[i + 1]);
              }
            }
          }
          if Conforms(l[1..], q[1..]) && Admits(q[0], l[0]) {
            assert forall i :: 0 <= i < |l| ==> Admits(q[i], l[i]) by {
              forall i | 0 <= i < |l|
                ensures Admits(q[i], l[i])
              {
                if i > 0 {
                  assert Admits(q[1..][i - 1], l[1..][i - 1]);
                }
              }
            }
          }
      }
    }
  }

  lemma FindShape(v: Value, q: Query, l: Location)
    requires l in Find(v, q)
    ensures |l| == |q| && Get(v, l).Some?
  {
    FindMatches(v, q, l);
  }

  lemma {:induction false} FindDistinct(v: Value, q: Query)
    requires SimpleQuery(q)
    ensures Distinct(Find(v, q))
    decreases |q|, 1
  {
    if q != [] {
      assert SimpleQuery(q[1..]) by {
        forall i | 0 <= i < |q| - 1 && q[1..][i].Fields?
          ensures Distinct(q[1..][i].names)
        {
          assert q[1..][i] == q[i + 1];
        }
      }
      FindUnderDistinct(v, Select(v, q[0]), q[1..]);
    }
  }

  lemma {:induction false} FindUnderDistinct(v: Value, steps: seq<Step>, q: Query)
    requires SimpleQuery(q) && Distinct(steps)
    ensures Distinct(FindUnder(v, steps, q))
    decreases |q| + 1, 0, |steps|
  {
    if steps != [] {
      var here := match Child(v, steps[0])
        case None => []
        case Some(c) => Extend(steps[0], Find(c, q));
      var rest := FindUnder(v, steps[1..], q);
      DistinctTail(steps);
      FindUnderDistinct(v, steps[1..], q);
      match Child(v, steps[0]) {
        case None =>
        case Some(c) =>
          FindDistinct(c, q);
          ExtendDistinct(steps[0], Find(c, q));
      }
      forall l | l in here
        ensures l !in rest
      {
        assert l[0] == steps[0];
        FindUnderMember(v, steps[1..], q, l);
      }
      DistinctConcat(here, rest);
    }
  }

  lemma DistinctTail<T>(xs: seq<T>)
    requires xs != [] && Distinct(xs)
    ensures Distinct(xs[1..]) && xs[0] !in xs[1..]
  {
    forall i, j | 0 <= i < |xs| - 1 && 0 <= j < |xs| - 1 && i != j
      ensures xs[1..][i] != xs[1..][j]
    {
      assert xs[1..][i] == xs[i + 1] && xs[1..][j] == xs[j + 1];
    }
  }

  lemma ExtendDistinct(s: Step, ls: seq<Location>)
    requires Distinct(ls)
    ensures Distinct(Extend(s, ls))
  {
    var r := Extend(s, ls);
    forall i, j | 0 <= i < |r| && 0 <= j < |r| && i != j
      ensures r[i] != r[j]
    {
      assert r[i][1..] == ls[i] && r[j][1..] == ls[j];
    }
  }

  lemma DistinctConcat<T>(a: seq<T>, b: seq<T>)
    requires Distinct(a) && Distinct(b)
    requires forall x :: x in a ==> x !in b
    ensures Distinct(a + b)
  {
    var r := a + b;
    forall i, j | 0 <= i < |r| && 0 <= j < |r| && i != j
      ensures r[i] != r[j]
    {
      if i < |a| && j >= |a| {
        assert r[i] in a && r[j] == b[j - |a|];
      } else if j < |a| && i >= |a| {
        assert r[j] in a && r[i] == b[i - |a|];
      } else if i >= |a| {
        assert r[i] == b[i - |a|] && r[j] == b[j - |a|];
      }
    }
  }

  /** The matches of a simple query part pairwise. */
  lemma FindDiverge(v: Value, q: Query)
    requires SimpleQuery(q)
    ensures PairwiseDiverge(Find(v, q))
  {
    var ls := Find(v, q);
    FindDistinct(v, q);
    forall i, j | 0 <= i < |ls| && 0 <= j < |ls| && i != j
      ensures Diverge(ls[i], ls[j])
    {
      FindShape(v, q, ls[i]);
      FindShape(v, q, ls[j]);
      DistinctSameLengthDiverge(ls[i], ls[j]);
    }
  }

  // ---------------------------------------------------------------------
  // Writes that a query does not see
  // ---------------------------------------------------------------------

  /** A write at `l` cannot change which locations `q` matches: `l` is at least
      as deep as `q`, or leaves `q`'s shape at some step. */
  predicate Untouched(l: Location, q: Query)
  {
    q == [] || (l != [] && (!Admits(q[0], l[0]) || Untouched(l[1..], q[1..])))
  }

  lemma {:induction false} UntouchedDeep(l: Location, q: Query)
    requires |l| >= |q|
    ensures Untouched(l, q)
  {
    if q != [] {
      UntouchedDeep(l[1..], q[1..]);
    }
  }

  lemma {:induction false} SelectReplaceChild(v: Value, s: Step, x: Value, sel: Selector)
    ensures Select(ReplaceChild(v, s, x), sel) == Select(v, sel)
  {
    var w := ReplaceChild(v, s, x);
    if s.Key? && v.Obj? && KeyIndex(v.members, s.name).Some? {
      var j := KeyIndex(v.members, s.name).value;
      if sel.Fields? {
        PresentKeysKeepKeys(v.members, j, x, sel.names);
      }
    }
  }

  lemma {:induction false} PresentKeysKeepKeys(ms: seq<Member>, j: nat, x: Value, ks: seq<string>)
    requires j < |ms|
    ensures PresentKeys(ms[j := Member(ms[j].key, x)], ks) == PresentKeys(ms, ks)
  {
    if ks != [] {
      KeyIndexKeepsKeys(ms, j, x, ks[0]);
      PresentKeysKeepKeys(ms, j, x, ks[1..]);
    }
  }

  lemma {:induction false} FindSet(v: Value, q: Query, l: Location, x: Value)
    requires Untouched(l, q)
    ensures Find(Set(v, l, x), q) == Find(v, q)
    decreases |q|, 1
  {
    if q != [] {
      match Child(v, l[0])
      case None =>
      case Some(c) =>
        var cx := Set(c, l[1..], x);
        SelectReplaceChild(v, l[0], cx, q[0]);
        FindUnderSet(v, Select(v, q[0]), q, l, x);
    }
  }

  lemma {:induction false} FindUnderSet(v: Value, steps: seq<Step>, q: Query, l: Location, x: Value)
    requires q != [] && l != [] && Untouched(l, q) && Child(v, l[0]).Some?
    requires forall s :: s in steps ==> Admits(q[0], s)
    ensures FindUnder(Set(v, l, x), steps, q[1..]) == FindUnder(v, steps, q[1..])
    decreases |q|, 0, |steps|
  {
    if steps != [] {
      var c := Child(v, l[0]).value;
      var cx := Set(c, l[1..], x);
      var w := Set(v, l, x);
      assert w == ReplaceChild(v, l[0], cx);
      if steps[0] == l[0] {
        ChildReplaceSame(v, l[0], cx);
        FindSet(c, q[1..], l[1..], x);
      } else {
        ChildReplaceOther(v, l[0], steps[0], cx);
      }
      FindUnderSet(v, steps[1..], q, l, x);
    }
  }

  // ---------------------------------------------------------------------
  // Rewriting every match
  // ---------------------------------------------------------------------

  /** The loop `for m in matches: m.full_path.update(doc, f(m.value))` over the
      locations `ls` matched in `orig`: each new value is computed from the
      value matched, and the first failure of `f` ends the loop. */
  function Rewrite(orig: Value, ls: seq<Location>, f: Value -> Result<Value>): Result<Value>
    decreases |ls|
  {
    if ls == [] then Ok(orig)
    else
      var d :- Rewrite(orig, ls[..|ls| - 1], f);
      var l := ls[|ls| - 1];
      match Get(orig, l)
      case None => Ok(d)
      case Some(w) =>
        var x :- f(w);
        Ok(Set(d, l, x))
  }

  /** The rewrite succeeds exactly when `f` succeeds on every matched value. */
  lemma {:induction false} RewriteOk(orig: Value, ls: seq<Location>, f: Value -> Result<Value>)
    ensures Rewrite(orig, ls, f).Ok? <==>
      forall i :: 0 <= i < |ls| && Get(orig, ls[i]).Some? ==> f(Get(orig, ls[i]).value).Ok?
    decreases |ls|
  {
    if ls != [] {
      var init := ls[..|ls| - 1];
      RewriteOk(orig, init, f);
      assert forall i :: 0 <= i < |init| ==> init[i] == ls[i];
    }
  }

  /** After the rewrite each matched location holds `f` of its old value, and
      every location that parts from all matches is unchanged. */
  lemma {:induction false} RewriteGet(orig: Value, ls: seq<Location>, f: Value -> Result<Value>, d: Value)
    requires PairwiseDiverge(ls) && Rewrite(orig, ls, f) == Ok(d)
    ensures forall i :: 0 <= i < |ls| && Get(orig, ls[i]).Some? ==>
      f(Get(orig, ls[i]).value).Ok? && Get(d, ls[i]) == Some(f(Get(orig, ls[i]).value).value)
    ensures forall m :: (forall i :: 0 <= i < |ls| ==> Diverge(ls[i], m)) ==> Get(d, m) == Get(orig, m)
    decreases |ls|
  {
    if ls != [] {
      var init := ls[..|ls| - 1];
      var l := ls[|ls| - 1];
      var d0 := Rewrite(orig, init, f).value;
      assert forall i :: 0 <= i < |init| ==> init[i] == ls[i];
      RewriteGet(orig, init, f, d0);
      match Get(orig, l)
      case None =>
      case Some(w) =>
        var x := f(w).value;
        assert d == Set(d0, l, x);
        forall m | forall i :: 0 <= i < |ls| ==> Diverge(ls[i], m)
          ensures Get(d, m) == Get(orig, m)
        {
          assert Diverge(ls[|ls| - 1], m);
          GetSetDiverge(d0, l, m, x);
          assert forall i :: 0 <= i < |init| ==> Diverge(init[i], m);
        }
        forall i | 0 <= i < |ls| && Get(orig, ls[i]).Some?
          ensures f(Get(orig, ls[i]).value).Ok? && Get(d, ls[i]) == Some(f(Get(orig, ls[i]).value).value)
        {
          if i == |ls| - 1 {
            forall k | 0 <= k < |init|
              ensures Diverge(init[k], l)
            {
              assert Diverge(ls[k], ls[|ls| - 1]);
            }
            GetSetSame(d0, l, x);
          } else {
            assert Diverge(ls[|ls| - 1], ls[i]);
            GetSetDiverge(d0, l, ls[i], x);
          }
        }
    }
  }

  /** A failure in a prefix of the matches is the failure of the whole loop. */
  lemma {:induction false} RewriteErrPrefix(orig: Value, ls: seq<Location>, f: Value -> Result<Value>, j: nat)
    requires j <= |ls| && Rewrite(orig, ls[..j], f).Err?
    ensures Rewrite(orig, ls, f) == Rewrite(orig, ls[..j], f)
    decreases |ls|
  {
    if j < |ls| {
      var init := ls[..|ls| - 1];
      assert init[..j] == ls[..j];
      RewriteErrPrefix(orig, init, f, j);
    } else {
      assert ls[..j] == ls;
    }
  }

  /** One more location in the loop: skipped when absent, otherwise
      rewritten with `f`, or the loop stops with the error of `f`. */
  lemma RewriteNextSkips(orig: Value, ls: seq<Location>, f: Value -> Result<Value>, i: nat, d: Value)
    requires i < |ls| && Rewrite(orig, ls[..i], f) == Ok(d) && Get(orig, ls[i]).None?
    ensures Rewrite(orig, ls[..i + 1], f) == Ok(d)
  {
    assert ls[..i + 1][..i] == ls[..i];
  }

  lemma RewriteNextSets(orig: Value, ls: seq<Location>, f: Value -> Result<Value>, i: nat, d: Value, x: Value)
    requires i < |ls| && Rewrite(orig, ls[..i], f) == Ok(d)
    requires Get(orig, ls[i]).Some? && f(Get(orig, ls[i]).value) == Ok(x)
    ensures Rewrite(orig, ls[..i + 1], f) == Ok(Set(d, ls[i], x))
  {
    assert ls[..i + 1][..i] == ls[..i];
  }

  lemma RewriteNextFails(orig: Value, ls: seq<Location>, f: Value -> Result<Value>, i: nat, d: Value)
    requires i < |ls| && Rewrite(orig, ls[..i], f) == Ok(d)
    requires Get(orig, ls[i]).Some? && f(Get(orig, ls[i]).value).Err?
    ensures Rewrite(orig, ls, f) == Err(f(Get(orig, ls[i]).value).error)
  {
    assert ls[..i + 1][..i] == ls[..i];
    RewriteErrPrefix(orig, ls, f, i + 1);
  }

  /** A rewrite leaves every location that diverges from all rewritten ones unchanged. */
  lemma RewriteKeepsRest(orig: Value, ls: seq<Location>, f: Value -> Result<Value>, d: Value)
    requires PairwiseDiverge(ls) && Rewrite(orig, ls, f) == Ok(d)
    ensures forall m :: (forall l :: l in ls ==> Diverge(l, m)) ==> Get(d, m) == Get(orig, m)
  {
    RewriteGet(orig, ls, f, d);
    forall m | forall l :: l in ls ==> Diverge(l, m)
      ensures Get(d, m) == Get(orig, m)
    {
      assert forall i :: 0 <= i < |ls| ==> Diverge(ls[i], m);
    }
  }

  lemma RewriteGetMember(orig: Value, ls: seq<Location>, f: Value -> Result<Value>, d: Value)
    requires PairwiseDiverge(ls) && Rewrite(orig, ls, f) == Ok(d)
    requires forall l :: l in ls ==> Get(orig, l).Some?
    ensures forall l :: l in ls ==> f(Get(orig, l).value).Ok? && Get(d, l) == Some(f(Get(orig, l).value).value)
  {
    RewriteGet(orig, ls, f, d);
    forall l | l in ls
      ensures f(Get(orig, l).value).Ok? && Get(d, l) == Some(f(Get(orig, l).value).value)
    {
      var i :| 0 <= i < |ls| && ls[i] == l;
    }
  }

  /** Matches found again after a rewrite are the matches found before it, when
      no rewritten location can change the query's matches. */
  lemma {:induction false} RewriteFind(orig: Value, ls: seq<Location>, f: Value -> Result<Value>, d: Value, q: Query)
    requires Rewrite(orig, ls, f) == Ok(d)
    requires forall i :: 0 <= i < |ls| ==> Untouched(ls[i], q)
    ensures Find(d, q) == Find(orig, q)
    decreases |ls|
  {
    if ls != [] {
      var init := ls[..|ls| - 1];
      var l := ls[|ls| - 1];
      var d0 := Rewrite(orig, init, f).value;
      assert forall i :: 0 <= i < |init| ==> init[i] == ls[i];
      RewriteFind(orig, init, f, d0, q);
      match Get(orig, l)
      case None =>
      case Some(w) => FindSet(d0, q, l, f(w).value);
    }
  }

  /** A rewrite that maps every matched value to itself changes nothing. */
  lemma {:induction false} RewriteFixpoint(orig: Value, ls: seq<Location>, f: Value -> Result<Value>)
    requires forall i :: 0 <= i < |ls| && Get(orig, ls[i]).Some? ==> f(Get(orig, ls[i]).value) == Ok(Get(orig, ls[i]).value)
    ensures Rewrite(orig, ls, f) == Ok(orig)
    decreases |ls|
  {
    if ls != [] {
      var init := ls[..|ls| - 1];
      assert forall i :: 0 <= i < |init| ==> init[i] == ls[i];
      RewriteFixpoint(orig, init, f);
      match Get(orig, ls[|ls| - 1])
      case None =>
      case Some(w) => SetGetSame(orig, ls[|ls| - 1], w);
    }
  }

  /** A write at a location that parts from every match can be made before the
      rewrite or after it. */
  lemma {:induction false} RewriteSet(o: Value, ls: seq<Location>, f: Value -> Result<Value>, l: Location, y: Value)
    requires forall i :: 0 <= i < |ls| ==> Diverge(l, ls[i])
    ensures Rewrite(Set(o, l, y), ls, f) ==
      match Rewrite(o, ls, f)
      case Ok(d) => Ok(Set(d, l, y))
      case Err(e) => Err(e)
    decreases |ls|
  {
    if ls != [] {
      var init := ls[..|ls| - 1];
      var m := ls[|ls| - 1];
      assert forall i :: 0 <= i < |init| ==> init[i] == ls[i];
      RewriteSet(o, init, f, l, y);
      GetSetDiverge(o, l, m, y);
      match Rewrite(o, init, f)
      case Err(e) =>
      case Ok(d) =>
        match Get(o, m)
        case None =>
        case Some(w) =>
          match f(w)
          case Err(e) =>
          case Ok(x) => SetCommute(d, l, m, y, x);
    }
  }

  /** Rewriting with `g` undoes rewriting with `f` when `g` inverts `f` on every
      matched value and the matches part pairwise. */
  lemma {:induction false} RewriteInverse(v: Value, ls: seq<Location>, f: Value -> Result<Value>, g: Value -> Result<Value>, e: Value)
    requires PairwiseDiverge(ls) && Rewrite(v, ls, f) == Ok(e)
    requires forall l :: l in ls ==> Get(v, l).Some?
    requires forall w :: f(w).Ok? ==> g(f(w).value) == Ok(w)
    ensures Rewrite(e, ls, g) == Ok(v)
    decreases |ls|
  {
    if ls != [] {
      var init := ls[..|ls| - 1];
      var l := ls[|ls| - 1];
      assert forall i :: 0 <= i < |init| ==> init[i] == ls[i];
      assert PairwiseDiverge(init);
      var e0 := Rewrite(v, init, f).value;
      var w := Get(v, l).value;
      var y := f(w).value;
      assert e == Set(e0, l, y);
      RewriteInverse(v, init, f, g, e0);
      forall i | 0 <= i < |init|
        ensures Diverge(l, init[i])
      {
        assert Diverge(ls[|ls| - 1], ls[i]);
      }
      forall i | 0 <= i < |init|
        ensures Diverge(init[i], l)
      {
        assert Diverge(ls[i], ls[|ls| - 1]);
      }
      RewriteGet(v, init, f, e0);
      GetSetSame(e0, l, y);
      RewriteSet(e0, init, g, l, y);
      SetSetSame(v, l, y, w);
      SetGetSame(v, l, w);
    }
  }
}
