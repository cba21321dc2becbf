/** The identity key of a datasource (`build_datasource_key`,
    powercicd/powerbi/powerbi_client.py), with the parts of Python it relies
    on: the ordering of strings, `sorted`, `str.strip` and `str.join`. */
module DatasourceKeys {
  import opened Results
  import opened Json
  import opened Records

  // ---------------------------------------------------------------------
  // Python's ordering of strings
  // ---------------------------------------------------------------------

  /** `a < b` on Python strings: code point by code point, a proper prefix
      first. */
  predicate Before(a: string, b: string)
    decreases |a|
  {
    if a == [] then b != []
    else b != [] && (a[0] < b[0] || (a[0] == b[0] && Before(a[1..], b[1..])))
  }

  lemma {:induction false} BeforeIrreflexive(a: string)
    ensures !Before(a, a)
    decreases |a|
  {
    if a != [] {
      BeforeIrreflexive(a[1..]);
    }
  }

  lemma {:induction false} BeforeTransitive(a: string, b: string, c: string)
    requires Before(a, b) && Before(b, c)
    ensures Before(a, c)
    decreases |a|
  {
    if a != [] && a[0] == b[0] && b[0] == c[0] {
      BeforeTransitive(a[1..], b[1..], c[1..]);
    }
  }

  lemma {:induction false} BeforeTotal(a: string, b: string)
    ensures a == b || Before(a, b) || Before(b, a)
    decreases |a|
  {
    if a != [] && b != [] && a[0] == b[0] {
      BeforeTotal(a[1..], b[1..]);
      if a[1..] == b[1..] {
        assert a == [a[0]] + a[1..] && b == [b[0]] + b[1..];
      }
    }
  }

  lemma BeforeAsymmetric(a: string, b: string)
    requires Before(a, b)
    ensures !Before(b, a)
  {
    if Before(b, a) {
      BeforeTransitive(a, b, a);
      BeforeIrreflexive(a);
    }
  }

  predicate StrictlySorted(s: seq<string>)
  {
    forall i, j :: 0 <= i < j < |s| ==> Before(s[i], s[j])
  }

  /** Two strictly sorted sequences with the same elements are equal: a sorted
      set of keys is unique. */
  lemma {:induction false} SortedUnique(a: seq<string>, b: seq<string>)
    requires StrictlySorted(a) && StrictlySorted(b)
    requires forall x :: x in a <==> x in b
    ensures a == b
    decreases |a|
  {
    if a != [] {
      assert a[0] in a;
    }
    if b != [] {
      assert b[0] in b;
    }
    if a != [] && b != [] {
      assert a == [a[0]] + a[1..] && b == [b[0]] + b[1..];
      if a[0] != b[0] {
        assert a[0] in b[1..] && b[0] in a[1..];
        var i :| 1 <= i < |b| && b[i] == a[0];
        var j :| 1 <= j < |a| && a[j] == b[0];
        assert Before(b[0], a[0]);
        assert Before(a[0], b[0]);
        BeforeAsymmetric(a[0], b[0]);
      }
      forall x
        ensures x in a[1..] <==> x in b[1..]
      {
        if x in a[1..] {
          var i :| 1 <= i < |a| && a[i] == x;
          assert Before(a[0], x);
          BeforeIrreflexive(x);
          assert x in b;
        }
        if x in b[1..] {
          var i :| 1 <= i < |b| && b[i] == x;
          assert Before(b[0], x);
          BeforeIrreflexive(x);
          assert x in a;
        }
      }
      SortedUnique(a[1..], b[1..]);
    }
  }

  /** Insertion into a sorted sequence; an element already present is not
      repeated. */
  function Insert(x: string, s: seq<string>): (r: seq<string>)
    ensures forall y :: y in r <==> y == x || y in s
  {
    if s == [] then [x]
    else if x == s[0] then s
    else if Before(x, s[0]) then [x] + s
    else [s[0]] + Insert(x, s[1..])
  }

  lemma {:induction false} InsertSorted(x: string, s: seq<string>)
    requires StrictlySorted(s)
    ensures StrictlySorted(Insert(x, s))
  {
    if s != [] && x != s[0] && !Before(x, s[0]) {
      BeforeTotal(x, s[0]);
      InsertSorted(x, s[1..]);
      var r := Insert(x, s);
      forall i, j | 0 <= i < j < |r|
        ensures Before(r[i], r[j])
      {
        if i == 0 {
          assert r[j] in Insert(x, s[1..]);
          if r[j] != x {
            var k :| 1 <= k < |s| && s[k] == r[j];
          }
        }
      }
    } else if s != [] && x != s[0] {
      forall j | 1 <= j < |s|
        ensures Before(x, s[j])
      {
        BeforeTransitive(x, s[0], s[j]);
      }
    }
  }

  /** `sorted(set(keys))`: the keys in ascending order, each once. */
  function SortStrings(ks: seq<string>): (r: seq<string>)
    ensures StrictlySorted(r)
    ensures forall y :: y in r <==> y in ks
  {
    if ks == [] then []
    else
      var init := SortStrings(ks[..|ks| - 1]);
      InsertSorted(ks[|ks| - 1], init);
      assert forall y :: y in ks <==> y in ks[..|ks| - 1] || y == ks[|ks| - 1] by {
        assert ks == ks[..|ks| - 1] + [ks[|ks| - 1]];
      }
      Insert(ks[|ks| - 1], init)
  }

  /** The elements of `s` for which `p` holds, in their order. */
  function Filter(s: seq<string>, p: string -> bool): (r: seq<string>)
    ensures forall y :: y in r <==> y in s && p(y)
  {
    if s == [] then []
    else if p(s[0]) then [s[0]] + Filter(s[1..], p)
    else Filter(s[1..], p)
  }

  lemma {:induction false} FilterSorted(s: seq<string>, p: string -> bool)
    requires StrictlySorted(s)
    ensures StrictlySorted(Filter(s, p))
  {
    if s != [] {
      FilterSorted(s[1..], p);
      var r := Filter(s, p);
      if p(s[0]) {
        forall j | 1 <= j < |r|
          ensures Before(r[0], r[j])
        {
          assert r[j] in Filter(s[1..], p);
          var k :| 1 <= k < |s| && s[k] == r[j];
        }
      }
    }
  }

  // ---------------------------------------------------------------------
  // str.strip(" /") and "_".join
  // ---------------------------------------------------------------------

  predicate Stripped(c: char)
  {
    c == ' ' || c == '/'
  }

  /** How many spaces and slashes `s` starts with. */
  function Leading(s: string): (n: nat)
    ensures n <= |s|
    ensures forall k :: 0 <= k < n ==> Stripped(s[k])
    ensures n < |s| ==> !Stripped(s[n])
  {
    if s != [] && Stripped(s[0]) then 1 + Leading(s[1..]) else 0
  }

  /** How many spaces and slashes `s` ends with. */
  function Trailing(s: string): (n: nat)
    ensures n <= |s|
    ensures forall k :: |s| - n <= k < |s| ==> Stripped(s[k])
    ensures n < |s| ==> !Stripped(s[|s| - 1 - n])
  {
    if s != [] && Stripped(s[|s| - 1]) then 1 + Trailing(s[..|s| - 1]) else 0
  }

  /** `r` is `s[i..j]`, and only spaces and slashes lie outside it. */
  predicate StripsTo(s: string, r: string, i: int, j: int)
  {
    0 <= i <= j <= |s| && r == s[i..j] &&
    (forall k :: 0 <= k < i ==> Stripped(s[k])) &&
    (forall k :: j <= k < |s| ==> Stripped(s[k]))
  }

  /** `s.strip(" /")`: the longest infix that neither starts nor ends with a
      space or a slash, obtained by removing only spaces and slashes. */
  function Strip(s: string): (r: string)
    ensures exists i, j :: StripsTo(s, r, i, j)
    ensures r != [] ==> !Stripped(r[0]) && !Stripped(r[|r| - 1])
  {
    var i := Leading(s);
    var j := |s| - Trailing(s[i..]);
    assert forall k :: j <= k < |s| ==> s[k] == s[i..][k - i];
    assert StripsTo(s, s[i..j], i, j);
    s[i..j]
  }

  /** Stripping twice is stripping once. */
  lemma StripIdempotent(s: string)
    ensures Strip(Strip(s)) == Strip(s)
  {
    var r := Strip(s);
    if r != [] {
      assert Leading(r) == 0;
      assert r[0..] == r;
      assert Trailing(r) == 0;
    }
  }

  /** `sep.join(parts)` */
  function Join(parts: seq<string>, sep: string): string
  {
    if parts == [] then ""
    else if |parts| == 1 then parts[0]
    else Join(parts[..|parts| - 1], sep) + sep + parts[|parts| - 1]
  }

  // ---------------------------------------------------------------------
  // build_datasource_key
  // ---------------------------------------------------------------------

  /** The text of field `key` when that field holds a string. */
  function StringField(ds: Record, key: string): Option<string>
  {
    match Lookup(ds, key)
    case Some(Str(s)) => Some(s)
    case _ => None
  }

  /** `[key for key in sorted(ds) if isinstance(ds[key], str)]`: the names of
      the string fields, in ascending order. */
  function SortedStringFields(ds: Record): (ks: seq<string>)
    ensures StrictlySorted(ks)
    ensures forall k :: k in ks <==> StringField(ds, k).Some?
  {
    var all := SortStrings(Keys(ds));
    FilterSorted(all, k => StringField(ds, k).Some?);
    forall k | StringField(ds, k).Some?
      ensures k in Keys(ds)
    {
      var i :| 0 <= i < |ds| && ds[i].key == k;
      assert Keys(ds)[i] == k;
    }
    Filter(all, k => StringField(ds, k).Some?)
  }

  /** The stripped string values, in ascending order of their field names. */
  function KeyParts(ds: Record): (parts: seq<string>)
    ensures |parts| == |SortedStringFields(ds)|
    ensures forall i :: 0 <= i < |parts| ==>
      parts[i] == Strip(StringField(ds, SortedStringFields(ds)[i]).value)
  {
    var ks := SortedStringFields(ds);
    seq(|ks|, i requires 0 <= i < |ks| => Strip(StringField(ds, ks[i]).value))
  }

  /** `build_datasource_key(ds)` */
  function BuildKey(ds: Record): string
  {
    Join(KeyParts(ds), "_")
  }

  /** The key depends on nothing but the string-valued fields: not on the
      fields that hold other values, and not on the order of the fields. */
  lemma KeyDependsOnlyOnStringFields(ds: Record, ds': Record)
    requires forall k :: StringField(ds, k) == StringField(ds', k)
    ensures BuildKey(ds) == BuildKey(ds')
  {
    SortedUnique(SortedStringFields(ds), SortedStringFields(ds'));
    assert KeyParts(ds) == KeyParts(ds');
  }

  /** Two datasources with the same fields listed in different orders have the
      same key. */
  lemma KeyIgnoresFieldOrder(ds: Record, ds': Record)
    requires DistinctKeys(ds) && DistinctKeys(ds')
    requires forall m :: m in ds <==> m in ds'
    ensures BuildKey(ds) == BuildKey(ds')
  {
    forall k
      ensures StringField(ds, k) == StringField(ds', k)
    {
      match Lookup(ds, k)
      case None =>
        if Lookup(ds', k).Some? {
          LookupDistinct(ds', k, Lookup(ds', k).value);
        }
      case Some(v) =>
        LookupDistinct(ds, k, v);
        LookupDistinct(ds', k, v);
    }
    KeyDependsOnlyOnStringFields(ds, ds');
  }

  const ExampleSource: Record := [Member("server", Str(" srv/ ")), Member("database", Str("/db"))]
  const ExampleReordered: Record :=
    [Member("port", Int(1433)), Member("database", Str("/db")), Member("server", Str(" srv/ "))]

  lemma ExampleFields(ds: Record)
    requires ds == ExampleSource
    ensures SortedStringFields(ds) == ["database", "server"]
  {
    var ks := ["database", "server"];
    assert Before("database", "server");
    forall k
      ensures k in ks <==> StringField(ds, k).Some?
    {
      if k != "server" && k != "database" {
        assert Lookup(ds, k).None?;
      } else if k == "server" {
        assert Lookup(ds, k) == Some(Str(" srv/ "));
      } else {
        assert Lookup(ds, k) == Some(Str("/db"));
      }
    }
    SortedUnique(SortedStringFields(ds), ks);
  }

  lemma ExampleStrips()
    ensures Strip(" srv/ ") == "srv" && Strip("/db") == "db"
  {
    assert Leading(" srv/ ") == 1;
    assert " srv/ "[1..] == "srv/ ";
    assert Trailing("srv/ ") == 2;
    assert Leading("/db") == 1;
    assert "/db"[1..] == "db";
    assert Trailing("db") == 0;
  }

  lemma ExampleSameStrings(ds: Record, ds': Record)
    requires ds == ExampleSource && ds' == ExampleReordered
    ensures forall k :: StringField(ds, k) == StringField(ds', k)
  {
    forall k
      ensures StringField(ds, k) == StringField(ds', k)
    {
      if k != "server" && k != "database" && k != "port" {
        assert Lookup(ds, k).None?;
        assert Lookup(ds', k).None?;
      }
    }
  }

  /** The key parts of a datasource with exactly two string fields. */
  lemma KeyPartsOfTwo(ds: Record, ka: string, kb: string, a: string, b: string)
    requires SortedStringFields(ds) == [ka, kb]
    requires StringField(ds, ka) == Some(a) && StringField(ds, kb) == Some(b)
    ensures KeyParts(ds) == [Strip(a), Strip(b)]
  {
  }

  lemma ExampleValues(ds: Record)
    requires ds == ExampleSource
    ensures StringField(ds, "database") == Some("/db") && StringField(ds, "server") == Some(" srv/ ")
  {
    assert Lookup(ds, "database") == Some(Str("/db"));
    assert Lookup(ds, "server") == Some(Str(" srv/ "));
  }

  lemma ExampleParts(ds: Record)
    requires ds == ExampleSource
    ensures KeyParts(ds) == ["db", "srv"]
  {
    ExampleFields(ds);
    ExampleValues(ds);
    KeyPartsOfTwo(ds, "database", "server", "/db", " srv/ ");
    ExampleStrips();
  }

  lemma JoinTwo(a: string, b: string, sep: string)
    ensures Join([a, b], sep) == a + sep + b
  {
    assert [a, b][..1] == [a];
  }

  lemma JoinExample()
    ensures Join(["db", "srv"], "_") == "db_srv"
  {
    JoinTwo("db", "srv", "_");
  }

  /** A datasource, and the same one with its fields in a different order and
      an extra non-string field: the key is `db_srv` either way. */
  lemma BuildKeyExample(ds: Record, ds': Record)
    requires ds == ExampleSource && ds' == ExampleReordered
    ensures BuildKey(ds) == "db_srv"
    ensures BuildKey(ds') == "db_srv"
  {
    ExampleParts(ds);
    JoinExample();
    ExampleSameStrings(ds, ds');
    KeyDependsOnlyOnStringFields(ds, ds');
  }
}
