/** The project version string (`get_current_version`, powercicd/config.py).
    The commit count and whether the working tree has changes come from `git`;
    here they are parameters. */
module Versioning {
  import opened Results
  import opened JsonText

  /** `count_commits - build_ground`: not clamped, so it can be negative. */
  function BuildNumber(countCommits: int, buildGround: int): int
  {
    countCommits - buildGround
  }

  /** `"{major}.{minor}.{build}"` */
  function VersionBase(major: int, minor: int, build: int): string
  {
    IntText(major) + "." + IntText(minor) + "." + IntText(build)
  }

  /** The version, followed by `M` when the tree has changes. */
  function CurrentVersion(major: int, minor: int, buildGround: int, countCommits: int, dirty: bool): string
  {
    var base := VersionBase(major, minor, BuildNumber(countCommits, buildGround));
    if dirty then base + "M" else base
  }

  // ---------------------------------------------------------------------
  // Reading a version string back
  // ---------------------------------------------------------------------

  /** Index of the first occurrence of `c` in `s`. */
  function FirstIndex(s: string, c: char): (r: Option<nat>)
    ensures r.Some? ==> r.value < |s|
  {
    if s == [] then None
    else if s[0] == c then Some(0)
    else match FirstIndex(s[1..], c)
      case None => None
      case Some(i) => Some(i + 1)
  }

  /** FirstIndex finds the first `c` in `s`, and finds none only when there is none. */
  lemma {:induction false} FirstIndexFinds(s: string, c: char)
    ensures FirstIndex(s, c).Some? ==>
      s[FirstIndex(s, c).value] == c && forall i :: 0 <= i < FirstIndex(s, c).value ==> s[i] != c
    ensures FirstIndex(s, c).None? ==> forall i :: 0 <= i < |s| ==> s[i] != c
  {
    if s != [] && s[0] != c {
      FirstIndexFinds(s[1..], c);
      forall i | 0 < i < |s|
        ensures s[i] == s[1..][i - 1]
      {
      }
    }
  }

  predicate AllDigits(t: string)
  {
    forall i :: 0 <= i < |t| ==> IsDigit(t[i])
  }

  /** The integer a `str(int)` text denotes. */
  function ReadInt(t: string): Option<int>
  {
    if t == [] then None
    else if t[0] == '-' then
      if |t| > 1 && AllDigits(t[1..]) then Some(-(DigitsValue(t[1..]) as int)) else None
    else if AllDigits(t) then Some(DigitsValue(t)) else None
  }

  /** The three dot-separated numbers of a version string without its mark. */
  function ReadNumbers(body: string): Option<(int, int, int)>
  {
    match FirstIndex(body, '.')
    case None => None
    case Some(i) =>
      var rest := body[i + 1..];
      match FirstIndex(rest, '.')
      case None => None
      case Some(j) =>
        match (ReadInt(body[..i]), ReadInt(rest[..j]), ReadInt(rest[j + 1..]))
        case (Some(major), Some(minor), Some(build)) => Some((major, minor, build))
        case _ => None
  }

  /** Major, minor and build number of a version string, and whether it marks
      a tree with changes. */
  function ReadVersion(s: string): Option<(int, int, int, bool)>
  {
    var dirty := |s| > 0 && s[|s| - 1] == 'M';
    var body := if dirty then s[..|s| - 1] else s;
    match ReadNumbers(body)
    case None => None
    case Some(n) => Some((n.0, n.1, n.2, dirty))
  }

  lemma ReadIntText(i: int)
    ensures ReadInt(IntText(i)) == Some(i)
  {
    var t := IntText(i);
    if i < 0 {
      assert t[1..] == NatText(-i);
      DigitsValueOfNatText(-i);
    } else {
      DigitsValueOfNatText(i);
    }
  }

  /** The text of an integer holds no `.` and ends in a digit. */
  lemma IntTextShape(i: int)
    ensures forall k :: 0 <= k < |IntText(i)| ==> IntText(i)[k] != '.'
    ensures IsDigit(IntText(i)[|IntText(i)| - 1])
  {
    var t := IntText(i);
    if i < 0 {
      assert forall k :: 1 <= k < |t| ==> t[k] == NatText(-i)[k - 1];
    }
  }

  /** A field of the version string followed by a dot: the dot is found right
      after the field. */
  lemma FirstDotAfter(a: int, rest: string)
    ensures FirstIndex(IntText(a) + "." + rest, '.') == Some(|IntText(a)|)
    ensures (IntText(a) + "." + rest)[..|IntText(a)|] == IntText(a)
    ensures (IntText(a) + "." + rest)[|IntText(a)| + 1..] == rest
  {
    var s := IntText(a) + "." + rest;
    IntTextShape(a);
    FirstIndexFinds(s, '.');
    assert forall k :: 0 <= k < |IntText(a)| ==> s[k] == IntText(a)[k];
    assert s[|IntText(a)|] == '.';
  }

  lemma ReadNumbersOf(a: int, b: int, c: int)
    ensures ReadNumbers(VersionBase(a, b, c)) == Some((a, b, c))
  {
    var tail := IntText(b) + "." + IntText(c);
    assert IntText(a) + "." + IntText(b) + "." + IntText(c) == IntText(a) + "." + tail;
    FirstDotAfter(a, tail);
    FirstDotAfter(b, IntText(c));
    ReadIntText(a);
    ReadIntText(b);
    ReadIntText(c);
  }

  lemma BaseEndsInDigit(a: int, b: int, c: int)
    ensures |VersionBase(a, b, c)| > 0 && IsDigit(VersionBase(a, b, c)[|VersionBase(a, b, c)| - 1])
  {
    var base := VersionBase(a, b, c);
    IntTextShape(c);
    assert base[|base| - 1] == IntText(c)[|IntText(c)| - 1];
  }

  lemma ReadClean(base: string, n: (int, int, int))
    requires |base| > 0 && base[|base| - 1] != 'M' && ReadNumbers(base) == Some(n)
    ensures ReadVersion(base) == Some((n.0, n.1, n.2, false))
  {
  }

  lemma ReadMarked(base: string, n: (int, int, int))
    requires ReadNumbers(base) == Some(n)
    ensures ReadVersion(base + "M") == Some((n.0, n.1, n.2, true))
  {
    assert (base + "M")[..|base|] == base;
  }

  lemma CurrentVersionIs(major: int, minor: int, buildGround: int, countCommits: int, dirty: bool)
    ensures var base := VersionBase(major, minor, countCommits - buildGround);
      CurrentVersion(major, minor, buildGround, countCommits, dirty) == if dirty then base + "M" else base
  {
  }

  lemma ReadVersionBase(major: int, minor: int, build: int, dirty: bool)
    ensures var base := VersionBase(major, minor, build);
      ReadVersion(if dirty then base + "M" else base) == Some((major, minor, build, dirty))
  {
    var base := VersionBase(major, minor, build);
    ReadNumbersOf(major, minor, build);
    if dirty {
      ReadMarked(base, (major, minor, build));
    } else {
      BaseEndsInDigit(major, minor, build);
      ReadClean(base, (major, minor, build));
    }
  }

  /** The version string can be read back: it gives the major and minor
      version, the build number and the dirty flag. */
  lemma ReadCurrentVersion(major: int, minor: int, buildGround: int, countCommits: int, dirty: bool)
    ensures ReadVersion(CurrentVersion(major, minor, buildGround, countCommits, dirty))
      == Some((major, minor, countCommits - buildGround, dirty))
  {
    CurrentVersionIs(major, minor, buildGround, countCommits, dirty);
    ReadVersionBase(major, minor, countCommits - buildGround, dirty);
  }

  /** Versions built from different inputs differ, unless they agree on the
      major and minor version, the build number and the dirty flag. */
  lemma CurrentVersionInjective(major: int, minor: int, ground: int, count: int, dirty: bool,
                                major': int, minor': int, ground': int, count': int, dirty': bool)
    requires CurrentVersion(major, minor, ground, count, dirty) == CurrentVersion(major', minor', ground', count', dirty')
    ensures major == major' && minor == minor' && count - ground == count' - ground' && dirty == dirty'
  {
    ReadCurrentVersion(major, minor, ground, count, dirty);
    ReadCurrentVersion(major', minor', ground', count', dirty');
  }

  /** The trailing `M` is there exactly when the tree has changes, and the
      string always starts with the major and minor version. */
  lemma CurrentVersionShape(major: int, minor: int, buildGround: int, countCommits: int, dirty: bool)
    ensures var v := CurrentVersion(major, minor, buildGround, countCommits, dirty);
      var prefix := IntText(major) + "." + IntText(minor) + ".";
      |v| > |prefix| && v[..|prefix|] == prefix && (v[|v| - 1] == 'M' <==> dirty)
  {
    var build := BuildNumber(countCommits, buildGround);
    BaseEndsInDigit(major, minor, build);
    var prefix := IntText(major) + "." + IntText(minor) + ".";
    var base := VersionBase(major, minor, build);
    assert base == prefix + IntText(build);
    var v := CurrentVersion(major, minor, buildGround, countCommits, dirty);
    assert v[..|prefix|] == prefix;
  }

  /** A build ground above the commit count gives a negative build number. */
  lemma NegativeBuildExample()
    ensures CurrentVersion(1, 2, 10, 7, false) == "1.2.-3"
  {
    assert IntText(1) == "1" && IntText(2) == "2";
    assert IntText(-3) == "-" + NatText(3);
  }

  lemma CleanAndDirtyExample()
    ensures CurrentVersion(1, 2, 100, 137, false) == "1.2.37"
    ensures CurrentVersion(1, 2, 100, 137, true) == "1.2.37M"
  {
    assert IntText(1) == "1" && IntText(2) == "2";
    assert NatText(37) == NatText(3) + [DigitChar(7)];
  }
}
