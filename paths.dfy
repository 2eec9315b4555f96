/**
 * Path localisation (`Locales._localify_path`) and the template candidate list
 * built by `Locales.render_template`. The separator is fixed to '/'.
 */
module LocalePaths {

  /** `os.path.join(a, b)` on a POSIX system. */
  function PathJoin(a: string, b: string): string
  {
    if |b| > 0 && b[0] == '/' then b
    else if a == [] || a[|a| - 1] == '/' then a + b
    else a + "/" + b
  }

  /**
   * The shape of a joined path: an absolute `b` replaces `a`; otherwise the
   * result starts with `a`, ends with `b`, and has one '/' between them
   * exactly when `a` is non-empty and does not already end in '/'.
   */
  lemma PathJoinShape(a: string, b: string)
    ensures var r := PathJoin(a, b);
      && |b| <= |r| && r[|r| - |b|..] == b
      && (|b| > 0 && b[0] == '/' ==> r == b)
      && (!(|b| > 0 && b[0] == '/') ==>
        && StartsWith(r, a)
        && |a| + |b| <= |r| <= |a| + |b| + 1
        && (|r| == |a| + |b| + 1 <==> a != [] && a[|a| - 1] != '/')
        && (|r| == |a| + |b| + 1 ==> r[|a|] == '/'))
  {
  }

  predicate StartsWith(s: string, prefix: string)
  {
    |prefix| <= |s| && s[..|prefix|] == prefix
  }

  /** Python's substring test `t in s`. */
  predicate Contains(s: string, t: string)
    decreases |s|
  {
    StartsWith(s, t) || (|s| > 0 && Contains(s[1..], t))
  }

  lemma {:induction false} ContainsAt(s: string, t: string, i: nat)
    requires i + |t| <= |s| && s[i..i + |t|] == t
    ensures Contains(s, t)
    decreases i
  {
    if i > 0 {
      assert s[1..][i - 1..i - 1 + |t|] == s[i..i + |t|];
      ContainsAt(s[1..], t, i - 1);
    }
  }

  lemma {:induction false} ContainsWitness(s: string, t: string) returns (i: nat)
    requires Contains(s, t)
    ensures i + |t| <= |s| && s[i..i + |t|] == t
    decreases |s|
  {
    if StartsWith(s, t) {
      i := 0;
    } else {
      var j := ContainsWitness(s[1..], t);
      assert s[1..][j..j + |t|] == s[j + 1..j + 1 + |t|];
      i := j + 1;
    }
  }

  /** Index of the last '/' in `path`: where `path.rsplit('/', 1)` cuts. */
  function LastSlash(path: string): (i: nat)
    requires '/' in path
    ensures i < |path| && path[i] == '/'
    ensures forall j :: i < j < |path| ==> path[j] != '/'
    decreases |path|
  {
    var n := |path| - 1;
    if path[n] == '/' then n
    else
      assert exists j :: 0 <= j < n && path[j] == '/' by {
        var j :| 0 <= j < |path| && path[j] == '/';
      }
      assert '/' in path[..n];
      LastSlash(path[..n])
  }

  /** `path.rsplit('/', 1)` for a path that contains '/': the prefix and the final segment. */
  function RSplit(path: string): (parts: (string, string))
    requires '/' in path
    ensures path == parts.0 + "/" + parts.1
    ensures '/' !in parts.1
  {
    var i := LastSlash(path);
    assert path == path[..i] + "/" + path[i + 1..];
    (path[..i], path[i + 1..])
  }

  /** A prefix and a final segment that rejoin to `path` are the ones `rsplit` finds. */
  lemma RSplitUnique(path: string, prefix: string, last: string)
    requires path == prefix + "/" + last && '/' !in last
    ensures '/' in path && RSplit(path) == (prefix, last)
  {
    assert path[|prefix|] == '/';
    assert forall j :: |prefix| < j < |path| ==> path[j] == last[j - |prefix| - 1];
    var i := LastSlash(path);
    assert i == |prefix|;
    assert path[..i] == prefix;
  }

  /** `loc + "/"` occurs in `path` at `i`, at the start of a segment. */
  predicate SegmentAt(loc: string, path: string, i: nat)
  {
    i + |loc| + 1 <= |path| && path[i..i + |loc| + 1] == loc + "/"
    && (i == 0 || path[i - 1] == '/')
  }

  /**
   * The test `_localify_path` uses to decide that `path` already carries
   * `loc`: `loc` is a whole segment of `path` that is followed by another.
   */
  predicate Carries(loc: string, path: string): (r: bool)
    ensures r <==> exists i: nat :: SegmentAt(loc, path, i)
  {
    CarriesAsSegment(loc, path);
    Contains(path, "/" + loc + "/") || StartsWith(path, loc + "/")
  }

  /** The two substring tests together say that `loc` is a segment of `path` with a '/' after it. */
  lemma CarriesAsSegment(loc: string, path: string)
    ensures Contains(path, "/" + loc + "/") || StartsWith(path, loc + "/")
            <==> exists i: nat :: SegmentAt(loc, path, i)
  {
    var needle := "/" + loc + "/";
    if StartsWith(path, loc + "/") {
      assert SegmentAt(loc, path, 0);
    } else if Contains(path, needle) {
      var j := ContainsWitness(path, needle);
      assert path[j] == needle[0];
      assert path[j + 1..j + |needle|] == needle[1..] == loc + "/";
      assert SegmentAt(loc, path, j + 1);
    }
    if exists i: nat :: SegmentAt(loc, path, i) {
      var i: nat :| SegmentAt(loc, path, i);
      if i == 0 {
        assert StartsWith(path, loc + "/");
      } else {
        assert path[i - 1..i + |loc| + 1] == needle;
        ContainsAt(path, needle, i - 1);
      }
    }
  }

  /** `Locales._localify_path(path)` with current locale `loc`. */
  function LocalizePath(loc: string, path: string): (r: string)
    ensures '/' in path ==> (r == path <==> Carries(loc, path))
  {
    if '/' !in path then PathJoin(loc, path)
    else if Carries(loc, path) then path
    else
      var (prefix, last) := RSplit(path);
      assert |prefix + "/" + loc + "/" + last| > |path|;
      prefix + "/" + loc + "/" + last
  }

  /** A root-level name gets the locale as its directory. */
  lemma LocalizeRootLevel(loc: string, name: string)
    requires '/' !in name && loc != [] && '/' !in loc
    ensures LocalizePath(loc, name) == loc + "/" + name
  {
  }

  /** A namespaced path that does not carry the locale gets it inserted before its last segment. */
  lemma LocalizeNamespaced(loc: string, prefix: string, last: string)
    requires '/' !in last
    requires !Carries(loc, prefix + "/" + last)
    ensures LocalizePath(loc, prefix + "/" + last) == prefix + "/" + loc + "/" + last
  {
    RSplitUnique(prefix + "/" + last, prefix, last);
  }

  /** A path that contains `"/" + loc + "/"` has two '/' that far apart. */
  lemma ContainsSlashes(s: string, loc: string)
    requires Contains(s, "/" + loc + "/")
    ensures exists i :: 0 <= i && i + |loc| + 1 < |s| && s[i] == '/' && s[i + |loc| + 1] == '/'
  {
    var needle := "/" + loc + "/";
    var i := ContainsWitness(s, needle);
    assert s[i] == needle[0];
    assert s[i + |loc| + 1] == needle[|loc| + 1];
  }

  /** A path with one '/' carries the locale exactly when its directory is the locale. */
  lemma CarriesOneLevel(loc: string, dir: string, name: string)
    requires '/' !in dir && '/' !in name
    ensures Carries(loc, dir + "/" + name) <==> dir == loc
  {
    var path := dir + "/" + name;
    var needle := "/" + loc + "/";
    assert forall j :: 0 <= j < |path| && path[j] == '/' ==> j == |dir|;
    if Contains(path, needle) {
      ContainsSlashes(path, loc);
      assert false;
    }
    if StartsWith(path, loc + "/") {
      assert path[|loc|] == '/';
      assert dir == path[..|dir|] == loc;
    }
    if dir == loc {
      assert path[..|loc + "/"|] == loc + "/";
    }
  }

  /**
   * A blueprint path `dir/name`: the locale goes between the two, unless the
   * directory already is the locale.
   */
  lemma LocalizeOneLevel(loc: string, dir: string, name: string)
    requires '/' !in dir && '/' !in name
    ensures LocalizePath(loc, dir + "/" + name)
            == if dir == loc then dir + "/" + name else dir + "/" + loc + "/" + name
  {
    CarriesOneLevel(loc, dir, name);
    if dir != loc {
      LocalizeNamespaced(loc, dir, name);
    }
  }

  /** The locale as a segment anywhere in the path, not only before the last one, leaves the path as it is. */
  lemma LocaleSegmentAnywhere(loc: string, before: string, after: string)
    ensures LocalizePath(loc, before + "/" + loc + "/" + after) == before + "/" + loc + "/" + after
  {
    var path := before + "/" + loc + "/" + after;
    var needle := "/" + loc + "/";
    assert path == before + needle + after;
    assert path[|before|..|before| + |needle|] == needle;
    ContainsAt(path, needle, |before|);
    assert path[|before|] == '/';
  }

  /** Localising a localised path changes nothing, for any locale code without '/'. */
  lemma LocalizeIdempotent(loc: string, path: string)
    requires '/' !in loc
    ensures LocalizePath(loc, LocalizePath(loc, path)) == LocalizePath(loc, path)
  {
    var r := LocalizePath(loc, path);
    if '/' !in path {
      if loc != [] {
        assert r == loc + "/" + path;
        assert r[..|loc + "/"|] == loc + "/";
        assert StartsWith(r, loc + "/");
      }
    } else if !Carries(loc, path) {
      var (prefix, last) := RSplit(path);
      var needle := "/" + loc + "/";
      assert r == prefix + needle + last;
      assert r[|prefix|..|prefix| + |needle|] == needle;
      ContainsAt(r, needle, |prefix|);
    }
  }

  /**
   * Where the localised file lives: for a locale code without '/', the result
   * ends in the original final segment and its directory is the original
   * directory followed by the locale (or the locale alone at the root).
   */
  lemma LocalizedLocation(loc: string, path: string)
    requires loc != [] && '/' !in loc
    requires '/' !in path || !Carries(loc, path)
    ensures var r := LocalizePath(loc, path);
      '/' in r && RSplit(r).1 == (if '/' in path then RSplit(path).1 else path)
      && RSplit(r).0 == (if '/' in path then RSplit(path).0 + "/" + loc else loc)
  {
    var r := LocalizePath(loc, path);
    if '/' !in path {
      RSplitUnique(r, loc, path);
    } else {
      var (prefix, last) := RSplit(path);
      assert r == (prefix + "/" + loc) + "/" + last;
      RSplitUnique(r, prefix + "/" + loc, last);
    }
  }

  /** `template_name_or_list`: one name or a list of names. */
  datatype TemplateNames = One(name: string) | Many(names: seq<string>)

  /** `render_template` wraps a lone name in a one-element list. */
  function NameList(t: TemplateNames): (names: seq<string>)
    ensures t.One? ==> names == [t.name]
    ensures t.Many? ==> names == t.names
  {
    match t
    case One(name) => [name]
    case Many(names) => names
  }

  /** `[self._localify_path(name) for name in names]`. */
  function LocalizeAll(loc: string, names: seq<string>): (r: seq<string>)
    ensures |r| == |names|
    ensures forall i :: 0 <= i < |names| ==> r[i] == LocalizePath(loc, names[i])
    decreases |names|
  {
    if names == [] then []
    else [LocalizePath(loc, names[0])] + LocalizeAll(loc, names[1..])
  }

  /**
   * The list handed to the template engine: the localised names in input
   * order, then the original names in input order.
   */
  function Candidates(loc: string, names: seq<string>): (r: seq<string>)
    ensures |r| == 2 * |names|
    ensures forall i :: 0 <= i < |names| ==> r[i] == LocalizePath(loc, names[i])
    ensures forall i :: 0 <= i < |names| ==> r[|names| + i] == names[i]
  {
    LocalizeAll(loc, names) + names
  }

  /** Each localised candidate is tried before every original name. */
  lemma CandidatesLocalizedFirst(loc: string, names: seq<string>, i: nat)
    requires i < |names| && '/' !in loc
    ensures var r := Candidates(loc, names);
      r[i] == LocalizePath(loc, names[i]) && r[|names| + i] == names[i]
      && LocalizePath(loc, r[i]) == r[i]
  {
    LocalizeIdempotent(loc, names[i]);
  }
}
