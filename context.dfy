/**
 * Render contexts: promotion of the current locale's sub-mapping
 * (`Locales._localify_context`) and the three-tier lookup of a context file
 * (`Locales.load`). The loader is a map from full file names to what
 * opening and parsing that file yields.
 */
module LocaleContext {
  import opened Wrappers
  import opened LocaleErrors
  import opened LocalePaths

  /** A value in a context: a mapping, or anything else (string, number, list, null). */
  datatype Value = Scalar(text: string) | Mapping(entries: map<string, Value>)

  type Context = map<string, Value>

  /** `Locales.context_folder`. */
  const ContextFolder: string := "context"

  /**
   * `context.update(context.get(loc))` when `loc` is a key: the sub-mapping's
   * entries overwrite the top level; a non-mapping value makes `update` raise.
   */
  function Promote(loc: string, ctx: Context): (r: Result<Context, Error>)
    ensures loc !in ctx ==> r == Success(ctx)
    ensures r.Failure? <==> loc in ctx && ctx[loc].Scalar?
    ensures r.Failure? ==> r.error == NotAMapping(loc)
    ensures r.Success? && loc in ctx ==>
      var sub := ctx[loc].entries;
      && r.value.Keys == ctx.Keys + sub.Keys
      && (forall k :: k in sub ==> r.value[k] == sub[k])
      && (forall k :: k in ctx && k !in sub ==> r.value[k] == ctx[k])
  {
    if loc !in ctx then Success(ctx)
    else match ctx[loc]
      case Scalar(_) => Failure(NotAMapping(loc))
      case Mapping(sub) => Success(ctx + sub)
  }

  /** Promoting twice is promoting once, unless the sub-mapping re-binds the locale key itself. */
  lemma PromoteIdempotent(loc: string, ctx: Context)
    requires Promote(loc, ctx).Success?
    requires loc in ctx ==> loc !in ctx[loc].entries
    ensures Promote(loc, Promote(loc, ctx).value) == Promote(loc, ctx)
  {
    if loc in ctx {
      var sub := ctx[loc].entries;
      var once := ctx + sub;
      assert once[loc] == ctx[loc];
      assert once + sub == once;
    }
  }

  /**
   * With one sub-mapping per locale, switching the locale switches which
   * sub-mapping is visible at the top level, and every locale key stays.
   */
  lemma PromoteSelectsLocale(ctx: Context, a: string, b: string, key: string)
    requires a in ctx && b in ctx && ctx[a].Mapping? && ctx[b].Mapping?
    requires key in ctx[a].entries && key in ctx[b].entries
    ensures Promote(a, ctx).Success? && Promote(b, ctx).Success?
    ensures Promote(a, ctx).value[key] == ctx[a].entries[key]
    ensures Promote(b, ctx).value[key] == ctx[b].entries[key]
    ensures a in Promote(b, ctx).value && b in Promote(a, ctx).value
  {
  }

  /** What opening and parsing one file yields. */
  datatype FileEntry = Parsed(ctx: Context) | Unreadable | Unparsable

  /** The files the loader can see; a name that is not a key does not exist. */
  type FileSystem = map<string, FileEntry>

  /** One call of `context_loader`. */
  function Read(fs: FileSystem, file: string): (r: Result<Context, Error>)
    ensures r.Success? <==> file in fs && fs[file].Parsed?
    ensures r.Success? ==> r.value == fs[file].ctx
    ensures r.Failure? && r.error.IsIOError() <==> file !in fs || fs[file].Unreadable?
  {
    if file !in fs then Failure(FileNotFound(file))
    else match fs[file]
      case Parsed(c) => Success(c)
      case Unreadable => Failure(FileUnreadable(file))
      case Unparsable => Failure(Malformed(file))
  }

  /** An outcome `load` catches and falls through on. */
  predicate Swallowed(r: Result<Context, Error>)
  {
    r.Failure? && r.error.IsIOError()
  }

  /**
   * The three files `load(path)` tries, in order: the localised path and the
   * path itself under `<root>/context`, then the path directly under `<root>`.
   */
  function Tiers(root: string, loc: string, path: string): (files: seq<string>)
    ensures |files| == 3
    ensures files[0] == PathJoin(PathJoin(root, ContextFolder), LocalizePath(loc, path))
    ensures files[1] == PathJoin(PathJoin(root, ContextFolder), path)
    ensures files[2] == PathJoin(root, path)
  {
    var base := PathJoin(root, ContextFolder);
    [PathJoin(base, LocalizePath(loc, path)), PathJoin(base, path), PathJoin(root, path)]
  }

  /**
   * Try `files` in order: the first outcome that is not an I/O error wins,
   * and the last file's outcome is returned whatever it is.
   */
  function FirstLoad(fs: FileSystem, files: seq<string>): (r: Result<Context, Error>)
    requires |files| > 0
    ensures exists k :: (0 <= k < |files| && r == Read(fs, files[k])
      && (forall j :: 0 <= j < k ==> Swallowed(Read(fs, files[j])))
      && (k < |files| - 1 ==> !Swallowed(r)))
    ensures Swallowed(r) ==> forall j :: 0 <= j < |files| ==> Swallowed(Read(fs, files[j]))
    decreases |files|
  {
    var first := Read(fs, files[0]);
    if |files| == 1 || !Swallowed(first) then first
    else
      var rest := FirstLoad(fs, files[1..]);
      assert forall j :: 1 <= j < |files| ==> files[1..][j - 1] == files[j];
      rest
  }

  /** `Locales.load(path)` with current locale `loc` and application root `root`. */
  function TieredLoad(fs: FileSystem, root: string, loc: string, path: string): (r: Result<Context, Error>)
    ensures r.Success? ==> exists f :: f in Tiers(root, loc, path) && f in fs && fs[f] == Parsed(r.value)
    ensures Swallowed(r) ==> r == Read(fs, PathJoin(root, path))
  {
    FirstLoad(fs, Tiers(root, loc, path))
  }

  /**
   * The fall-through rule tier by tier: a file found (or a parse error) at a
   * tier ends the search; a missing or unreadable file at the first two tiers
   * moves on; the third tier's outcome, error included, is final.
   */
  lemma LoadTiers(fs: FileSystem, root: string, loc: string, path: string)
    ensures var t := Tiers(root, loc, path); var r := TieredLoad(fs, root, loc, path);
      && (!Swallowed(Read(fs, t[0])) ==> r == Read(fs, t[0]))
      && (Swallowed(Read(fs, t[0])) && !Swallowed(Read(fs, t[1])) ==> r == Read(fs, t[1]))
      && (Swallowed(Read(fs, t[0])) && Swallowed(Read(fs, t[1])) ==> r == Read(fs, t[2]))
  {
    var t := Tiers(root, loc, path);
    assert t[1..][0] == t[1] && t[1..][1..] == [t[2]];
  }

  /** `load` raises "not found" only when no tier has a readable file, and then names the common file. */
  lemma LoadNotFound(fs: FileSystem, root: string, loc: string, path: string)
    requires TieredLoad(fs, root, loc, path).Failure?
    requires TieredLoad(fs, root, loc, path).error.FileNotFound?
    ensures TieredLoad(fs, root, loc, path).error == FileNotFound(PathJoin(root, path))
    ensures forall f :: f in Tiers(root, loc, path) ==> f !in fs || fs[f].Unreadable?
  {
    var t := Tiers(root, loc, path);
    var r := TieredLoad(fs, root, loc, path);
    assert Swallowed(r);
    LoadTiers(fs, root, loc, path);
  }
}
