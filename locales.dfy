/**
 * The `Locales` object: the registry state it keeps between calls and the
 * operations that read or change it. `g.locales` is taken to be this object,
 * as `before_request` arranges.
 */
module Locales {
  import opened Wrappers
  import opened LocaleErrors
  import opened LocalePaths
  import opened LocaleContext
  import opened LocaleRegistry

  /** What `render_template` hands to Flask's renderer: the candidate names and the final context. */
  datatype RenderCall = RenderCall(templates: seq<string>, context: Context)

  /** The caller's keyword context, with the context file's entries (if one is named) laid over it. */
  function Merged(fs: FileSystem, root: string, loc: string, contextFile: Option<string>, ctx: Context): (r: Result<Context, Error>)
    ensures contextFile.None? ==> r == Success(ctx)
    ensures contextFile.Some? ==>
      (r.Success? <==> TieredLoad(fs, root, loc, contextFile.value).Success?)
    ensures contextFile.Some? && r.Failure? ==> r.error == TieredLoad(fs, root, loc, contextFile.value).error
    ensures contextFile.Some? && r.Success? ==>
      var file := TieredLoad(fs, root, loc, contextFile.value).value;
      && r.value.Keys == ctx.Keys + file.Keys
      && (forall k :: k in file ==> r.value[k] == file[k])
      && (forall k :: k in ctx && k !in file ==> r.value[k] == ctx[k])
  {
    match contextFile
    case None => Success(ctx)
    case Some(f) =>
      var file :- TieredLoad(fs, root, loc, f);
      Success(ctx + file)
  }

  /**
   * `render_template(names, context, **ctx)` once `current` reads as
   * `current`: the candidate list, and the merged context after promotion.
   */
  function RenderResult(current: Result<string, Error>, fs: FileSystem, root: string,
                        templates: TemplateNames, contextFile: Option<string>, ctx: Context): (r: Result<RenderCall, Error>)
    ensures current.Failure? ==> r == Failure(current.error)
    ensures current.Success? && Merged(fs, root, current.value, contextFile, ctx).Failure? ==>
      r == Failure(Merged(fs, root, current.value, contextFile, ctx).error)
    ensures current.Success? && Merged(fs, root, current.value, contextFile, ctx).Success?
            && "self" in Merged(fs, root, current.value, contextFile, ctx).value ==>
      r == Failure(KeywordClash("self"))
    ensures current.Success? && Merged(fs, root, current.value, contextFile, ctx).Success?
            && "self" !in Merged(fs, root, current.value, contextFile, ctx).value ==>
      var m := Merged(fs, root, current.value, contextFile, ctx).value;
      && (r.Success? <==> Promote(current.value, m).Success?)
      && (r.Failure? ==> r.error == NotAMapping(current.value))
    ensures r.Success? ==>
      && |r.value.templates| == 2 * |NameList(templates)|
      && ctx.Keys <= r.value.context.Keys
      && (contextFile.Some? ==> TieredLoad(fs, root, current.value, contextFile.value).value.Keys <= r.value.context.Keys)
  {
    match current
    case Failure(e) => Failure(e)
    case Success(c) =>
      var merged :- Merged(fs, root, c, contextFile, ctx);
      // `self._localify_context(**ctx)` cannot bind a key named "self"
      if "self" in merged then Failure(KeywordClash("self"))
      else
        var promoted :- Promote(c, merged);
        Success(RenderCall(Candidates(c, NameList(templates)), promoted))
  }

  /**
   * A successful render hands over the localised names then the originals,
   * and a context in which the current locale's sub-mapping beats the merged
   * entries (where the file's beat the caller's, see `Merged`).
   */
  lemma RenderLayers(c: string, fs: FileSystem, root: string, templates: TemplateNames,
                     contextFile: Option<string>, ctx: Context, key: string)
    requires RenderResult(Success(c), fs, root, templates, contextFile, ctx).Success?
    ensures var call := RenderResult(Success(c), fs, root, templates, contextFile, ctx).value;
      var names := NameList(templates);
      && |call.templates| == 2 * |names|
      && (forall i :: 0 <= i < |names| ==> call.templates[i] == LocalizePath(c, names[i]))
      && (forall i :: 0 <= i < |names| ==> call.templates[|names| + i] == names[i])
      && (key in call.context <==>
            (key in Merged(fs, root, c, contextFile, ctx).value
             || (c in Merged(fs, root, c, contextFile, ctx).value
                 && key in Merged(fs, root, c, contextFile, ctx).value[c].entries)))
      && (var m := Merged(fs, root, c, contextFile, ctx).value;
          && (c in m && key in m[c].entries ==> call.context[key] == m[c].entries[key])
          && (key in m && !(c in m && key in m[c].entries) ==> call.context[key] == m[key]))
  {
  }

  /** A key both the caller and the context file supply takes the file's value (unless promotion overrides it). */
  lemma FileContextOverridesCaller(c: string, fs: FileSystem, root: string, templates: TemplateNames,
                                   f: string, ctx: Context, key: string)
    requires RenderResult(Success(c), fs, root, templates, Some(f), ctx).Success?
    requires key in ctx
    requires TieredLoad(fs, root, c, f).Success? && key in TieredLoad(fs, root, c, f).value
    requires var m := Merged(fs, root, c, Some(f), ctx).value; c in m ==> key !in m[c].entries
    ensures RenderResult(Success(c), fs, root, templates, Some(f), ctx).value.context[key]
            == TieredLoad(fs, root, c, f).value[key]
  {
    var m := Merged(fs, root, c, Some(f), ctx).value;
    assert Promote(c, m).Success?;
  }

  class Locales {
    /** `_allowed`: the configured codes; the first is the default. */
    var allowed: seq<string>
    /** `_tags`: the configured display tags, parallel to `allowed`. */
    var tags: seq<string>
    /** `tag_map`. */
    var tagMap: map<string, string>
    /** `_current`: the cached current locale. */
    var cur: Option<string>
    /** `session['locale']` of the request being served. */
    var session: Option<string>
    /** `request.accept_languages.best_match(_allowed)` for the request being served. */
    var bestMatch: Option<string>

    ghost predicate Valid()
      reads this
    {
      |tags| == |allowed| && tagMap == ZipMap(allowed, tags)
    }

    /** `Locales()`: empty placeholders, nothing cached. */
    constructor ()
      ensures Valid()
      ensures allowed == [] && tags == [] && tagMap == map[]
      ensures cur == None && session == None && bestMatch == None
    {
      allowed, tags, tagMap := [], [], map[];
      cur, session, bestMatch := None, None, None;
    }

    /** `init_app(app)` with `setting` the app's `LOCALES` value, if configured. */
    method InitApp(setting: Option<seq<(string, string)>>)
      modifies this`allowed, this`tags, this`tagMap
      ensures Valid()
      ensures allowed == Codes(Configured(setting)) && tags == Labels(Configured(setting))
      ensures tagMap == ZipMap(allowed, tags)
    {
      var locales := Configured(setting);
      allowed := Codes(locales);
      tags := Labels(locales);
      tagMap := ZipMap(allowed, tags);
    }

    /**
     * A new request reaches the object. `before_request` rebinds `g.locales`
     * and the template helpers only: the cached `_current` survives.
     */
    method BeforeRequest(sessionLocale: Option<string>, best: Option<string>)
      requires best.Some? ==> best.value in allowed
      modifies this`session, this`bestMatch
      ensures session == sessionLocale && bestMatch == best
      ensures cur == old(cur)
    {
      session, bestMatch := sessionLocale, best;
    }

    /** A new request reaches the object, with the cache cleared as a request-scoped `current` needs. */
    method BeforeRequestReset(sessionLocale: Option<string>, best: Option<string>)
      requires best.Some? ==> best.value in allowed
      modifies this`session, this`bestMatch, this`cur
      ensures session == sessionLocale && bestMatch == best
      ensures cur == None
    {
      session, bestMatch := sessionLocale, best;
      cur := None;
    }

    /** The `tag` filter: the display tag of `code`, or None when it is not configured. */
    function Tag(code: string): (r: Option<string>)
      requires Valid()
      reads this
      ensures r.Some? <==> code in allowed
      ensures r.Some? ==> r.value in tags
    {
      if code in tagMap then Some(tagMap[code]) else None
    }

    /** With distinct codes, the tag filter returns the tag configured beside each code. */
    lemma TagOfConfigured(i: nat)
      requires Valid() && Distinct(allowed) && i < |allowed|
      ensures Tag(allowed[i]) == Some(tags[i])
    {
      ZipMapLookup(allowed, tags, i);
    }

    /** The `default` property: `_allowed[0]`, an IndexError when nothing is configured. */
    function Default(): (r: Result<string, Error>)
      reads this
      ensures r.Success? <==> |allowed| > 0
      ensures r.Success? ==> r.value == allowed[0] && r.value in allowed
    {
      if |allowed| > 0 then Success(allowed[0]) else Failure(NoDefaultLocale)
    }

    /** What reading `current` would return now. */
    function ReadCurrent(): (r: Result<string, Error>)
      reads this
      ensures cur.Some? ==> r == Success(cur.value)
    {
      Lookup(cur, session, bestMatch, allowed)
    }

    /** The cache and the session after reading `current` now. */
    function StateAfterRead(): (state: (Option<string>, Option<string>))
      reads this
      ensures ReadCurrent().Failure? ==> state == (cur, session)
    {
      AfterLookup(cur, session, bestMatch, allowed)
    }

    /** `set(locale)`: no check that `locale` is allowed. */
    method Set(locale: string)
      modifies this`cur, this`session
      ensures cur == Some(locale) && session == Some(locale)
    {
      session := Some(locale);
      cur := Some(locale);
    }

    /** The `current` property (and `get_current`, which returns it). */
    method Current() returns (r: Result<string, Error>)
      modifies this`cur, this`session
      ensures r == old(ReadCurrent())
      ensures (cur, session) == old(StateAfterRead())
      ensures r.Success? ==> cur == Some(r.value)
    {
      if cur.None? {
        var locale := session;
        if locale.None? {
          locale := bestMatch;
        }
        if locale.None? {
          var d :- Default();
          locale := Some(d);
        }
        Set(locale.value);
      }
      r := Success(cur.value);
    }

    /** `next()`: the locale after the current one in `_allowed`, cyclically. */
    method Next() returns (r: Result<string, Error>)
      modifies this`cur, this`session
      ensures (cur, session) == old(StateAfterRead())
      ensures old(ReadCurrent()).Failure? ==> r == Failure(old(ReadCurrent()).error)
      ensures old(ReadCurrent()).Success? ==> r == NextAfter(allowed, old(ReadCurrent()).value)
    {
      var c :- Current();
      if c !in allowed {
        return Failure(LocaleNotAllowed(c));
      }
      var idx := IndexOf(allowed, c);
      if idx + 1 < |allowed| {
        r := Success(allowed[idx + 1]);
      } else {
        r := Success(allowed[0]);
      }
    }

    /** `get_next_tag()`: the tag of `next()`. */
    method GetNextTag() returns (r: Result<Option<string>, Error>)
      requires Valid()
      modifies this`cur, this`session
      ensures (cur, session) == old(StateAfterRead())
      ensures old(ReadCurrent()).Failure? ==> r == Failure(old(ReadCurrent()).error)
      ensures old(ReadCurrent()).Success? ==>
        var n := NextAfter(allowed, old(ReadCurrent()).value);
        if n.Success? then r == Success(Tag(n.value)) && r.value.Some? else r == Failure(n.error)
    {
      var n :- Next();
      r := Success(Tag(n));
    }

    /** `toggle()`: `set(next())`. */
    method Toggle() returns (r: Outcome<Error>)
      modifies this`cur, this`session
      ensures old(ReadCurrent()).Failure? ==>
        r == Fail(old(ReadCurrent()).error) && (cur, session) == old(StateAfterRead())
      ensures old(ReadCurrent()).Success? ==>
        var n := NextAfter(allowed, old(ReadCurrent()).value);
        if n.Success? then r == Pass && cur == Some(n.value) && session == Some(n.value)
        else r == Fail(n.error) && (cur, session) == old(StateAfterRead())
    {
      var n := Next();
      if n.Failure? {
        return Fail(n.error);
      }
      Set(n.value);
      r := Pass;
    }

    /** `_localify_path(path)`. */
    method LocalifyPath(path: string) returns (r: Result<string, Error>)
      modifies this`cur, this`session
      ensures (cur, session) == old(StateAfterRead())
      ensures old(ReadCurrent()).Failure? ==> r == Failure(old(ReadCurrent()).error)
      ensures old(ReadCurrent()).Success? ==> r == Success(LocalizePath(old(ReadCurrent()).value, path))
    {
      var c :- Current();
      if '/' !in path {
        return Success(PathJoin(c, path));
      }
      if Contains(path, "/" + c + "/") {
        return Success(path);
      }
      var again := Current();
      c := again.value;
      if StartsWith(path, c + "/") {
        return Success(path);
      }
      var (prefix, last) := RSplit(path);
      var pathList := [prefix, last];
      again := Current();
      c := again.value;
      pathList := pathList[..1] + [c] + pathList[1..];
      r := Success(pathList[0] + "/" + pathList[1] + "/" + pathList[2]);
    }

    /** `_localify_context(**context)`. */
    method LocalifyContext(context: Context) returns (r: Result<Context, Error>)
      modifies this`cur, this`session
      ensures (cur, session) == old(StateAfterRead())
      ensures old(ReadCurrent()).Failure? ==> r == Failure(old(ReadCurrent()).error)
      ensures old(ReadCurrent()).Success? ==> r == Promote(old(ReadCurrent()).value, context)
    {
      var ctx := context;
      var c :- Current();
      if c in ctx {
        var again := Current();
        c := again.value;
        match ctx[c]
        case Scalar(_) =>
          return Failure(NotAMapping(c));
        case Mapping(sub) =>
          ctx := ctx + sub;
      }
      r := Success(ctx);
    }

    /** `load(path)` with the application rooted at `root` and the loader reading `fs`. */
    method Load(fs: FileSystem, root: string, path: string) returns (r: Result<Context, Error>)
      modifies this`cur, this`session
      ensures (cur, session) == old(StateAfterRead())
      ensures old(ReadCurrent()).Failure? ==> r == Failure(old(ReadCurrent()).error)
      ensures old(ReadCurrent()).Success? ==> r == TieredLoad(fs, root, old(ReadCurrent()).value, path)
    {
      var localified :- LocalifyPath(path);
      ghost var loc := cur.value;
      ghost var tiers := Tiers(root, loc, path);
      var attempts := [localified, path];
      assert forall j :: 0 <= j < 2 ==> tiers[j] == PathJoin(PathJoin(root, ContextFolder), attempts[j]);
      LoadTiers(fs, root, loc, path);
      var k := 0;
      while k < |attempts|
        invariant 0 <= k <= |attempts|
        invariant forall j :: 0 <= j < k ==> Swallowed(Read(fs, tiers[j]))
      {
        var outcome := Read(fs, PathJoin(PathJoin(root, ContextFolder), attempts[k]));
        if !Swallowed(outcome) {
          return outcome;
        }
        k := k + 1;
      }
      // no localised or content-folder copy: the common file, whose errors are not caught
      r := Read(fs, PathJoin(root, path));
    }

    /** `[self._localify_path(name) for name in names]`, each name read through `_localify_path`. */
    method LocalifyNames(names: seq<string>) returns (r: Result<seq<string>, Error>)
      modifies this`cur, this`session
      ensures names != [] ==> (cur, session) == old(StateAfterRead())
      ensures names == [] ==> cur == old(cur) && session == old(session) && r == Success([])
      ensures names != [] && old(ReadCurrent()).Failure? ==> r == Failure(old(ReadCurrent()).error)
      ensures names != [] && old(ReadCurrent()).Success? ==> r == Success(LocalizeAll(old(ReadCurrent()).value, names))
    {
      ghost var before := ReadCurrent();
      ghost var after := StateAfterRead();
      var localified: seq<string> := [];
      var i := 0;
      while i < |names|
        invariant 0 <= i <= |names| && |localified| == i
        invariant i == 0 ==> cur == old(cur) && session == old(session)
        invariant i > 0 ==> before.Success? && (cur, session) == after && cur == Some(before.value)
        invariant i > 0 ==> forall j :: 0 <= j < i ==> localified[j] == LocalizePath(before.value, names[j])
      {
        var name :- LocalifyPath(names[i]);
        localified := localified + [name];
        i := i + 1;
      }
      assert names != [] ==> localified == LocalizeAll(before.value, names);
      r := Success(localified);
    }

    /**
     * `render_template(template_name_or_list, context, **ctx)` up to the
     * call of Flask's renderer, which receives the returned list and context.
     */
    method RenderTemplate(fs: FileSystem, root: string, templates: TemplateNames,
                          contextFile: Option<string>, ctx: Context)
      returns (r: Result<RenderCall, Error>)
      requires "self" !in ctx
      modifies this`cur, this`session
      ensures (cur, session) == old(StateAfterRead())
      ensures r == RenderResult(old(ReadCurrent()), fs, root, templates, contextFile, ctx)
    {
      ghost var before := ReadCurrent();
      var names := NameList(templates);
      var localified :- LocalifyNames(names);
      var context := ctx;
      if contextFile.Some? {
        var file :- Load(fs, root, contextFile.value);
        context := context + file;
      }
      if "self" in context {
        return Failure(KeywordClash("self"));
      }
      var promoted :- LocalifyContext(context);
      assert localified + names == Candidates(before.value, names);
      r := Success(RenderCall(localified + names, promoted));
    }
  }
}
