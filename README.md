# Flask-Locales, modelled in Dafny

Flask-Locales routes a Flask request to pre-translated templates and context
files. Its `Locales` object keeps the configured locale codes and their display
tags, works out the request's current locale (session, then the browser's
Accept-Language best match, then the first configured code), steps through the
codes cyclically (`next`, `toggle`), rewrites a logical name such as
`blueprint/template.html` into its localised form `blueprint/en/template.html`,
loads a context file through a three-tier fallback (localised file, then the
file itself under the `context` folder, then the file at the application root),
and promotes the current locale's sub-mapping of a render context to its top
level.

The model:

- `wrappers.dfy`: `Option`, `Result`, `Outcome` and the `Error` datatype, one
  variant per exception the code can raise (IndexError from `default`,
  ValueError from `list.index` in `next`, IOError/OSError from the loader, the
  loader's parse error, TypeError from `dict.update` or from a keyword that
  collides with a parameter name).
- `paths.dfy` (module `LocalePaths`): `_localify_path` as the pure function
  `LocalizePath`, with `os.path.join`, `str.rsplit('/', 1)` and Python's
  substring test written out; the candidate list of `render_template`.
- `context.dfy` (module `LocaleContext`): context values, promotion
  (`Promote`), and the loader seen as a map from file names to what opening and
  parsing them yields; the fallback order of `load` as `TieredLoad`.
- `registry.dfy` (module `LocaleRegistry`): `LOCALES` handling, the resolution
  precedence of `current`, the cyclic `next` and the effect of repeated
  `toggle`s.
- `locales.dfy` (module `Locales`): the class `Locales`, whose fields are
  `_allowed`, `_tags`, `tag_map`, `_current`, plus the request's
  `session['locale']` and negotiated best match. Every method that reads
  `current` may resolve and store it, so each states the cache and session it
  leaves behind. Each one is proved against the pure functions above.
- `examples.dfy` (module `LocaleExamples`): scenarios from the tests and the
  two-locale configuration they use.

The separator is '/'. `g.locales` is taken to be the object itself, as
`before_request` arranges.

The model follows the code in these places, some of which a reader might not
expect:

- On a key clash, the context file's entries overwrite the caller's keyword
  context, because `ctx.update(self.load(context))` runs on the keyword dict `**ctx`.
- A path counts as already localised when it contains `/<locale>/` anywhere or
  starts with `<locale>/`. The locale does not have to sit right before the last
  segment (`LocaleSegmentAnywhere`).
- `load` falls through on every IOError/OSError at the first two tiers. That
  includes a file that exists but cannot be opened, not only a missing one.
- A current-locale key whose value is not a mapping makes `dict.update` raise.
  It does not leave the context unchanged.
- The configuration is not validated. With an empty `LOCALES`, `default` raises
  IndexError, and `next`, `toggle` and `get_next_tag` raise ValueError for every
  current locale, because `_allowed.index` finds nothing. Duplicate codes are accepted; `tag_map` keeps the last tag
  of a repeated code, and `next` uses the first position of the current code.
- `_current` is not request-scoped (see Findings).

## Model

| member | source | states |
|---|---|---|
| `LocalePaths.PathJoinShape` | Locales/Locales.py:244-264 | `os.path.join` on POSIX (also line 195): an absolute right side replaces the left; otherwise the result starts with the left side, ends with the right side, and has one '/' between them exactly when the left side is non-empty and does not already end in '/' |
| `LocalePaths.Carries` | Locales/Locales.py:200-205 | the two substring tests hold exactly when the locale occurs as a whole segment of the path with another segment after it |
| `LocalePaths.CarriesAsSegment` | Locales/Locales.py:200-205 | `"/<loc>/" in path or path.startswith("<loc>/")` is equivalent to `<loc>/` occurring at the start of the path or right after a '/' |
| `LocalePaths.RSplit` | Locales/Locales.py:208 | `rsplit('/', 1)` yields a prefix and a final segment without '/' that rejoin to the path |
| `LocalePaths.RSplitUnique` | Locales/Locales.py:208 | any prefix/segment pair that rejoins to the path, with no '/' in the segment, is the one `rsplit` returns |
| `LocalePaths.LocalizePath` | Locales/Locales.py:194-211 | for a path containing '/', the result equals the path exactly when the path already carries the locale |
| `LocalePaths.LocalizeRootLevel` | Locales/Locales.py:194-195 | for a non-empty locale code without '/', a name without '/' becomes `locale + "/" + name` |
| `LocalePaths.LocalizeNamespaced` | Locales/Locales.py:207-211 | a path not carrying the locale gets it inserted between its prefix and final segment |
| `LocalePaths.CarriesOneLevel` | Locales/Locales.py:197-205 | a `dir/name` path counts as localised exactly when `dir` is the locale |
| `LocalePaths.LocalizeOneLevel` | tests/basic/test_basic.py:171-177 | `dir/name` localises to `dir/<locale>/name`, or stays as it is when `dir` is the locale |
| `LocalePaths.LocaleSegmentAnywhere` | Locales/Locales.py:200-201 | a path with `/<locale>/` anywhere, even several segments before the last, is returned unchanged |
| `LocalePaths.LocalizeIdempotent` | Locales/Locales.py:197-205 | localising an already-localised path changes nothing, for any locale code without '/' |
| `LocalePaths.LocalizedLocation` | Locales/Locales.py:183-187 | the localised file keeps the original final segment and lives in the original directory followed by the locale (or the locale alone at the root) |
| `LocalePaths.NameList` | Locales/Locales.py:163-164 | a lone name is treated as a one-element list |
| `LocalePaths.LocalizeAll` | Locales/Locales.py:166 | the comprehension localises each name in input order |
| `LocalePaths.Candidates` | Locales/Locales.py:166 | the candidate list has twice the names: position i is name i localised, position n+i is name i itself |
| `LocalePaths.CandidatesLocalizedFirst` | Locales/Locales.py:166 | every localised candidate precedes every original one and is itself a fixed point of localisation |
| `LocaleContext.Promote` | Locales/Locales.py:227-230 | with the locale as a key holding a mapping, the result is the context overlaid by that mapping; sub-keys win, the other keys (the locale keys too) stay; a non-mapping value raises, naming the locale key; without the key the context is unchanged |
| `LocaleContext.PromoteIdempotent` | Locales/Locales.py:227-230 | promoting twice equals promoting once unless the sub-mapping re-binds the locale key |
| `LocaleContext.PromoteSelectsLocale` | tests/context/test_localify_context.py:41-61 | with one sub-mapping per locale, each locale promotes its own value of a shared key, and both locale keys remain |
| `LocaleContext.Read` | Locales/Locales.py:250 | one loader call: a parsed mapping, an IOError for a missing or unreadable file, or a parse error |
| `LocaleContext.TieredLoad` | Locales/Locales.py:240-267 | a loaded context is the parsed contents of one of the three tier files; an IOError escapes only from the root-level file, the last one tried |
| `LocaleContext.Tiers` | Locales/Locales.py:240-264 | the three files tried: `<root>/context/<localised path>`, `<root>/context/<path>`, `<root>/<path>` |
| `LocaleContext.FirstLoad` | Locales/Locales.py:242-256 | the outcome is that of the first file whose outcome is not an I/O error, or of the last file; an I/O error comes out only when every file gave one |
| `LocaleContext.LoadTiers` | Locales/Locales.py:240-267 | tier 1 wins unless it is missing or unreadable, then tier 2 likewise, else tier 3's outcome, error included, is returned |
| `LocaleContext.LoadNotFound` | Locales/Locales.py:258-265 | "not found" is raised only for the common root file, and only when no tier had a readable file |
| `LocaleRegistry.Configured` | Locales/Locales.py:33 | without a `LOCALES` setting the locales are `[('en', 'EN')]` |
| `LocaleRegistry.Codes` | Locales/Locales.py:35 | `_allowed` is the codes of the configured pairs, in order |
| `LocaleRegistry.Labels` | Locales/Locales.py:36 | `_tags` is the tags of the configured pairs, in order |
| `LocaleRegistry.ZipMap` | Locales/Locales.py:38 | `tag_map`'s keys are exactly the codes and its values are configured tags |
| `LocaleRegistry.ZipMapLookup` | Locales/Locales.py:38 | a code maps to the tag paired with its last occurrence |
| `LocaleRegistry.IndexOf` | Locales/Locales.py:121 | `list.index` finds the first position of the code |
| `LocaleRegistry.Toggled` | Locales/Locales.py:133-141 | k toggles fail exactly when k > 0 and the starting locale is not allowed (with that ValueError); after at least one successful toggle the locale is an allowed code |
| `LocaleRegistry.NextAfter` | Locales/Locales.py:121-131 | `next` succeeds exactly when the current code is allowed, and its result is allowed; otherwise ValueError |
| `LocaleRegistry.NextIsSuccessor` | Locales/Locales.py:121-131 | with distinct codes, `next` of position i is position i+1, or position 0 after the last |
| `LocaleRegistry.ToggledPosition` | Locales/Locales.py:133-141 | with distinct codes, k ≤ n toggles from position i land on position i+k, wrapping past the last code once |
| `LocaleRegistry.ToggleRoundTrip` | Locales/Locales.py:133-141 | with distinct codes, toggling once per code returns to the starting locale |
| `LocaleRegistry.DuplicateShortensCycle` | Locales/Locales.py:121 | with a repeated code, `next` from either copy continues from the first copy, so n toggles need not return to the start |
| `LocaleRegistry.Resolve` | Locales/Locales.py:94-105 | uncached precedence: session value, else browser best match, else `_allowed[0]`, else IndexError |
| `LocaleRegistry.Lookup` | Locales/Locales.py:94-110 | a cached locale is returned as it is; with nothing cached, the locale is resolved from the session, the best match, then the default |
| `LocaleRegistry.AfterLookup` | Locales/Locales.py:107-110 | a resolved locale is written to both cache and session; a cached read or an error changes neither |
| `LocaleRegistry.LookupCaches` | Locales/Locales.py:94-110 | after a successful read, cache (and, for a resolving read, session) hold the locale, and reading again returns the same locale and changes nothing |
| `LocaleRegistry.ResolvedIsAllowed` | Locales/Locales.py:99-105 | with no session value and a negotiated match drawn from `_allowed`, the resolved locale is allowed |
| `Locales.RenderResult` | Locales/Locales.py:163-176 | an error reading `current`, a load error and a context key `self` each stop the render with that error; past those, the render succeeds exactly when promotion does, and otherwise fails because the locale's value is not a mapping; a successful render offers 2n candidates and keeps every caller key and every file key in the context |
| `Locales.Merged` | Locales/Locales.py:170-171 | with a context file, the merged keys are the caller's and the file's, file values winning; it fails exactly when the load fails, with the load's own error |
| `Locales.RenderLayers` | Locales/Locales.py:163-174 | a successful render hands over localised names then originals, and a context holding the merged keys plus the promoted ones, where a promoted sub-key takes the sub-mapping's value and every other key keeps its merged value |
| `Locales.FileContextOverridesCaller` | Locales/Locales.py:170-171 | a key given by both caller and file takes the file's value unless promotion overrides it |
| `Locales.Locales.constructor` | Locales/Locales.py:16-24 | a new object has no locales, no tags and nothing cached |
| `Locales.Locales.InitApp` | Locales/Locales.py:29-38 | `_allowed`, `_tags` and `tag_map` come from the configured (or default) pairs |
| `Locales.Locales.BeforeRequest` | Locales/Locales.py:40-50 | a new request brings its session and best match; the cached `_current` is kept |
| `Locales.Locales.BeforeRequestReset` | Locales/Locales.py:40-50 | corrected: a new request also clears the cached locale |
| `Locales.Locales.Tag` | Locales/Locales.py:60-67 | the tag filter returns a tag exactly for configured codes, otherwise None, never raising |
| `Locales.Locales.TagOfConfigured` | Locales/Locales.py:67 | with distinct codes, each code's tag is the one configured beside it |
| `Locales.Locales.Default` | Locales/Locales.py:77-84 | the default is `_allowed[0]`, an IndexError when nothing is configured |
| `Locales.Locales.Set` | Locales/Locales.py:143-151 | `set` stores the locale in session and cache, without checking it is allowed |
| `Locales.Locales.Current` | Locales/Locales.py:86-110 | `current` returns the cached value or the resolved one, and leaves cache and session as `AfterLookup` says |
| `Locales.Locales.Next` | Locales/Locales.py:112-131 | `next()` reads `current`, then returns `NextAfter` of it |
| `Locales.Locales.GetNextTag` | Locales/Locales.py:69-75 | the tag of `next()`, always present when `next` succeeds |
| `Locales.Locales.Toggle` | Locales/Locales.py:133-141 | `toggle` sets cache and session to `next()`, or raises its error, leaving cache and session as reading `current` left them |
| `Locales.Locales.LocalifyPath` | Locales/Locales.py:178-211 | `_localify_path` returns `LocalizePath` of the current locale, or the error resolving it |
| `Locales.Locales.LocalifyNames` | Locales/Locales.py:166 | the comprehension returns `LocalizeAll` of the current locale; an empty list reads nothing |
| `Locales.Locales.LocalifyContext` | Locales/Locales.py:213-230 | `_localify_context` returns `Promote` under the current locale |
| `Locales.Locales.Load` | Locales/Locales.py:232-267 | the loop over attempts returns `TieredLoad` under the current locale |
| `Locales.Locales.RenderTemplate` | Locales/Locales.py:153-174 | the candidate list and context handed to the renderer are `RenderResult` of the current locale |
| `LocaleExamples.NextWrapsAround` | Locales/Locales.py:121-131 | from the last of [A, B, C] `next` gives A; an unlisted code raises ValueError |
| `LocaleExamples.PromoteGreeting` | tests/context/test_localify_context.py:31-61 | the greeting promoted under en and under zh_Hans, and no change without locale keys |
| `LocaleExamples.NegotiatedLocale` | Locales/Locales.py:94-141 | no session and a browser preferring zh_Hans: `current` is zh_Hans, `next` is en, two toggles return to zh_Hans |
| `LocaleExamples.StaleLocaleAcrossRequests` | Locales/Locales.py:94-110 | as written, a second request whose session says en still reads the first request's zh_Hans |
| `LocaleExamples.FreshLocalePerRequest` | Locales/Locales.py:94-110 | with the cache cleared per request, each request reads its own session's locale |

## Left out

- Flask wiring in `before_request` (Locales/Locales.py:40-50): binding `g.locales` and registering the Jinja globals and the `tag` filter. Only its effect on the registry state is modelled, as `BeforeRequest`.
- The renderer (Locales/Locales.py:176): `RenderTemplate` returns the candidate list and the context that Flask's `render_template` receives. The renderer's own TypeError, raised when a context file supplies a key named `template_name_or_list`, is not modelled.
- Accept-Language negotiation (Locales/Locales.py:101): the match is an input (`bestMatch`). Only its guarantee that a match is one of `_allowed` is kept.
- Locales/Loaders.py is not part of this model: file opening, YAML/JSON parsing and the mtime-checked JSON cache. The loader is a map from full file names to a parsed mapping, an unreadable file or a parse error. A replacement `context_loader` is covered the same way.
- A YAML file whose top level is not a mapping (an empty file yields None), and context keys that are not strings: the loader always yields a string-keyed mapping.
- `dict.update` also accepts an iterable of key/value pairs, and so an empty string. The model treats every non-mapping locale value as raising.
- The caller's keyword context cannot hold `self`, `context` or `template_name_or_list`, because Python would reject the call. `RenderTemplate` requires only the absence of `self`, the one name that changes its behaviour.
- Threads sharing the one `Locales` object, the placeholder `_next` (never used), Python 2 `basestring` versus `unicode`, and the platform separator (`os.sep` on Windows).
- `TemplateNames.Many` stands for a Python list. `render_template` concatenates a list with the names (Locales/Locales.py:166), so a tuple or another non-list iterable of names raises TypeError there, although Flask's own `render_template` accepts one. The model has no such input.
- Everything under tests/ except as evidence for the properties above.

## Findings

| source | as written | input that shows it | evidently intended | confidence | as-written member | corrected member |
|---|---|---|---|---|---|---|
| Locales/Locales.py:40-50, 94-110 | `_current` lives on the one `Locales` object that every request of the app shares, and no hook clears it, so once a locale is resolved or set, it is served to every later request until the next `set` or `toggle` | request 1 with `session['locale'] = 'zh_Hans'` reads `current`; request 2 with `session['locale'] = 'en'` and browser `en` reads `current` and gets `zh_Hans` | the current locale is resolved afresh for each request, from that request's session, browser and default | medium, not executed | `Locales.Locales.BeforeRequest` (shown by `LocaleExamples.StaleLocaleAcrossRequests`) | `Locales.Locales.BeforeRequestReset` (proved by `LocaleExamples.FreshLocalePerRequest`) |
