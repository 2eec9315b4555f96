/**
 * The locale registry's pure part: the configured codes and tags, the
 * precedence that resolves the current locale, and the cyclic `next`.
 */
module LocaleRegistry {
  import opened Wrappers
  import opened LocaleErrors

  /** The `LOCALES` setting used when the application does not configure one. */
  const DefaultLocales: seq<(string, string)> := [("en", "EN")]

  /** `app.config.get('LOCALES', [('en', 'EN')])`. */
  function Configured(setting: Option<seq<(string, string)>>): (pairs: seq<(string, string)>)
    ensures setting.None? ==> pairs == [("en", "EN")]
    ensures setting.Some? ==> pairs == setting.value
  {
    setting.GetOr(DefaultLocales)
  }

  /** `[l[0] for l in locales]`. */
  function Codes(pairs: seq<(string, string)>): (codes: seq<string>)
    ensures |codes| == |pairs| && forall i :: 0 <= i < |pairs| ==> codes[i] == pairs[i].0
  {
    seq(|pairs|, i requires 0 <= i < |pairs| => pairs[i].0)
  }

  /** `[l[1] for l in locales]`. */
  function Labels(pairs: seq<(string, string)>): (tags: seq<string>)
    ensures |tags| == |pairs| && forall i :: 0 <= i < |pairs| ==> tags[i] == pairs[i].1
  {
    seq(|pairs|, i requires 0 <= i < |pairs| => pairs[i].1)
  }

  /** `dict(zip(keys, values))`: built left to right, so a repeated key keeps its last value. */
  function ZipMap(keys: seq<string>, values: seq<string>): (m: map<string, string>)
    requires |keys| == |values|
    ensures m.Keys == set k | k in keys
    ensures forall k :: k in m ==> m[k] in values
    decreases |keys|
  {
    if keys == [] then map[]
    else
      var n := |keys| - 1;
      var m := ZipMap(keys[..n], values[..n]);
      assert forall k :: k in keys <==> k in keys[..n] || k == keys[n];
      m[keys[n] := values[n]]
  }

  /** The tag of a code is the one paired with its last occurrence. */
  lemma {:induction false} ZipMapLookup(keys: seq<string>, values: seq<string>, i: nat)
    requires |keys| == |values| && i < |keys|
    requires forall j :: i < j < |keys| ==> keys[j] != keys[i]
    ensures keys[i] in ZipMap(keys, values) && ZipMap(keys, values)[keys[i]] == values[i]
    decreases |keys|
  {
    var n := |keys| - 1;
    if i < n {
      assert keys[..n][i] == keys[i] && values[..n][i] == values[i];
      assert keys[n] != keys[i];
      ZipMapLookup(keys[..n], values[..n], i);
    }
  }

  /** No code is listed twice. */
  predicate Distinct(s: seq<string>)
  {
    forall i, j :: 0 <= i < j < |s| ==> s[i] != s[j]
  }

  /** `allowed.index(x)`: the first position of `x`. */
  function IndexOf(allowed: seq<string>, x: string): (i: nat)
    requires x in allowed
    ensures i < |allowed| && allowed[i] == x
    ensures forall j :: 0 <= j < i ==> allowed[j] != x
    decreases |allowed|
  {
    if allowed[0] == x then 0
    else
      assert x in allowed[1..] by {
        var k :| 0 <= k < |allowed| && allowed[k] == x;
        assert allowed[1..][k - 1] == x;
      }
      1 + IndexOf(allowed[1..], x)
  }

  /** `Locales.next()` for current locale `c`: the code after the first occurrence of `c`, wrapping to the first. */
  function NextAfter(allowed: seq<string>, c: string): (r: Result<string, Error>)
    ensures r.Success? <==> c in allowed
    ensures r.Success? ==> r.value in allowed
    ensures r.Failure? ==> r.error == LocaleNotAllowed(c)
  {
    if c !in allowed then Failure(LocaleNotAllowed(c))
    else
      var i := IndexOf(allowed, c);
      if i + 1 < |allowed| then Success(allowed[i + 1]) else Success(allowed[0])
  }

  /** With distinct codes, `next` of position `i` is position `i + 1`, or position 0 after the last. */
  lemma NextIsSuccessor(allowed: seq<string>, i: nat)
    requires Distinct(allowed) && i < |allowed|
    ensures NextAfter(allowed, allowed[i]) == Success(if i + 1 < |allowed| then allowed[i + 1] else allowed[0])
  {
    assert allowed[i] in allowed;
    assert IndexOf(allowed, allowed[i]) == i;
  }

  /** The current locale after `toggle()` runs `k` times from `c` (or the error that stops it). */
  function Toggled(allowed: seq<string>, c: string, k: nat): (r: Result<string, Error>)
    ensures r.Failure? <==> k > 0 && c !in allowed
    ensures r.Failure? ==> r.error == LocaleNotAllowed(c)
    ensures k > 0 && r.Success? ==> r.value in allowed
    decreases k
  {
    if k == 0 then Success(c)
    else match NextAfter(allowed, c)
      case Failure(e) => Failure(e)
      case Success(d) => Toggled(allowed, d, k - 1)
  }

  /**
   * With distinct codes, `k <= n` toggles from position `i` land on position
   * `i + k`, wrapping around past the last code at most once.
   */
  lemma {:induction false} ToggledPosition(allowed: seq<string>, i: nat, k: nat)
    requires Distinct(allowed) && i < |allowed| && k <= |allowed|
    ensures Toggled(allowed, allowed[i], k)
            == Success(allowed[if i + k < |allowed| then i + k else i + k - |allowed|])
    decreases k
  {
    if k > 0 {
      var n := |allowed|;
      var i' := if i + 1 < n then i + 1 else 0;
      NextIsSuccessor(allowed, i);
      assert Toggled(allowed, allowed[i], k) == Toggled(allowed, allowed[i'], k - 1);
      ToggledPosition(allowed, i', k - 1);
    }
  }

  /** Toggling once per allowed code, with codes distinct, comes back to the starting locale. */
  lemma ToggleRoundTrip(allowed: seq<string>, c: string)
    requires Distinct(allowed) && c in allowed
    ensures Toggled(allowed, c, |allowed|) == Success(c)
  {
    ToggledPosition(allowed, IndexOf(allowed, c), |allowed|);
  }

  /** A code listed twice breaks the cycle: from the second copy `next` jumps back past it. */
  lemma DuplicateShortensCycle()
    ensures NextAfter(["a", "b", "a"], "a") == Success("b")
    ensures NextAfter(["a", "b", "a"], "b") == Success("a")
    ensures Toggled(["a", "b", "a"], "a", 3) == Success("b")
  {
    var s := ["a", "b", "a"];
    assert IndexOf(s, "a") == 0;
    assert IndexOf(s, "b") == 1;
  }

  /**
   * The precedence of `Locales.current` when nothing is cached: the session's
   * value, else the browser's best match, else `_allowed[0]` (an IndexError
   * when no locale is configured).
   */
  function Resolve(session: Option<string>, best: Option<string>, allowed: seq<string>): (r: Result<string, Error>)
    ensures session.Some? ==> r == Success(session.value)
    ensures session.None? && best.Some? ==> r == Success(best.value)
    ensures session.None? && best.None? ==> (r.Success? <==> |allowed| > 0)
    ensures session.None? && best.None? && r.Success? ==> r.value == allowed[0]
  {
    if session.Some? then Success(session.value)
    else if best.Some? then Success(best.value)
    else if |allowed| > 0 then Success(allowed[0])
    else Failure(NoDefaultLocale)
  }

  /** What reading `Locales.current` returns: the cached value, else the resolved one. */
  function Lookup(cur: Option<string>, session: Option<string>, best: Option<string>, allowed: seq<string>): (r: Result<string, Error>)
    ensures cur.Some? ==> r == Success(cur.value)
    ensures cur.None? ==> r == Resolve(session, best, allowed)
  {
    if cur.Some? then Success(cur.value) else Resolve(session, best, allowed)
  }

  /**
   * The cache and the session after reading `Locales.current`: a resolved
   * value is written to both through `set`; a cached value or an error leaves
   * both as they were.
   */
  function AfterLookup(cur: Option<string>, session: Option<string>, best: Option<string>, allowed: seq<string>): (state: (Option<string>, Option<string>))
    ensures cur.Some? ==> state == (cur, session)
    ensures Lookup(cur, session, best, allowed).Success? ==> state.0 == Some(Lookup(cur, session, best, allowed).value)
    ensures cur.None? && Lookup(cur, session, best, allowed).Success? ==>
      state == (Some(Lookup(cur, session, best, allowed).value), Some(Lookup(cur, session, best, allowed).value))
    ensures Lookup(cur, session, best, allowed).Failure? ==> state == (cur, session)
  {
    if cur.Some? then (cur, session)
    else match Resolve(session, best, allowed)
      case Success(c) => (Some(c), Some(c))
      case Failure(_) => (cur, session)
  }

  /** Once `current` has been read successfully, reading it again returns the same locale and changes nothing. */
  lemma LookupCaches(cur: Option<string>, session: Option<string>, best: Option<string>, allowed: seq<string>)
    requires Lookup(cur, session, best, allowed).Success?
    ensures var (cur', session') := AfterLookup(cur, session, best, allowed);
      && cur' == Some(Lookup(cur, session, best, allowed).value)
      && (cur.None? ==> session' == cur')
      && Lookup(cur', session', best, allowed) == Lookup(cur, session, best, allowed)
      && AfterLookup(cur', session', best, allowed) == (cur', session')
  {
  }

  /**
   * Without a stale session value, the resolved locale is an allowed one when
   * the negotiated match is (as `best_match` guarantees).
   */
  lemma ResolvedIsAllowed(best: Option<string>, allowed: seq<string>)
    requires |allowed| > 0
    requires best.Some? ==> best.value in allowed
    ensures Resolve(None, best, allowed).Success? && Resolve(None, best, allowed).value in allowed
  {
  }
}
