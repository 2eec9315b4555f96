/** Concrete scenarios taken from the repository's tests and its two-locale configuration. */
module LocaleExamples {
  import opened Wrappers
  import opened LocaleErrors
  import opened LocaleContext
  import opened LocaleRegistry
  import opened Locales

  /** The two locales the tests configure. */
  const TestLocales: seq<(string, string)> := [("en", "EN"), ("zh_Hans", "中文")]

  /** Cycling through three codes: after the last comes the first. */
  lemma NextWrapsAround()
    ensures NextAfter(["A", "B", "C"], "C") == Success("A")
    ensures NextAfter(["A", "B", "C"], "A") == Success("B")
    ensures NextAfter(["A", "B", "C"], "D") == Failure(LocaleNotAllowed("D"))
  {
    assert Distinct(["A", "B", "C"]);
    NextIsSuccessor(["A", "B", "C"], 2);
    NextIsSuccessor(["A", "B", "C"], 0);
  }

  /** Both locales' greetings travel in one context; the current locale's is promoted. */
  lemma PromoteGreeting()
    ensures var ctx := map["en" := Mapping(map["greeting" := Scalar("Hello")]),
                           "zh_Hans" := Mapping(map["greeting" := Scalar("你好")])];
      && Promote("en", ctx) == Success(ctx["greeting" := Scalar("Hello")])
      && Promote("zh_Hans", ctx) == Success(ctx["greeting" := Scalar("你好")])
      && Promote("en", map["greeting" := Scalar("Hello")]) == Success(map["greeting" := Scalar("Hello")])
  {
    var en, zh := map["greeting" := Scalar("Hello")], map["greeting" := Scalar("你好")];
    var ctx := map["en" := Mapping(en), "zh_Hans" := Mapping(zh)];
    assert ctx + en == ctx["greeting" := Scalar("Hello")];
    assert ctx + zh == ctx["greeting" := Scalar("你好")];
  }

  /**
   * No session value and a browser preferring zh_Hans: `current` resolves to
   * zh_Hans and `next` to en; toggling twice returns to zh_Hans.
   */
  method NegotiatedLocale() returns (current: Result<string, Error>, next: Result<string, Error>, back: Result<string, Error>)
    ensures current == Success("zh_Hans") && next == Success("en") && back == Success("zh_Hans")
  {
    var locales := new Locales();
    locales.InitApp(Some(TestLocales));
    locales.BeforeRequest(None, Some("zh_Hans"));
    current := locales.Current();
    assert locales.allowed == ["en", "zh_Hans"];
    NextIsSuccessor(locales.allowed, 1);
    next := locales.Next();
    var _ := locales.Toggle();
    NextIsSuccessor(locales.allowed, 0);
    var _ := locales.Toggle();
    back := locales.Current();
  }

  /**
   * Two requests served by the same object, as the code is written: the
   * second request's session says en, yet `current` still reads zh_Hans.
   */
  method StaleLocaleAcrossRequests() returns (first: Result<string, Error>, second: Result<string, Error>)
    ensures first == Success("zh_Hans") && second == Success("zh_Hans")
  {
    var locales := new Locales();
    locales.InitApp(Some(TestLocales));
    locales.BeforeRequest(Some("zh_Hans"), None);
    first := locales.Current();
    locales.BeforeRequest(Some("en"), Some("en"));
    second := locales.Current();
  }

  /** The same two requests with the cache cleared per request: each reads its own session's locale. */
  method FreshLocalePerRequest() returns (first: Result<string, Error>, second: Result<string, Error>)
    ensures first == Success("zh_Hans") && second == Success("en")
  {
    var locales := new Locales();
    locales.InitApp(Some(TestLocales));
    locales.BeforeRequestReset(Some("zh_Hans"), None);
    first := locales.Current();
    locales.BeforeRequestReset(Some("en"), Some("en"));
    second := locales.Current();
  }
}
