/**
 * Classification of the interpreter's platform string (`sys.platform`) into one of five
 * platform names, and the `is_*` predicates that read the classified name.
 * The platform string is a parameter here instead of a process-wide read.
 */
module Platform {

  const PlatformWindows: string := "windows"
  const PlatformLinux: string := "linux"
  const PlatformBsd: string := "bsd"
  const PlatformDarwin: string := "darwin"
  const PlatformUnknown: string := "unknown"

  /** The five names `GetPlatformName` can return. */
  const PlatformNames: set<string> :=
    {PlatformWindows, PlatformLinux, PlatformBsd, PlatformDarwin, PlatformUnknown}

  /** The prefixes that classify a platform string as a BSD. */
  const BsdPrefixes: set<string> := {"dragonfly", "freebsd", "netbsd", "openbsd", "bsd"}

  /**
   * Every prefix that is tested, with the name it selects: an order-independent
   * reference for the if-chain of `GetPlatformName`.
   */
  const KnownPrefixes: map<string, string> :=
    map["win" := PlatformWindows, "darwin" := PlatformDarwin, "linux" := PlatformLinux,
        "dragonfly" := PlatformBsd, "freebsd" := PlatformBsd, "netbsd" := PlatformBsd,
        "openbsd" := PlatformBsd, "bsd" := PlatformBsd]

  /** `s.startswith(prefix)` */
  predicate StartsWith(s: string, prefix: string) {
    prefix <= s
  }

  /** `s.startswith(("dragonfly", "freebsd", "netbsd", "openbsd", "bsd"))` */
  predicate StartsWithBsd(s: string) {
    exists p :: p in BsdPrefixes && StartsWith(s, p)
  }

  /** The platform name selected by the first matching prefix test, or "unknown". */
  function GetPlatformName(sysPlatform: string): (name: string)
    ensures name in PlatformNames
  {
    if StartsWith(sysPlatform, "win") then PlatformWindows
    else if StartsWith(sysPlatform, "darwin") then PlatformDarwin
    else if StartsWith(sysPlatform, "linux") then PlatformLinux
    else if StartsWithBsd(sysPlatform) then PlatformBsd
    else PlatformUnknown
  }

  /** No platform string starts with two different known prefixes. */
  lemma KnownPrefixesExclusive(s: string, p: string, q: string)
    requires p in KnownPrefixes && q in KnownPrefixes
    requires StartsWith(s, p) && StartsWith(s, q)
    ensures p == q
  {
    assert s[0] == p[0] && s[0] == q[0];
    assert s[1] == p[1] && s[1] == q[1];
  }

  /**
   * Whatever the order of the tests, a string starting with a known prefix is classified
   * as that prefix's platform.
   */
  lemma ClassifiedByKnownPrefix(s: string, p: string)
    requires p in KnownPrefixes && StartsWith(s, p)
    ensures GetPlatformName(s) == KnownPrefixes[p]
  {
    forall q | q in KnownPrefixes && StartsWith(s, q)
      ensures q == p
    {
      KnownPrefixesExclusive(s, p, q);
    }
  }

  /** A string is classified "unknown" exactly when it starts with none of the known prefixes. */
  lemma UnknownIffNoKnownPrefix(s: string)
    ensures GetPlatformName(s) == PlatformUnknown <==>
              forall p :: p in KnownPrefixes ==> !StartsWith(s, p)
  {
    if p :| p in KnownPrefixes && StartsWith(s, p) {
      ClassifiedByKnownPrefix(s, p);
    }
  }

  /** Each platform name is selected exactly by its own prefixes. */
  lemma NameIffPrefix(s: string)
    ensures GetPlatformName(s) == PlatformWindows <==> StartsWith(s, "win")
    ensures GetPlatformName(s) == PlatformDarwin <==> StartsWith(s, "darwin")
    ensures GetPlatformName(s) == PlatformLinux <==> StartsWith(s, "linux")
    ensures GetPlatformName(s) == PlatformBsd <==> StartsWithBsd(s)
  {
    if StartsWith(s, "darwin") {
      ClassifiedByKnownPrefix(s, "darwin");
    }
    if StartsWith(s, "linux") {
      ClassifiedByKnownPrefix(s, "linux");
    }
    if StartsWithBsd(s) {
      var p :| p in BsdPrefixes && StartsWith(s, p);
      ClassifiedByKnownPrefix(s, p);
    }
  }

  /** `is_linux()` */
  function IsLinux(sysPlatform: string): (b: bool)
    ensures b <==> StartsWith(sysPlatform, "linux")
  {
    NameIffPrefix(sysPlatform);
    GetPlatformName(sysPlatform) == PlatformLinux
  }

  /** `is_bsd()` */
  function IsBsd(sysPlatform: string): (b: bool)
    ensures b <==> StartsWithBsd(sysPlatform)
  {
    NameIffPrefix(sysPlatform);
    GetPlatformName(sysPlatform) == PlatformBsd
  }

  /** `is_darwin()` */
  function IsDarwin(sysPlatform: string): (b: bool)
    ensures b <==> StartsWith(sysPlatform, "darwin")
  {
    NameIffPrefix(sysPlatform);
    GetPlatformName(sysPlatform) == PlatformDarwin
  }

  /** `is_windows()` */
  function IsWindows(sysPlatform: string): (b: bool)
    ensures b <==> StartsWith(sysPlatform, "win")
  {
    GetPlatformName(sysPlatform) == PlatformWindows
  }

  /**
   * At most one of the platform predicates holds, and none holds exactly when the
   * platform is unknown.
   */
  lemma AtMostOnePlatform(s: string)
    ensures (if IsLinux(s) then 1 else 0) + (if IsBsd(s) then 1 else 0)
          + (if IsDarwin(s) then 1 else 0) + (if IsWindows(s) then 1 else 0) <= 1
    ensures (!IsLinux(s) && !IsBsd(s) && !IsDarwin(s) && !IsWindows(s))
              <==> GetPlatformName(s) == PlatformUnknown
  {
    var name := GetPlatformName(s);
    assert IsLinux(s) <==> name == PlatformLinux;
    assert IsBsd(s) <==> name == PlatformBsd;
    assert IsDarwin(s) <==> name == PlatformDarwin;
    assert IsWindows(s) <==> name == PlatformWindows;
  }

  /** The predicates read only the classified name: two strings classified alike agree on all four. */
  lemma PredicatesDependOnlyOnName(s: string, t: string)
    requires GetPlatformName(s) == GetPlatformName(t)
    ensures IsLinux(s) == IsLinux(t) && IsBsd(s) == IsBsd(t)
    ensures IsDarwin(s) == IsDarwin(t) && IsWindows(s) == IsWindows(t)
  {
  }
}
