/** Librato::Rack::Configuration as its unit test pins it down: settings read once
    from an environment map, setters for the mutable fields, and listeners that
    receive every new prefix. */
module RackConfiguration {
  import opened Wrappers
  import opened Text
  import Suites
  import RackLogger

  const FlushIntervalDefault: int := 60

  datatype EventMode = Synchrony | EventMachine

  /** The symbol name of an event mode. */
  function ModeName(mode: EventMode): string {
    match mode
    case Synchrony => "synchrony"
    case EventMachine => "eventmachine"
  }

  /** `event_mode=`'s normalisation: a recognised name, in any case, gives its
      mode; anything else gives nil rather than an error. */
  function ParseEventMode(value: string): (r: Option<EventMode>)
    ensures r.Some? ==> EqualIgnoringCase(value, ModeName(r.value))
    ensures r.None? ==> forall mode :: !EqualIgnoringCase(value, ModeName(mode))
  {
    if EqualIgnoringCase(value, "synchrony") then Some(Synchrony)
    else if EqualIgnoringCase(value, "eventmachine") then Some(EventMachine)
    else None
  }

  /** Every mode's own name parses back to that mode. */
  lemma ParseModeName(mode: EventMode)
    ensures ParseEventMode(ModeName(mode)) == Some(mode)
  {
    assert |ModeName(EventMachine)| != |ModeName(Synchrony)|;
  }

  /** A name that differs from both mode names in its first letter, ignoring case,
      is not recognised. */
  lemma UnknownModeName(value: string)
    requires value != [] && LowerChar(value[0]) != 's' && LowerChar(value[0]) != 'e'
    ensures ParseEventMode(value) == None
  {
    assert forall mode :: ModeName(mode)[0] in "se";
  }

  /** A variable under its current name, else under its legacy name, else nil.
      With both names set the value comes from one of them; the body picks the
      current name, a choice the contract leaves open. */
  function EnvLookup(env: map<string, string>, current: string, legacy: string): (r: Option<string>)
    ensures current in env && legacy !in env ==> r == Some(env[current])
    ensures current !in env && legacy in env ==> r == Some(env[legacy])
    ensures current in env && legacy in env ==> r == Some(env[current]) || r == Some(env[legacy])
    ensures r.None? <==> current !in env && legacy !in env
  {
    if current in env then Some(env[current])
    else if legacy in env then Some(env[legacy])
    else None
  }

  /** An object told about prefix changes; its prefix is nil until it is told. */
  class Listener {
    var prefix: Option<string>

    constructor ()
      ensures prefix == None
    {
      prefix := None;
    }

    method SetPrefix(p: string)
      modifies this
      ensures prefix == Some(p)
    {
      prefix := Some(p);
    }
  }

  class Configuration {
    var user: Option<string>
    var token: Option<string>
    var source: Option<string>
    var prefix: string
    var flushInterval: int
    var apiEndpoint: string
    var eventMode: Option<EventMode>
    var suites: Suites.SuiteSet
    var listeners: seq<Listener>

    /** `Configuration.new`, reading `env` once; `clientEndpoint` is the metrics
        client's default endpoint. */
    constructor (env: map<string, string>, clientEndpoint: string)
      ensures user == EnvLookup(env, "LIBRATO_USER", "LIBRATO_METRICS_USER")
      ensures token == EnvLookup(env, "LIBRATO_TOKEN", "LIBRATO_METRICS_TOKEN")
      ensures source == EnvLookup(env, "LIBRATO_SOURCE", "LIBRATO_METRICS_SOURCE")
      ensures prefix == RackLogger.DefaultPrefix
      ensures flushInterval == FlushIntervalDefault && apiEndpoint == clientEndpoint
      ensures eventMode == if "LIBRATO_EVENT_MODE" in env then ParseEventMode(env["LIBRATO_EVENT_MODE"]) else None
      ensures suites == Suites.Resolve(env)
      ensures listeners == []
    {
      user := EnvLookup(env, "LIBRATO_USER", "LIBRATO_METRICS_USER");
      token := EnvLookup(env, "LIBRATO_TOKEN", "LIBRATO_METRICS_TOKEN");
      source := EnvLookup(env, "LIBRATO_SOURCE", "LIBRATO_METRICS_SOURCE");
      prefix := RackLogger.DefaultPrefix;
      flushInterval := FlushIntervalDefault;
      apiEndpoint := clientEndpoint;
      eventMode := if "LIBRATO_EVENT_MODE" in env then ParseEventMode(env["LIBRATO_EVENT_MODE"]) else None;
      suites := Suites.Resolve(env);
      listeners := [];
    }

    /** `explicit_source?`: a non-empty source has been given. */
    predicate ExplicitSource(): (r: bool)
      reads this
      ensures source.None? ==> !r
      ensures r ==> |source.value| > 0
    {
      source.Some? && source.value != ""
    }

    /** `suites.include?(name)`. */
    predicate IncludesSuite(name: string): (r: bool)
      reads this
      ensures suites.AllSuites? ==> r
      ensures r ==> !suites.NoSuites?
    {
      Suites.Includes(suites, name)
    }

    method SetSource(s: Option<string>)
      modifies this`source
      ensures source == s
      ensures ExplicitSource() <==> s.Some? && s.value != ""
    {
      source := s;
    }

    /** `event_mode=`: nil or an unrecognised name leaves the mode nil. */
    method SetEventMode(mode: Option<string>)
      modifies this`eventMode
      ensures eventMode == if mode.Some? then ParseEventMode(mode.value) else None
    {
      eventMode := if mode.Some? then ParseEventMode(mode.value) else None;
    }

    method RegisterListener(listener: Listener)
      modifies this`listeners
      ensures listeners == old(listeners) + [listener]
    {
      listeners := listeners + [listener];
    }

    /** `prefix=`: stores the prefix and hands it to every listener, in
        registration order, before returning. */
    method SetPrefix(p: string)
      modifies this`prefix, listeners
      ensures prefix == p
      ensures forall l :: l in listeners ==> l.prefix == Some(p)
    {
      prefix := p;
      var i := 0;
      while i < |listeners|
        invariant 0 <= i <= |listeners|
        invariant prefix == p
        invariant forall k :: 0 <= k < i ==> listeners[k].prefix == Some(p)
      {
        listeners[i].SetPrefix(p);
        i := i + 1;
      }
    }
  }

  /** An empty environment: a 60-second flush interval and the client's endpoint. */
  method Defaults(clientEndpoint: string) returns (flushInterval: int, apiEndpoint: string)
    ensures flushInterval == 60 && apiEndpoint == clientEndpoint
  {
    var config := new Configuration(map[], clientEndpoint);
    flushInterval, apiEndpoint := config.flushInterval, config.apiEndpoint;
  }

  /** An empty environment activates `rack` and not `foo`. */
  method SuitesDefaults(clientEndpoint: string) returns (rack: bool, foo: bool)
    ensures rack && !foo
  {
    var config := new Configuration(map[], clientEndpoint);
    Suites.DefaultsIncludeRack();
    rack := config.IncludesSuite("rack");
    foo := config.IncludesSuite("foo");
  }

  /** Excluding `rack` through LIBRATO_SUITES_EXCEPT deactivates it. */
  method SuitesExcludeRack(clientEndpoint: string) returns (rack: bool)
    ensures !rack
  {
    var config := new Configuration(map[Suites.ExceptVar := "rack"], clientEndpoint);
    Suites.ExclusionOfOneName();
    rack := config.IncludesSuite("rack");
  }

  /** Credentials and source come from the current variable names. */
  method EnvironmentVariables(clientEndpoint: string) returns (user: Option<string>, token: Option<string>, source: Option<string>)
    ensures user == Some("foo@bar.com") && token == Some("api_key") && source == Some("source")
  {
    var env := map["LIBRATO_USER" := "foo@bar.com", "LIBRATO_TOKEN" := "api_key", "LIBRATO_SOURCE" := "source"];
    var config := new Configuration(env, clientEndpoint);
    user, token, source := config.user, config.token, config.source;
  }

  /** With only the legacy names set, credentials and source come from those. */
  method LegacyEnvironmentVariables(clientEndpoint: string) returns (user: Option<string>, token: Option<string>, source: Option<string>)
    ensures user == Some("foo@bar.com") && token == Some("api_key") && source == Some("source")
  {
    var env := map["LIBRATO_METRICS_USER" := "foo@bar.com", "LIBRATO_METRICS_TOKEN" := "api_key", "LIBRATO_METRICS_SOURCE" := "source"];
    var config := new Configuration(env, clientEndpoint);
    user, token, source := config.user, config.token, config.source;
  }

  /** `explicit_source?` is false at first, true after a source is set and false
      again once it is reset to nil. */
  method ExplicitSourceToggles(clientEndpoint: string) returns (initially: bool, afterSet: bool, afterReset: bool)
    ensures !initially && afterSet && !afterReset
  {
    var config := new Configuration(map[], clientEndpoint);
    initially := config.ExplicitSource();
    config.SetSource(Some("tessaract"));
    afterSet := config.ExplicitSource();
    config.SetSource(None);
    afterReset := config.ExplicitSource();
  }

  /** A registered listener sees a new prefix as soon as the setter returns. */
  method PrefixChangeNotification(clientEndpoint: string) returns (seen: Option<string>)
    ensures seen == Some("newfoo")
  {
    var config := new Configuration(map[], clientEndpoint);
    var listener := new Listener();
    config.RegisterListener(listener);
    config.SetPrefix("newfoo");
    seen := listener.prefix;
  }

  /** Event mode is nil by default and normalised from a symbol or a string. */
  method EventModeSetter(clientEndpoint: string)
    returns (initial: Option<EventMode>, fromSymbol: Option<EventMode>, fromString: Option<EventMode>)
    ensures initial == None
    ensures fromSymbol == Some(Synchrony) && fromString == Some(EventMachine)
  {
    var config := new Configuration(map[], clientEndpoint);
    initial := config.eventMode;
    config.SetEventMode(Some(ModeName(Synchrony)));
    ParseModeName(Synchrony);
    fromSymbol := config.eventMode;
    config.SetEventMode(Some("eventmachine"));
    ParseModeName(EventMachine);
    fromString := config.eventMode;
  }

  /** An unrecognised name leaves the event mode nil without raising. */
  method EventModeUnknown(clientEndpoint: string) returns (mode: Option<EventMode>)
    ensures mode == None
  {
    var config := new Configuration(map[], clientEndpoint);
    config.SetEventMode(Some("fooballoo"));
    UnknownModeName("fooballoo");
    mode := config.eventMode;
  }

  /** LIBRATO_EVENT_MODE is read at construction. */
  method EventModeFromEnvironment(clientEndpoint: string) returns (mode: Option<EventMode>)
    ensures mode == Some(EventMachine)
  {
    var config := new Configuration(map["LIBRATO_EVENT_MODE" := "eventmachine"], clientEndpoint);
    ParseModeName(EventMachine);
    mode := config.eventMode;
  }
}
