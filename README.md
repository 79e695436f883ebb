# librato-rack: logger and configuration

A Dafny model of two support pieces of the librato-rack metrics middleware.

- **`Librato::Rack::Logger`** (module `RackLogger`, `Logger.dfy`). A six-level log
  filter, with levels ordered `off < error < warn < info < debug < trace`. The class
  `Logger` has three fields:
  - the wrapped output object, modelled as the sequence of lines written to it;
  - a settable `prefix`;
  - `@log_level`, which stays nil until the reader `log_level` stores the default
    `info` or the setter `log_level=` assigns a level.

  `log` writes `prefix + message` only when `should_log?` lets the level through.
  `should_log?` compares the two levels' positions in `LOG_LEVELS`; that comparison
  is the predicate `Permits`. Levels are a datatype. The setter takes the level's name,
  so assigning a name outside `LOG_LEVELS` raises `InvalidLogLevel`, and that case
  is modelled.
- **`Librato::Rack::Configuration`** (module `RackConfiguration`,
  `Configuration.dfy`, with suite resolution in module `Suites`, `Suites.dfy`). The
  class's own source is not part of this model. The model follows what
  `test/unit/rack/configuration_test.rb` asserts about it:
  - the constructor reads an environment map once;
  - credentials come from current or legacy variable names;
  - suite membership is resolved from `LIBRATO_SUITES` / `LIBRATO_SUITES_EXCEPT`
    into all, none or an explicit set;
  - `explicit_source?` is derived from `source`;
  - `event_mode=` normalises a name to `synchrony`, `eventmachine` or nil;
  - `prefix=` fans the new value out to every registered listener.

  Each test method becomes a scenario method or a lemma.
- `Text.dfy` (module `Text`) holds the string helpers that suite parsing needs:
  - Ruby's `strip` (`Trim`);
  - splitting on a separator (`Split`), with its inverse `Join`;
  - ASCII case-insensitive comparison.

  `Wrappers.dfy` holds `Option` and `Outcome`.

Three points where the model settles something the test leaves open:

- The default suite set is exactly `{rack}`. The test asserts only that `rack` is in it
  and `foo` is not; every statement about exclusion without an inclusion list
  (`Suites.ExclusionAlone`, `Suites.ExclusionOnlyRemoves`) is relative to this choice.

- An inclusion list that yields no names, such as `LIBRATO_SUITES=","`, falls back to
  the exclusion list or the defaults.
- The suite sentinels `all` and `none` are recognised after stripping and in any case.
  Suite names themselves are compared exactly.

The level filter follows `should_log?` in `lib/librato/rack/logger.rb:71-73`. A message
is written when the configured level's index is at least the message level's index. So
a message at `off` always passes, and configuring `off` passes only `off` messages.

## Model

| member | source | states |
|---|---|---|
| RackLogger.Rank | lib/librato/rack/logger.rb:9 | each level's rank is its position in the six-element `LOG_LEVELS` list |
| RackLogger.RankIsIndex | lib/librato/rack/logger.rb:9 | `LOG_LEVELS.index(level)` is defined for every level and equals its rank, so the levels are distinct |
| RackLogger.IndexOf | lib/librato/rack/logger.rb:35 | `Array#index`: None exactly when the element is absent, otherwise a position holding it with no earlier occurrence |
| RackLogger.ParseLevel | lib/librato/rack/logger.rb:34-35 | a name maps to the level carrying that name, and to None only when no level carries it |
| RackLogger.ParseName | lib/librato/rack/logger.rb:34-35 | every level's own name is accepted and maps back to that level |
| RackLogger.Permits | lib/librato/rack/logger.rb:71-73 | `should_log?`'s comparison: a level passes under itself, `off` passes under every level, and under `off` nothing but `off` passes |
| RackLogger.PermitsPrefix | lib/librato/rack/logger.rb:71-73 | the level at position i passes exactly when i is at most the configured level's position |
| RackLogger.PermitsLessVerbose | lib/librato/rack/logger.rb:71-73 | if a level passes, every less verbose level passes under the same configuration |
| RackLogger.PermitsMoreVerbose | lib/librato/rack/logger.rb:71-73 | configuring a more verbose level never suppresses a level that passed before |
| RackLogger.OffLevel | lib/librato/rack/logger.rb:72 | an `off` message passes under every configured level; with `off` configured only `off` passes |
| RackLogger.Logger.CurrentLevel | lib/librato/rack/logger.rb:43-45 | the reported level is the assigned one, or `info` while none is assigned |
| RackLogger.Logger.constructor | lib/librato/rack/logger.rb:13-16 | empty output, prefix `"[librato-rack] "`, no level assigned |
| RackLogger.Logger.SetPrefix | lib/librato/rack/logger.rb:11 | the prefix accessor stores the new prefix |
| RackLogger.Logger.LogLevel | lib/librato/rack/logger.rb:43-45 | returns the assigned level or `info`, and afterwards that level is stored (`\|\|=`) |
| RackLogger.Logger.SetLogLevel | lib/librato/rack/logger.rb:33-41 | succeeds exactly when the name is a level's name and then stores that level; otherwise raises `InvalidLogLevel` with the message "Invalid log level '<name>'" and leaves the level unchanged |
| RackLogger.Logger.ShouldLog | lib/librato/rack/logger.rb:71-73 | the index comparison on `LOG_LEVELS` agrees with `Permits` under the level reported before the call; the reader stores that level |
| RackLogger.Logger.Log | lib/librato/rack/logger.rb:19-22 | appends exactly `prefix + message` when the level passes, leaves the output unchanged otherwise, and never changes the reported level or the prefix |
| RackLogger.NewLoggerDefaults | lib/librato/rack/logger.rb:13-45 | a new logger has prefix `"[librato-rack] "` and reads `info` |
| RackLogger.AssignThenRead | lib/librato/rack/logger.rb:33-45 | assigning any level's name succeeds and the next read returns that level |
| RackLogger.InvalidAssignmentKeepsLevel | lib/librato/rack/logger.rb:35-40 | assigning a name no level carries raises `InvalidLogLevel` and the next read returns the previous level |
| RackLogger.DefaultLevelFiltering | lib/librato/rack/logger.rb:19-22 | under the default `info`, a `debug` message writes nothing and a `warn` message writes the prefixed line |
| Text.Trim | test/unit/rack/configuration_test.rb:47 | the stripped string neither starts nor ends with whitespace |
| Text.TrimStrips | test/unit/rack/configuration_test.rb:47 | the stripped string is the slice of the input between a whitespace-only head and a whitespace-only tail |
| Text.TrimEmpty | test/unit/rack/configuration_test.rb:47 | stripping gives the empty string exactly when every character is whitespace |
| Text.TrimIdempotent | test/unit/rack/configuration_test.rb:47 | stripping twice equals stripping once |
| Text.TrimWithin | test/unit/rack/configuration_test.rb:47 | every character of the stripped string occurs in the original |
| Text.Split | test/unit/rack/configuration_test.rb:47 | splitting gives at least one piece and no piece contains the separator |
| Text.JoinSplit | test/unit/rack/configuration_test.rb:47 | joining the pieces of a split with the separator gives back the original string |
| Text.SplitJoin | test/unit/rack/configuration_test.rb:47 | splitting the join of separator-free pieces gives back those pieces |
| Text.LowerChar | test/unit/rack/configuration_test.rb:74 | ASCII `downcase` of a character: never an upper-case letter; a capital becomes the lower-case letter at the same position in the alphabet; any other character is unchanged |
| Text.LowerCharIdempotent | test/unit/rack/configuration_test.rb:74 | lowering twice is lowering once |
| Suites.Includes | test/unit/rack/configuration_test.rb:34 | `suites.include?`: the all-suites mode includes every name and the no-suites mode includes none |
| Suites.NamesAll | test/unit/rack/configuration_test.rb:65 | the sentinel `all`, after stripping and ignoring case: a three-character value that is never also the sentinel `none` |
| Suites.NamesNone | test/unit/rack/configuration_test.rb:74 | the sentinel `none`, after stripping and ignoring case: a four-character value |
| Suites.TrimAll | test/unit/rack/configuration_test.rb:47 | one piece per input piece, each the stripped form of the piece at the same position |
| Suites.DropEmpty | test/unit/rack/configuration_test.rb:47 | keeps exactly the non-empty pieces |
| Suites.Tokens | test/unit/rack/configuration_test.rb:47 | every suite name of a list is non-empty, comma-free and already stripped |
| Suites.Resolve | test/unit/rack/configuration_test.rb:32-80 | `all` includes every name; `none` includes none; a non-empty inclusion list includes exactly its names; otherwise membership is the default `rack` minus the exclusion list's names |
| Suites.ExclusionOnlyRemoves | test/unit/rack/configuration_test.rb:37-62 | without an inclusion list only default suites can be active |
| Suites.NamedSuitesAreClean | test/unit/rack/configuration_test.rb:46-53 | an active named suite carries no surrounding whitespace and no comma |
| Suites.DefaultsIncludeRack | test/unit/rack/configuration_test.rb:32-35 | an empty environment includes `rack` and not `foo` |
| Suites.ExclusionAlone | test/unit/rack/configuration_test.rb:37-62 | with only an exclusion list, a name is active exactly when it is `rack` (the default set) and not excluded |
| Suites.InclusionAlone | test/unit/rack/configuration_test.rb:46-53 | with only a non-sentinel, non-empty inclusion list, exactly its names are active |
| Suites.ExclusionOfOtherName | test/unit/rack/configuration_test.rb:37-39 | excluding one clean name other than `rack` keeps `rack` active |
| Suites.ExclusionOfOneName | test/unit/rack/configuration_test.rb:37-43 | excluding `foo` keeps `rack`; excluding `rack` drops it |
| Suites.FourNames | test/unit/rack/configuration_test.rb:47 | `"abc, jkl,prq , xyz"` yields the names abc, jkl, prq and xyz |
| Suites.InclusionList | test/unit/rack/configuration_test.rb:46-53 | that list as inclusion activates exactly its four names, so any other name is inactive |
| Suites.ExclusionList | test/unit/rack/configuration_test.rb:55-62 | that list as exclusion deactivates each of its four names |
| Suites.Sentinels | test/unit/rack/configuration_test.rb:64-80 | `all` activates every name; upper-case `NONE` deactivates every name |
| Suites.NotSentinel | test/unit/rack/configuration_test.rb:46-53 | a value whose stripped form is longer than four characters names neither sentinel |
| RackConfiguration.EnvLookup | test/unit/rack/configuration_test.rb:21-91 | the current name's value when only it is set, the legacy name's when only it is set, one of the two when both are, nil exactly when neither is |
| RackConfiguration.ParseEventMode | test/unit/rack/configuration_test.rb:110-124 | a recognised result matches its mode name ignoring case; nil only when the value matches no mode name |
| RackConfiguration.ParseModeName | test/unit/rack/configuration_test.rb:114-119 | each mode's own name normalises to that mode |
| RackConfiguration.UnknownModeName | test/unit/rack/configuration_test.rb:121-124 | a value whose first letter is neither s nor e, ignoring case, normalises to nil |
| RackConfiguration.Listener.SetPrefix | test/unit/rack/configuration_test.rb:149-153 | the listener stores the prefix it is given |
| RackConfiguration.Configuration.constructor | test/unit/rack/configuration_test.rb:15-30 | user, token and source by lookup; flush interval 60; the client's endpoint; event mode from LIBRATO_EVENT_MODE; suites resolved from the environment; no listeners |
| RackConfiguration.Configuration.ExplicitSource | test/unit/rack/configuration_test.rb:93-100 | `explicit_source?`: never with a nil source, and only with a non-empty one |
| RackConfiguration.Configuration.IncludesSuite | test/unit/rack/configuration_test.rb:34 | `config.suites.include?`: every name in the all-suites mode, none in the no-suites mode |
| RackConfiguration.Configuration.SetSource | test/unit/rack/configuration_test.rb:93-100 | stores the source; `explicit_source?` holds exactly when it is a non-empty string |
| RackConfiguration.Configuration.SetEventMode | test/unit/rack/configuration_test.rb:114-124 | stores the normalised mode, nil for nil or an unknown name |
| RackConfiguration.Configuration.RegisterListener | test/unit/rack/configuration_test.rb:105 | appends the listener to the registered ones |
| RackConfiguration.Configuration.SetPrefix | test/unit/rack/configuration_test.rb:102-108 | stores the prefix and every registered listener holds it when the setter returns |
| RackConfiguration.Defaults | test/unit/rack/configuration_test.rb:15-19 | an empty environment gives flush interval 60 and the client's endpoint |
| RackConfiguration.SuitesDefaults | test/unit/rack/configuration_test.rb:32-35 | a configuration built from an empty environment includes `rack` and not `foo` |
| RackConfiguration.SuitesExcludeRack | test/unit/rack/configuration_test.rb:41-43 | a configuration built with LIBRATO_SUITES_EXCEPT=rack does not include `rack` |
| RackConfiguration.EnvironmentVariables | test/unit/rack/configuration_test.rb:21-30 | LIBRATO_USER, LIBRATO_TOKEN and LIBRATO_SOURCE give user, token and source |
| RackConfiguration.LegacyEnvironmentVariables | test/unit/rack/configuration_test.rb:82-91 | with only the LIBRATO_METRICS_* names set, they give user, token and source |
| RackConfiguration.ExplicitSourceToggles | test/unit/rack/configuration_test.rb:93-100 | `explicit_source?` is false, then true after setting `tessaract`, then false after resetting to nil |
| RackConfiguration.PrefixChangeNotification | test/unit/rack/configuration_test.rb:102-108 | a registered listener holds `newfoo` right after the prefix is set to it |
| RackConfiguration.EventModeSetter | test/unit/rack/configuration_test.rb:110-119 | event mode starts nil; `synchrony` and `"eventmachine"` normalise to their modes |
| RackConfiguration.EventModeUnknown | test/unit/rack/configuration_test.rb:121-124 | `"fooballoo"` leaves the event mode nil without an error |
| RackConfiguration.EventModeFromEnvironment | test/unit/rack/configuration_test.rb:126-129 | LIBRATO_EVENT_MODE=eventmachine gives the eventmachine mode at construction |

## Left out

- The global process environment: the configuration reads an environment map passed to
  its constructor, and the environment clean-up of the test's setup and teardown is not
  modelled.
- `Librato::Metrics.api_endpoint`: the client library's default endpoint is not part of
  this model; it is a constructor parameter.
- `lib/librato/rack/configuration.rb` is not part of this model. Behaviour the test does
  not assert is not modelled:
  - reading `LIBRATO_PREFIX` and `LIBRATO_LOG_LEVEL` (the configuration prefix starts as
    `"[librato-rack] "`);
  - what happens when a listener's setter raises;
  - listener deregistration.
- RackConfiguration.EnvLookup: when both the current and the legacy name are set, the
  contract promises only one of the two values, because the test does not pin the
  precedence down (the body takes the current name).
- RackConfiguration.Configuration.SetPrefix: the order in which listeners are told is not
  observable in the final state and is not stated.
- `require 'pp'` in `log_level=`: loading a library has no observable effect on the logger.
- `logger.puts` as real I/O: the output object is the sequence of lines written.
- The `logger` accessor (replacing the wrapped output object) is not modelled; the logger
  always writes to its own output sequence.
- The commented-out code in `lib/librato/rack/logger.rb` (dispatch on the kind of output
  object, Rails/Heroku logger selection, environment and metric tracing helpers).
- `log` with a level outside `LOG_LEVELS`: Ruby fails comparing an integer with nil; the
  `Level` type rules such calls out.
- `log_level=` with a symbol: symbols and strings both arrive as the level's name.
- RackConfiguration.ParseEventMode: case folding is ASCII only; Ruby's `downcase` also
  folds non-ASCII letters.
- Text.Split: Ruby's `String#split` drops trailing empty fields. Every empty field is
  dropped after stripping, so the resulting suite names are the same.
