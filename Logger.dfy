/** Librato::Rack::Logger: a filter in front of an output object that writes
    `prefix + message` only for levels the configured level lets through. */
module RackLogger {
  import opened Wrappers

  datatype Level = Off | Error | Warn | Info | Debug | Trace

  /** `LOG_LEVELS`: from least to most verbose; a level's rank is its position. */
  const LogLevels: seq<Level> := [Off, Error, Warn, Info, Debug, Trace]
  const DefaultPrefix: string := "[librato-rack] "
  const DefaultLevel: Level := Info

  /** The symbol name of a level. */
  function Name(level: Level): string {
    match level
    case Off => "off"
    case Error => "error"
    case Warn => "warn"
    case Info => "info"
    case Debug => "debug"
    case Trace => "trace"
  }

  /** Raised by the level setter for a name outside `LOG_LEVELS`. */
  datatype LoggerError = InvalidLogLevel(message: string)

  /** Ruby's `Array#index`: the position of the first occurrence of `x`, or None. */
  function IndexOf<T(==)>(s: seq<T>, x: T): (r: Option<nat>)
    ensures r.None? <==> x !in s
    ensures r.Some? ==> r.value < |s| && s[r.value] == x
    ensures r.Some? ==> forall k :: 0 <= k < r.value ==> s[k] != x
  {
    if |s| == 0 then None
    else if s[0] == x then Some(0)
    else match IndexOf(s[1..], x)
      case None => None
      case Some(i) => Some(i + 1)
  }

  /** The position of a level in `LOG_LEVELS`. */
  function Rank(level: Level): (r: nat)
    ensures r < |LogLevels| && LogLevels[r] == level
  {
    match level
    case Off => 0
    case Error => 1
    case Warn => 2
    case Info => 3
    case Debug => 4
    case Trace => 5
  }

  /** The rank is what `LOG_LEVELS.index` returns: the levels are distinct. */
  lemma RankIsIndex(level: Level)
    ensures IndexOf(LogLevels, level) == Some(Rank(level))
  {
    IndexOfFirst(LogLevels, level, Rank(level));
  }

  /** A position holding `x` with no `x` before it is the one `IndexOf` finds. */
  lemma IndexOfFirst<T>(s: seq<T>, x: T, i: nat)
    requires i < |s| && s[i] == x
    requires forall k :: 0 <= k < i ==> s[k] != x
    ensures IndexOf(s, x) == Some(i)
  {
  }

  /** A position and its rank agree. */
  lemma RankAt(i: nat)
    requires i < |LogLevels|
    ensures Rank(LogLevels[i]) == i
  {
  }

  /** The level with the given symbol name (`level.to_sym` looked up in `LOG_LEVELS`). */
  function ParseLevel(name: string): (r: Option<Level>)
    ensures r.Some? ==> Name(r.value) == name
    ensures r.None? ==> forall level :: Name(level) != name
  {
    var names := seq(|LogLevels|, i requires 0 <= i < |LogLevels| => Name(LogLevels[i]));
    assert forall level :: Name(level) == names[Rank(level)];
    match IndexOf(names, name)
    case Some(i) => Some(LogLevels[i])
    case None => None
  }

  /** Every level's own name parses back to that level. */
  lemma ParseName(level: Level)
    ensures ParseLevel(Name(level)) == Some(level)
  {
    var r := ParseLevel(Name(level));
    assert r.Some?;
    assert Name(r.value) == Name(level);
  }

  /** `should_log?`: a message at `level` is written under the configured level. */
  predicate Permits(configured: Level, level: Level): (r: bool)
    ensures configured == level ==> r
    ensures level == Off ==> r
    ensures r && configured == Off ==> level == Off
  {
    Rank(configured) >= Rank(level)
  }

  /** The levels let through are exactly those at or before the configured one. */
  lemma PermitsPrefix(configured: Level, i: nat)
    requires i < |LogLevels|
    ensures Permits(configured, LogLevels[i]) <==> i <= Rank(configured)
  {
    RankAt(i);
  }

  /** A level that is written implies every less verbose level is written too. */
  lemma PermitsLessVerbose(configured: Level, i: nat, j: nat)
    requires j <= i < |LogLevels|
    requires Permits(configured, LogLevels[i])
    ensures Permits(configured, LogLevels[j])
  {
    PermitsPrefix(configured, i);
    PermitsPrefix(configured, j);
  }

  /** Configuring a more verbose level never suppresses a level that was written. */
  lemma PermitsMoreVerbose(configured: Level, raised: Level, level: Level)
    requires Rank(configured) <= Rank(raised)
    requires Permits(configured, level)
    ensures Permits(raised, level)
  {
  }

  /** A message at `off` passes under every configured level, and with `off`
      configured nothing else passes. */
  lemma OffLevel(configured: Level, level: Level)
    ensures Permits(configured, Off)
    ensures Permits(Off, level) <==> level == Off
  {
    RankAt(0);
    PermitsPrefix(Off, Rank(level));
  }

  class Logger {
    /** The lines written so far to the wrapped output object. */
    var output: seq<string>
    var prefix: string
    /** `@log_level`: None until it is first read or assigned. */
    var level: Option<Level>

    /** The level the reader reports: the assigned one, else `info`. */
    function CurrentLevel(): (l: Level)
      reads this
      ensures level.None? ==> l == Info
      ensures level.Some? ==> l == level.value
    {
      level.GetOr(DefaultLevel)
    }

    constructor ()
      ensures output == [] && prefix == DefaultPrefix && level == None
    {
      output := [];
      prefix := DefaultPrefix;
      level := None;
    }

    method SetPrefix(p: string)
      modifies this`prefix
      ensures prefix == p
    {
      prefix := p;
    }

    /** The reader `log_level`, which stores the default on first use (`||=`). */
    method LogLevel() returns (l: Level)
      modifies this`level
      ensures l == old(CurrentLevel()) && level == Some(l)
    {
      if level.None? {
        level := Some(DefaultLevel);
      }
      l := level.value;
    }

    /** The setter `log_level=`: accepts the name of a level, raises on any other name. */
    method SetLogLevel(requested: string) returns (outcome: Outcome<LoggerError>)
      modifies this`level
      ensures outcome.Pass? <==> exists l :: Name(l) == requested
      ensures outcome.Pass? ==> level.Some? && Name(level.value) == requested
      ensures outcome.Fail? ==> level == old(level)
      ensures outcome.Fail? ==> outcome.error == InvalidLogLevel("Invalid log level '" + requested + "'")
    {
      var parsed := ParseLevel(requested);
      if parsed.Some? {
        level := parsed;
        outcome := Pass;
      } else {
        outcome := Fail(InvalidLogLevel("Invalid log level '" + requested + "'"));
      }
    }

    /** `should_log?`, which goes through the reader and so may store the default. */
    method ShouldLog(lvl: Level) returns (b: bool)
      modifies this`level
      ensures level == Some(old(CurrentLevel()))
      ensures b <==> Permits(old(CurrentLevel()), lvl)
    {
      var configured := LogLevel();
      RankIsIndex(configured);
      RankIsIndex(lvl);
      b := IndexOf(LogLevels, configured).value >= IndexOf(LogLevels, lvl).value;
    }

    /** `log`: appends `prefix + message` to the output when the level passes. */
    method Log(lvl: Level, message: string)
      modifies this`level, this`output
      ensures CurrentLevel() == old(CurrentLevel()) && level == Some(old(CurrentLevel()))
      ensures output == if Permits(old(CurrentLevel()), lvl)
                        then old(output) + [prefix + message]
                        else old(output)
    {
      var ok := ShouldLog(lvl);
      if !ok {
        return;
      }
      output := output + [prefix + message];
    }
  }

  /** A new logger carries the default prefix and reports `info`. */
  method NewLoggerDefaults() returns (prefix: string, level: Level)
    ensures prefix == "[librato-rack] " && level == Info
  {
    var logger := new Logger();
    prefix := logger.prefix;
    level := logger.LogLevel();
  }

  /** Assigning the name of a level makes the next read return that level. */
  method AssignThenRead(level: Level) returns (outcome: Outcome<LoggerError>, read: Level)
    ensures outcome == Pass && read == level
  {
    var logger := new Logger();
    ParseName(level);
    outcome := logger.SetLogLevel(Name(level));
    read := logger.LogLevel();
  }

  /** Assigning an unknown name raises and the reader keeps reporting the previous level. */
  method InvalidAssignmentKeepsLevel(previous: Level, requested: string)
    returns (outcome: Outcome<LoggerError>, read: Level)
    requires forall l :: Name(l) != requested
    ensures outcome == Fail(InvalidLogLevel("Invalid log level '" + requested + "'"))
    ensures read == previous
  {
    var logger := new Logger();
    ParseName(previous);
    var _ := logger.SetLogLevel(Name(previous));
    outcome := logger.SetLogLevel(requested);
    read := logger.LogLevel();
  }

  /** Under the default `info`, a `debug` message is dropped and a `warn` message written. */
  method DefaultLevelFiltering(message: string) returns (afterDebug: seq<string>, afterWarn: seq<string>)
    ensures afterDebug == []
    ensures afterWarn == ["[librato-rack] " + message]
  {
    var logger := new Logger();
    logger.Log(Debug, message);
    afterDebug := logger.output;
    logger.Log(Warn, message);
    afterWarn := logger.output;
  }
}
