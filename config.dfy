/** The bot's configuration (bot.js lines 16-36): the values read from `config.json`
    into module-level variables at start-up. */
module Config {
  import opened JsNumbers

  /** A JSON value as JavaScript sees it after `JSON.parse`; a key that is absent, or an
      optional chain `a?.b` whose `a` is absent, reads as `Undefined`. */
  datatype JsValue = Undefined | Null | Bool(b: bool) | Number(n: int) | Str(s: string) | Object

  /** JavaScript truthiness, which `||` and `if (...)` use. */
  predicate Truthy(v: JsValue) {
    match v
    case Undefined => false
    case Null => false
    case Bool(b) => b
    case Number(n) => n != 0
    case Str(s) => s != ""
    case Object => true
  }

  /** `v !== false`: a command flag is off only when it is literally `false`. */
  predicate EnabledFlag(v: JsValue) {
    v != Bool(false)
  }

  /** The flag rule is not truthiness: absent, null, zero and "" all leave a command on. */
  lemma FlagIsNotTruthiness()
    ensures EnabledFlag(Undefined) && EnabledFlag(Null) && EnabledFlag(Number(0)) && EnabledFlag(Str(""))
    ensures !Truthy(Undefined) && !Truthy(Null) && !Truthy(Number(0)) && !Truthy(Str(""))
    ensures forall v :: !EnabledFlag(v) ==> !Truthy(v)
  {
  }

  datatype LoggingSection = LoggingSection(enabled: JsValue, logFilePath: Option<string>)

  datatype CommandsSection = CommandsSection(enableClearCommand: JsValue, enableJokeCommand: JsValue)

  /** The parsed `config.json`; `None` in a section field stands for an absent section. */
  datatype ConfigFile = ConfigFile(
    token: string,
    prefix: Option<string>,
    logging: Option<LoggingSection>,
    commands: Option<CommandsSection>)

  /** `v || d` for a string setting that may be absent: absent or "" gives `d`. */
  function StringOr(v: Option<string>, d: string): (r: string)
    ensures r == d || v == Some(r)
    ensures v.Some? && v.value != "" ==> r == v.value
    ensures v == None || v == Some("") ==> r == d
  {
    if v.Some? && v.value != "" then v.value else d
  }

  /** `config.prefix || '!'`: the configured prefix when it is a non-empty string, "!"
      otherwise; the prefix in effect is never empty. */
  function PrefixSetting(p: Option<string>): (r: string)
    ensures r != ""
    ensures p.Some? && p.value != "" ==> r == p.value
    ensures p == None || p == Some("") ==> r == "!"
  {
    StringOr(p, "!")
  }

  function LoggingEnabledSetting(c: ConfigFile): JsValue {
    if c.logging.Some? then c.logging.value.enabled else Undefined
  }

  /** `config.logging?.logFilePath || current`. */
  function LogFilePathSetting(c: ConfigFile, current: string): string {
    StringOr(if c.logging.Some? then c.logging.value.logFilePath else None, current)
  }

  function ClearFlag(c: ConfigFile): JsValue {
    if c.commands.Some? then c.commands.value.enableClearCommand else Undefined
  }

  function JokeFlag(c: ConfigFile): JsValue {
    if c.commands.Some? then c.commands.value.enableJokeCommand else Undefined
  }

  /** Without a `commands` section both optional commands stay enabled. */
  lemma MissingCommandsSectionEnables(c: ConfigFile)
    requires c.commands == None
    ensures EnabledFlag(ClearFlag(c)) && EnabledFlag(JokeFlag(c))
  {
  }

  const DefaultLogFilePath := "./bot.log"

  /** The module-level `let` variables of bot.js lines 18-23. */
  class Settings {
    var token: string
    var prefix: string
    var loggingEnabled: JsValue
    var logFilePath: string
    var enableClearCommand: bool
    var enableJokeCommand: bool

    /** The values before the configuration is read; `token` and `prefix` are still
        undefined there, which reads as "" here. */
    constructor ()
      ensures token == "" && prefix == ""
      ensures loggingEnabled == Bool(false) && logFilePath == DefaultLogFilePath
      ensures enableClearCommand && enableJokeCommand
    {
      token := "";
      prefix := "";
      loggingEnabled := Bool(false);
      logFilePath := DefaultLogFilePath;
      enableClearCommand := true;
      enableJokeCommand := true;
    }

    /** Reads the configuration. `None` is a file that cannot be read or parsed: the
        process exits (`started` is false) and no variable has been assigned. */
    method Load(file: Option<ConfigFile>) returns (started: bool)
      modifies this
      ensures started <==> file.Some?
      ensures !started ==> unchanged(this)
      ensures started ==> token == file.value.token
      ensures started ==> prefix == PrefixSetting(file.value.prefix) && prefix != ""
      ensures started ==> loggingEnabled == LoggingEnabledSetting(file.value)
      ensures started ==> logFilePath == LogFilePathSetting(file.value, old(logFilePath))
      ensures started ==> enableClearCommand == EnabledFlag(ClearFlag(file.value))
      ensures started ==> enableJokeCommand == EnabledFlag(JokeFlag(file.value))
    {
      if file.None? {
        return false;
      }
      var config := file.value;
      token := config.token;
      prefix := StringOr(config.prefix, "!");
      loggingEnabled := if config.logging.Some? then config.logging.value.enabled else Undefined;
      var path := if config.logging.Some? then config.logging.value.logFilePath else None;
      logFilePath := StringOr(path, logFilePath);
      var clear := if config.commands.Some? then config.commands.value.enableClearCommand else Undefined;
      var joke := if config.commands.Some? then config.commands.value.enableJokeCommand else Undefined;
      enableClearCommand := clear != Bool(false);
      enableJokeCommand := joke != Bool(false);
      return true;
    }
  }
}
