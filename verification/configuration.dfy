/**
 * Configuration precedence: a value given on the command line beats the
 * value in the ini file, which beats the built-in default. The ini file is a
 * map from (section, key) to its text; loading it from disk, the host name
 * and regex compilation are parameters.
 */
module Configuration {
  import opened Wrappers
  import Strconv

  /** A loaded ini file: the text of every key, by section. */
  type IniFile = map<(string, string), string>

  const Global: string := "global"

  /** The built-in line and static-content regexes, as their source text. */
  const LoglineRegex: string :=
    @"^\d+\.\d+\.\d+\.\d+ (?P<domain>[^ ]+?)\s.*] ""(GET|POST|PUT|PROPFIND|OPTIONS|DELETE) (?P<uri>/[^ ]*?)(?P<getparam>\?[^ ]*?)? HTTP.*"" (?P<code>\d+) .* (?P<time>\d+)$"
  const StaticContentRegex: string := @"(?i).+\.(gif|jpg|jpeg|png|ico|flv|swf|js|css|txt|woff|ttf)"

  /** Whether the file is present and defines the key. */
  predicate HasKey(ini: Option<IniFile>, section: string, key: string) {
    ini.Some? && (section, key) in ini.value
  }

  /** ini's MustString: the key's text, or the default when that text is empty. */
  function MustString(text: string, defaultValue: string): (r: string)
    ensures r == text || r == defaultValue
    ensures r == "" ==> text == "" && defaultValue == ""
  {
    if text == "" then defaultValue else text
  }

  /** ini's MustInt: the key's text read as an integer, or the default when it does not read. */
  function MustInt(text: string, defaultValue: int): (r: int)
    ensures Strconv.Atoi(text).Some? ==> r == Strconv.Atoi(text).value
    ensures Strconv.Atoi(text).None? ==> r == defaultValue
  {
    match Strconv.Atoi(text)
    case Some(v) => v
    case None => defaultValue
  }

  /** getStringValue: the empty string means "not given on the command line". */
  function GetStringValue(ini: Option<IniFile>, section: string, key: string, current: string, defaultValue: string): (r: string)
    ensures current != "" ==> r == current
    ensures current == "" && !HasKey(ini, section, key) ==> r == defaultValue
    ensures current == "" && HasKey(ini, section, key) && ini.value[(section, key)] != "" ==> r == ini.value[(section, key)]
    ensures current == "" && HasKey(ini, section, key) && ini.value[(section, key)] == "" ==> r == defaultValue
  {
    if HasKey(ini, section, key) && current == "" then MustString(ini.value[(section, key)], defaultValue)
    else if current == "" then defaultValue
    else current
  }

  /** getIntValue: 0 means "not given on the command line". */
  function GetIntValue(ini: Option<IniFile>, section: string, key: string, current: int, defaultValue: int): (r: int)
    ensures current != 0 ==> r == current
    ensures current == 0 && !HasKey(ini, section, key) ==> r == defaultValue
    ensures current == 0 && HasKey(ini, section, key) ==> r == MustInt(ini.value[(section, key)], defaultValue)
  {
    if HasKey(ini, section, key) && current == 0 then MustInt(ini.value[(section, key)], defaultValue)
    else if current == 0 then defaultValue
    else current
  }

  /**
   * getRegexValue: the regex text that gets compiled, or an error when the
   * text does not compile (MustCompile panics). Both branches that do not
   * read the file compile the default, whatever the current value is.
   */
  function GetRegexValue(ini: Option<IniFile>, section: string, key: string, current: string, defaultValue: string,
                         compiles: string -> bool): (r: Result<string, string>)
    ensures current != "" ==> r == (if compiles(defaultValue) then Ok(defaultValue) else Err(defaultValue))
    ensures !HasKey(ini, section, key) ==> r == (if compiles(defaultValue) then Ok(defaultValue) else Err(defaultValue))
    ensures current == "" && HasKey(ini, section, key) && ini.value[(section, key)] != "" ==>
              var text := ini.value[(section, key)];
              r == (if compiles(text) then Ok(text) else Err(text))
    ensures current == "" && HasKey(ini, section, key) && ini.value[(section, key)] == "" ==>
              r == (if compiles(defaultValue) then Ok(defaultValue) else Err(defaultValue))
    ensures r.Ok? ==> compiles(r.value)
  {
    var text := if HasKey(ini, section, key) && current == "" then MustString(ini.value[(section, key)], defaultValue)
                else defaultValue;
    if compiles(text) then Ok(text) else Err(text)
  }

  // ---------------------------------------------------------------------------
  // Reference rules
  // ---------------------------------------------------------------------------

  /** The first non-empty text of a list of candidates, "" if there is none. */
  function FirstNonEmpty(candidates: seq<string>): (r: string)
    ensures r == "" <==> forall j :: 0 <= j < |candidates| ==> candidates[j] == ""
    ensures r != "" ==> exists j :: 0 <= j < |candidates| && candidates[j] == r &&
                                    forall k :: 0 <= k < j ==> candidates[k] == ""
  {
    if |candidates| == 0 then ""
    else if candidates[0] != "" then candidates[0]
    else
      var rest := FirstNonEmpty(candidates[1..]);
      assert forall j :: 0 <= j < |candidates| - 1 ==> candidates[1..][j] == candidates[j + 1];
      if rest != "" then
        var j :| 0 <= j < |candidates[1..]| && candidates[1..][j] == rest && forall k :: 0 <= k < j ==> candidates[1..][k] == "";
        assert candidates[j + 1] == rest;
        rest
      else rest
  }

  /** What the file says for a key: its text, "" when the file or the key is missing. */
  function FileText(ini: Option<IniFile>, section: string, key: string): string {
    if HasKey(ini, section, key) then ini.value[(section, key)] else ""
  }

  /** String settings: the first non-empty of the command line, the file and the default. */
  lemma StringPrecedence(ini: Option<IniFile>, section: string, key: string, current: string, defaultValue: string)
    ensures GetStringValue(ini, section, key, current, defaultValue)
         == FirstNonEmpty([current, FileText(ini, section, key), defaultValue])
  {
    var cs := [current, FileText(ini, section, key), defaultValue];
    assert cs[1..] == [FileText(ini, section, key), defaultValue];
    assert cs[1..][1..] == [defaultValue];
    assert cs[1..][1..][1..] == [];
    assert FirstNonEmpty(cs[1..][1..]) == defaultValue;
    assert FirstNonEmpty(cs[1..]) == MustString(FileText(ini, section, key), defaultValue);
  }

  /** The first present value of a list of candidates. */
  function FirstSome(candidates: seq<Option<int>>): (r: Option<int>)
    ensures r.None? <==> forall j :: 0 <= j < |candidates| ==> candidates[j].None?
  {
    if |candidates| == 0 then None
    else if candidates[0].Some? then candidates[0]
    else
      var rest := FirstSome(candidates[1..]);
      assert forall j :: 0 <= j < |candidates| - 1 ==> candidates[1..][j] == candidates[j + 1];
      rest
  }

  /** A command-line integer is present when it is not 0. */
  function FlagInt(current: int): Option<int> {
    if current == 0 then None else Some(current)
  }

  /** A file integer is present when the key exists and its text reads as an integer. */
  function FileInt(ini: Option<IniFile>, section: string, key: string): Option<int> {
    if HasKey(ini, section, key) then Strconv.Atoi(ini.value[(section, key)]) else None
  }

  /**
   * Integer settings: the first present of the command line, the file and
   * the default. A 0 read from the file is a value; a 0 flag is not.
   */
  lemma IntPrecedence(ini: Option<IniFile>, section: string, key: string, current: int, defaultValue: int)
    ensures Some(GetIntValue(ini, section, key, current, defaultValue))
         == FirstSome([FlagInt(current), FileInt(ini, section, key), Some(defaultValue)])
  {
    var cs := [FlagInt(current), FileInt(ini, section, key), Some(defaultValue)];
    assert cs[1..] == [FileInt(ini, section, key), Some(defaultValue)];
    assert cs[1..][1..] == [Some(defaultValue)];
    assert FirstSome(cs[1..][1..]) == Some(defaultValue);
    assert FirstSome(cs[1..]) == Some(if FileInt(ini, section, key).Some? then FileInt(ini, section, key).value else defaultValue);
  }

  /** An explicit 0 on the command line is the same as no flag at all: it never wins. */
  lemma ZeroFlagNeverWins(ini: Option<IniFile>, section: string, key: string, defaultValue: int)
    ensures GetIntValue(ini, section, key, 0, defaultValue)
         == (if FileInt(ini, section, key).Some? then FileInt(ini, section, key).value else defaultValue)
  {
  }

  /** Whatever the file says, a regex whose current value is its default compiles the default. */
  lemma RegexAlwaysDefault(ini: Option<IniFile>, section: string, key: string, defaultValue: string, compiles: string -> bool)
    requires defaultValue != ""
    requires compiles(defaultValue)
    ensures GetRegexValue(ini, section, key, defaultValue, defaultValue, compiles) == Ok(defaultValue)
  {
  }

  // ---------------------------------------------------------------------------
  // LoadFile
  // ---------------------------------------------------------------------------

  /** The settings; before LoadFile they hold the command-line values ("" and 0 when not given). */
  datatype Config = Config(
    configFile: string,
    outputLogfile: string,
    outputLogfileSymlink: string,
    sendingInterval: int,
    timeout: int,
    discoveryInterval: int,
    zabbixServer: string,
    zabbixHost: string,
    zabbixSendDisabled: bool,
    regexLogline: string,
    regexStaticContent: string)

  /** The settings when no flag is given. */
  function NoFlags(): Config {
    Config("", "", "", 0, 0, 0, "", "", false, "", "")
  }

  /** Why LoadFile stops the process. */
  datatype LoadError = Unreadable(path: string) | BadRegex(text: string)

  /** The file LoadFile reads: none when no config file is named. */
  function Loaded(cfg: Config, load: string -> Option<IniFile>): Option<IniFile> {
    if cfg.configFile == "" then None else load(cfg.configFile)
  }

  /**
   * LoadFile, with the key it reads the output logfile from as a parameter:
   * read the file if one is named, then resolve every setting.
   */
  function LoadFileReading(outputKey: string, cfg: Config, load: string -> Option<IniFile>, hostname: string,
                           compiles: string -> bool): (r: Result<Config, LoadError>)
    ensures cfg.configFile != "" && load(cfg.configFile).None? ==> r == Err(Unreadable(cfg.configFile))
    ensures r.Ok? ==> r.value.configFile == cfg.configFile && r.value.zabbixSendDisabled == cfg.zabbixSendDisabled
    ensures compiles(LoglineRegex) && compiles(StaticContentRegex) ==>
              (r.Ok? <==> cfg.configFile == "" || load(cfg.configFile).Some?)
    ensures !compiles(LoglineRegex) && (cfg.configFile == "" || load(cfg.configFile).Some?) ==> r == Err(BadRegex(LoglineRegex))
    ensures r.Ok? ==> r.value.regexLogline == LoglineRegex && r.value.regexStaticContent == StaticContentRegex
    ensures r.Ok? ==>
              var ini := Loaded(cfg, load);
              && r.value.outputLogfile == FirstNonEmpty([cfg.outputLogfile, FileText(ini, Global, outputKey), "/dev/null"])
              && r.value.outputLogfileSymlink == FirstNonEmpty([cfg.outputLogfileSymlink, FileText(ini, Global, "symlink"), ""])
              && r.value.zabbixServer == FirstNonEmpty([cfg.zabbixServer, FileText(ini, Global, "zabbix_server"), "zabbix"])
              && r.value.zabbixHost == FirstNonEmpty([cfg.zabbixHost, FileText(ini, Global, "zabbix_host"), hostname])
    ensures r.Ok? ==>
              var ini := Loaded(cfg, load);
              && Some(r.value.sendingInterval)
                   == FirstSome([FlagInt(cfg.sendingInterval), FileInt(ini, Global, "sending_interval"), Some(120)])
              && Some(r.value.timeout) == FirstSome([FlagInt(cfg.timeout), FileInt(ini, Global, "timeout"), Some(5)])
              && Some(r.value.discoveryInterval)
                   == FirstSome([FlagInt(cfg.discoveryInterval), FileInt(ini, Global, "discovery_interval"), Some(900)])
  {
    var ini := Loaded(cfg, load);
    if cfg.configFile != "" && ini.None? then Err(Unreadable(cfg.configFile))
    else
      StringPrecedence(ini, Global, outputKey, cfg.outputLogfile, "/dev/null");
      StringPrecedence(ini, Global, "symlink", cfg.outputLogfileSymlink, "");
      StringPrecedence(ini, Global, "zabbix_server", cfg.zabbixServer, "zabbix");
      StringPrecedence(ini, Global, "zabbix_host", cfg.zabbixHost, hostname);
      IntPrecedence(ini, Global, "sending_interval", cfg.sendingInterval, 120);
      IntPrecedence(ini, Global, "timeout", cfg.timeout, 5);
      IntPrecedence(ini, Global, "discovery_interval", cfg.discoveryInterval, 900);
      var logline := GetRegexValue(ini, Global, "regex_logline", LoglineRegex, LoglineRegex, compiles);
      var staticContent := GetRegexValue(ini, Global, "regex_static_content", StaticContentRegex, StaticContentRegex, compiles);
      if logline.Err? then Err(BadRegex(logline.error))
      else if staticContent.Err? then Err(BadRegex(staticContent.error))
      else
        Ok(Config(
          cfg.configFile,
          GetStringValue(ini, Global, outputKey, cfg.outputLogfile, "/dev/null"),
          GetStringValue(ini, Global, "symlink", cfg.outputLogfileSymlink, ""),
          GetIntValue(ini, Global, "sending_interval", cfg.sendingInterval, 120),
          GetIntValue(ini, Global, "timeout", cfg.timeout, 5),
          GetIntValue(ini, Global, "discovery_interval", cfg.discoveryInterval, 900),
          GetStringValue(ini, Global, "zabbix_server", cfg.zabbixServer, "zabbix"),
          GetStringValue(ini, Global, "zabbix_host", cfg.zabbixHost, hostname),
          cfg.zabbixSendDisabled,
          logline.value,
          staticContent.value))
  }

  /** The key the code reads the output logfile from. */
  const OutputKeyAsWritten: string := "output_logile"

  /** The key the flag of the same setting is named after. */
  const OutputKey: string := "output_logfile"

  /** LoadFile as the code has it. */
  function LoadFileAsWritten(cfg: Config, load: string -> Option<IniFile>, hostname: string, compiles: string -> bool): Result<Config, LoadError> {
    LoadFileReading(OutputKeyAsWritten, cfg, load, hostname, compiles)
  }

  /** LoadFile reading the output logfile from the key named like its flag. */
  function LoadFile(cfg: Config, load: string -> Option<IniFile>, hostname: string, compiles: string -> bool): Result<Config, LoadError> {
    LoadFileReading(OutputKey, cfg, load, hostname, compiles)
  }

  /** With no file and no flags every setting takes its default. */
  lemma Defaults(load: string -> Option<IniFile>, hostname: string, compiles: string -> bool)
    requires compiles(LoglineRegex) && compiles(StaticContentRegex)
    ensures LoadFileAsWritten(NoFlags(), load, hostname, compiles)
         == Ok(Config("", "/dev/null", "", 120, 5, 900, "zabbix", hostname, false, LoglineRegex, StaticContentRegex))
    ensures LoadFile(NoFlags(), load, hostname, compiles)
         == Ok(Config("", "/dev/null", "", 120, 5, 900, "zabbix", hostname, false, LoglineRegex, StaticContentRegex))
  {
  }

  /**
   * The file beats the default and a flag beats the file: a file naming a
   * zabbix server and a discovery interval, with the interval also given as
   * flag 22, yields the file's server and interval 22.
   */
  lemma FileAndFlagPrecedence(file: string, ini: IniFile, server: string, interval: string,
                              load: string -> Option<IniFile>, hostname: string, compiles: string -> bool)
    requires file != "" && load(file) == Some(ini)
    requires compiles(LoglineRegex) && compiles(StaticContentRegex)
    requires ini == map[(Global, "zabbix_server") := server, (Global, "discovery_interval") := interval]
    requires server != ""
    ensures var r := LoadFile(NoFlags().(configFile := file, discoveryInterval := 22), load, hostname, compiles);
            r.Ok? && r.value.zabbixServer == server && r.value.discoveryInterval == 22
            && r.value.sendingInterval == 120 && r.value.zabbixHost == hostname
  {
    var cfg := NoFlags().(configFile := file, discoveryInterval := 22);
    assert Loaded(cfg, load) == Some(ini);
    assert (Global, "zabbix_host") !in ini && (Global, "sending_interval") !in ini by {
      assert |"zabbix_host"| != |"zabbix_server"| && |"zabbix_host"| != |"discovery_interval"|;
      assert |"sending_interval"| != |"zabbix_server"| && |"sending_interval"| != |"discovery_interval"|;
    }
    assert FileText(Some(ini), Global, "zabbix_server") == server;
    assert FirstNonEmpty(["", server, "zabbix"]) == server by {
      assert ["", server, "zabbix"][1..] == [server, "zabbix"];
    }
    assert FirstNonEmpty(["", "", hostname]) == hostname by {
      var c := ["", "", hostname];
      assert c[0] == "" && c[1] == "" && c[2] == hostname;
    }
    assert FirstSome([None, None, Some(120)]) == Some(120) by {
      assert [None, None, Some(120)][1..] == [None, Some(120)];
      assert [None, Some(120)][1..] == [Some(120)];
    }
  }

  /** As written, a file that sets output_logfile is ignored: the output stays /dev/null. */
  lemma MisspeltOutputKeyIgnored(file: string, path: string, load: string -> Option<IniFile>, hostname: string,
                                 compiles: string -> bool)
    requires file != "" && load(file) == Some(map[(Global, OutputKey) := path])
    requires compiles(LoglineRegex) && compiles(StaticContentRegex)
    ensures var r := LoadFileAsWritten(NoFlags().(configFile := file), load, hostname, compiles);
            r.Ok? && r.value.outputLogfile == "/dev/null"
  {
    assert OutputKeyAsWritten != OutputKey by {
      assert |OutputKeyAsWritten| != |OutputKey|;
    }
  }

  /** Reading the key named like its flag, the file's output logfile is used. */
  lemma OutputKeyHonoured(file: string, path: string, load: string -> Option<IniFile>, hostname: string,
                          compiles: string -> bool)
    requires file != "" && load(file) == Some(map[(Global, OutputKey) := path])
    requires compiles(LoglineRegex) && compiles(StaticContentRegex)
    requires path != ""
    ensures var r := LoadFile(NoFlags().(configFile := file), load, hostname, compiles);
            r.Ok? && r.value.outputLogfile == path
  {
  }
}
