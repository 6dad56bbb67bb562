/**
 The configuration file (src/ai/ai_config.cc): SimpleJsonParser::Serialize writes every field on a
 line of its own, Parse finds each by its quoted key.
 */
module Config {
  import opened Text
  import opened Find

  type Int32 = n: int | -0x8000_0000 <= n < 0x8000_0000

  datatype BackendType = Disabled | Ollama | Groq | OpenAiCompatible
  datatype LogLevel = Trace | Debug | Info | Warn | Error

  datatype OllamaConfig = OllamaConfig(endpoint: string, model: string)
  datatype GroqConfig = GroqConfig(apiKeyEnv: string, model: string)
  datatype OpenAiConfig = OpenAiConfig(endpoint: string, model: string, apiKeyEnv: string)
  datatype TimeoutConfig = TimeoutConfig(connectMs: Int32, requestMs: Int32, maxWaitMs: Int32, warmupMs: Int32)
  datatype CacheConfig = CacheConfig(ttlSeconds: Int32, maxEntries: Int32, includeContext: bool)
  datatype ContextConfig = ContextConfig(historySize: Int32, historyExpireMin: Int32)
  datatype LogConfig = LogConfig(level: LogLevel, aiCommunication: bool)
  datatype DebugConfig = DebugConfig(disableAi: bool, useMock: bool)

  datatype AIConfig = AIConfig(
    enabled: bool, backend: BackendType, ollama: OllamaConfig, groq: GroqConfig, openAi: OpenAiConfig,
    timeout: TimeoutConfig, cache: CacheConfig, context: ContextConfig, log: LogConfig, debug: DebugConfig)

  // ----- printing -----

  function Digits(n: nat): (s: string)
    ensures s != "" && forall k :: 0 <= k < |s| ==> IsDigit(s[k])
  {
    if n < 10 then [DigitChar(n)] else Digits(n / 10) + [DigitChar(n % 10)]
  }

  function DigitChar(n: nat): (c: char)
    requires n < 10
    ensures IsDigit(c) && DigitValue(c) == n
  {
    (n + '0' as int) as char
  }

  predicate IsDigit(c: char) { '0' <= c <= '9' }

  function DigitValue(c: char): nat
    requires IsDigit(c)
  {
    c as int - '0' as int
  }

  function Decimal(n: int): string { if n < 0 then "-" + Digits(-n) else Digits(n) }

  datatype Value = Flag(b: bool) | Number(n: Int32) | Str(s: string)
  datatype Entry = Entry(key: string, value: Value)

  function FlagText(b: bool): string { if b then "true" else "false" }

  function ValueText(v: Value): string {
    match v
    case Flag(b) => FlagText(b)
    case Number(n) => Decimal(n)
    case Str(s) => "\"" + s + "\""
  }

  function BackendName(b: BackendType): string {
    match b
    case Disabled => "disabled"
    case Groq => "groq"
    case Ollama => "ollama"
    case OpenAiCompatible => "deepseek"
  }

  function LevelName(l: LogLevel): string {
    match l
    case Trace => "trace"
    case Debug => "debug"
    case Warn => "warn"
    case Error => "error"
    case Info => "info"
  }

  function Entries(c: AIConfig): seq<Entry> {
    [ Entry("enabled", Flag(c.enabled)),
      Entry("backend_type", Str(BackendName(c.backend))),
      Entry("ollama_endpoint", Str(c.ollama.endpoint)),
      Entry("ollama_model", Str(c.ollama.model)),
      Entry("groq_api_key_env", Str(c.groq.apiKeyEnv)),
      Entry("groq_model", Str(c.groq.model)),
      Entry("api_endpoint", Str(c.openAi.endpoint)),
      Entry("api_model", Str(c.openAi.model)),
      Entry("api_key_env", Str(c.openAi.apiKeyEnv)),
      Entry("connect_timeout_ms", Number(c.timeout.connectMs)),
      Entry("request_timeout_ms", Number(c.timeout.requestMs)),
      Entry("max_wait_ms", Number(c.timeout.maxWaitMs)),
      Entry("warmup_timeout_ms", Number(c.timeout.warmupMs)),
      Entry("cache_ttl_seconds", Number(c.cache.ttlSeconds)),
      Entry("cache_max_entries", Number(c.cache.maxEntries)),
      Entry("cache_include_context", Flag(c.cache.includeContext)),
      Entry("history_size", Number(c.context.historySize)),
      Entry("history_expire_min", Number(c.context.historyExpireMin)),
      Entry("log_level", Str(LevelName(c.log.level))),
      Entry("log_ai_communication", Flag(c.log.aiCommunication)),
      Entry("disable_ai", Flag(c.debug.disableAi)),
      Entry("use_mock", Flag(c.debug.useMock)) ]
  }

  /** The lines of the file; only the last one has no comma. */
  function Lines(es: seq<Entry>): string {
    if es == [] then ""
    else "  \"" + es[0].key + "\": " + ValueText(es[0].value) + (if |es| == 1 then "\n" else ",\n") + Lines(es[1..])
  }

  function File(es: seq<Entry>): string { "{\n" + Lines(es) + "}\n" }

  function Serialize(c: AIConfig): string { File(Entries(c)) }

  // ----- reading -----

  function ReadString(json: string, key: string, default: string): string {
    match IndexFrom(json, Needle(key), 0)
    case None => default
    case Some(p) =>
      match IndexFrom(json, ":", p)
      case None => default
      case Some(q) =>
        match IndexFrom(json, "\"", q)
        case None => default
        case Some(a) =>
          match IndexFrom(json, "\"", a + 1)
          case None => default
          case Some(b) => json[a + 1..b]
  }

  /** How many leading characters are in a set, as `while (pos < size && ...) ++pos` counts them. */
  function Leading(s: string, p: char -> bool): (n: nat)
    ensures n <= |s|
    ensures forall k :: 0 <= k < n ==> p(s[k])
    ensures n < |s| ==> !p(s[n])
  {
    if s == "" || !p(s[0]) then 0 else 1 + Leading(s[1..], p)
  }

  predicate IsColonOrSpace(c: char) { c == ':' || c == ' ' }

  predicate IsNumberChar(c: char) { IsDigit(c) || c == '-' }

  function DigitsValue(s: string): nat
    requires forall k :: 0 <= k < |s| ==> IsDigit(s[k])
  {
    if s == "" then 0 else DigitsValue(s[..|s| - 1]) * 10 + DigitValue(s[|s| - 1])
  }

  /**
   std::stoi on digits and minus signs: one sign, then digits; it throws when there are none or the
   value does not fit.
   */
  function Stoi(s: string): Option<Int32> {
    if s != "" && s[0] == '-' then Fitting(s[1..], -1) else Fitting(s, 1)
  }

  /** The value of the leading digits, times the sign. */
  function Fitting(t: string, sign: int): Option<Int32> {
    var digits := t[..Leading(t, IsDigit)];
    var v := sign * DigitsValue(digits);
    if digits != "" && -0x8000_0000 <= v < 0x8000_0000 then Some(v) else None
  }

  /** The number behind the colon. */
  function NumberBehind(s: string, default: Int32): Int32 {
    var t := s[Leading(s, IsColonOrSpace)..];
    var number := t[..Leading(t, IsNumberChar)];
    if number == "" then default
    else
      match Stoi(number)
      case None => default
      case Some(n) => n
  }

  function ReadInt(json: string, key: string, default: Int32): Int32 {
    match IndexFrom(json, Needle(key), 0)
    case None => default
    case Some(p) =>
      match IndexFrom(json, ":", p)
      case None => default
      case Some(q) => NumberBehind(json[q..], default)
  }

  /** a is a position before b; npos is after every position. */
  predicate Before(a: Option<nat>, b: Option<nat>) { a.Some? && (b.None? || a.value < b.value) }

  function ReadBool(json: string, key: string, default: bool): bool {
    match IndexFrom(json, Needle(key), 0)
    case None => default
    case Some(p) =>
      match IndexFrom(json, ":", p)
      case None => default
      case Some(q) =>
        var comma, brace := IndexFrom(json, ",", q), IndexFrom(json, "}", q);
        var end := if Before(comma, brace) then comma else brace;
        if Before(IndexFrom(json, "true", q), end) then true
        else if Before(IndexFrom(json, "false", q), end) then false
        else default
  }

  function BackendOf(name: string): BackendType {
    if name == "disabled" then Disabled
    else if name == "groq" then Groq
    else if name == "ollama" then Ollama
    else OpenAiCompatible
  }

  function LevelOf(name: string): LogLevel {
    if name == "trace" then Trace
    else if name == "debug" then Debug
    else if name == "warn" then Warn
    else if name == "error" then Error
    else Info
  }

  /** What a field is when it cannot be read. */
  const DEFAULTS: AIConfig := AIConfig(
    true, OpenAiCompatible,
    OllamaConfig("http://localhost:11434", "gemma3:1b"),
    GroqConfig("GROQ_API_KEY", "mixtral-8x7b-32768"),
    OpenAiConfig("https://api.deepseek.com/v1", "deepseek-chat", "DEEPSEEK_API_KEY"),
    TimeoutConfig(5000, 15000, 16000, 60000),
    CacheConfig(60, 100, false), ContextConfig(5, 5), LogConfig(Info, false), DebugConfig(false, false))

  function Parse(json: string): AIConfig {
    var d := DEFAULTS;
    AIConfig(
      ReadBool(json, "enabled", d.enabled),
      BackendOf(ReadString(json, "backend_type", BackendName(d.backend))),
      OllamaConfig(
        ReadString(json, "ollama_endpoint", d.ollama.endpoint), ReadString(json, "ollama_model", d.ollama.model)),
      GroqConfig(
        ReadString(json, "groq_api_key_env", d.groq.apiKeyEnv), ReadString(json, "groq_model", d.groq.model)),
      OpenAiConfig(
        ReadString(json, "api_endpoint", d.openAi.endpoint),
        ReadString(json, "api_model", d.openAi.model),
        ReadString(json, "api_key_env", d.openAi.apiKeyEnv)),
      TimeoutConfig(
        ReadInt(json, "connect_timeout_ms", d.timeout.connectMs),
        ReadInt(json, "request_timeout_ms", d.timeout.requestMs),
        ReadInt(json, "max_wait_ms", d.timeout.maxWaitMs),
        ReadInt(json, "warmup_timeout_ms", d.timeout.warmupMs)),
      CacheConfig(
        ReadInt(json, "cache_ttl_seconds", d.cache.ttlSeconds),
        ReadInt(json, "cache_max_entries", d.cache.maxEntries),
        ReadBool(json, "cache_include_context", d.cache.includeContext)),
      ContextConfig(
        ReadInt(json, "history_size", d.context.historySize),
        ReadInt(json, "history_expire_min", d.context.historyExpireMin)),
      LogConfig(
        LevelOf(ReadString(json, "log_level", LevelName(d.log.level))),
        ReadBool(json, "log_ai_communication", d.log.aiCommunication)),
      DebugConfig(
        ReadBool(json, "disable_ai", d.debug.disableAi), ReadBool(json, "use_mock", d.debug.useMock)))
  }

  // ----- the loops of GetInt -----

  method SkipChars(json: string, from: nat, p: char -> bool) returns (pos: nat)
    requires from <= |json|
    ensures pos == from + Leading(json[from..], p)
  {
    pos := from;
    while pos < |json| && p(json[pos])
      invariant from <= pos <= |json|
      invariant Leading(json[from..], p) == pos - from + Leading(json[pos..], p)
    {
      assert json[pos..][1..] == json[pos + 1..];
      pos := pos + 1;
    }
  }

  lemma MarkInside(json: string)
    ensures forall q: nat :: OccursAt(json, ":", q) ==> q <= |json|
  {
  }

  method GetInt(json: string, key: string, default: Int32) returns (n: Int32)
    ensures n == ReadInt(json, key, default)
  {
    hide IndexFrom, OccursAt, Needle, NumberBehind;
    assert forall q: nat :: OccursAt(json, ":", q) ==> q <= |json| by { MarkInside(json); }
    var found := IndexFrom(json, Needle(key), 0);
    if found.None? {
      return default;
    }
    found := IndexFrom(json, ":", found.value);
    if found.None? {
      return default;
    }
    n := NumberAt(json, found.value, default);
  }

  /** GetInt from the colon on. */
  method NumberAt(json: string, colon: nat, default: Int32) returns (n: Int32)
    requires colon <= |json|
    ensures n == NumberBehind(json[colon..], default)
  {
    hide Stoi, Leading, IsColonOrSpace, IsNumberChar;
    var pos := SkipChars(json, colon, IsColonOrSpace);
    assert json[colon..][pos - colon..] == json[pos..];
    var number := CollectChars(json, pos, IsNumberChar);
    if number == "" {
      return default;
    }
    var v := Stoi(number);
    n := if v.Some? then v.value else default;
  }

  method CollectChars(json: string, from: nat, p: char -> bool) returns (s: string)
    requires from <= |json|
    ensures s == json[from..][..Leading(json[from..], p)]
  {
    s := "";
    var pos := from;
    while pos < |json| && p(json[pos])
      invariant from <= pos <= |json| && s == json[from..pos]
      invariant Leading(json[from..], p) == |s| + Leading(json[pos..], p)
    {
      assert json[pos..][1..] == json[pos + 1..];
      s := s + [json[pos]];
      pos := pos + 1;
    }
    assert Leading(json[pos..], p) == 0;
  }
}
