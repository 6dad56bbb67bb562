/** When a configuration that was written is read back. */
module ConfigRoundTrip {
  import opened Text
  import opened Find
  import opened Config
  import opened ConfigText
  import opened ConfigValues

  // ----- the keys -----

  const KEYS: seq<string> := [
    "enabled", "backend_type", "ollama_endpoint", "ollama_model", "groq_api_key_env",
    "groq_model", "api_endpoint", "api_model", "api_key_env", "connect_timeout_ms",
    "request_timeout_ms", "max_wait_ms", "warmup_timeout_ms", "cache_ttl_seconds", "cache_max_entries",
    "cache_include_context", "history_size", "history_expire_min", "log_level", "log_ai_communication",
    "disable_ai", "use_mock" ]

  /** The length of a key, its first letter and its seventh tell it from the others. */
  function Signature(key: string): (int, char, char)
    requires |key| >= 7
  {
    (|key|, key[0], key[6])
  }

  const SIGNATURES: seq<(int, char, char)> := [
    (7, 'e', 'd'), (12, 'b', 'd'), (15, 'o', '_'), (12, 'o', '_'), (16, 'g', 'p'), (10, 'g', 'o'),
    (12, 'a', 'd'), (9, 'a', 'd'), (11, 'a', 'y'), (18, 'c', 't'), (18, 'r', 't'), (11, 'm', 'i'),
    (17, 'w', '_'), (17, 'c', 't'), (17, 'c', 'm'), (21, 'c', 'i'), (12, 'h', 'y'), (18, 'h', 'y'),
    (9, 'l', 'v'), (20, 'l', '_'), (10, 'd', 'e'), (8, 'u', 'c') ]

  lemma SignaturesDiffer()
    ensures |SIGNATURES| == 22 && |KEYS| == 22 && forall i, j :: 0 <= i < j < 22 ==> SIGNATURES[i] != SIGNATURES[j]
  {
  }

  lemma SignatureAt(j: nat)
    requires j < 22
    ensures |KEYS[j]| >= 7 && Signature(KEYS[j]) == SIGNATURES[j]
  {
  }

  lemma KeyLikeAt(j: nat)
    requires j < 22
    ensures KeyLike(KEYS[j])
  {
    if j < 7 {
      KeyLikeFirst(j);
    } else if j < 14 {
      KeyLikeMiddle(j);
    } else {
      KeyLikeLast(j);
    }
    hide KeyLike;
  }

  lemma KeyLikeFirst(j: nat)
    requires j < 7
    ensures KeyLike(KEYS[j])
  {
  }

  lemma KeyLikeMiddle(j: nat)
    requires 7 <= j < 14
    ensures KeyLike(KEYS[j])
  {
  }

  lemma KeyLikeLast(j: nat)
    requires 14 <= j < 22
    ensures KeyLike(KEYS[j])
  {
  }

  lemma KeysOf(c: AIConfig)
    ensures |Entries(c)| == |KEYS| == 22
    ensures forall j :: 0 <= j < 22 ==> Entries(c)[j].key == KEYS[j]
  {
  }

  lemma KeysAreFine(c: AIConfig)
    ensures DistinctKeys(Entries(c))
  {
    KeysOf(c);
    var es := Entries(c);
    hide *;
    SignaturesDiffer();
    forall i | 0 <= i < 22
      ensures KeyLike(KEYS[i]) && |KEYS[i]| >= 7 && Signature(KEYS[i]) == SIGNATURES[i]
    {
      KeyLikeAt(i);
      SignatureAt(i);
    }
    DistinctIs(es);
  }

  lemma DistinctIs(es: seq<Entry>)
    requires |es| == |KEYS| == |SIGNATURES| == 22 && forall j :: 0 <= j < 22 ==> es[j].key == KEYS[j]
    requires forall i, j :: 0 <= i < j < 22 ==> SIGNATURES[i] != SIGNATURES[j]
    requires forall i :: 0 <= i < 22 ==> KeyLike(KEYS[i]) && |KEYS[i]| >= 7 && Signature(KEYS[i]) == SIGNATURES[i]
    ensures DistinctKeys(es)
  {
    hide KeyLike, KEYS, SIGNATURES, Signature;
  }

  // ----- every key against the line it leads to -----

  /** What the three readers find under a key is what they make of line r. */
  ghost predicate ReadsLine(json: string, key: string, es: seq<Entry>, r: nat)
    requires r < |es|
  {
    && (forall d :: ReadString(json, key, d) == StringOf(es, r, d))
    && (forall d :: ReadInt(json, key, d) == NumberOf(es[r].value, d))
    && (forall d :: ReadBool(json, key, d) == FlagOf(es[r].value, d))
  }

  lemma RestBegins(es: seq<Entry>, j: nat)
    requires j < |es|
    ensures Rest(es, j) == "\n}\n" || (Rest(es, j) != "" && Rest(es, j)[0] == ',')
    ensures Rest(es, j) != "" && !IsNumberChar(Rest(es, j)[0])
  {
    hide From;
  }

  /** In every file, whatever its strings hold between their quotation marks. */
  lemma EntryReads(es: seq<Entry>, j: nat)
    requires j < |es| && QuoteFree(es) && DistinctKeys(es)
    ensures ReadsLine(File(es), es[j].key, es, Source(es, j))
  {
    var r := Source(es, j);
    var p, head := KeyLeadsTo(es, j);
    assert Found(File(es), es[j].key, p, head);
    RestBegins(es, r);
    hide *;
    StringsRead(es, r, es[j].key, p, head);
    NumbersRead(File(es), es[j].key, p, head, es[r].value, Rest(es, r));
    FlagsRead(File(es), es[j].key, p, head, es[r].value, Rest(es, r));
    ReadsLineIs(File(es), es[j].key, es, r);
  }

  lemma ReadsLineIs(json: string, key: string, es: seq<Entry>, r: nat)
    requires r < |es|
    requires forall d :: ReadString(json, key, d) == StringOf(es, r, d)
    requires forall d :: ReadInt(json, key, d) == NumberOf(es[r].value, d)
    requires forall d :: ReadBool(json, key, d) == FlagOf(es[r].value, d)
    ensures ReadsLine(json, key, es, r)
  {
    hide ReadString, ReadInt, ReadBool, StringOf, NumberOf, FlagOf;
  }

  lemma StringsRead(es: seq<Entry>, r: nat, key: string, p: nat, head: string)
    requires r < |es| && QuoteFree(es) && DistinctKeys(es) && Found(File(es), key, p, head)
    requires File(es) == head + (":" + (" " + (ValueText(es[r].value) + Rest(es, r))))
    ensures forall d :: ReadString(File(es), key, d) == StringOf(es, r, d)
  {
    hide *;
    forall d {
      StringRead(es, r, key, p, head, d);
    }
  }

  lemma NumbersRead(json: string, key: string, p: nat, head: string, v: Value, rest: string)
    requires Found(json, key, p, head) && json == head + (":" + (" " + (ValueText(v) + rest)))
    requires rest != "" && !IsNumberChar(rest[0])
    ensures forall d :: ReadInt(json, key, d) == NumberOf(v, d)
  {
    hide *;
    forall d {
      NumberRead(v, rest, key, p, head, json, d);
    }
  }

  lemma FlagsRead(json: string, key: string, p: nat, head: string, v: Value, rest: string)
    requires Found(json, key, p, head) && json == head + (":" + (" " + (ValueText(v) + rest)))
    requires rest == "\n}\n" || (rest != "" && rest[0] == ',')
    ensures forall d :: ReadBool(json, key, d) == FlagOf(v, d)
  {
    hide *;
    forall d {
      BoolRead(json, key, p, head, v, rest, d);
    }
  }

  // ----- when a field is kept -----

  const LOG_LEVEL := 18

  /**
   The line that key j leads to gives the value of j: it is the line of j, or it reads the same with
   the reader of j, whose default is d. Of the log level only the level counts.
   */
  predicate Kept(es: seq<Entry>, j: nat, d: Value)
    requires j < |es|
  {
    var r := Source(es, j);
    r == j ||
    match es[j].value
    case Flag(b) => d.Flag? && FlagOf(es[r].value, d.b) == b
    case Number(n) => d.Number? && NumberOf(es[r].value, d.n) == n
    case Str(s) =>
      d.Str? && (if j == LOG_LEVEL then LevelOf(StringOf(es, r, d.s)) == LevelOf(s) else StringOf(es, r, d.s) == s)
  }

  lemma SerializeIs(c: AIConfig)
    ensures Serialize(c) == File(Entries(c))
  {
  }

  lemma FieldReads(c: AIConfig, j: nat, key: string, v: Value)
    requires j < |Entries(c)| && Entries(c)[j] == Entry(key, v) && QuoteFree(Entries(c))
    ensures ReadsLine(Serialize(c), key, Entries(c), Source(Entries(c), j))
  {
    hide *;
    SerializeIs(c);
    KeysAreFine(c);
    EntryReads(Entries(c), j);
  }

  lemma FlagField(c: AIConfig, j: nat, key: string, b: bool, d: bool)
    requires j < |Entries(c)| && Entries(c)[j] == Entry(key, Flag(b)) && QuoteFree(Entries(c))
    ensures ReadBool(Serialize(c), key, d) == b <==> Kept(Entries(c), j, Flag(d))
  {
    hide Entries, QuoteFree, Serialize, ReadBool, Source;
    FieldReads(c, j, key, Flag(b));
  }

  lemma NumberField(c: AIConfig, j: nat, key: string, n: Int32, d: Int32)
    requires j < |Entries(c)| && Entries(c)[j] == Entry(key, Number(n)) && QuoteFree(Entries(c))
    ensures ReadInt(Serialize(c), key, d) == n <==> Kept(Entries(c), j, Number(d))
  {
    hide Entries, QuoteFree, Serialize, ReadInt, Source;
    FieldReads(c, j, key, Number(n));
  }

  lemma StringField(c: AIConfig, j: nat, key: string, s: string, d: string)
    requires j < |Entries(c)| && Entries(c)[j] == Entry(key, Str(s)) && QuoteFree(Entries(c)) && j != LOG_LEVEL
    ensures ReadString(Serialize(c), key, d) == s <==> Kept(Entries(c), j, Str(d))
  {
    hide Entries, QuoteFree, Serialize, ReadString, Source;
    FieldReads(c, j, key, Str(s));
  }

  lemma LevelField(c: AIConfig, key: string, d: string)
    requires LOG_LEVEL < |Entries(c)| && Entries(c)[LOG_LEVEL] == Entry(key, Str(LevelName(c.log.level)))
      && QuoteFree(Entries(c))
    ensures LevelOf(ReadString(Serialize(c), key, d)) == c.log.level <==> Kept(Entries(c), LOG_LEVEL, Str(d))
  {
    assert LevelOf(LevelName(c.log.level)) == c.log.level;
    hide Entries, QuoteFree, Serialize, ReadString, Source, LevelOf, LevelName;
    FieldReads(c, LOG_LEVEL, key, Str(LevelName(c.log.level)));
  }

  lemma BackendField(c: AIConfig, key: string, d: string)
    requires |Entries(c)| > 1 && Entries(c)[0].value.Flag? && Entries(c)[1] == Entry(key, Str(BackendName(c.backend)))
    requires QuoteFree(Entries(c))
    ensures BackendOf(ReadString(Serialize(c), key, d)) == c.backend && Kept(Entries(c), 1, Str(d))
  {
    assert BackendOf(BackendName(c.backend)) == c.backend;
    hide Entries, QuoteFree, Serialize, ReadString, BackendOf, BackendName;
    assert Imitator(Entries(c), 1, 0) == None;
    FieldReads(c, 1, key, Str(BackendName(c.backend)));
  }

  lemma EntriesChoices(c: AIConfig)
    ensures |Entries(c)| == 22
    ensures Entries(c)[0] == Entry("enabled", Flag(c.enabled))
    ensures Entries(c)[1] == Entry("backend_type", Str(BackendName(c.backend)))
    ensures Entries(c)[18] == Entry("log_level", Str(LevelName(c.log.level)))
  {
    hide BackendName, LevelName;
  }

  lemma EntriesOllama(c: AIConfig)
    ensures |Entries(c)| == 22
    ensures Entries(c)[2] == Entry("ollama_endpoint", Str(c.ollama.endpoint))
    ensures Entries(c)[3] == Entry("ollama_model", Str(c.ollama.model))
  {
    hide BackendName, LevelName;
  }

  lemma EntriesGroq(c: AIConfig)
    ensures |Entries(c)| == 22
    ensures Entries(c)[4] == Entry("groq_api_key_env", Str(c.groq.apiKeyEnv))
    ensures Entries(c)[5] == Entry("groq_model", Str(c.groq.model))
  {
    hide BackendName, LevelName;
  }

  lemma EntriesApi(c: AIConfig)
    ensures |Entries(c)| == 22
    ensures Entries(c)[6] == Entry("api_endpoint", Str(c.openAi.endpoint))
    ensures Entries(c)[7] == Entry("api_model", Str(c.openAi.model))
    ensures Entries(c)[8] == Entry("api_key_env", Str(c.openAi.apiKeyEnv))
  {
    hide BackendName, LevelName;
  }

  lemma EntriesTimeout(c: AIConfig)
    ensures |Entries(c)| == 22
    ensures Entries(c)[9] == Entry("connect_timeout_ms", Number(c.timeout.connectMs))
    ensures Entries(c)[10] == Entry("request_timeout_ms", Number(c.timeout.requestMs))
    ensures Entries(c)[11] == Entry("max_wait_ms", Number(c.timeout.maxWaitMs))
    ensures Entries(c)[12] == Entry("warmup_timeout_ms", Number(c.timeout.warmupMs))
  {
    hide BackendName, LevelName;
  }

  lemma EntriesCache(c: AIConfig)
    ensures |Entries(c)| == 22
    ensures Entries(c)[13] == Entry("cache_ttl_seconds", Number(c.cache.ttlSeconds))
    ensures Entries(c)[14] == Entry("cache_max_entries", Number(c.cache.maxEntries))
    ensures Entries(c)[15] == Entry("cache_include_context", Flag(c.cache.includeContext))
  {
    hide BackendName, LevelName;
  }

  lemma EntriesContext(c: AIConfig)
    ensures |Entries(c)| == 22
    ensures Entries(c)[16] == Entry("history_size", Number(c.context.historySize))
    ensures Entries(c)[17] == Entry("history_expire_min", Number(c.context.historyExpireMin))
  {
    hide BackendName, LevelName;
  }

  lemma EntriesDebug(c: AIConfig)
    ensures |Entries(c)| == 22
    ensures Entries(c)[19] == Entry("log_ai_communication", Flag(c.log.aiCommunication))
    ensures Entries(c)[20] == Entry("disable_ai", Flag(c.debug.disableAi))
    ensures Entries(c)[21] == Entry("use_mock", Flag(c.debug.useMock))
  {
    hide BackendName, LevelName;
  }

  /** Kept, with the defaults of Parse. */
  predicate KeptField(c: AIConfig, j: nat)
    requires j < 22
  {
    KeysOf(c);
    KeysOf(DEFAULTS);
    Kept(Entries(c), j, Entries(DEFAULTS)[j].value)
  }

  lemma ParsedChoices(c: AIConfig)
    requires QuoteFree(Entries(c))
    ensures Parse(Serialize(c)).enabled == c.enabled <==> KeptField(c, 0)
    ensures Parse(Serialize(c)).backend == c.backend && KeptField(c, 1)
    ensures Parse(Serialize(c)).log.level == c.log.level <==> KeptField(c, 18)
  {
    EntriesChoices(c);
    EntriesChoices(DEFAULTS);
    hide Entries, QuoteFree, Serialize, ReadString, ReadBool, ReadInt, BackendOf, LevelOf, BackendName, LevelName, Kept,
      DEFAULTS;
    FlagField(c, 0, "enabled", c.enabled, DEFAULTS.enabled);
    BackendField(c, "backend_type", BackendName(DEFAULTS.backend));
    LevelField(c, "log_level", LevelName(DEFAULTS.log.level));
  }

  lemma ParsedOllama(c: AIConfig)
    requires QuoteFree(Entries(c))
    ensures Parse(Serialize(c)).ollama == c.ollama <==> KeptField(c, 2) && KeptField(c, 3)
  {
    EntriesOllama(c);
    EntriesOllama(DEFAULTS);
    hide Entries, QuoteFree, Serialize, ReadString, ReadBool, ReadInt, BackendOf, LevelOf, BackendName, LevelName, Kept,
      DEFAULTS;
    StringField(c, 2, "ollama_endpoint", c.ollama.endpoint, DEFAULTS.ollama.endpoint);
    StringField(c, 3, "ollama_model", c.ollama.model, DEFAULTS.ollama.model);
  }

  lemma ParsedGroq(c: AIConfig)
    requires QuoteFree(Entries(c))
    ensures Parse(Serialize(c)).groq == c.groq <==> KeptField(c, 4) && KeptField(c, 5)
  {
    EntriesGroq(c);
    EntriesGroq(DEFAULTS);
    hide Entries, QuoteFree, Serialize, ReadString, ReadBool, ReadInt, BackendOf, LevelOf, BackendName, LevelName, Kept,
      DEFAULTS;
    StringField(c, 4, "groq_api_key_env", c.groq.apiKeyEnv, DEFAULTS.groq.apiKeyEnv);
    StringField(c, 5, "groq_model", c.groq.model, DEFAULTS.groq.model);
  }

  lemma ParsedApi(c: AIConfig)
    requires QuoteFree(Entries(c))
    ensures Parse(Serialize(c)).openAi == c.openAi <==> KeptField(c, 6) && KeptField(c, 7) && KeptField(c, 8)
  {
    EntriesApi(c);
    EntriesApi(DEFAULTS);
    hide Entries, QuoteFree, Serialize, ReadString, ReadBool, ReadInt, BackendOf, LevelOf, BackendName, LevelName, Kept,
      DEFAULTS;
    StringField(c, 6, "api_endpoint", c.openAi.endpoint, DEFAULTS.openAi.endpoint);
    StringField(c, 7, "api_model", c.openAi.model, DEFAULTS.openAi.model);
    StringField(c, 8, "api_key_env", c.openAi.apiKeyEnv, DEFAULTS.openAi.apiKeyEnv);
  }

  lemma ParsedTimeout(c: AIConfig)
    requires QuoteFree(Entries(c))
    ensures Parse(Serialize(c)).timeout == c.timeout
      <==> KeptField(c, 9) && KeptField(c, 10) && KeptField(c, 11) && KeptField(c, 12)
  {
    EntriesTimeout(c);
    EntriesTimeout(DEFAULTS);
    hide Entries, QuoteFree, Serialize, ReadString, ReadBool, ReadInt, BackendOf, LevelOf, BackendName, LevelName, Kept,
      DEFAULTS;
    NumberField(c, 9, "connect_timeout_ms", c.timeout.connectMs, DEFAULTS.timeout.connectMs);
    NumberField(c, 10, "request_timeout_ms", c.timeout.requestMs, DEFAULTS.timeout.requestMs);
    NumberField(c, 11, "max_wait_ms", c.timeout.maxWaitMs, DEFAULTS.timeout.maxWaitMs);
    NumberField(c, 12, "warmup_timeout_ms", c.timeout.warmupMs, DEFAULTS.timeout.warmupMs);
  }

  lemma ParsedCache(c: AIConfig)
    requires QuoteFree(Entries(c))
    ensures Parse(Serialize(c)).cache == c.cache <==> KeptField(c, 13) && KeptField(c, 14) && KeptField(c, 15)
  {
    EntriesCache(c);
    EntriesCache(DEFAULTS);
    hide Entries, QuoteFree, Serialize, ReadString, ReadBool, ReadInt, BackendOf, LevelOf, BackendName, LevelName, Kept,
      DEFAULTS;
    NumberField(c, 13, "cache_ttl_seconds", c.cache.ttlSeconds, DEFAULTS.cache.ttlSeconds);
    NumberField(c, 14, "cache_max_entries", c.cache.maxEntries, DEFAULTS.cache.maxEntries);
    FlagField(c, 15, "cache_include_context", c.cache.includeContext, DEFAULTS.cache.includeContext);
  }

  lemma ParsedContext(c: AIConfig)
    requires QuoteFree(Entries(c))
    ensures Parse(Serialize(c)).context == c.context <==> KeptField(c, 16) && KeptField(c, 17)
  {
    EntriesContext(c);
    EntriesContext(DEFAULTS);
    hide Entries, QuoteFree, Serialize, ReadString, ReadBool, ReadInt, BackendOf, LevelOf, BackendName, LevelName, Kept,
      DEFAULTS;
    NumberField(c, 16, "history_size", c.context.historySize, DEFAULTS.context.historySize);
    NumberField(c, 17, "history_expire_min", c.context.historyExpireMin, DEFAULTS.context.historyExpireMin);
  }

  lemma ParsedDebug(c: AIConfig)
    requires QuoteFree(Entries(c))
    ensures Parse(Serialize(c)).log.aiCommunication == c.log.aiCommunication <==> KeptField(c, 19)
    ensures Parse(Serialize(c)).debug == c.debug <==> KeptField(c, 20) && KeptField(c, 21)
  {
    EntriesDebug(c);
    EntriesDebug(DEFAULTS);
    hide Entries, QuoteFree, Serialize, ReadString, ReadBool, ReadInt, BackendOf, LevelOf, BackendName, LevelName, Kept,
      DEFAULTS;
    FlagField(c, 19, "log_ai_communication", c.log.aiCommunication, DEFAULTS.log.aiCommunication);
    FlagField(c, 20, "disable_ai", c.debug.disableAi, DEFAULTS.debug.disableAi);
    FlagField(c, 21, "use_mock", c.debug.useMock, DEFAULTS.debug.useMock);
  }

  // ----- quotation marks -----

  /** A string that was read holds no quotation mark. */
  lemma ReadHasNoQuote(json: string, key: string, default: string)
    requires NoQuote(default)
    ensures NoQuote(ReadString(json, key, default))
  {
    hide IndexFrom, Needle, NoQuote;
    match IndexFrom(json, Needle(key), 0)
    case None =>
    case Some(p) =>
      match IndexFrom(json, ":", p)
      case None =>
      case Some(q) =>
        match IndexFrom(json, "\"", q)
        case None =>
        case Some(a) =>
          match IndexFrom(json, "\"", a + 1)
          case None =>
          case Some(b) => NoQuoteBefore(json, a + 1, b);
  }

  lemma NoQuoteBefore(json: string, a: nat, b: nat)
    requires IndexFrom(json, "\"", a) == Some(b)
    ensures a <= b <= |json| && NoQuote(json[a..b])
  {
    hide IndexFrom;
    assert b <= |json|;
    forall k | 0 <= k < b - a
      ensures json[a..b][k] != '"'
    {
      MarkOccurs(json, '"', a + k);
      assert !OccursAt(json, "\"", a + k);
    }
  }

  lemma ParsedHasNoQuote(json: string)
    ensures var c := Parse(json);
      && NoQuote(c.ollama.endpoint) && NoQuote(c.ollama.model) && NoQuote(c.groq.apiKeyEnv) && NoQuote(c.groq.model)
      && NoQuote(c.openAi.endpoint) && NoQuote(c.openAi.model) && NoQuote(c.openAi.apiKeyEnv)
  {
    DefaultsHaveNoQuote();
    hide NoQuote, ReadString, ReadBool, ReadInt, BackendOf, LevelOf;
    ReadHasNoQuote(json, "ollama_endpoint", DEFAULTS.ollama.endpoint);
    ReadHasNoQuote(json, "ollama_model", DEFAULTS.ollama.model);
    ReadHasNoQuote(json, "groq_api_key_env", DEFAULTS.groq.apiKeyEnv);
    ReadHasNoQuote(json, "groq_model", DEFAULTS.groq.model);
    ReadHasNoQuote(json, "api_endpoint", DEFAULTS.openAi.endpoint);
    ReadHasNoQuote(json, "api_model", DEFAULTS.openAi.model);
    ReadHasNoQuote(json, "api_key_env", DEFAULTS.openAi.apiKeyEnv);
  }

  lemma DefaultsHaveNoQuote()
    ensures NoQuote(DEFAULTS.ollama.endpoint) && NoQuote(DEFAULTS.ollama.model)
    ensures NoQuote(DEFAULTS.groq.apiKeyEnv) && NoQuote(DEFAULTS.groq.model)
    ensures NoQuote(DEFAULTS.openAi.endpoint) && NoQuote(DEFAULTS.openAi.model) && NoQuote(DEFAULTS.openAi.apiKeyEnv)
  {
    OllamaDefaults();
    GroqDefaults();
    OpenAiDefaults();
    hide NoQuote, DEFAULTS;
  }

  lemma OllamaDefaults()
    ensures NoQuote(DEFAULTS.ollama.endpoint) && NoQuote(DEFAULTS.ollama.model)
  {
  }

  lemma GroqDefaults()
    ensures NoQuote(DEFAULTS.groq.apiKeyEnv) && NoQuote(DEFAULTS.groq.model)
  {
  }

  lemma OpenAiDefaults()
    ensures NoQuote(DEFAULTS.openAi.endpoint) && NoQuote(DEFAULTS.openAi.model) && NoQuote(DEFAULTS.openAi.apiKeyEnv)
  {
  }

  lemma NamesHaveNoQuote(c: AIConfig)
    ensures NoQuote(BackendName(c.backend)) && NoQuote(LevelName(c.log.level))
  {
  }

  lemma EntriesQuoteFree(c: AIConfig)
    requires NoQuote(c.ollama.endpoint) && NoQuote(c.ollama.model) && NoQuote(c.groq.apiKeyEnv) && NoQuote(c.groq.model)
    requires NoQuote(c.openAi.endpoint) && NoQuote(c.openAi.model) && NoQuote(c.openAi.apiKeyEnv)
    ensures QuoteFree(Entries(c))
  {
    NamesHaveNoQuote(c);
    hide NoQuote, BackendName, LevelName;
  }

  // ----- the theorem -----

  /**
   What was written is read back exactly when no string holds a quotation mark and every key leads
   to its own line, or to one that reads the same. A string equal to the key of the next entry is harmless.
   */
  lemma RoundTrip(c: AIConfig)
    ensures Parse(Serialize(c)) == c <==> QuoteFree(Entries(c)) && forall j :: 0 <= j < 22 ==> KeptField(c, j)
  {
    hide Entries, QuoteFree, Serialize, Parse, Kept, DEFAULTS, KeptField;
    if QuoteFree(Entries(c)) {
      ParsedChoices(c);
      ParsedOllama(c);
      ParsedGroq(c);
      ParsedApi(c);
      ParsedTimeout(c);
      ParsedCache(c);
      ParsedContext(c);
      ParsedDebug(c);
    }
    if Parse(Serialize(c)) == c {
      ParsedHasNoQuote(Serialize(c));
      EntriesQuoteFree(c);
    }
  }

  /** A field can be lost: an endpoint named like a key further down makes Parse read the line below it. */
  lemma KeyAsValue(c: AIConfig)
    requires c.ollama.endpoint == "api_model" && c.ollama.model != c.openAi.model
    ensures Parse(Serialize(c)) != c
  {
    RoundTrip(c);
    EntriesChoices(c);
    EntriesOllama(c);
    EntriesApi(c);
    EntriesApi(DEFAULTS);
    NotAName(c.backend);
    hide Entries, Parse, Serialize, QuoteFree, BackendName, LevelName, DEFAULTS;
    assert Imitator(Entries(c), 7, 0) == Some(2);
    assert Source(Entries(c), 7) == 3;
    assert !KeptField(c, 7);
  }

  lemma NotAName(b: BackendType)
    ensures BackendName(b) != "api_model"
  {
    assert |"api_model"| == 9;
  }

  /** Where the keys of entries 2 and 3 are found when the string of entry 2 is key 3. */
  lemma NextKeySources(es: seq<Entry>)
    requires |es| == 22 && es[0].value.Flag? && es[1].value.Str? && es[2].value == Str(es[3].key)
    requires es[1].value.s != es[2].key && es[1].value.s != es[3].key && es[2].key != es[3].key
    ensures Imitator(es, 3, 0) == Some(2) && Source(es, 2) == 2 && Source(es, 3) == 3
  {
  }

  lemma EntriesFirst(c: AIConfig)
    requires c.ollama.endpoint == "ollama_model"
    ensures var es := Entries(c);
      && |es| == 22 && es[0].value.Flag? && es[1].value.Str? && es[2].value == Str(es[3].key)
      && es[1].value.s != es[2].key && es[1].value.s != es[3].key && es[2].key != es[3].key
  {
    EntriesChoices(c);
    EntriesOllama(c);
    NotAKey(c.backend);
    assert |"ollama_model"| == 12 && |"ollama_endpoint"| == 15;
    hide Entries, BackendName, LevelName;
  }

  /** The key of the very next entry is found in the value above it, and still both fields are read back. */
  lemma NextKeyIsHarmless(c: AIConfig)
    requires c.ollama.endpoint == "ollama_model" && QuoteFree(Entries(c))
    ensures Imitator(Entries(c), 3, 0).Some? && Parse(Serialize(c)).ollama == c.ollama
  {
    hide *;
    ParsedOllama(c);
    EntriesFirst(c);
    NextKeySources(Entries(c));
    HarmlessIs(c);
  }

  lemma NotAKey(b: BackendType)
    ensures BackendName(b) != "ollama_model" && BackendName(b) != "ollama_endpoint"
  {
    assert |"ollama_model"| == 12 && |"ollama_endpoint"| == 15;
  }

  lemma HarmlessIs(c: AIConfig)
    requires |Entries(c)| == 22 && Source(Entries(c), 2) == 2 && Source(Entries(c), 3) == 3
    ensures KeptField(c, 2) && KeptField(c, 3)
  {
    hide Entries, Source;
  }
}
