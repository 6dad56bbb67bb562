/** Configuration files that do not hold every key, as one writes them by hand. */
module ConfigAbsent {
  import opened Text
  import opened Find
  import opened Config
  import opened ConfigText
  import opened ConfigRoundTrip

  /** The quoted key does not occur. */
  ghost predicate Absent(json: string, key: string) { forall p: nat :: !OccursAt(json, Needle(key), p) }

  /** Whatever reader looks for it finds the default. */
  ghost predicate ReadsDefault(json: string, key: string) {
    && (forall d :: ReadString(json, key, d) == d)
    && (forall d :: ReadInt(json, key, d) == d)
    && (forall d :: ReadBool(json, key, d) == d)
  }

  lemma AbsentReadsDefault(json: string, key: string)
    requires Absent(json, key)
    ensures ReadsDefault(json, key)
  {
    assert IndexFrom(json, Needle(key), 0) == None;
    hide IndexFrom, Needle, OccursAt;
  }

  lemma NamesOfDefaults()
    ensures BackendOf(BackendName(DEFAULTS.backend)) == DEFAULTS.backend
    ensures LevelOf(LevelName(DEFAULTS.log.level)) == DEFAULTS.log.level
  {
  }

  ghost predicate AllDefault(json: string) { forall k :: 0 <= k < |KEYS| ==> ReadsDefault(json, KEYS[k]) }

  lemma ParsedDefaults(json: string)
    requires AllDefault(json)
    ensures Parse(json) == DEFAULTS
  {
    NamesOfDefaults();
    assert ReadsDefault(json, KEYS[0]) && ReadsDefault(json, KEYS[1]) && ReadsDefault(json, KEYS[2]);
    assert ReadsDefault(json, KEYS[3]) && ReadsDefault(json, KEYS[4]) && ReadsDefault(json, KEYS[5]);
    assert ReadsDefault(json, KEYS[6]) && ReadsDefault(json, KEYS[7]) && ReadsDefault(json, KEYS[8]);
    assert ReadsDefault(json, KEYS[9]) && ReadsDefault(json, KEYS[10]) && ReadsDefault(json, KEYS[11]);
    assert ReadsDefault(json, KEYS[12]) && ReadsDefault(json, KEYS[13]) && ReadsDefault(json, KEYS[14]);
    assert ReadsDefault(json, KEYS[15]) && ReadsDefault(json, KEYS[16]) && ReadsDefault(json, KEYS[17]);
    assert ReadsDefault(json, KEYS[18]) && ReadsDefault(json, KEYS[19]) && ReadsDefault(json, KEYS[20]);
    assert ReadsDefault(json, KEYS[21]);
    hide ReadString, ReadInt, ReadBool, BackendOf, BackendName, LevelOf, LevelName, DEFAULTS, AllDefault;
  }

  /** A text that names no key, such as an empty one, is the default configuration. */
  lemma NoKeyIsDefaults(json: string)
    requires forall k :: 0 <= k < |KEYS| ==> Absent(json, KEYS[k])
    ensures Parse(json) == DEFAULTS
  {
    hide *;
    forall k | 0 <= k < |KEYS|
      ensures ReadsDefault(json, KEYS[k])
    {
      AbsentReadsDefault(json, KEYS[k]);
    }
    AllDefaultIs(json);
    ParsedDefaults(json);
  }

  lemma AllDefaultIs(json: string)
    requires forall k :: 0 <= k < |KEYS| ==> ReadsDefault(json, KEYS[k])
    ensures AllDefault(json)
  {
    hide ReadsDefault, KEYS;
  }

  // ----- a key that no entry has -----

  /** An occurrence ends in a quotation mark, so it lies before a tail that has none. */
  lemma BeforeTail(x: string, tail: string, more: string, key: string, p: nat)
    requires NoQuote(tail) && OccursAt(x + tail, Needle(key), p)
    ensures p + |Needle(key)| <= |x| && OccursAt(x + more, Needle(key), p)
  {
    var n := Needle(key);
    var s := x + tail;
    assert s[p..p + |n|][|n| - 1] == '"' && s[p..p + |n|][|n| - 1] == s[p + |n| - 1];
    assert forall k :: |x| <= k < |s| ==> s[k] == tail[k - |x|];
    assert (x + more)[p..p + |n|] == s[p..p + |n|];
  }

  lemma TailText(a: string, b: string)
    ensures a + (b + ",\n  ") + "\"" == a + b + (",\n  " + "\"") && a + (b + "\n}\n") == a + b + "\n}\n"
    ensures NoQuote("\n}\n")
  {
  }

  lemma MoreEntries(es: seq<Entry>, e: Entry, j: nat)
    requires j < |es|
    ensures UpTo(es + [e], j) == UpTo(es, j)
    decreases j
  {
    hide Chunk;
    if j > 0 {
      MoreEntries(es, e, j - 1);
      assert (es + [e])[j - 1] == es[j - 1];
    }
  }

  /** In a file without the key, whose strings are not the key either, it does not occur. */
  lemma KeyNotInFile(es: seq<Entry>, key: string)
    requires KeyLike(key) && es != [] && forall i :: 0 <= i < |es| ==> Foreign(es[i], key)
    ensures Absent(File(es), key)
  {
    var n := |es|;
    var e := Entry(key, Flag(true));
    var more := es + [e];
    assert forall i :: 0 <= i < n ==> more[i] == es[i];
    hide *;
    ClearUpTo(more, n, key, "\"");
    UpToIs(more, n);
    MoreEntries(es, e, n - 1);
    FileAt(es, n - 1);
    FromIs(es, n - 1);
    var a, b := UpTo(es, n - 1), Chunk(es[n - 1]);
    TailText(a, b);
    NoneInClear(a, b, key);
    AbsentIs(File(es), key);
  }

  lemma NoneInClear(a: string, b: string, key: string)
    requires Clear(a + (b + ",\n  "), Needle(key), "\"")
    ensures forall p: nat :: !OccursAt(a + (b + "\n}\n"), Needle(key), p)
  {
    TailText(a, b);
    NeedleLength(key);
    hide OccursAt, Needle;
    assert |a + (b + ",\n  ")| > |a + b|;
    forall p: nat
      ensures !OccursAt(a + (b + "\n}\n"), Needle(key), p)
    {
      if OccursAt(a + (b + "\n}\n"), Needle(key), p) {
        BeforeTail(a + b, "\n}\n", ",\n  " + "\"", key, p);
      }
    }
  }

  lemma NeedleLength(key: string)
    ensures |Needle(key)| >= 2
  {
  }

  lemma AbsentIs(json: string, key: string)
    requires forall p: nat :: !OccursAt(json, Needle(key), p)
    ensures Absent(json, key)
  {
    hide OccursAt, Needle;
  }

  /** Of a file that holds only some keys: those are read as their lines say, and the others have their defaults. */
  lemma PartialFile(es: seq<Entry>, key: string)
    requires es != [] && QuoteFree(es) && DistinctKeys(es) && KeyLike(key)
    requires forall i :: 0 <= i < |es| ==> es[i].value != Str(key)
    ensures if exists j :: 0 <= j < |es| && es[j].key == key
      then exists j :: 0 <= j < |es| && es[j].key == key && ReadsLine(File(es), key, es, j)
      else ReadsDefault(File(es), key)
  {
    if j :| 0 <= j < |es| && es[j].key == key {
      EntryReads(es, j);
      OwnSource(es, j);
    } else {
      AllForeignTo(es, key);
      hide File, KeyLike, QuoteFree, DistinctKeys, Foreign;
      KeyNotInFile(es, key);
      AbsentReadsDefault(File(es), key);
    }
  }

  lemma OwnSource(es: seq<Entry>, j: nat)
    requires j < |es| && forall i :: 0 <= i < |es| ==> es[i].value != Str(es[j].key)
    ensures Source(es, j) == j
  {
  }

  lemma AllForeignTo(es: seq<Entry>, key: string)
    requires QuoteFree(es) && DistinctKeys(es)
    requires forall i :: 0 <= i < |es| ==> es[i].value != Str(key) && es[i].key != key
    ensures forall i :: 0 <= i < |es| ==> Foreign(es[i], key)
  {
  }

  // ----- names that Serialize does not print -----

  /** Any other name selects the compatible backend, and the information level. */
  lemma UnknownNames(name: string)
    ensures BackendOf(name) == OpenAiCompatible <==> name !in {"disabled", "groq", "ollama"}
    ensures LevelOf(name) == Info <==> name !in {"trace", "debug", "warn", "error"}
    ensures BackendOf("disabled") == Disabled && BackendOf("groq") == Groq && BackendOf("ollama") == Ollama
  {
  }
}
