/** The configuration file between its quotation marks, and where a key is found in it. */
module ConfigText {
  import opened Text
  import opened Find
  import opened Config

  // ----- the file from one quotation mark to the next -----

  ghost predicate NoQuote(s: string) { forall k :: 0 <= k < |s| ==> s[k] != '"' }

  /** A key is made of small letters and underscores. */
  ghost predicate KeyLike(s: string) {
    s != "" && 'a' <= s[0] <= 'z' && forall k :: 0 <= k < |s| ==> s[k] == '_' || 'a' <= s[k] <= 'z'
  }

  function Chunk(e: Entry): string { "\"" + e.key + "\": " + ValueText(e.value) }

  /** What follows the value of entry j. */
  function Rest(es: seq<Entry>, j: nat): string
    requires j < |es|
    decreases |es| - j, 0
  {
    if j == |es| - 1 then "\n}\n" else ",\n  " + From(es, j + 1)
  }

  /** The file from the key of entry j on. */
  function From(es: seq<Entry>, j: nat): string
    requires j < |es|
    decreases |es| - j, 1
  {
    Chunk(es[j]) + Rest(es, j)
  }

  /** The file up to the key of entry j. */
  function UpTo(es: seq<Entry>, j: nat): string
    requires j < |es|
  {
    if j == 0 then "{\n  " else UpTo(es, j - 1) + (Chunk(es[j - 1]) + ",\n  ")
  }

  lemma {:induction false} LinesFrom(es: seq<Entry>, j: nat)
    requires j < |es|
    ensures Lines(es[j..]) + "}\n" == "  " + From(es, j)
    decreases |es| - j
  {
    hide *;
    FromIs(es, j);
    if j == |es| - 1 {
      LinesLast(es[j..]);
      assert es[j..][0] == es[j];
      LastLine(Chunk(es[j]));
    } else {
      LinesFrom(es, j + 1);
      LinesMore(es[j..]);
      assert es[j..][0] == es[j] && es[j..][1..] == es[j + 1..];
      MoreLines(Chunk(es[j]), Lines(es[j + 1..]), From(es, j + 1));
    }
  }

  lemma FromIs(es: seq<Entry>, j: nat)
    requires j < |es|
    ensures From(es, j) == Chunk(es[j]) + Rest(es, j)
    ensures j == |es| - 1 ==> Rest(es, j) == "\n}\n"
    ensures j < |es| - 1 ==> Rest(es, j) == ",\n  " + From(es, j + 1)
  {
    hide Chunk;
  }

  lemma LinesLast(es: seq<Entry>)
    requires |es| == 1
    ensures Lines(es) == "  " + Chunk(es[0]) + "\n"
  {
    assert Lines(es[1..]) == "";
    Indent(es[0]);
    hide ValueText, Chunk;
  }

  lemma LinesMore(es: seq<Entry>)
    requires |es| > 1
    ensures Lines(es) == "  " + Chunk(es[0]) + ",\n" + Lines(es[1..])
  {
    Indent(es[0]);
    hide ValueText, Chunk;
  }

  lemma Indent(e: Entry)
    ensures "  \"" + e.key + "\": " + ValueText(e.value) == "  " + Chunk(e)
  {
    hide ValueText;
  }

  lemma LastLine(c: string)
    ensures "  " + c + "\n" + "}\n" == "  " + (c + "\n}\n")
  {
  }

  lemma MoreLines(c: string, lines: string, from: string)
    requires lines + "}\n" == "  " + from
    ensures "  " + c + ",\n" + lines + "}\n" == "  " + (c + (",\n  " + from))
  {
    assert "  " + c + ",\n" + lines + "}\n" == "  " + c + ",\n" + (lines + "}\n");
  }

  lemma FileFromStart(es: seq<Entry>)
    requires es != []
    ensures File(es) == "{\n  " + From(es, 0)
  {
    hide Lines, From;
    LinesFrom(es, 0);
    assert es[0..] == es;
    Opening(Lines(es), From(es, 0));
  }

  lemma {:induction false} FileAt(es: seq<Entry>, j: nat)
    requires j < |es|
    ensures File(es) == UpTo(es, j) + From(es, j)
  {
    hide *;
    UpToIs(es, j);
    if j == 0 {
      FileFromStart(es);
    } else {
      FileAt(es, j - 1);
      FromIs(es, j - 1);
      Shift(UpTo(es, j - 1), Chunk(es[j - 1]), From(es, j));
    }
  }

  lemma UpToIs(es: seq<Entry>, j: nat)
    requires j < |es|
    ensures j == 0 ==> UpTo(es, j) == "{\n  "
    ensures j > 0 ==> UpTo(es, j) == UpTo(es, j - 1) + (Chunk(es[j - 1]) + ",\n  ")
  {
    hide Chunk;
  }

  lemma Opening(lines: string, from: string)
    requires lines + "}\n" == "  " + from
    ensures "{\n" + lines + "}\n" == "{\n  " + from
  {
    assert "{\n" + lines + "}\n" == "{\n" + (lines + "}\n");
  }

  lemma Shift(a: string, c: string, b: string)
    ensures a + (c + (",\n  " + b)) == a + (c + ",\n  ") + b
  {
  }

  // ----- where a key can be found -----

  /** What stands between two quotation marks shows the quoted key only if it is the key. */
  lemma ClearUnit(x: string, key: string, rest: string)
    requires NoQuote(x) && NoQuote(key) && x != key && (rest != "" ==> rest[0] == '"')
    ensures Clear("\"" + x, Needle(key), rest)
  {
    var s, n := "\"" + x + rest, Needle(key);
    forall p | 0 <= p < |x| + 1
      ensures !OccursAt(s, n, p)
    {
      if OccursAt(s, n, p) {
        assert s[p..p + |n|][0] == '"' == s[p];
        assert p == 0;
        UnitIsKey(x, key, rest);
      }
    }
  }

  lemma UnitIsKey(x: string, key: string, rest: string)
    requires NoQuote(x) && NoQuote(key) && (rest != "" ==> rest[0] == '"') && OccursAt("\"" + x + rest, Needle(key), 0)
    ensures x == key
  {
    var s, n := "\"" + x + rest, Needle(key);
    UnitChars(x, key, rest);
    assert s[..|n|] == n;
    assert s[|key| + 1] == n[|key| + 1];
    assert |x| == |key|;
    assert s[1..|x| + 1] == n[1..|key| + 1];
  }

  lemma UnitChars(x: string, key: string, rest: string)
    ensures var s, n := "\"" + x + rest, Needle(key);
      && n[|key| + 1] == '"' && n[1..|key| + 1] == key && s[1..|x| + 1] == x
      && (|key| < |x| ==> s[|key| + 1] == x[|key|])
      && (|x| < |key| ==> n[|x| + 1] == key[|x|])
      && (rest != "" ==> s[|x| + 1] == rest[0])
  {
  }

  /** An entry whose key and whose string, if it has one, are other than the key. */
  ghost predicate Foreign(e: Entry, key: string) {
    NoQuote(e.key) && e.key != key && (e.value.Str? ==> NoQuote(e.value.s) && e.value.s != key)
  }

  lemma ClearChunk(e: Entry, key: string, rest: string)
    requires KeyLike(key) && Foreign(e, key) && rest != "" && rest[0] == '"'
    ensures Clear(Chunk(e) + ",\n  ", Needle(key), rest)
  {
    var needle := Needle(key);
    KeyHolds(key);
    var close := "\"" + ",\n  ";
    Punctuation(key);
    if e.value.Str? {
      ClearUnit(",\n  ", key, rest);
      ClearUnit(e.value.s, key, close + rest);
      ClearUnit(": ", key, "\"" + e.value.s + (close + rest));
      ClearUnit(e.key, key, "\"" + ": " + ("\"" + e.value.s + (close + rest)));
      StringChunk(e);
      hide *;
      ClearAppend("\"" + e.value.s, close, needle, rest);
      Reassociate("\"" + e.value.s, close, rest);
      ClearAppend("\"" + ": ", "\"" + e.value.s + close, needle, rest);
      Reassociate("\"" + ": ", "\"" + e.value.s + close, rest);
      ClearAppend("\"" + e.key, "\"" + ": " + ("\"" + e.value.s + close), needle, rest);
    } else {
      var x := ": " + ValueText(e.value) + ",\n  ";
      PlainValue(e.value);
      assert x[0] == ':';
      ClearUnit(x, key, rest);
      ClearUnit(e.key, key, "\"" + x + rest);
      PlainChunk(e);
      hide *;
      ClearAppend("\"" + e.key, "\"" + x, needle, rest);
    }
  }

  lemma KeyHolds(key: string)
    requires KeyLike(key)
    ensures NoQuote(key) && forall k :: 0 <= k < |key| ==> key[k] != ':'
  {
  }

  lemma Punctuation(key: string)
    requires KeyLike(key)
    ensures key != ": " && key != ",\n  " && NoQuote(": ") && NoQuote(",\n  ")
  {
    assert ": "[0] == ':' && ",\n  "[0] == ',';
  }

  lemma StringChunk(e: Entry)
    requires e.value.Str?
    ensures Chunk(e) + ",\n  " == "\"" + e.key + ("\"" + ": " + ("\"" + e.value.s + ("\"" + ",\n  ")))
  {
  }

  lemma PlainChunk(e: Entry)
    ensures Chunk(e) + ",\n  " == "\"" + e.key + ("\"" + (": " + ValueText(e.value) + ",\n  "))
  {
    hide ValueText;
  }

  lemma PlainValue(v: Value)
    requires !v.Str?
    ensures NoQuote(ValueText(v))
  {
  }

  /** Before entry j the key does not occur. */
  lemma {:induction false} ClearUpTo(es: seq<Entry>, j: nat, key: string, rest: string)
    requires j < |es| && KeyLike(key) && (forall i :: 0 <= i < j ==> Foreign(es[i], key)) && rest != ""
      && rest[0] == '"'
    ensures Clear(UpTo(es, j), Needle(key), rest)
  {
    hide *;
    UpToIs(es, j);
    if j == 0 {
      ClearOpening(key, rest);
    } else {
      var c := Chunk(es[j - 1]) + ",\n  ";
      ClearChunk(es[j - 1], key, rest);
      ChunkBegins(es[j - 1], rest);
      ClearUpTo(es, j - 1, key, c + rest);
      ClearAppend(UpTo(es, j - 1), c, Needle(key), rest);
    }
  }

  lemma ClearOpening(key: string, rest: string)
    ensures Clear("{\n  ", Needle(key), rest)
  {
    assert Needle(key)[0] == '"';
    ClearWithout("{\n  ", Needle(key), rest);
  }

  lemma ChunkBegins(e: Entry, rest: string)
    ensures var s := Chunk(e) + ",\n  " + rest; s != "" && s[0] == '"'
    ensures var s := Chunk(e) + rest; s != "" && s[0] == '"'
  {
    hide ValueText;
  }

  /** The first occurrence of the key, and the colon behind it. */
  lemma KeyAndColon(json: string, pre: string, key: string, rest: string)
    requires KeyLike(key) && json == pre + Needle(key) + (":" + rest)
      && Clear(pre, Needle(key), Needle(key) + (":" + rest))
    ensures IndexFrom(json, Needle(key), 0) == Some(|pre|)
    ensures IndexFrom(json, ":", |pre|) == Some(|pre + Needle(key)|)
    ensures json[|pre + Needle(key)|..] == ":" + rest
  {
    NoColon(key);
    hide *;
    FirstOccurrence(pre, Needle(key), ":" + rest);
    MarkAt(pre, Needle(key), ":", rest);
    Reassociate(pre, Needle(key), ":" + rest);
    Reassociate(Needle(key), ":", rest);
  }

  lemma NoColon(key: string)
    requires KeyLike(key)
    ensures forall k :: 0 <= k < |Needle(key)| ==> Needle(key)[k] != ":"[0]
  {
  }

  // ----- which line a key leads to -----

  ghost predicate QuoteFree(es: seq<Entry>) { forall i :: 0 <= i < |es| && es[i].value.Str? ==> NoQuote(es[i].value.s) }

  ghost predicate DistinctKeys(es: seq<Entry>) {
    && (forall i :: 0 <= i < |es| ==> KeyLike(es[i].key))
    && forall i, j :: 0 <= i < j < |es| ==> es[i].key != es[j].key
  }

  /** The first entry before j, from i on, whose value is the key of j. */
  function Imitator(es: seq<Entry>, j: nat, i: nat): (r: Option<nat>)
    requires i <= j < |es|
    ensures r.Some? ==> i <= r.value < j && es[r.value].value == Str(es[j].key)
    ensures r.Some? ==> forall k :: i <= k < r.value ==> es[k].value != Str(es[j].key)
    ensures r.None? ==> forall k :: i <= k < j ==> es[k].value != Str(es[j].key)
    decreases j - i
  {
    if i == j then None
    else if es[i].value == Str(es[j].key) then Some(i)
    else Imitator(es, j, i + 1)
  }

  /** The line whose value is read for key j: its own, or the one below the first value that imitates the key. */
  function Source(es: seq<Entry>, j: nat): (r: nat)
    requires j < |es|
    ensures r <= j
  {
    match Imitator(es, j, 0)
    case None => j
    case Some(i) => i + 1
  }

  lemma AllForeign(es: seq<Entry>, j: nat, n: nat)
    requires n <= j < |es| && QuoteFree(es) && DistinctKeys(es)
    requires forall k :: 0 <= k < n ==> es[k].value != Str(es[j].key)
    ensures KeyLike(es[j].key) && forall i :: 0 <= i < n ==> Foreign(es[i], es[j].key)
    ensures n < j ==> NoQuote(es[n].key) && es[n].key != es[j].key
  {
    hide NoQuote, KeyLike;
    forall i | 0 <= i < |es|
      ensures NoQuote(es[i].key)
    {
      KeyHolds(es[i].key);
    }
  }

  /** The first occurrence of a key, the colon that is found behind it, and the value that stands there. */
  lemma KeyLeadsTo(es: seq<Entry>, j: nat) returns (p: nat, head: string)
    requires j < |es| && QuoteFree(es) && DistinctKeys(es)
    ensures IndexFrom(File(es), Needle(es[j].key), 0) == Some(p)
    ensures IndexFrom(File(es), ":", p) == Some(|head|)
    ensures var r := Source(es, j); File(es) == head + (":" + (" " + (ValueText(es[r].value) + Rest(es, r))))
  {
    var i := Imitator(es, j, 0);
    if i.None? {
      p, head := OwnLine(es, j);
    } else {
      p, head := NextLine(es, j, i.value);
    }
  }

  lemma OwnLine(es: seq<Entry>, j: nat) returns (p: nat, head: string)
    requires j < |es| && QuoteFree(es) && DistinctKeys(es) && forall k :: 0 <= k < j ==> es[k].value != Str(es[j].key)
    ensures IndexFrom(File(es), Needle(es[j].key), 0) == Some(p)
    ensures IndexFrom(File(es), ":", p) == Some(|head|)
    ensures File(es) == head + (":" + (" " + (ValueText(es[j].value) + Rest(es, j))))
  {
    hide *;
    var pre, key, behind := UpTo(es, j), es[j].key, " " + (ValueText(es[j].value) + Rest(es, j));
    AllForeign(es, j, j);
    FileAt(es, j);
    FromIs(es, j);
    ChunkParts(es[j], Rest(es, j));
    ClearUpTo(es, j, key, Chunk(es[j]) + Rest(es, j));
    Reassociate(pre, Needle(key), ":" + behind);
    KeyAndColon(File(es), pre, key, behind);
    p, head := |pre|, pre + Needle(key);
  }

  lemma ChunkParts(e: Entry, rest: string)
    ensures var s := Chunk(e) + rest;
      s == Needle(e.key) + (":" + (" " + (ValueText(e.value) + rest))) && s != "" && s[0] == '"'
  {
    hide ValueText;
  }

  lemma NextLine(es: seq<Entry>, j: nat, i: nat) returns (p: nat, head: string)
    requires i < j < |es| && QuoteFree(es) && DistinctKeys(es)
    requires es[i].value == Str(es[j].key) && forall k :: 0 <= k < i ==> es[k].value != Str(es[j].key)
    ensures IndexFrom(File(es), Needle(es[j].key), 0) == Some(p)
    ensures IndexFrom(File(es), ":", p) == Some(|head|)
    ensures File(es) == head + (":" + (" " + (ValueText(es[i + 1].value) + Rest(es, i + 1))))
  {
    var key, line := es[j].key, ",\n  " + ("\"" + es[i + 1].key + "\"");
    var behind := " " + (ValueText(es[i + 1].value) + Rest(es, i + 1));
    var pre := UpTo(es, i) + ("\"" + es[i].key) + ("\"" + ": ");
    assert KeyLike(es[i + 1].key);
    hide *;
    AllForeign(es, j, i);
    FileAt(es, i);
    FromIs(es, i);
    FromIs(es, i + 1);
    ImitationText(es[i], es[i + 1], UpTo(es, i), Rest(es, i + 1));
    ClearImitation(es, i, es[i].key, key, line + (":" + behind));
    LineHasNoColon(key, es[i + 1].key);
    p, head := ImitationFound(File(es), pre, key, line, behind);
  }

  lemma ImitationText(e: Entry, f: Entry, upTo: string, rest: string)
    requires e.value.Str?
    ensures upTo + (Chunk(e) + (",\n  " + (Chunk(f) + rest))) ==
      upTo + ("\"" + e.key) + ("\"" + ": ") + Needle(e.value.s)
      + (",\n  " + ("\"" + f.key + "\"") + (":" + (" " + (ValueText(f.value) + rest))))
  {
    hide ValueText;
    assert ValueText(e.value) == "\"" + e.value.s + "\"" by { StringText(e.value.s); }
  }

  lemma StringText(s: string)
    ensures ValueText(Str(s)) == "\"" + s + "\""
  {
  }

  lemma ClearImitation(es: seq<Entry>, i: nat, x: string, key: string, post: string)
    requires i < |es| && (forall k :: 0 <= k < i ==> Foreign(es[k], key)) && KeyLike(key) && NoQuote(x) && x != key
    ensures Clear(UpTo(es, i) + ("\"" + x) + ("\"" + ": "), Needle(key), Needle(key) + post)
  {
    var tail := Needle(key) + post;
    var more := "\"" + x + ("\"" + ": " + tail);
    assert tail[0] == '"' && more[0] == '"';
    hide *;
    KeyHolds(key);
    Punctuation(key);
    ClearUpTo(es, i, key, more);
    ClearPair(UpTo(es, i), x, ": ", key, tail);
  }

  lemma ClearPair(a: string, x: string, y: string, key: string, tail: string)
    requires NoQuote(key) && NoQuote(x) && NoQuote(y) && x != key && y != key && tail != "" && tail[0] == '"'
    requires Clear(a, Needle(key), "\"" + x + ("\"" + y + tail))
    ensures Clear(a + ("\"" + x) + ("\"" + y), Needle(key), tail)
  {
    var u, v := "\"" + x, "\"" + y;
    assert (v + tail)[0] == '"';
    ClearUnit(y, key, tail);
    ClearUnit(x, key, v + tail);
    hide *;
    ClearAppend(u, v, Needle(key), tail);
    Reassociate(u, v, tail);
    ClearAppend(a, u + v, Needle(key), tail);
    Reassociate(a, u, v);
  }

  lemma LineHasNoColon(key: string, next: string)
    requires KeyLike(key) && KeyLike(next)
    ensures var gap := Needle(key) + (",\n  " + ("\"" + next + "\"")); forall k :: 0 <= k < |gap| ==> gap[k] != ":"[0]
  {
    KeyHolds(key);
    KeyHolds(next);
    hide KeyLike;
  }

  lemma ImitationFound(json: string, pre: string, key: string, line: string, behind: string)
    returns (p: nat, head: string)
    requires json == pre + Needle(key) + (line + (":" + behind))
    requires Clear(pre, Needle(key), Needle(key) + (line + (":" + behind)))
    requires forall k :: 0 <= k < |Needle(key) + line| ==> (Needle(key) + line)[k] != ":"[0]
    ensures IndexFrom(json, Needle(key), 0) == Some(p)
    ensures IndexFrom(json, ":", p) == Some(|head|)
    ensures json == head + (":" + behind)
  {
    hide *;
    FirstOccurrence(pre, Needle(key), line + (":" + behind));
    RegroupGap(pre, Needle(key), line, behind);
    MarkAt(pre, Needle(key) + line, ":", behind);
    p, head := |pre|, pre + (Needle(key) + line);
  }

  lemma RegroupGap(pre: string, n: string, line: string, body: string)
    ensures pre + n + (line + (":" + body)) == pre + (n + line + ":" + body)
    ensures pre + n + (line + (":" + body)) == pre + (n + line) + (":" + body)
    ensures |pre + (n + line)| == |pre| + |n + line|
  {
  }
}
