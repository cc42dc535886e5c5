/** `update_stats` (DungeonMasterGPT.py): the argument is split on
    whitespace into name/value words, a Python dict comprehension builds
    `{name: int(value)}` in one go, and then every dict entry is written to
    the character's stats under the lower-cased name. Because the dict is
    complete before the first write, malformed input (an odd number of
    words, a value that is not an integer) changes nothing.

    A dict keeps its keys in first-insertion order and a repeated key only
    replaces the value. When two names differ only in letter case ("STR" and
    "str") they are different dict keys that land on the same stat, and the
    one inserted later into the dict wins. The model keeps that order. */
module Stats {
  import opened Wrappers
  import opened Text
  import opened Characters

  /** Name of the `i`-th pair: `stats_list[2 * i]`. */
  function NameAt(words: seq<string>, i: int): string
    requires 0 <= i < |words| / 2
  {
    words[2 * i]
  }

  /** Value word of the `i`-th pair: `stats_list[2 * i + 1]`. */
  function ValueWordAt(words: seq<string>, i: int): string
    requires 0 <= i < |words| / 2
  {
    words[2 * i + 1]
  }

  /** The dict comprehension succeeds exactly when the words pair up and
      every value word is an integer. */
  predicate WellFormedStats(words: seq<string>)
  {
    && |words| % 2 == 0
    && forall i :: 0 <= i < |words| / 2 ==> ParseInt(ValueWordAt(words, i)).Some?
  }

  /** The pairs the comprehension reads, values parsed; `None` is the
      IndexError of a missing last value or the ValueError of `int()`. */
  function ParsePairs(words: seq<string>): (r: Option<seq<(string, int)>>)
    decreases |words|
  {
    if |words| == 0 then Some([])
    else if |words| == 1 then None
    else
      match ParseInt(words[1])
      case None => None
      case Some(v) =>
        match ParsePairs(words[2..])
        case None => None
        case Some(rest) => Some([(words[0], v)] + rest)
  }

  lemma ShiftPairs(words: seq<string>)
    requires |words| >= 2
    ensures forall j :: 0 <= j < |words[2..]| / 2 ==>
      NameAt(words[2..], j) == NameAt(words, j + 1) && ValueWordAt(words[2..], j) == ValueWordAt(words, j + 1)
  {
  }

  /** Well-formedness of `name value` words, one pair at a time. */
  lemma WellFormedStatsCons(words: seq<string>)
    requires |words| >= 2
    ensures WellFormedStats(words) <==> ParseInt(words[1]).Some? && WellFormedStats(words[2..])
  {
    var tail := words[2..];
    ShiftPairs(words);
    assert ValueWordAt(words, 0) == words[1];
    if ParseInt(words[1]).Some? && WellFormedStats(tail) {
      forall i | 0 < i < |words| / 2
        ensures ParseInt(ValueWordAt(words, i)).Some?
      {
        assert ValueWordAt(words, i) == ValueWordAt(tail, i - 1);
      }
    }
    if WellFormedStats(words) {
      forall j | 0 <= j < |tail| / 2
        ensures ParseInt(ValueWordAt(tail, j)).Some?
      {
        assert ValueWordAt(tail, j) == ValueWordAt(words, j + 1);
      }
    }
  }

  /** The comprehension fails exactly on malformed words. */
  lemma {:induction false} ParsePairsFails(words: seq<string>)
    decreases |words|
    ensures ParsePairs(words).Some? <==> WellFormedStats(words)
  {
    if |words| >= 2 {
      ParsePairsFails(words[2..]);
      WellFormedStatsCons(words);
    }
  }

  /** Otherwise pair `i` is name word `2i` with the integer value of word
      `2i + 1`. */
  lemma {:induction false} ParsePairsContents(words: seq<string>)
    requires ParsePairs(words).Some?
    decreases |words|
    ensures WellFormedStats(words)
    ensures |ParsePairs(words).value| == |words| / 2
    ensures forall i :: 0 <= i < |words| / 2 ==>
      ParsePairs(words).value[i] == (NameAt(words, i), ParseInt(ValueWordAt(words, i)).value)
  {
    ParsePairsFails(words);
    if |words| >= 2 {
      var tail := words[2..];
      ParsePairsContents(tail);
      ShiftPairs(words);
      var pairs := ParsePairs(words).value;
      var rest := ParsePairs(tail).value;
      assert pairs == [(words[0], ParseInt(words[1]).value)] + rest;
      PairsShift(words, pairs, rest);
    }
  }

  /** Pair `i` of the words after the first pair is pair `i + 1` of all of
      them. */
  lemma PairsShift(words: seq<string>, pairs: seq<(string, int)>, rest: seq<(string, int)>)
    requires |words| >= 2 && WellFormedStats(words) && WellFormedStats(words[2..])
    requires ParseInt(words[1]).Some?
    requires pairs == [(words[0], ParseInt(words[1]).value)] + rest
    requires |rest| == |words[2..]| / 2
    requires forall i :: 0 <= i < |words[2..]| / 2 ==>
      rest[i] == (NameAt(words[2..], i), ParseInt(ValueWordAt(words[2..], i)).value)
    ensures forall i :: 0 <= i < |words| / 2 ==>
      pairs[i] == (NameAt(words, i), ParseInt(ValueWordAt(words, i)).value)
  {
    ShiftPairs(words);
    forall i | 0 < i < |words| / 2
      ensures pairs[i] == (NameAt(words, i), ParseInt(ValueWordAt(words, i)).value)
    {
      assert pairs[i] == rest[i - 1];
    }
  }

  /** A Python dict from stat name to value: keys in first-insertion order,
      and the value of each key. */
  datatype StatsDict = StatsDict(order: seq<string>, values: map<string, int>)

  predicate ValidDict(d: StatsDict)
  {
    && (forall i, j :: 0 <= i < j < |d.order| ==> d.order[i] != d.order[j])
    && (forall k :: k in d.values ==> k in d.order)
    && (forall i :: 0 <= i < |d.order| ==> d.order[i] in d.values)
  }

  /** `d[k] = v`: a new key goes to the end, an existing key keeps its
      place and only its value changes. */
  function DictInsert(d: StatsDict, k: string, v: int): (r: StatsDict)
    requires ValidDict(d)
    ensures ValidDict(r)
    ensures r.values == d.values[k := v]
    ensures k in d.values ==> r.order == d.order
    ensures k !in d.values ==> r.order == d.order + [k]
  {
    if k in d.values then d.(values := d.values[k := v])
    else StatsDict(d.order + [k], d.values[k := v])
  }

  /** The names of a list of pairs. */
  function NamesOf(pairs: seq<(string, int)>): set<string>
  {
    set i | 0 <= i < |pairs| :: pairs[i].0
  }

  lemma NamesOfCons(pairs: seq<(string, int)>)
    requires |pairs| > 0
    ensures NamesOf(pairs) == {pairs[0].0} + NamesOf(pairs[1..])
  {
    forall k | k in NamesOf(pairs)
      ensures k in {pairs[0].0} + NamesOf(pairs[1..])
    {
      var i :| 0 <= i < |pairs| && pairs[i].0 == k;
      if i > 0 {
        assert pairs[1..][i - 1].0 == k;
      }
    }
    forall k | k in NamesOf(pairs[1..])
      ensures k in NamesOf(pairs)
    {
      var j :| 0 <= j < |pairs[1..]| && pairs[1..][j].0 == k;
      assert pairs[j + 1].0 == k;
    }
  }

  /** The names of `pairs` not in `seen`, each once, in the order of
      their first occurrence. */
  function NewKeys(seen: set<string>, pairs: seq<(string, int)>): seq<string>
    decreases |pairs|
  {
    if |pairs| == 0 then []
    else if pairs[0].0 in seen then NewKeys(seen, pairs[1..])
    else [pairs[0].0] + NewKeys(seen + {pairs[0].0}, pairs[1..])
  }

  lemma KeysOfUpdate(m: map<string, int>, k: string, v: int)
    ensures m[k := v].Keys == m.Keys + {k}
  {
  }

  /** Inserting the first pair and then the new names of the rest gives
      the new names of all pairs. `next` is the dict after the first
      insertion. */
  lemma NewKeysInsert(d: StatsDict, pairs: seq<(string, int)>, next: StatsDict)
    requires |pairs| > 0
    requires next.values == d.values[pairs[0].0 := pairs[0].1]
    requires pairs[0].0 in d.values ==> next.order == d.order
    requires pairs[0].0 !in d.values ==> next.order == d.order + [pairs[0].0]
    ensures next.order + NewKeys(next.values.Keys, pairs[1..]) == d.order + NewKeys(d.values.Keys, pairs)
  {
    var k := pairs[0].0;
    KeysOfUpdate(d.values, k, pairs[0].1);
    if k in d.values {
      assert next.values.Keys == d.values.Keys;
    } else {
      var rest := NewKeys(next.values.Keys, pairs[1..]);
      assert NewKeys(d.values.Keys, pairs) == [k] + rest;
      assert d.order + [k] + rest == d.order + ([k] + rest);
    }
  }

  /** The dict comprehension: insert the pairs in order into `d`. The keys
      are those of `d` followed by the new names in first-occurrence order,
      and keys not named keep their values. */
  function BuildDict(d: StatsDict, pairs: seq<(string, int)>): (r: StatsDict)
    requires ValidDict(d)
    decreases |pairs|
    ensures ValidDict(r)
    ensures r.order == d.order + NewKeys(d.values.Keys, pairs)
    ensures r.values.Keys == d.values.Keys + NamesOf(pairs)
    ensures forall k :: k in d.values && k !in NamesOf(pairs) ==> r.values[k] == d.values[k]
  {
    if |pairs| == 0 then d
    else
      var next := DictInsert(d, pairs[0].0, pairs[0].1);
      var r := BuildDict(next, pairs[1..]);
      NamesOfCons(pairs);
      NewKeysInsert(d, pairs, next);
      r
  }

  /** A key no pair names keeps its value. */
  lemma {:induction false} BuildDictKeeps(d: StatsDict, pairs: seq<(string, int)>, k: string)
    requires ValidDict(d) && k in d.values
    requires forall j :: 0 <= j < |pairs| ==> pairs[j].0 != k
    decreases |pairs|
    ensures k in BuildDict(d, pairs).values && BuildDict(d, pairs).values[k] == d.values[k]
  {
    if |pairs| > 0 {
      var next := DictInsert(d, pairs[0].0, pairs[0].1);
      var rest := pairs[1..];
      assert forall j :: 0 <= j < |rest| ==> rest[j] == pairs[j + 1];
      BuildDictKeeps(next, rest, k);
    }
  }

  /** A name's value is that of its last pair. */
  lemma {:induction false} BuildDictLastPair(d: StatsDict, pairs: seq<(string, int)>, i: int)
    requires ValidDict(d)
    requires 0 <= i < |pairs|
    requires forall j :: i < j < |pairs| ==> pairs[j].0 != pairs[i].0
    decreases |pairs|
    ensures pairs[i].0 in BuildDict(d, pairs).values
    ensures BuildDict(d, pairs).values[pairs[i].0] == pairs[i].1
  {
    var next := DictInsert(d, pairs[0].0, pairs[0].1);
    var rest := pairs[1..];
    assert forall j :: 0 <= j < |rest| ==> rest[j] == pairs[j + 1];
    if i == 0 {
      BuildDictKeeps(next, rest, pairs[0].0);
    } else {
      BuildDictLastPair(next, rest, i - 1);
    }
  }

  /** The stats names after lower-casing. */
  function LoweredNames(order: seq<string>): set<string>
  {
    set i | 0 <= i < |order| :: Lower(order[i])
  }

  lemma LoweredNamesCons(order: seq<string>)
    requires |order| > 0
    ensures LoweredNames(order) == {Lower(order[0])} + LoweredNames(order[1..])
  {
    forall k | k in LoweredNames(order)
      ensures k in {Lower(order[0])} + LoweredNames(order[1..])
    {
      var i :| 0 <= i < |order| && Lower(order[i]) == k;
      if i > 0 {
        assert order[1..][i - 1] == order[i];
      }
    }
    forall k | k in LoweredNames(order[1..])
      ensures k in LoweredNames(order)
    {
      var j :| 0 <= j < |order[1..]| && Lower(order[1..][j]) == k;
      assert order[j + 1] == order[1..][j];
    }
  }

  /** The writes `character.stats[stat.lower()] = value`, in dict order. A
      stat is overwritten by the last dict key that lower-cases to it. */
  function ApplyStats(stats: map<string, int>, order: seq<string>, values: map<string, int>): (r: map<string, int>)
    requires forall i :: 0 <= i < |order| ==> order[i] in values
    decreases |order|
    ensures r.Keys == stats.Keys + LoweredNames(order)
    ensures forall s :: s in stats && s !in LoweredNames(order) ==> r[s] == stats[s]
    ensures forall i :: 0 <= i < |order| && Lower(order[i]) !in LoweredNames(order[i + 1..]) ==>
      r[Lower(order[i])] == values[order[i]]
  {
    if |order| == 0 then stats
    else
      var rest := order[1..];
      var r := ApplyStats(stats[Lower(order[0]) := values[order[0]]], rest, values);
      LoweredNamesCons(order);
      assert forall i :: 1 <= i < |order| ==> order[i] == rest[i - 1] && order[i + 1..] == rest[i..];
      assert order[1..] == rest;
      r
  }

  /** The stat names an argument writes: every pair's name, lower-cased. */
  function StatNames(words: seq<string>): set<string>
  {
    set i | 0 <= i < |words| / 2 :: Lower(NameAt(words, i))
  }

  /** No later pair repeats the name of pair `i`. */
  predicate LastNameAt(words: seq<string>, i: int)
    requires 0 <= i < |words| / 2
  {
    forall j :: i < j < |words| / 2 ==> NameAt(words, j) != NameAt(words, i)
  }

  /** No name differs from the name of pair `i` only in letter case. */
  predicate NoCaseVariantOf(words: seq<string>, i: int)
    requires 0 <= i < |words| / 2
  {
    forall j :: 0 <= j < |words| / 2 && Lower(NameAt(words, j)) == Lower(NameAt(words, i)) ==>
      NameAt(words, j) == NameAt(words, i)
  }

  const EmptyDict := StatsDict([], map[])

  /** Built from nothing, the dict's keys are exactly the pairs' names. */
  lemma BuildDictKeysFromEmpty(pairs: seq<(string, int)>)
    ensures BuildDict(EmptyDict, pairs).values.Keys == NamesOf(pairs)
  {
    var keys := BuildDict(EmptyDict, pairs).values.Keys;
    assert EmptyDict.values.Keys == {};
    assert keys == {} + NamesOf(pairs);
  }

  /** The names of the parsed pairs are the name words. */
  lemma ParsedNames(words: seq<string>, pairs: seq<(string, int)>)
    requires ParsePairs(words) == Some(pairs)
    ensures |pairs| == |words| / 2
    ensures forall i :: 0 <= i < |pairs| ==> pairs[i].0 == NameAt(words, i)
  {
    ParsePairsContents(words);
  }

  /** The lower-cased names of the parsed pairs are the stat names. */
  lemma NamesOfParsed(words: seq<string>, pairs: seq<(string, int)>)
    requires |pairs| == |words| / 2
    requires forall i :: 0 <= i < |pairs| ==> pairs[i].0 == NameAt(words, i)
    ensures StatNames(words) == set k | k in NamesOf(pairs) :: Lower(k)
  {
    forall x | x in StatNames(words)
      ensures x in set k | k in NamesOf(pairs) :: Lower(k)
    {
      var i :| 0 <= i < |words| / 2 && Lower(NameAt(words, i)) == x;
      assert pairs[i].0 in NamesOf(pairs);
    }
    forall x | x in (set k | k in NamesOf(pairs) :: Lower(k))
      ensures x in StatNames(words)
    {
      var k :| k in NamesOf(pairs) && Lower(k) == x;
      var i :| 0 <= i < |pairs| && pairs[i].0 == k;
      assert Lower(NameAt(words, i)) == x;
    }
  }

  /** Lower-casing the dict's key order gives the lower-cased names. */
  lemma LoweredOrder(d: StatsDict, names: set<string>)
    requires ValidDict(d) && d.values.Keys == names
    ensures LoweredNames(d.order) == set k | k in names :: Lower(k)
  {
    forall x | x in LoweredNames(d.order)
      ensures x in set k | k in names :: Lower(k)
    {
      var i :| 0 <= i < |d.order| && Lower(d.order[i]) == x;
      assert d.order[i] in d.values;
    }
    forall x | x in (set k | k in names :: Lower(k))
      ensures x in LoweredNames(d.order)
    {
      var k :| k in names && Lower(k) == x;
      assert k in d.order;
      var i :| 0 <= i < |d.order| && d.order[i] == k;
    }
  }

  /** In a dict built from the pairs, the lower-cased form of a name with
      no case variant occurs nowhere after it. */
  lemma LoweredUniqueAfter(words: seq<string>, pairs: seq<(string, int)>, d: StatsDict, i: int, m: int)
    requires |pairs| == |words| / 2
    requires forall j :: 0 <= j < |pairs| ==> pairs[j].0 == NameAt(words, j)
    requires 0 <= i < |words| / 2 && NoCaseVariantOf(words, i)
    requires ValidDict(d) && d.values.Keys == NamesOf(pairs)
    requires 0 <= m < |d.order| && d.order[m] == NameAt(words, i)
    ensures Lower(d.order[m]) !in LoweredNames(d.order[m + 1..])
  {
    var name := d.order[m];
    var later := d.order[m + 1..];
    forall q | 0 <= q < |later|
      ensures Lower(later[q]) != Lower(name)
    {
      var other := d.order[m + 1 + q];
      assert later[q] == other;
      assert other != name;
      assert other in NamesOf(pairs);
      var j :| 0 <= j < |pairs| && pairs[j].0 == other;
      assert NameAt(words, j) != NameAt(words, i);
    }
  }

  /** For a name with no case variant, the last pair decides its stat. */
  lemma {:induction false} LastPairWins(words: seq<string>, pairs: seq<(string, int)>, i: int)
    requires |pairs| == |words| / 2
    requires forall j :: 0 <= j < |pairs| ==> pairs[j].0 == NameAt(words, j)
    requires 0 <= i < |words| / 2 && LastNameAt(words, i) && NoCaseVariantOf(words, i)
    ensures var d := BuildDict(EmptyDict, pairs);
            var name := NameAt(words, i);
            && name in d.values
            && d.values[name] == pairs[i].1
            && exists m :: 0 <= m < |d.order| && d.order[m] == name && Lower(name) !in LoweredNames(d.order[m + 1..])
  {
    var d := BuildDict(EmptyDict, pairs);
    var name := NameAt(words, i);
    forall j | i < j < |pairs|
      ensures pairs[j].0 != pairs[i].0
    {
      assert pairs[j].0 == NameAt(words, j);
    }
    BuildDictLastPair(EmptyDict, pairs, i);
    assert name in d.order;
    var m :| 0 <= m < |d.order| && d.order[m] == name;
    BuildDictKeysFromEmpty(pairs);
    LoweredUniqueAfter(words, pairs, d, i, m);
    assert pairs[i].0 == name;
    assert Lower(d.order[m]) !in LoweredNames(d.order[m + 1..]);
  }

  /** The stats after applying the words of an `update_stats` argument,
      or `None` when the words are malformed. */
  function ApplyStatWords(before: map<string, int>, words: seq<string>): (r: Option<map<string, int>>)
    ensures r.None? <==> !WellFormedStats(words)
    ensures r.Some? ==> r.value.Keys == before.Keys + StatNames(words)
    ensures r.Some? ==> forall s :: s in before && s !in StatNames(words) ==> r.value[s] == before[s]
  {
    ParsePairsFails(words);
    match ParsePairs(words)
    case None => None
    case Some(pairs) =>
      var d := BuildDict(EmptyDict, pairs);
      ParsedNames(words, pairs);
      NamesOfParsed(words, pairs);
      BuildDictKeysFromEmpty(pairs);
      LoweredOrder(d, NamesOf(pairs));
      Some(ApplyStats(before, d.order, d.values))
  }

  /** When no other name differs from it only in case, the last pair of a
      name decides its stat. */
  lemma ApplyStatWordsLastPair(before: map<string, int>, words: seq<string>, i: int)
    requires WellFormedStats(words)
    requires 0 <= i < |words| / 2 && LastNameAt(words, i) && NoCaseVariantOf(words, i)
    ensures var r := ApplyStatWords(before, words);
      && r.Some?
      && Lower(NameAt(words, i)) in r.value
      && r.value[Lower(NameAt(words, i))] == ParseInt(ValueWordAt(words, i)).value
  {
    ParsePairsFails(words);
    var pairs := ParsePairs(words).value;
    ParsePairsContents(words);
    var d := BuildDict(EmptyDict, pairs);
    LastPairWins(words, pairs, i);
    var m :| 0 <= m < |d.order| && d.order[m] == NameAt(words, i)
      && Lower(NameAt(words, i)) !in LoweredNames(d.order[m + 1..]);
    assert ApplyStatWords(before, words) == Some(ApplyStats(before, d.order, d.values));
  }

  /** `update_stats [name value]...`: a player without a character gets an
      error; no argument changes nothing; malformed words change nothing;
      otherwise only the player's stats change, as `ApplyStatWords` says. */
  function UpdateStats(roster: Roster, user: int, statsArg: Option<string>): (r: Result<Roster, CommandError>)
    ensures user !in roster <==> r == Err(NoCharacter)
    ensures r == Err(MalformedStats) <==> user in roster && statsArg.Some? && !WellFormedStats(Words(statsArg.value))
    ensures r.Ok? <==> user in roster && (statsArg.None? || WellFormedStats(Words(statsArg.value)))
    ensures r.Ok? ==> r.value.Keys == roster.Keys
    ensures r.Ok? ==> forall u :: u in roster && u != user ==> r.value[u] == roster[u]
    ensures r.Ok? && statsArg.None? ==> r.value == roster
    ensures r.Ok? && statsArg.Some? ==>
      var p := roster[user];
      r.value[user] == p.(character := p.character.(stats := ApplyStatWords(p.character.stats, Words(statsArg.value)).value))
  {
    if user !in roster then Err(NoCharacter)
    else if statsArg.None? then Ok(roster)
    else
      var p := roster[user];
      match ApplyStatWords(p.character.stats, Words(statsArg.value))
      case None => Err(MalformedStats)
      case Some(stats) => Ok(roster[user := p.(character := p.character.(stats := stats))])
  }

  /** One `name value` pair in front of words that parse. */
  lemma ParsePairsStep(words: seq<string>, v: int, parsed: seq<(string, int)>)
    requires |words| >= 2 && ParseInt(words[1]) == Some(v) && ParsePairs(words[2..]) == Some(parsed)
    ensures ParsePairs(words) == Some([(words[0], v)] + parsed)
  {
  }

  /** The words of an `update_stats` argument that sets `pairs` in order:
      each name followed by its value written in decimal. */
  function RenderPairs(pairs: seq<(string, int)>): (words: seq<string>)
    ensures |words| == 2 * |pairs|
  {
    if |pairs| == 0 then [] else [pairs[0].0, IntToDecimal(pairs[0].1)] + RenderPairs(pairs[1..])
  }

  /** Parsing the rendered words gives the pairs back. */
  lemma {:induction false} ParsePairsRender(pairs: seq<(string, int)>)
    ensures ParsePairs(RenderPairs(pairs)) == Some(pairs)
  {
    if |pairs| > 0 {
      var words := RenderPairs(pairs);
      ParsePairsRender(pairs[1..]);
      ParseIntOfDecimal(pairs[0].1);
      assert words[2..] == RenderPairs(pairs[1..]);
      ParsePairsStep(words, pairs[0].1, pairs[1..]);
      assert [(pairs[0].0, pairs[0].1)] + pairs[1..] == pairs;
    }
  }

  /** One step of `BuildDict`: the first pair is inserted, then the rest. */
  lemma BuildDictCons(d: StatsDict, pairs: seq<(string, int)>)
    requires ValidDict(d) && |pairs| > 0
    ensures BuildDict(d, pairs) == BuildDict(DictInsert(d, pairs[0].0, pairs[0].1), pairs[1..])
  {
  }

  /** Two distinct names, the first repeated: the repeat keeps its place
      and takes the new value. */
  lemma CaseVariantDict(a: string, b: string, x: int, y: int, z: int)
    requires a != b
    ensures var d := BuildDict(EmptyDict, [(a, x), (b, y), (a, z)]);
      d.order == [a, b] && a in d.values && b in d.values && d.values[a] == z && d.values[b] == y
  {
    var pairs := [(a, x), (b, y), (a, z)];
    var d1 := DictInsert(EmptyDict, a, x);
    assert d1.order == [a] && d1.values == map[a := x];
    var d2 := DictInsert(d1, b, y);
    assert d2.order == [a, b] && d2.values == d1.values[b := y];
    assert a in d2.values;
    var d3 := DictInsert(d2, a, z);
    assert d3.order == [a, b];
    assert d3.values == d2.values[a := z];
    var p1, p2, p3 := pairs[1..], pairs[2..], pairs[3..];
    assert pairs[0] == (a, x) && p1[0] == (b, y) && p2[0] == (a, z);
    assert p1[1..] == p2 && p2[1..] == p3 && |p3| == 0;
    BuildDictCons(EmptyDict, pairs);
    BuildDictCons(d1, p1);
    BuildDictCons(d2, p2);
    assert BuildDict(d3, p3) == d3;
  }

  /** Writing two case variants in order leaves the second one's value. */
  lemma CaseVariantApply(a: string, b: string, values: map<string, int>)
    requires a in values && b in values && Lower(a) == Lower(b)
    ensures ApplyStats(map[], [a, b], values) == map[Lower(b) := values[b]]
  {
    var order := [a, b];
    assert order[1..] == [b];
    assert |order[1..][1..]| == 0;
  }

  /** Case variants are separate dict keys: the key that entered the dict
      last decides the stat, not the last pair. In `a x b y a z` with `a`
      and `b` differing only in case, `a` keeps its first place, so `b`'s
      value `y` is written last and `z` is lost. */
  lemma CaseVariantOrder(a: string, b: string, x: int, y: int, z: int)
    requires a != b && Lower(a) == Lower(b)
    ensures ApplyStatWords(map[], RenderPairs([(a, x), (b, y), (a, z)])) == Some(map[Lower(b) := y])
  {
    ParsePairsRender([(a, x), (b, y), (a, z)]);
    CaseVariantDict(a, b, x, y, z);
    CaseVariantApply(a, b, BuildDict(EmptyDict, [(a, x), (b, y), (a, z)]).values);
  }

  /** Two distinct names, one pair each: the keys are in pair order. */
  lemma TwoPairDict(pairs: seq<(string, int)>)
    requires |pairs| == 2 && pairs[0].0 != pairs[1].0
    ensures var d := BuildDict(EmptyDict, pairs);
      && d.order == [pairs[0].0, pairs[1].0]
      && pairs[0].0 in d.values && pairs[1].0 in d.values
      && d.values[pairs[1].0] == pairs[1].1
  {
    NewKeysTwo(pairs);
    assert EmptyDict.values.Keys == {};
    BuildDictLastPair(EmptyDict, pairs, 1);
  }

  lemma NewKeysTwo(pairs: seq<(string, int)>)
    requires |pairs| == 2 && pairs[0].0 != pairs[1].0
    ensures NewKeys({}, pairs) == [pairs[0].0, pairs[1].0]
  {
    var rest := pairs[1..];
    assert |rest[1..]| == 0 && rest[0] == pairs[1];
    assert {} + {pairs[0].0} == {pairs[0].0};
    assert NewKeys({pairs[0].0}, rest) == [pairs[1].0] + NewKeys({pairs[0].0} + {pairs[1].0}, rest[1..]);
    assert NewKeys({}, pairs) == [pairs[0].0] + NewKeys({} + {pairs[0].0}, rest);
  }

  /** Two case variants, one pair each: the second name enters the dict
      second and is written last, so `STR 10 str 12` sets `str` to 12. */
  lemma CaseVariantPair(a: string, b: string, x: int, y: int)
    requires a != b && Lower(a) == Lower(b)
    ensures ApplyStatWords(map[], RenderPairs([(a, x), (b, y)])) == Some(map[Lower(b) := y])
  {
    ParsePairsRender([(a, x), (b, y)]);
    TwoPairDict([(a, x), (b, y)]);
    CaseVariantApply(a, b, BuildDict(EmptyDict, [(a, x), (b, y)]).values);
  }
}
