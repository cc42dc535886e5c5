/** The handful of Python string routines the bot relies on, written out
    over `seq<char>`: `str.join`, `str.split(sep)`, `str.split()`,
    `str.strip()`, `str.lower()` (ASCII letters) and `int(...)` of a decimal
    literal. */
module Text {
  import opened Wrappers

  /** Python's `str.isspace` for one character: the ASCII separators plus the
      Unicode space separators and line/paragraph separators. */
  predicate IsSpace(c: char)
  {
    var n := c as int;
    n == 0x20 || (0x09 <= n <= 0x0D) || (0x1C <= n <= 0x1F) || n == 0x85 || n == 0xA0
    || n == 0x1680 || (0x2000 <= n <= 0x200A) || n == 0x2028 || n == 0x2029
    || n == 0x202F || n == 0x205F || n == 0x3000
  }

  /** `r` is a trailing part of `s` (what is left after dropping a prefix). */
  predicate IsSuffix<T(==)>(r: seq<T>, s: seq<T>)
  {
    |r| <= |s| && r == s[|s| - |r|..]
  }

  /** `pat` occurs in `s` starting at index `j`. */
  predicate OccursAt(s: string, pat: string, j: int)
  {
    0 <= j && j + |pat| <= |s| && s[j..j + |pat|] == pat
  }

  predicate Contains(s: string, pat: string)
  {
    exists j :: 0 <= j <= |s| - |pat| && OccursAt(s, pat, j)
  }

  /** `sep.join(parts)`. */
  function Join(sep: string, parts: seq<string>): string
  {
    if |parts| == 0 then ""
    else if |parts| == 1 then parts[0]
    else parts[0] + sep + Join(sep, parts[1..])
  }

  /** Joining two or more parts puts at least one separator in the text. */
  lemma JoinOfSeveral(sep: string, parts: seq<string>)
    requires |parts| >= 2
    ensures |Join(sep, parts)| >= |sep|
  {
    assert Join(sep, parts) == parts[0] + sep + Join(sep, parts[1..]);
  }

  lemma JoinCons(sep: string, first: string, rest: seq<string>)
    requires |rest| > 0
    ensures Join(sep, [first] + rest) == first + sep + Join(sep, rest)
  {
    assert ([first] + rest)[1..] == rest;
  }

  /** Index of the first occurrence of `pat` in `s` at or after `from`. */
  function IndexFrom(s: string, pat: string, from: nat): (r: Option<nat>)
    requires |pat| > 0
    decreases |s| - from
    ensures r.Some? ==> from <= r.value && OccursAt(s, pat, r.value)
    ensures r.Some? ==> forall j :: from <= j < r.value ==> !OccursAt(s, pat, j)
    ensures r.None? ==> forall j :: from <= j ==> !OccursAt(s, pat, j)
  {
    if from + |pat| > |s| then None
    else if s[from..from + |pat|] == pat then Some(from)
    else IndexFrom(s, pat, from + 1)
  }

  /** `s.find(pat)`, with `None` for Python's -1. */
  function IndexOf(s: string, pat: string): (r: Option<nat>)
    requires |pat| > 0
    ensures r.Some? ==> OccursAt(s, pat, r.value)
    ensures r.Some? ==> forall j :: 0 <= j < r.value ==> !OccursAt(s, pat, j)
    ensures r.None? <==> !Contains(s, pat)
  {
    IndexFrom(s, pat, 0)
  }

  /** The text before the first occurrence of `pat` does not contain it. */
  lemma PrefixBeforeFirstOccurrence(s: string, pat: string, i: nat)
    requires |pat| > 0 && i <= |s|
    requires forall j :: 0 <= j < i ==> !OccursAt(s, pat, j)
    ensures !Contains(s[..i], pat)
  {
    forall j | 0 <= j <= i - |pat| && OccursAt(s[..i], pat, j)
      ensures false
    {
      assert s[j..j + |pat|] == s[..i][j..j + |pat|];
      assert OccursAt(s, pat, j);
    }
  }

  /** An occurrence with none before it is what `IndexOf` finds. */
  lemma IndexOfFirst(s: string, pat: string, i: nat)
    requires |pat| > 0
    requires OccursAt(s, pat, i)
    requires forall j :: 0 <= j < i ==> !OccursAt(s, pat, j)
    ensures IndexOf(s, pat) == Some(i)
  {
    var k := IndexOf(s, pat);
    assert Contains(s, pat);
    if k.value < i {
    } else if k.value > i {
    }
  }

  /** `s.split(sep)` for a non-empty separator: the pieces between the
      non-overlapping occurrences of `sep`, scanning left to right. There is
      always at least one piece, and no piece contains `sep`. */
  function SplitOn(s: string, sep: string): (parts: seq<string>)
    requires |sep| > 0
    decreases |s|
    ensures |parts| >= 1
    ensures forall i :: 0 <= i < |parts| ==> !Contains(parts[i], sep)
  {
    match IndexOf(s, sep)
    case None => [s]
    case Some(i) =>
      PrefixBeforeFirstOccurrence(s, sep, i);
      [s[..i]] + SplitOn(s[i + |sep|..], sep)
  }

  /** `sep.join(s.split(sep)) == s`: splitting loses nothing. */
  lemma {:induction false} JoinSplitOn(s: string, sep: string)
    requires |sep| > 0
    decreases |s|
    ensures Join(sep, SplitOn(s, sep)) == s
  {
    match IndexOf(s, sep)
    case None =>
    case Some(i) =>
      var rest := s[i + |sep|..];
      SplitOnUnfold(s, sep, i);
      JoinSplitOn(rest, sep);
      JoinCons(sep, s[..i], SplitOn(rest, sep));
      assert s == s[..i] + sep + rest;
  }

  /** A character with no occurrence as a one-character pattern is absent. */
  lemma NotContainsChar(s: string, c: char)
    requires !Contains(s, [c])
    ensures multiset(s)[c] == 0
  {
    if multiset(s)[c] != 0 {
      var j :| 0 <= j < |s| && s[j] == c;
      assert s[j..j + 1] == [c];
      assert OccursAt(s, [c], j);
    }
  }

  /** One step of `SplitOn`: the piece before the first separator, then the
      pieces of what follows it. */
  lemma SplitOnUnfold(s: string, sep: string, i: nat)
    requires |sep| > 0 && IndexOf(s, sep) == Some(i)
    ensures SplitOn(s, sep) == [s[..i]] + SplitOn(s[i + |sep|..], sep)
  {
    match IndexOf(s, sep)
    case Some(j) =>
      assert j == i;
  }

  lemma CountAround(s: string, i: nat, c: char)
    requires i < |s| && s[i] == c && multiset(s[..i])[c] == 0
    ensures multiset(s)[c] == multiset(s[i + 1..])[c] + 1
  {
    assert s == s[..i] + [c] + s[i + 1..];
  }

  /** Splitting on a one-character separator gives one more piece than
      there are occurrences of that character. */
  lemma {:induction false} SplitOnCount(s: string, c: char)
    decreases |s|
    ensures |SplitOn(s, [c])| == multiset(s)[c] + 1
  {
    var k := IndexOf(s, [c]);
    if k.None? {
      NotContainsChar(s, c);
    } else {
      var i := k.value;
      var rest := s[i + 1..];
      SplitOnCount(rest, c);
      PrefixBeforeFirstOccurrence(s, [c], i);
      NotContainsChar(s[..i], c);
      assert s[i] == s[i..i + 1][0];
      CountAround(s, i, c);
      SplitOnUnfold(s, [c], i);
    }
  }

  /** Splitting `a + sep + b` on a one-character `sep` splits `a` and `b`
      separately: the pieces of `a` come first, then those of `b`. */
  lemma {:induction false} SplitOnAppend(a: string, c: char, b: string)
    decreases |a|
    ensures SplitOn(a + [c] + b, [c]) == SplitOn(a, [c]) + SplitOn(b, [c])
  {
    var s := a + [c] + b;
    match IndexOf(a, [c])
    case None =>
      forall j | 0 <= j < |a|
        ensures !OccursAt(s, [c], j)
      {
        assert !OccursAt(a, [c], j);
        assert s[j..j + 1] == a[j..j + 1];
      }
      assert OccursAt(s, [c], |a|);
      IndexOfFirst(s, [c], |a|);
      assert s[..|a|] == a;
      assert s[|a| + 1..] == b;
    case Some(i) =>
      forall j | 0 <= j < i
        ensures !OccursAt(s, [c], j)
      {
        assert !OccursAt(a, [c], j);
        assert s[j..j + 1] == a[j..j + 1];
      }
      assert OccursAt(s, [c], i);
      IndexOfFirst(s, [c], i);
      assert s[..i] == a[..i];
      assert s[i + 1..] == a[i + 1..] + [c] + b;
      SplitOnAppend(a[i + 1..], c, b);
  }

  /** No proper suffix of `sep` is also its prefix, so two occurrences of
      `sep` never overlap and none can start inside a separator. */
  predicate BorderFree(sep: string)
  {
    forall d :: 0 < d < |sep| ==> sep[d..] != sep[..|sep| - d]
  }

  /** An occurrence of `sep` straddling the end of `a` in `a + sep + b`
      would make `sep` overlap itself. */
  lemma NoStraddle(a: string, sep: string, b: string, j: int)
    requires BorderFree(sep)
    requires 0 <= j < |a| < j + |sep|
    ensures !OccursAt(a + sep + b, sep, j)
  {
    var s := a + sep + b;
    var d := |a| - j;
    assert sep[d..] != sep[..|sep| - d];
    var k :| 0 <= k < |sep| - d && sep[d..][k] != sep[..|sep| - d][k];
    assert s[j + d + k] == sep[k];
    assert s[j..j + |sep|][d + k] == s[j + d + k];
  }

  /** With a separator that cannot overlap itself, the first separator of
      `a + sep + b` is the one after `a` when `a` holds none. */
  lemma SplitOnJoinCons(a: string, sep: string, b: string)
    requires |sep| > 0 && BorderFree(sep) && !Contains(a, sep)
    ensures SplitOn(a + sep + b, sep) == [a] + SplitOn(b, sep)
  {
    var s := a + sep + b;
    forall j | 0 <= j < |a|
      ensures !OccursAt(s, sep, j)
    {
      if j + |sep| <= |a| {
        assert s[j..j + |sep|] == a[j..j + |sep|];
        assert !OccursAt(a, sep, j);
      } else {
        NoStraddle(a, sep, b, j);
      }
    }
    assert s[|a|..|a| + |sep|] == sep;
    IndexOfFirst(s, sep, |a|);
    SplitOnUnfold(s, sep, |a|);
    assert s[..|a|] == a;
    assert s[|a| + |sep|..] == b;
  }

  /** `sep.join(parts).split(sep) == parts` when no part holds the
      separator and the separator cannot overlap itself. */
  lemma {:induction false} SplitOnJoin(sep: string, parts: seq<string>)
    requires |sep| > 0 && BorderFree(sep) && |parts| > 0
    requires forall i :: 0 <= i < |parts| ==> !Contains(parts[i], sep)
    decreases |parts|
    ensures SplitOn(Join(sep, parts), sep) == parts
  {
    if |parts| == 1 {
      assert IndexOf(parts[0], sep).None?;
    } else {
      var rest := parts[1..];
      SplitOnJoin(sep, rest);
      JoinCons(sep, parts[0], rest);
      assert [parts[0]] + rest == parts;
      SplitOnJoinCons(parts[0], sep, Join(sep, rest));
    }
  }

  /** Leading whitespace removed (`str.lstrip()`). */
  function TrimStart(s: string): (r: string)
    decreases |s|
    ensures IsSuffix(r, s)
    ensures forall k :: 0 <= k < |s| - |r| ==> IsSpace(s[k])
    ensures |r| > 0 ==> !IsSpace(r[0])
  {
    if |s| > 0 && IsSpace(s[0]) then TrimStart(s[1..]) else s
  }

  /** Trailing whitespace removed (`str.rstrip()`). */
  function TrimEnd(s: string): (r: string)
    decreases |s|
    ensures |r| <= |s| && r == s[..|r|]
    ensures forall k :: |r| <= k < |s| ==> IsSpace(s[k])
    ensures |r| > 0 ==> !IsSpace(r[|r| - 1])
  {
    if |s| > 0 && IsSpace(s[|s| - 1]) then TrimEnd(s[..|s| - 1]) else s
  }

  /** `r` is `s[i..]` cut to `|r|` characters, with only whitespace in
      front of it and behind it. */
  predicate StripsTo(s: string, r: string, i: int)
  {
    && 0 <= i <= |s| - |r|
    && r == s[i..i + |r|]
    && (forall k :: 0 <= k < i ==> IsSpace(s[k]))
    && (forall k :: i + |r| <= k < |s| ==> IsSpace(s[k]))
  }

  /** `str.strip()`: whitespace removed at both ends. */
  function Strip(s: string): (r: string)
    ensures |r| <= |s|
  {
    TrimEnd(TrimStart(s))
  }

  /** What `strip()` leaves is the slice of `s` with only whitespace
      around it, and it has non-whitespace at both ends. */
  lemma StripSlice(s: string)
    ensures var r := Strip(s);
      && (|r| > 0 ==> !IsSpace(r[0]) && !IsSpace(r[|r| - 1]))
      && exists i :: StripsTo(s, r, i)
  {
    var t := TrimStart(s);
    var r := TrimEnd(t);
    var i := |s| - |t|;
    assert t == s[i..];
    assert r == s[i..i + |r|] by {
      assert r == t[..|r|];
    }
    forall k | i + |r| <= k < |s|
      ensures IsSpace(s[k])
    {
      assert s[k] == t[k - i];
    }
    if |r| > 0 {
      assert r[0] == t[0];
    }
    assert StripsTo(s, r, i);
  }

  function WordLength(s: string): (n: nat)
    decreases |s|
    ensures n <= |s|
    ensures forall k :: 0 <= k < n ==> !IsSpace(s[k])
    ensures n < |s| ==> IsSpace(s[n])
  {
    if |s| == 0 || IsSpace(s[0]) then 0 else 1 + WordLength(s[1..])
  }

  /** A word as `str.split()` produces it: non-empty, no whitespace. */
  predicate IsWord(w: string)
  {
    |w| > 0 && forall k :: 0 <= k < |w| ==> !IsSpace(w[k])
  }

  /** `str.split()` with no argument: the maximal runs of non-whitespace. */
  function Words(s: string): seq<string>
    decreases |s|
  {
    var t := TrimStart(s);
    if |t| == 0 then []
    else
      var n := WordLength(t);
      [t[..n]] + Words(t[n..])
  }

  /** Every piece `str.split()` returns is a word. */
  lemma {:induction false} WordsAreWords(s: string)
    decreases |s|
    ensures forall i :: 0 <= i < |Words(s)| ==> IsWord(Words(s)[i])
  {
    var t := TrimStart(s);
    if |t| > 0 {
      var n := WordLength(t);
      var w := t[..n];
      assert n > 0;
      assert IsWord(w) by {
        forall k | 0 <= k < |w|
          ensures !IsSpace(w[k])
        {
          assert w[k] == t[k];
        }
      }
      var rest := Words(t[n..]);
      WordsAreWords(t[n..]);
      var ws := Words(s);
      assert ws == [w] + rest;
      AllWordsCons(w, rest);
    }
  }

  lemma AllWordsCons(w: string, rest: seq<string>)
    requires IsWord(w)
    requires forall i :: 0 <= i < |rest| ==> IsWord(rest[i])
    ensures forall i :: 0 <= i < |[w] + rest| ==> IsWord(([w] + rest)[i])
  {
    var ws := [w] + rest;
    forall i | 0 <= i < |ws|
      ensures IsWord(ws[i])
    {
      if i > 0 {
        assert ws[i] == rest[i - 1];
      }
    }
  }

  lemma {:induction false} WordLengthOfWord(w: string, tail: string)
    requires IsWord(w)
    requires |tail| > 0 ==> IsSpace(tail[0])
    decreases |w|
    ensures WordLength(w + tail) == |w|
  {
    var s := w + tail;
    assert s[0] == w[0];
    if |w| > 1 {
      var w' := w[1..];
      assert IsWord(w') by {
        forall k | 0 <= k < |w'|
          ensures !IsSpace(w'[k])
        {
          assert w'[k] == w[k + 1];
        }
      }
      assert s[1..] == w' + tail;
      WordLengthOfWord(w', tail);
    } else {
      assert s[1..] == tail;
    }
  }

  /** A word followed by nothing or by whitespace is the first word. */
  lemma WordsCons(w: string, tail: string)
    requires IsWord(w)
    requires |tail| > 0 ==> IsSpace(tail[0])
    ensures Words(w + tail) == [w] + Words(tail)
  {
    var s := w + tail;
    assert TrimStart(s) == s;
    WordLengthOfWord(w, tail);
    assert s[..|w|] == w;
    assert s[|w|..] == tail;
  }

  /** Leading whitespace does not change the words. */
  lemma WordsSkipSpace(s: string)
    ensures Words(" " + s) == Words(s)
  {
    assert (" " + s)[1..] == s;
    assert TrimStart(" " + s) == TrimStart(s);
  }

  /** A word, a space, then more text: the word comes first. */
  lemma {:induction false} WordsAfterSpace(w: string, rest: string)
    requires IsWord(w)
    ensures Words(w + (" " + rest)) == [w] + Words(rest)
  {
    var spaced := " " + rest;
    assert IsSpace(spaced[0]);
    WordsCons(w, spaced);
    WordsSkipSpace(rest);
  }

  lemma {:induction false} WordsOfJoinStep(ws: seq<string>)
    requires |ws| > 1
    requires IsWord(ws[0])
    requires Words(Join(" ", ws[1..])) == ws[1..]
    ensures Words(Join(" ", ws)) == ws
  {
    var rest := Join(" ", ws[1..]);
    JoinFirst(ws);
    WordsAfterSpace(ws[0], rest);
    assert [ws[0]] + ws[1..] == ws;
  }

  lemma JoinFirst(ws: seq<string>)
    requires |ws| > 1
    ensures Join(" ", ws) == ws[0] + (" " + Join(" ", ws[1..]))
  {
  }

  /** `str.split()` undoes `' '.join` of proper words. */
  lemma {:induction false} WordsOfJoin(ws: seq<string>)
    requires forall i :: 0 <= i < |ws| ==> IsWord(ws[i])
    ensures Words(Join(" ", ws)) == ws
  {
    if |ws| == 1 {
      WordsCons(ws[0], "");
      assert ws[0] + "" == ws[0];
    } else if |ws| > 1 {
      WordsOfJoin(ws[1..]);
      WordsOfJoinStep(ws);
    }
  }

  /** ASCII upper-case letters mapped to lower case; everything else kept. */
  function LowerChar(c: char): char
  {
    if 'A' <= c <= 'Z' then (c as int + 32) as char else c
  }

  /** `str.lower()`, restricted to ASCII letters. */
  function Lower(s: string): (r: string)
    ensures |r| == |s|
    ensures forall i :: 0 <= i < |s| && 'A' <= s[i] <= 'Z' ==> r[i] as int == s[i] as int + 32
    ensures forall i :: 0 <= i < |s| && !('A' <= s[i] <= 'Z') ==> r[i] == s[i]
    ensures forall i :: 0 <= i < |r| ==> !('A' <= r[i] <= 'Z')
  {
    seq(|s|, i requires 0 <= i < |s| => LowerChar(s[i]))
  }

  lemma LowerIdempotent(s: string)
    ensures Lower(Lower(s)) == Lower(s)
  {
  }

  predicate IsDigit(c: char)
  {
    '0' <= c <= '9'
  }

  /** A Python integer body: digits, with single underscores allowed between
      two digits (`1_000`). */
  predicate IsDigitRun(s: string)
  {
    && |s| > 0
    && IsDigit(s[0]) && IsDigit(s[|s| - 1])
    && (forall k :: 0 <= k < |s| ==> IsDigit(s[k]) || s[k] == '_')
    && (forall k :: 0 <= k < |s| - 1 ==> !(s[k] == '_' && s[k + 1] == '_'))
  }

  function DropUnderscores(s: string): (r: string)
    ensures forall k :: 0 <= k < |r| ==> r[k] != '_'
  {
    if |s| == 0 then ""
    else if s[|s| - 1] == '_' then DropUnderscores(s[..|s| - 1])
    else DropUnderscores(s[..|s| - 1]) + [s[|s| - 1]]
  }

  function DigitValue(c: char): nat
    requires IsDigit(c)
  {
    c as int - '0' as int
  }

  /** Value of a string of decimal digits, most significant first. */
  function DecimalValue(s: string): nat
    requires forall k :: 0 <= k < |s| ==> IsDigit(s[k])
  {
    if |s| == 0 then 0
    else
      assert IsDigit(s[|s| - 1]);
      10 * DecimalValue(s[..|s| - 1]) + DigitValue(s[|s| - 1])
  }

  lemma DropUnderscoresDigits(s: string)
    requires forall k :: 0 <= k < |s| ==> IsDigit(s[k]) || s[k] == '_'
    ensures forall k :: 0 <= k < |DropUnderscores(s)| ==> IsDigit(DropUnderscores(s)[k])
  {
    if |s| > 0 {
      DropUnderscoresDigits(s[..|s| - 1]);
    }
  }

  /** A word without its leading sign, if it has one. */
  function Unsigned(w: string): (body: string)
    ensures IsSuffix(body, w) && |w| - 1 <= |body|
  {
    if |w| > 0 && (w[0] == '-' || w[0] == '+') then w[1..] else w
  }

  /** `int(word)` for a word `str.split()` produced: optional sign, then a
      digit run. `None` stands for Python's `ValueError`. */
  function ParseInt(w: string): (r: Option<int>)
    ensures r.None? <==> !IsDigitRun(Unsigned(w))
    ensures r.Some? ==> |w| > 0 && IsDigit(w[|w| - 1])
    ensures r.Some? && w[0] == '-' ==> r.value <= 0
    ensures r.Some? && w[0] != '-' ==> r.value >= 0
  {
    var neg := |w| > 0 && w[0] == '-';
    var body := Unsigned(w);
    if !IsDigitRun(body) then None
    else
      DropUnderscoresDigits(body);
      var v: int := DecimalValue(DropUnderscores(body));
      Some(if neg then -v else v)
  }

  /** The value of an accepted word without a sign: its digits, read
      once the underscores are dropped. */
  lemma ParseIntOfRun(w: string)
    requires IsDigitRun(w)
    ensures forall k :: 0 <= k < |DropUnderscores(w)| ==> IsDigit(DropUnderscores(w)[k])
    ensures ParseInt(w) == Some(DecimalValue(DropUnderscores(w)) as int)
  {
    DropUnderscoresDigits(w);
    assert IsDigit(w[0]);
    assert Unsigned(w) == w;
  }

  /** `int("+" + d) == int(d)` for a digit run `d`. */
  lemma ParseIntPlus(d: string)
    requires IsDigitRun(d)
    ensures ParseInt(['+'] + d) == ParseInt(d)
  {
    var w := ['+'] + d;
    assert w[0] == '+' && w[1..] == d;
    assert IsDigit(d[0]);
    assert Unsigned(w) == d && Unsigned(d) == d;
  }

  /** `int("-" + d) == -int(d)` for a digit run `d`. */
  lemma ParseIntMinus(d: string)
    requires IsDigitRun(d)
    ensures ParseInt(d).Some?
    ensures ParseInt(['-'] + d) == Some(-ParseInt(d).value)
  {
    var w := ['-'] + d;
    assert w[0] == '-' && w[1..] == d;
    assert IsDigit(d[0]);
    assert Unsigned(w) == d && Unsigned(d) == d;
  }

  /** A digit run stays a digit run with a `0` in front. */
  lemma ZeroRun(d: string)
    requires IsDigitRun(d)
    ensures IsDigitRun(['0'] + d)
  {
    var w := ['0'] + d;
    assert w[|w| - 1] == d[|d| - 1];
    forall k | 0 <= k < |w| - 1
      ensures !(w[k] == '_' && w[k + 1] == '_')
    {
      if k > 0 {
        assert w[k] == d[k - 1] && w[k + 1] == d[k];
      }
    }
    forall k | 0 <= k < |w|
      ensures IsDigit(w[k]) || w[k] == '_'
    {
      if k > 0 {
        assert w[k] == d[k - 1];
      }
    }
  }

  /** Dropping underscores keeps a leading `0`. */
  lemma DropUnderscoresZero(d: string)
    ensures DropUnderscores(['0'] + d) == ['0'] + DropUnderscores(d)
  {
    DropUnderscoresAppend(['0'], d);
    assert DropUnderscores(['0']) == ['0'] by {
      assert ['0'][..0] == [];
    }
  }

  /** A leading zero does not change the value: `int("0" + d) == int(d)`. */
  lemma ParseIntLeadingZero(d: string)
    requires IsDigitRun(d)
    ensures ParseInt(['0'] + d) == ParseInt(d)
  {
    ZeroRun(d);
    ParseIntOfRun(d);
    ParseIntOfRun(['0'] + d);
    DropUnderscoresZero(d);
    DecimalValueLeadingZero(DropUnderscores(d));
  }

  /** An underscore between digits is ignored:
      `int(a + "_" + b) == int(a + b)`. */
  lemma ParseIntUnderscore(a: string, b: string)
    requires IsDigitRun(a + ['_'] + b)
    ensures IsDigitRun(a + b)
    ensures ParseInt(a + ['_'] + b) == ParseInt(a + b)
  {
    var w := a + ['_'] + b;
    var v := a + b;
    assert w[|a|] == '_';
    assert IsDigit(w[0]) && IsDigit(w[|w| - 1]);
    assert |a| > 0 && |b| > 0;
    assert w[|a| - 1] != '_' && w[|a| + 1] != '_';
    assert IsDigit(w[|a| - 1]) && IsDigit(w[|a| + 1]);
    assert IsDigitRun(v) by {
      assert v[0] == w[0];
      assert v[|v| - 1] == w[|w| - 1];
      forall k | 0 <= k < |v|
        ensures IsDigit(v[k]) || v[k] == '_'
      {
        if k < |a| {
          assert v[k] == w[k];
        } else {
          assert v[k] == w[k + 1];
        }
      }
      forall k | 0 <= k < |v| - 1
        ensures !(v[k] == '_' && v[k + 1] == '_')
      {
        if k + 1 < |a| {
          assert v[k] == w[k] && v[k + 1] == w[k + 1];
        } else if k + 1 == |a| {
          assert v[k] == w[k];
        } else {
          assert v[k] == w[k + 1] && v[k + 1] == w[k + 2];
        }
      }
    }
    ParseIntOfRun(w);
    ParseIntOfRun(v);
    DropUnderscoresAppend(a + ['_'], b);
    DropUnderscoresAppend(a, ['_']);
    DropUnderscoresAppend(a, b);
    assert DropUnderscores(['_']) == [] by {
      assert ['_'][..0] == [];
    }
  }

  /** Dropping underscores works piece by piece. */
  lemma {:induction false} DropUnderscoresAppend(x: string, y: string)
    decreases |y|
    ensures DropUnderscores(x + y) == DropUnderscores(x) + DropUnderscores(y)
  {
    if |y| == 0 {
      assert x + y == x;
    } else {
      var s := x + y;
      var init := y[..|y| - 1];
      assert s[..|s| - 1] == x + init;
      assert s[|s| - 1] == y[|y| - 1];
      DropUnderscoresAppend(x, init);
    }
  }

  /** A leading zero digit adds nothing to a decimal value. */
  lemma {:induction false} DecimalValueLeadingZero(s: string)
    requires forall k :: 0 <= k < |s| ==> IsDigit(s[k])
    decreases |s|
    ensures DecimalValue(['0'] + s) == DecimalValue(s)
  {
    var t := ['0'] + s;
    if |s| == 0 {
      assert t[..0] == [];
    } else {
      var init := s[..|s| - 1];
      assert t[..|t| - 1] == ['0'] + init;
      assert t[|t| - 1] == s[|s| - 1];
      DecimalValueLeadingZero(init);
    }
  }

  function DigitChar(d: nat): char
    requires d < 10
  {
    ('0' as int + d) as char
  }

  /** Decimal digits of a natural number, as `str(n)` prints them. */
  function NatToDecimal(n: nat): (s: string)
    ensures |s| > 0
    ensures forall k :: 0 <= k < |s| ==> IsDigit(s[k])
  {
    if n < 10 then [DigitChar(n)] else NatToDecimal(n / 10) + [DigitChar(n % 10)]
  }

  /** `str(n)` for any integer. */
  function IntToDecimal(n: int): string
  {
    if n < 0 then ['-'] + NatToDecimal(-n) else NatToDecimal(n)
  }

  lemma {:induction false} DecimalValueOfNat(n: nat)
    ensures DecimalValue(NatToDecimal(n)) == n
  {
    var s := NatToDecimal(n);
    if n >= 10 {
      DecimalValueOfNat(n / 10);
      assert s[..|s| - 1] == NatToDecimal(n / 10);
    }
  }

  lemma DropUnderscoresNoop(s: string)
    requires forall k :: 0 <= k < |s| ==> s[k] != '_'
    ensures DropUnderscores(s) == s
  {
    if |s| > 0 {
      var init := s[..|s| - 1];
      var last := s[|s| - 1];
      assert last != '_';
      DropUnderscoresNoop(init);
      assert DropUnderscores(s) == DropUnderscores(init) + [last];
      assert s == init + [last];
    }
  }

  /** `int(str(n)) == n`: the parser reads back what Python prints. */
  lemma ParseIntOfDecimal(n: int)
    ensures ParseInt(IntToDecimal(n)) == Some(n)
  {
    var m: nat := if n < 0 then -n else n;
    DecimalValueOfNat(m);
    ParseIntOfDigits(NatToDecimal(m));
  }

  /** A plain digit string, with or without a leading minus, parses to its
      decimal value. */
  lemma ParseIntOfDigits(d: string)
    requires |d| > 0 && forall k :: 0 <= k < |d| ==> IsDigit(d[k])
    ensures ParseInt(d) == Some(DecimalValue(d))
    ensures ParseInt(['-'] + d) == Some(-(DecimalValue(d) as int))
  {
    DropUnderscoresNoop(d);
    assert IsDigit(d[0]);
    UnsignedOf(d);
    assert IsDigitRun(d);
    ParseIntSigned(d, ['-'] + d);
  }

  /** A minus sign before a plain digit string negates its value. */
  lemma ParseIntSigned(d: string, w: string)
    requires forall k :: 0 <= k < |d| ==> IsDigit(d[k])
    requires IsDigitRun(d) && DropUnderscores(d) == d
    requires |w| > 0 && w[0] == '-' && Unsigned(w) == d
    ensures ParseInt(w) == Some(-(DecimalValue(d) as int))
  {
  }

  lemma UnsignedOf(d: string)
    requires |d| > 0 && d[0] != '-' && d[0] != '+'
    ensures Unsigned(d) == d
    ensures Unsigned(['-'] + d) == d
  {
    var w := ['-'] + d;
    assert w[1..] == d;
  }

  /** Whitespace around a text with non-whitespace ends is what `strip()`
      removes, and nothing more. */
  lemma StripPadded(pre: string, t: string, post: string)
    requires forall k :: 0 <= k < |pre| ==> IsSpace(pre[k])
    requires forall k :: 0 <= k < |post| ==> IsSpace(post[k])
    requires |t| > 0 && !IsSpace(t[0]) && !IsSpace(t[|t| - 1])
    ensures Strip(pre + t + post) == t
  {
    var s := pre + t + post;
    var r := Strip(s);
    StripSlice(s);
    var i :| StripsTo(s, r, i);
    assert s[|pre|] == t[0];
    assert s[|pre| + |t| - 1] == t[|t| - 1];
    assert i == |pre|;
    assert |r| == |t|;
    assert r == s[|pre|..|pre| + |t|];
  }
}
