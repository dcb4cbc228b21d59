/**
  The Python `str` operations the loader and the orchestrator rely on, over
  Unicode code points (a Python `str` is a sequence of code points, as a Dafny
  `string` is a sequence of `char`s).
*/
module Text {
  import opened Wrappers

  /** Python's `str.isspace` for a single character: what `strip()` and `split()` treat as whitespace. */
  predicate IsSpace(c: char) {
    || ('\t' <= c <= '\r')
    || ('\U{1C}' <= c <= ' ')
    || c == '\U{85}' || c == '\U{A0}' || c == '\U{1680}'
    || ('\U{2000}' <= c <= '\U{200A}')
    || c == '\U{2028}' || c == '\U{2029}' || c == '\U{202F}' || c == '\U{205F}' || c == '\U{3000}'
  }

  /** Number of whitespace characters at the start of `s`. */
  function LeadingSpace(s: string): (n: nat)
    ensures n <= |s|
    ensures forall i :: 0 <= i < n ==> IsSpace(s[i])
    ensures n == |s| || !IsSpace(s[n])
  {
    if s == [] || !IsSpace(s[0]) then 0 else 1 + LeadingSpace(s[1..])
  }

  /** Number of whitespace characters at the end of `s`. */
  function TrailingSpace(s: string): (n: nat)
    ensures n <= |s|
    ensures forall i :: |s| - n <= i < |s| ==> IsSpace(s[i])
    ensures n == |s| || !IsSpace(s[|s| - n - 1])
  {
    if s == [] || !IsSpace(s[|s| - 1]) then 0 else 1 + TrailingSpace(s[..|s| - 1])
  }

  /**
    Python's `s.strip()`: `s` without its leading and trailing whitespace. The
    result is a slice of `s`, everything cut off is whitespace, and the result
    neither starts nor ends with whitespace.
  */
  function Strip(s: string): (r: string)
    ensures exists lo, hi ::
      && 0 <= lo <= hi <= |s| && r == s[lo..hi]
      && (forall i :: 0 <= i < lo ==> IsSpace(s[i]))
      && (forall i :: hi <= i < |s| ==> IsSpace(s[i]))
    ensures r == [] || (!IsSpace(r[0]) && !IsSpace(r[|r| - 1]))
  {
    var lo := LeadingSpace(s);
    var t := s[lo..];
    var hi := lo + |t| - TrailingSpace(t);
    assert t[..|t| - TrailingSpace(t)] == s[lo..hi];
    s[lo..hi]
  }

  /** Python's `str.lower` on one character, restricted to ASCII letters. */
  function LowerChar(c: char): char {
    if 'A' <= c <= 'Z' then (c as int - 'A' as int + 'a' as int) as char else c
  }

  /** Python's `s.lower()`, restricted to ASCII letters: every character lowered, none added or removed. */
  function Lower(s: string): (r: string)
    ensures |r| == |s|
    ensures forall i :: 0 <= i < |s| ==> r[i] == LowerChar(s[i])
  {
    seq(|s|, i requires 0 <= i < |s| => LowerChar(s[i]))
  }

  /** `pat` occurs in `s` starting at index `i`. */
  predicate OccursAt(s: string, pat: string, i: nat) {
    i + |pat| <= |s| && s[i..i + |pat|] == pat
  }

  /** Python's `pat in s`. */
  predicate Contains(s: string, pat: string) {
    exists i :: 0 <= i <= |s| && OccursAt(s, pat, i)
  }

  /** Python's `s.startswith(pat)`. */
  predicate StartsWith(s: string, pat: string) {
    OccursAt(s, pat, 0)
  }

  /** Python's `s.find(pat, from)`: the first occurrence of `pat` at or after `from`, if any. */
  function FindFrom(s: string, pat: string, from: nat): (r: Option<nat>)
    ensures r.Some? ==> from <= r.value && OccursAt(s, pat, r.value)
    ensures r.Some? ==> forall k :: from <= k < r.value ==> !OccursAt(s, pat, k)
    ensures r.None? ==> forall k :: from <= k ==> !OccursAt(s, pat, k)
    decreases |s| - from
  {
    if from + |pat| > |s| then None
    else if OccursAt(s, pat, from) then Some(from)
    else FindFrom(s, pat, from + 1)
  }

  /** Python's `s.index(c)`: the position of the first `c` in `s`. */
  function IndexOf(s: string, c: char): (i: nat)
    requires c in s
    ensures i < |s| && s[i] == c && c !in s[..i]
  {
    if s[0] == c then 0
    else
      assert s == [s[0]] + s[1..];
      var j := IndexOf(s[1..], c);
      assert s[..j + 1] == [s[0]] + s[1..][..j];
      j + 1
  }

  /** Python's `s.split(sep)` for a one-character separator. */
  function Split(s: string, sep: char): (parts: seq<string>)
    ensures |parts| >= 1
    ensures forall i :: 0 <= i < |parts| ==> sep !in parts[i]
    decreases |s|
  {
    if sep !in s then [s]
    else
      var i := IndexOf(s, sep);
      [s[..i]] + Split(s[i + 1..], sep)
  }

  /** Python's `sep.join(parts)`. */
  function Join(parts: seq<string>, sep: string): string {
    if parts == [] then ""
    else if |parts| == 1 then parts[0]
    else parts[0] + sep + Join(parts[1..], sep)
  }

  /** Joining a non-empty tail after a first piece puts one separator between them. */
  lemma JoinCons(first: string, rest: seq<string>, sep: string)
    requires |rest| >= 1
    ensures Join([first] + rest, sep) == first + sep + Join(rest, sep)
  {
    var parts := [first] + rest;
    assert parts[0] == first && parts[1..] == rest;
  }

  /** Splitting at the first separator: the part before it, then the split of what follows. */
  lemma SplitAtFirst(s: string, sep: char, i: nat)
    requires i < |s| && s[i] == sep && sep !in s[..i]
    ensures Split(s, sep) == [s[..i]] + Split(s[i + 1..], sep)
  {
    assert IndexOf(s, sep) == i;
  }

  /** Joining the pieces of a split with the separator gives the string back. */
  lemma {:induction false} JoinSplit(s: string, sep: char)
    ensures Join(Split(s, sep), [sep]) == s
    decreases |s|
  {
    if sep in s {
      var i := IndexOf(s, sep);
      var rest := s[i + 1..];
      SplitAtFirst(s, sep, i);
      JoinSplit(rest, sep);
      JoinCons(s[..i], Split(rest, sep), [sep]);
      assert s == s[..i] + [sep] + rest;
    }
  }

  /** Splitting a join of separator-free pieces gives the pieces back. */
  lemma {:induction false} SplitJoin(parts: seq<string>, sep: char)
    requires |parts| >= 1
    requires forall i :: 0 <= i < |parts| ==> sep !in parts[i]
    ensures Split(Join(parts, [sep]), sep) == parts
  {
    if |parts| == 1 {
      assert Join(parts, [sep]) == parts[0];
    } else {
      var tail := Join(parts[1..], [sep]);
      JoinCons(parts[0], parts[1..], [sep]);
      assert parts == [parts[0]] + parts[1..];
      var s := parts[0] + [sep] + tail;
      assert s[..|parts[0]|] == parts[0];
      assert s[|parts[0]| + 1..] == tail;
      SplitAtFirst(s, sep, |parts[0]|);
      SplitJoin(parts[1..], sep);
    }
  }

  /** Where the `i`-th piece starts in `Join(parts, sep)`: after every earlier piece and its separator. */
  function JoinOffset(parts: seq<string>, sep: string, i: nat): nat
    requires i <= |parts|
  {
    if i == 0 then 0 else |parts[0]| + |sep| + JoinOffset(parts[1..], sep, i - 1)
  }

  /** An occurrence stays an occurrence, shifted, when text is put in front. */
  lemma OccursAfterPrefix(prefix: string, s: string, pat: string, i: nat)
    requires OccursAt(s, pat, i)
    ensures OccursAt(prefix + s, pat, |prefix| + i)
  {
    assert (prefix + s)[|prefix| + i..|prefix| + i + |pat|] == s[i..i + |pat|];
  }

  /**
    `Join(parts, sep)` holds every piece, in order: the `i`-th at its offset,
    followed by a separator unless it is the last, and the next piece starts
    right after that separator.
  */
  lemma {:induction false} JoinPlacesParts(parts: seq<string>, sep: string, i: nat)
    requires i < |parts|
    ensures OccursAt(Join(parts, sep), parts[i], JoinOffset(parts, sep, i))
    ensures i + 1 < |parts| ==> OccursAt(Join(parts, sep), sep, JoinOffset(parts, sep, i) + |parts[i]|)
    ensures JoinOffset(parts, sep, i + 1) == JoinOffset(parts, sep, i) + |parts[i]| + |sep|
  {
    var joined := Join(parts, sep);
    if |parts| == 1 {
      assert joined == parts[0];
    } else {
      var head := parts[0] + sep;
      var tail := Join(parts[1..], sep);
      assert joined == head + tail;
      if i == 0 {
        assert joined[..|parts[0]|] == parts[0];
        assert joined[|parts[0]|..|parts[0]| + |sep|] == sep;
      } else {
        JoinPlacesParts(parts[1..], sep, i - 1);
        assert parts[1..][i - 1] == parts[i];
        OccursAfterPrefix(head, tail, parts[i], JoinOffset(parts[1..], sep, i - 1));
        if i + 1 < |parts| {
          OccursAfterPrefix(head, tail, sep, JoinOffset(parts[1..], sep, i - 1) + |parts[i]|);
        }
      }
    }
  }

  /** Length of the run of non-whitespace characters at the start of `s`. */
  function WordLength(s: string): (n: nat)
    ensures n <= |s|
    ensures forall i :: 0 <= i < n ==> !IsSpace(s[i])
    ensures n == |s| || IsSpace(s[n])
  {
    if s == [] || IsSpace(s[0]) then 0 else 1 + WordLength(s[1..])
  }

  /** Every character of `s` is a non-whitespace character. */
  predicate NoSpace(s: string) {
    forall i :: 0 <= i < |s| ==> !IsSpace(s[i])
  }

  /** Python's `s.split()` with no argument: the maximal runs of non-whitespace characters. */
  function Words(s: string): (ws: seq<string>)
    ensures forall i :: 0 <= i < |ws| ==> ws[i] != [] && NoSpace(ws[i])
    decreases |s|
  {
    var t := s[LeadingSpace(s)..];
    if t == [] then []
    else
      var n := WordLength(t);
      [t[..n]] + Words(t[n..])
  }

  /** The non-whitespace characters of `s`, in order. */
  function NonSpace(s: string): string {
    if s == [] then ""
    else if IsSpace(s[0]) then NonSpace(s[1..])
    else [s[0]] + NonSpace(s[1..])
  }

  /** The concatenation of a list of strings. */
  function Concat(ws: seq<string>): string {
    if ws == [] then "" else ws[0] + Concat(ws[1..])
  }

  lemma {:induction false} NonSpaceAppend(a: string, b: string)
    ensures NonSpace(a + b) == NonSpace(a) + NonSpace(b)
  {
    if a != [] {
      assert (a + b)[1..] == a[1..] + b;
      NonSpaceAppend(a[1..], b);
    } else {
      assert a + b == b;
    }
  }

  lemma {:induction false} NonSpaceOfSpaces(s: string)
    requires forall i :: 0 <= i < |s| ==> IsSpace(s[i])
    ensures NonSpace(s) == ""
  {
    if s != [] {
      NonSpaceOfSpaces(s[1..]);
    }
  }

  lemma {:induction false} NonSpaceOfWord(s: string)
    requires NoSpace(s)
    ensures NonSpace(s) == s
  {
    if s != [] {
      NonSpaceOfWord(s[1..]);
      assert s == [s[0]] + s[1..];
    }
  }

  /** The words of `s` hold exactly its non-whitespace characters, in order: nothing else is dropped or added. */
  lemma {:induction false} WordsKeepNonSpace(s: string)
    ensures Concat(Words(s)) == NonSpace(s)
    decreases |s|
  {
    var lead := LeadingSpace(s);
    var t := s[lead..];
    assert s == s[..lead] + t;
    NonSpaceAppend(s[..lead], t);
    NonSpaceOfSpaces(s[..lead]);
    if t != [] {
      var n := WordLength(t);
      assert t == t[..n] + t[n..];
      NonSpaceAppend(t[..n], t[n..]);
      NonSpaceOfWord(t[..n]);
      WordsKeepNonSpace(t[n..]);
      var ws := Words(s);
      assert ws == [t[..n]] + Words(t[n..]);
      assert ws[1..] == Words(t[n..]);
    } else {
      assert NonSpace(t) == "";
    }
  }

  /** A word of `s` starts at `i`: a non-whitespace character at the start of `s` or right after whitespace. */
  predicate WordStartAt(s: string, i: nat) {
    i < |s| && !IsSpace(s[i]) && (i == 0 || IsSpace(s[i - 1]))
  }

  /** The number of word starts at or after position `i`. */
  function WordStartsFrom(s: string, i: nat): nat
    decreases |s| - i
  {
    if i >= |s| then 0
    else (if WordStartAt(s, i) then 1 else 0) + WordStartsFrom(s, i + 1)
  }

  /** No word starts in `[i, j)`: counting from `i` is counting from `j`. */
  lemma {:induction false} NoWordStartsBetween(s: string, i: nat, j: nat)
    requires i <= j <= |s|
    requires forall k :: i <= k < j ==> !WordStartAt(s, k)
    ensures WordStartsFrom(s, i) == WordStartsFrom(s, j)
    decreases j - i
  {
    if i < j {
      NoWordStartsBetween(s, i + 1, j);
    }
  }

  /**
    Cutting off the first `j` characters keeps the word starts from `k` on,
    provided the cut does not make a word start at `j` that was none before.
  */
  lemma {:induction false} WordStartsAfterCut(s: string, j: nat, k: nat)
    requires j <= k <= |s|
    requires k > j || j == 0 || j == |s| || IsSpace(s[j])
    ensures WordStartsFrom(s, k) == WordStartsFrom(s[j..], k - j)
    decreases |s| - k
  {
    if k < |s| {
      assert s[j..][k - j] == s[k];
      if k > j {
        assert s[j..][k - j - 1] == s[k - 1];
      }
      WordStartsAfterCut(s, j, k + 1);
    }
  }

  /**
    Whitespace up to `lead`, then a word of length `n` that ends at the end of
    `s` or at whitespace: exactly one word starts before `lead + n`.
  */
  lemma OneWordStartsFirst(s: string, lead: nat, n: nat)
    requires 1 <= n && lead + n <= |s|
    requires forall k :: 0 <= k < lead ==> IsSpace(s[k])
    requires forall k :: 0 <= k < n ==> !IsSpace(s[lead..][k])
    requires lead + n == |s| || IsSpace(s[lead..][n])
    ensures WordStartsFrom(s, 0) == 1 + WordStartsFrom(s[lead + n..], 0)
  {
    var t := s[lead..];
    forall k | lead <= k < lead + n
      ensures !IsSpace(s[k])
    {
      assert s[k] == t[k - lead];
    }
    NoWordStartsBetween(s, 0, lead);
    assert WordStartAt(s, lead);
    NoWordStartsBetween(s, lead + 1, lead + n);
    WordStartsAfterCut(s, lead + n, lead + n);
  }

  /**
    `split()` makes one word per maximal run of non-whitespace characters: the
    number of words is the number of positions where such a run starts.
  */
  lemma {:induction false} WordCount(s: string)
    ensures |Words(s)| == WordStartsFrom(s, 0)
    decreases |s|
  {
    var lead := LeadingSpace(s);
    var t := s[lead..];
    if t == [] {
      NoWordStartsBetween(s, 0, |s|);
    } else {
      var n := WordLength(t);
      var rest := t[n..];
      assert rest == s[lead + n..];
      WordCount(rest);
      assert Words(s) == [t[..n]] + Words(rest);
      OneWordStartsFirst(s, lead, n);
    }
  }

  /** One decimal digit as a character. */
  function Digit(d: nat): char
    requires d < 10
  {
    ('0' as int + d) as char
  }

  /** Python's `str(n)` (or `f"{n}"`) for a natural number: its decimal digits. */
  function NatToString(n: nat): (s: string)
    ensures |s| >= 1
    ensures forall i :: 0 <= i < |s| ==> '0' <= s[i] <= '9'
  {
    if n < 10 then [Digit(n)] else NatToString(n / 10) + [Digit(n % 10)]
  }

  /** The number a string of decimal digits denotes. */
  function DecimalValue(s: string): nat
    requires forall i :: 0 <= i < |s| ==> '0' <= s[i] <= '9'
  {
    if s == [] then 0
    else DecimalValue(s[..|s| - 1]) * 10 + (s[|s| - 1] as int - '0' as int)
  }

  /** Reading back the digits `NatToString` writes gives the number. */
  lemma {:induction false} NatToStringRoundTrip(n: nat)
    ensures DecimalValue(NatToString(n)) == n
  {
    var s := NatToString(n);
    if n >= 10 {
      NatToStringRoundTrip(n / 10);
      assert s[..|s| - 1] == NatToString(n / 10);
    }
  }
}
