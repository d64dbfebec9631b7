/**
 * The Python `str` primitives the HTTP handler relies on: `isspace`,
 * `startswith`/`endswith`, `strip`, `split()` with no separator,
 * `sep.join`, `replace(x, "")` and `str(int)`.
 */
module PyStr {

  /** `str.isspace` for a single character (the Unicode whitespace set Python uses). */
  predicate IsSpace(c: char) {
    var n := c as int;
    n == 32 || 9 <= n <= 13 || 28 <= n <= 31 || n == 0x85 || n == 0xA0 || n == 0x1680
    || 0x2000 <= n <= 0x200A || n == 0x2028 || n == 0x2029 || n == 0x202F || n == 0x205F
    || n == 0x3000
  }

  predicate StartsWith(s: string, p: string) { |p| <= |s| && s[..|p|] == p }

  predicate EndsWith(s: string, p: string) { |p| <= |s| && s[|s| - |p|..] == p }

  /** `sub in s` for strings. */
  predicate Contains(s: string, sub: string) {
    exists i :: 0 <= i <= |s| && StartsWith(s[i..], sub)
  }

  /** `s.lstrip()`: drops leading whitespace. */
  function StripLeft(s: string): (r: string)
    ensures |r| <= |s| && r == s[|s| - |r|..]
    ensures r == [] || !IsSpace(r[0])
    ensures forall i :: 0 <= i < |s| - |r| ==> IsSpace(s[i])
  {
    if s != [] && IsSpace(s[0]) then StripLeft(s[1..]) else s
  }

  /** `s.rstrip()`: drops trailing whitespace. */
  function StripRight(s: string): (r: string)
    ensures |r| <= |s| && r == s[..|r|]
    ensures r == [] || !IsSpace(r[|r| - 1])
    ensures forall i :: |r| <= i < |s| ==> IsSpace(s[i])
  {
    if s != [] && IsSpace(s[|s| - 1]) then StripRight(s[..|s| - 1]) else s
  }

  /** `s.strip()`. */
  function Strip(s: string): (r: string)
    ensures r == [] || (!IsSpace(r[0]) && !IsSpace(r[|r| - 1]))
    ensures s != [] && !IsSpace(s[0]) && !IsSpace(s[|s| - 1]) ==> r == s
  {
    StripRight(StripLeft(s))
  }

  /** Length of the run of non-whitespace characters that `s` starts with. */
  function WordLen(s: string): (n: nat)
    ensures n <= |s|
    ensures forall i :: 0 <= i < n ==> !IsSpace(s[i])
    ensures n == |s| || IsSpace(s[n])
  {
    if s == [] || IsSpace(s[0]) then 0 else 1 + WordLen(s[1..])
  }

  /** `s.split()`: the maximal runs of non-whitespace characters, in order. */
  function Words(s: string): seq<string>
    decreases |s|
  {
    if s == [] then []
    else if IsSpace(s[0]) then Words(s[1..])
    else
      var n := WordLen(s);
      [s[..n]] + Words(s[n..])
  }

  /** A word as `split()` produces it: non-empty and free of whitespace. */
  predicate IsWord(w: string) {
    w != [] && forall i :: 0 <= i < |w| ==> !IsSpace(w[i])
  }

  /** `sep.join(ws)`. */
  function Join(sep: string, ws: seq<string>): string {
    if ws == [] then []
    else if |ws| == 1 then ws[0]
    else ws[0] + sep + Join(sep, ws[1..])
  }

  /** A string in which whitespace occurs only as single spaces between non-whitespace. */
  predicate SingleSpaced(s: string) {
    && (s == [] || (!IsSpace(s[0]) && !IsSpace(s[|s| - 1])))
    && (forall i :: 0 <= i < |s| && IsSpace(s[i]) ==> s[i] == ' ')
    && (forall i :: 0 <= i < |s| - 1 && IsSpace(s[i]) ==> !IsSpace(s[i + 1]))
  }

  lemma {:induction false} WordsAreWords(s: string)
    ensures forall k :: 0 <= k < |Words(s)| ==> IsWord(Words(s)[k])
    decreases |s|
  {
    if s != [] {
      if IsSpace(s[0]) {
        WordsAreWords(s[1..]);
      } else {
        var n := WordLen(s);
        WordsAreWords(s[n..]);
        var ws := Words(s);
        assert ws == [s[..n]] + Words(s[n..]);
        forall k | 0 <= k < |ws| ensures IsWord(ws[k]) {
          if k > 0 { assert ws[k] == Words(s[n..])[k - 1]; }
        }
      }
    }
  }

  lemma {:induction false} WordsOfSpaceLed(s: string)
    requires s != [] && IsSpace(s[0])
    ensures Words(s) == Words(s[1..])
  {
  }

  /** A word followed by nothing or by whitespace splits off as the first word. */
  lemma {:induction false} WordsOfWordThen(w: string, rest: string)
    requires IsWord(w)
    requires rest == [] || IsSpace(rest[0])
    ensures Words(w + rest) == [w] + Words(rest)
  {
    var s := w + rest;
    WordLenOfWordThen(w, rest);
    assert s[..|w|] == w && s[|w|..] == rest;
  }

  lemma {:induction false} WordLenOfWordThen(w: string, rest: string)
    requires forall i :: 0 <= i < |w| ==> !IsSpace(w[i])
    requires rest == [] || IsSpace(rest[0])
    ensures WordLen(w + rest) == |w|
  {
    if w != [] {
      assert (w + rest)[1..] == w[1..] + rest;
      WordLenOfWordThen(w[1..], rest);
    } else {
      assert w + rest == rest;
    }
  }

  /** `split` undoes `" ".join` on words: the round trip of the explanation cleanup. */
  lemma {:induction false} WordsOfJoin(ws: seq<string>)
    requires forall k :: 0 <= k < |ws| ==> IsWord(ws[k])
    ensures Words(Join(" ", ws)) == ws
  {
    if |ws| == 1 {
      WordsOfWordThen(ws[0], []);
      assert ws[0] + [] == ws[0];
    } else if |ws| > 1 {
      WordsOfJoin(ws[1..]);
      assert Join(" ", ws) == ws[0] + (" " + Join(" ", ws[1..]));
      WordsOfWordSpaceThen(ws[0], Join(" ", ws[1..]));
      assert ws == [ws[0]] + ws[1..];
    }
  }

  /** A word, a space and a text split into the word and the text's words. */
  lemma WordsOfWordSpaceThen(w: string, tail: string)
    requires IsWord(w)
    ensures Words(w + (" " + tail)) == [w] + Words(tail)
  {
    WordsOfWordThen(w, " " + tail);
    WordsOfSpaceLed(" " + tail);
    assert (" " + tail)[1..] == tail;
  }

  /** Joining words with single spaces yields a single-spaced string. */
  lemma {:induction false} JoinSingleSpaced(ws: seq<string>)
    requires forall k :: 0 <= k < |ws| ==> IsWord(ws[k])
    ensures SingleSpaced(Join(" ", ws))
  {
    if |ws| > 1 {
      var w, tail := ws[0], Join(" ", ws[1..]);
      JoinSingleSpaced(ws[1..]);
      JoinNonEmpty(ws[1..]);
      var s := Join(" ", ws);
      assert s == w + " " + tail;
      forall i | 0 <= i < |s| && IsSpace(s[i]) ensures s[i] == ' ' {
        if i > |w| { assert s[i] == tail[i - |w| - 1]; }
      }
      forall i | 0 <= i < |s| - 1 && IsSpace(s[i]) ensures !IsSpace(s[i + 1]) {
        if i > |w| { assert s[i] == tail[i - |w| - 1] && s[i + 1] == tail[i - |w|]; }
        else if i == |w| { assert s[i + 1] == tail[0]; }
      }
      assert s[|s| - 1] == tail[|tail| - 1];
    }
  }

  lemma {:induction false} JoinNonEmpty(ws: seq<string>)
    requires forall k :: 0 <= k < |ws| ==> IsWord(ws[k])
    ensures ws != [] ==> Join(" ", ws) != []
  {
  }

  /** `s.replace("**", "")`: removes non-overlapping "**" pairs, scanning left to right. */
  function DropDoubleStars(s: string): string {
    if |s| >= 2 && s[0] == '*' && s[1] == '*' then DropDoubleStars(s[2..])
    else if s == [] then []
    else [s[0]] + DropDoubleStars(s[1..])
  }

  /** `s.replace("*", "")`. */
  function DropStars(s: string): (r: string)
    ensures forall i :: 0 <= i < |r| ==> r[i] != '*'
    ensures |r| <= |s|
  {
    if s == [] then [] else (if s[0] == '*' then [] else [s[0]]) + DropStars(s[1..])
  }

  /** The two `replace` passes together remove exactly every '*'. */
  lemma {:induction false} DropStarsAfterPairs(s: string)
    ensures DropStars(DropDoubleStars(s)) == DropStars(s)
  {
    if |s| >= 2 && s[0] == '*' && s[1] == '*' {
      DropStarsAfterPairs(s[2..]);
      assert DropStars(s) == DropStars(s[1..]);
      assert s[1..][1..] == s[2..];
    } else if s != [] {
      DropStarsAfterPairs(s[1..]);
      DropStarsConcat([s[0]], DropDoubleStars(s[1..]));
    }
  }

  lemma {:induction false} DropStarsConcat(a: string, b: string)
    ensures DropStars(a + b) == DropStars(a) + DropStars(b)
  {
    if a != [] {
      assert (a + b)[1..] == a[1..] + b;
      DropStarsConcat(a[1..], b);
    } else {
      assert a + b == b;
    }
  }

  function DigitChar(d: nat): char
    requires d < 10
  {
    "0123456789"[d]
  }

  function NatDigits(n: nat): (r: string)
    ensures r != []
    decreases n
  {
    if n < 10 then [DigitChar(n)] else NatDigits(n / 10) + [DigitChar(n % 10)]
  }

  /** `str(i)` for a Python `int`. */
  function IntToString(i: int): string {
    if i < 0 then "-" + NatDigits(-i) else NatDigits(i)
  }
}
