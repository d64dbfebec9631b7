/**
 * The text handling of `process_message`: the normaliser applied to the
 * language model's reply before it is parsed (`clean_json_response`), the
 * required-field check on the parsed reply, and the cleanup of the
 * generated cluster explanation.
 */
module ReplyText {
  import opened PyStr
  import opened PyJson
  import Seqs

  /**
   * `clean_json_response`: strips a leading "```json" or "```" fence and a
   * trailing "```", trims whitespace, then forces the text to start with
   * '{' and end with '}'.
   */
  function CleanJsonResponse(text: string): (r: string)
    ensures |r| >= 2 && r[0] == '{' && r[|r| - 1] == '}'
  {
    Braced(Strip(DropFences(text)))
  }

  /** The fence removal: "```json" or "```" at the start, "```" at the end. */
  function DropFences(text: string): string {
    var t1 := if StartsWith(text, "```json") then text[7..] else text;
    var t2 := if StartsWith(t1, "```") then t1[3..] else t1;
    if EndsWith(t2, "```") then t2[..|t2| - 3] else t2
  }

  /** Prefixes '{' and suffixes '}' where they are missing. */
  function Braced(t: string): (r: string)
    ensures |r| >= 2 && r[0] == '{' && r[|r| - 1] == '}'
    ensures |t| >= 1 && t[0] == '{' && t[|t| - 1] == '}' ==> r == t
  {
    var t5 := if |t| >= 1 && t[0] == '{' then t else "{" + t;
    assert t5[0] == '{';
    if t5[|t5| - 1] == '}' then t5 else t5 + "}"
  }

  /** Text that already starts with '{' and ends with '}' is returned unchanged. */
  lemma CleanJsonResponseKeepsBraced(text: string)
    requires |text| >= 1 && text[0] == '{' && text[|text| - 1] == '}'
    ensures CleanJsonResponse(text) == text
  {
    assert !StartsWith(text, "```json") by { if |text| >= 7 { assert text[..7][0] != "```json"[0]; } }
    assert !StartsWith(text, "```") by { if |text| >= 3 { assert text[..3][0] != "```"[0]; } }
    assert !EndsWith(text, "```") by { if |text| >= 3 { assert text[|text| - 3..][2] != "```"[2]; } }
    assert DropFences(text) == text;
  }

  /** Cleaning is idempotent: a cleaned reply is a fixed point. */
  lemma CleanJsonResponseIdempotent(text: string)
    ensures CleanJsonResponse(CleanJsonResponse(text)) == CleanJsonResponse(text)
  {
    CleanJsonResponseKeepsBraced(CleanJsonResponse(text));
  }

  /** The eleven fields a reservation reply must carry, in the order they are reported. */
  const RequiredFields: seq<string> := [
    "h_num_per", "h_num_adu", "h_num_men", "h_num_noc", "h_tot_hab", "h_tfa_total",
    "ID_Tipo_Habitacion", "ID_canal", "ID_Pais_Origen", "ID_Segmento_Comp", "ID_Agencia"
  ]

  /** `field not in parsed or parsed[field] is None`. */
  predicate Absent(parsed: Object, field: string) {
    !HasKey(parsed, field) || Get(parsed, field) == JNull
  }

  /** No required field is listed twice. */
  lemma RequiredFieldsDistinct()
    ensures forall i, j :: 0 <= i < j < |RequiredFields| ==> RequiredFields[i] != RequiredFields[j]
  {
    forall i, j | 0 <= i < j < |RequiredFields| ensures RequiredFields[i] != RequiredFields[j] {
      var a, b := RequiredFields[i], RequiredFields[j];
      assert |a| != |b| || a[2] != b[2] || a[6] != b[6];
    }
  }

  /**
   * `missing_fields`: the required fields that are absent or null, in
   * `RequiredFields` order, each once.
   */
  function MissingFields(parsed: Object): (r: seq<string>)
    ensures forall f :: f in r <==> f in RequiredFields && Absent(parsed, f)
    ensures Seqs.IsSubsequence(r, RequiredFields)
    ensures forall i, j :: 0 <= i < j < |r| ==> r[i] != r[j]
  {
    var p := (f: string) => Absent(parsed, f);
    RequiredFieldsDistinct();
    Seqs.FilterMembership(RequiredFields, p);
    Seqs.FilterIsSubsequence(RequiredFields, p);
    Seqs.FilterDistinct(RequiredFields, p);
    Seqs.Filter(RequiredFields, p)
  }

  /** The reply passes the check exactly when all eleven fields are present and non-null. */
  lemma MissingFieldsEmpty(parsed: Object)
    ensures MissingFields(parsed) == [] <==> forall f :: f in RequiredFields ==> HasKey(parsed, f) && Get(parsed, f) != JNull
  {
    var r := MissingFields(parsed);
    if r != [] { assert r[0] in r; }
  }

  /**
   * The explanation cleanup: removes "**" and then every '*', joins the
   * whitespace-separated words with single spaces and appends '.' unless
   * the text already ends with one.
   */
  function CleanExplanation(content: string): (r: string)
    ensures r != [] && r[|r| - 1] == '.'
    ensures forall i :: 0 <= i < |r| ==> r[i] != '*'
    ensures SingleSpaced(r)
    ensures EndsWith(Join(" ", Words(DropStars(content))), ".") ==> r == Join(" ", Words(DropStars(content)))
  {
    WordsOfStrippedStarless(content);
    WithFullStop(SingleSpacedWords(DropStars(DropDoubleStars(Strip(content)))))
  }

  /** `" ".join(s.split())` for a text without '*'. */
  function SingleSpacedWords(s: string): (r: string)
    requires forall i :: 0 <= i < |s| ==> s[i] != '*'
    ensures SingleSpaced(r)
    ensures forall i :: 0 <= i < |r| ==> r[i] != '*'
  {
    WordsAreWords(s);
    JoinSingleSpaced(Words(s));
    WordsCharsFrom(s);
    JoinHasNoStars(Words(s));
    Join(" ", Words(s))
  }

  /** Appends '.' unless the text already ends with one. */
  function WithFullStop(s: string): (r: string)
    requires SingleSpaced(s) && forall i :: 0 <= i < |s| ==> s[i] != '*'
    ensures r != [] && r[|r| - 1] == '.'
    ensures SingleSpaced(r) && forall i :: 0 <= i < |r| ==> r[i] != '*'
    ensures EndsWith(s, ".") ==> r == s
  {
    if EndsWith(s, ".") then
      assert s[|s| - 1] == s[|s| - 1..][0];
      s
    else s + "."
  }

  /** Every character of every word comes from the split text. */
  lemma {:induction false} WordsCharsFrom(s: string)
    ensures forall k, i :: 0 <= k < |Words(s)| && 0 <= i < |Words(s)[k]| ==> Words(s)[k][i] in s
    decreases |s|
  {
    if s != [] {
      if IsSpace(s[0]) {
        WordsCharsFrom(s[1..]);
        forall c | c in s[1..] ensures c in s { }
      } else {
        var n := WordLen(s);
        WordsCharsFrom(s[n..]);
        var ws := Words(s);
        assert ws == [s[..n]] + Words(s[n..]);
        forall k, i | 0 <= k < |ws| && 0 <= i < |ws[k]| ensures ws[k][i] in s {
          if k == 0 { assert ws[k][i] == s[i]; }
          else {
            assert ws[k] == Words(s[n..])[k - 1];
            assert ws[k][i] in s[n..];
            var m :| 0 <= m < |s[n..]| && s[n..][m] == ws[k][i];
            assert s[n + m] == ws[k][i];
          }
        }
      }
    }
  }

  lemma {:induction false} JoinHasNoStars(ws: seq<string>)
    requires forall k :: 0 <= k < |ws| ==> forall i :: 0 <= i < |ws[k]| ==> ws[k][i] != '*'
    ensures forall i :: 0 <= i < |Join(" ", ws)| ==> Join(" ", ws)[i] != '*'
  {
    if |ws| > 1 {
      JoinHasNoStars(ws[1..]);
      var s := Join(" ", ws);
      assert s == ws[0] + " " + Join(" ", ws[1..]);
      forall i | 0 <= i < |s| ensures s[i] != '*' {
        if i > |ws[0]| { assert s[i] == Join(" ", ws[1..])[i - |ws[0]| - 1]; }
      }
    }
  }

  /**
   * Stripping the reply first does not change its words: the cleanup keeps
   * exactly the words of the reply once its '*' are gone.
   */
  lemma WordsOfStrippedStarless(content: string)
    ensures Words(DropStars(DropDoubleStars(Strip(content)))) == Words(DropStars(content))
  {
    var pre, post := StripSplit(content);
    WordsOfPaddedStarless(pre, Strip(content), post);
  }

  /** A text is its stripped form with whitespace before and after. */
  lemma StripSplit(content: string) returns (pre: string, post: string)
    ensures content == pre + (Strip(content) + post)
    ensures AllSpace(pre) && AllSpace(post)
  {
    var left := StripLeft(content);
    pre := StripLeftSplit(content);
    post := StripRightSplit(left);
  }

  /** A text is its left-stripped form after some whitespace. */
  lemma StripLeftSplit(s: string) returns (pre: string)
    ensures s == pre + StripLeft(s) && AllSpace(pre)
  {
    pre := s[..|s| - |StripLeft(s)|];
  }

  /** A text is its right-stripped form before some whitespace. */
  lemma StripRightSplit(s: string) returns (post: string)
    ensures s == StripRight(s) + post && AllSpace(post)
  {
    var mid := StripRight(s);
    post := s[|mid|..];
    assert AllSpace(post) by {
      forall i | 0 <= i < |post| ensures IsSpace(post[i]) { assert post[i] == s[|mid| + i]; }
    }
  }

  predicate AllSpace(s: string) {
    forall i :: 0 <= i < |s| ==> IsSpace(s[i])
  }

  /** Whitespace around a text does not change the words left once its '*' are removed. */
  lemma WordsOfPaddedStarless(pre: string, mid: string, post: string)
    requires AllSpace(pre) && AllSpace(post)
    ensures Words(DropStars(DropDoubleStars(mid))) == Words(DropStars(pre + (mid + post)))
  {
    var core := DropStars(mid);
    DropStarsConcat(pre, mid + post);
    DropStarsConcat(mid, post);
    DropStarsOfSpaces(pre);
    DropStarsOfSpaces(post);
    DropStarsAfterPairs(mid);
    WordsSpacePrefix(pre, core + post);
    WordsSpaceSuffix(core, post);
  }

  lemma {:induction false} DropStarsOfSpaces(s: string)
    requires forall i :: 0 <= i < |s| ==> IsSpace(s[i])
    ensures DropStars(s) == s
  {
    if s != [] {
      DropStarsOfSpaces(s[1..]);
      assert s == [s[0]] + s[1..];
    }
  }

  /** Leading whitespace does not change the words. */
  lemma {:induction false} WordsSpacePrefix(sp: string, s: string)
    requires forall i :: 0 <= i < |sp| ==> IsSpace(sp[i])
    ensures Words(sp + s) == Words(s)
  {
    if sp != [] {
      assert (sp + s)[1..] == sp[1..] + s;
      WordsSpacePrefix(sp[1..], s);
    } else {
      assert sp + s == s;
    }
  }

  /** Trailing whitespace does not change the words. */
  lemma {:induction false} WordsSpaceSuffix(s: string, sp: string)
    requires forall i :: 0 <= i < |sp| ==> IsSpace(sp[i])
    ensures Words(s + sp) == Words(s)
    decreases |s|
  {
    if s == [] {
      assert s + sp == sp;
      WordsSpacePrefix(sp, []);
      assert sp + [] == sp;
    } else if IsSpace(s[0]) {
      assert (s + sp)[1..] == s[1..] + sp;
      WordsSpaceSuffix(s[1..], sp);
    } else {
      var n := WordLen(s);
      var w := s[..n];
      WordLenOfWordThen(w, s[n..] + sp);
      assert s + sp == w + (s[n..] + sp);
      assert s == w + s[n..];
      assert (s + sp)[..n] == w && (s + sp)[n..] == s[n..] + sp;
      WordsSpaceSuffix(s[n..], sp);
    }
  }

  /**
   * The cleaned explanation holds the reply's words (without '*') in
   * order; at most the last word gains a final '.'.
   */
  lemma CleanExplanationWords(content: string)
    ensures var ws := Words(DropStars(content));
      var r := CleanExplanation(content);
      r == Join(" ", ws) || r == Join(" ", ws) + "."
  {
    WordsOfStrippedStarless(content);
  }
}
