/** The text normaliser `clean_text`, which the query path, the evaluation
    script and the corpus-embedding script each define with the same five
    passes: remove tags, remove URLs, drop non-ASCII characters, lower-case,
    collapse whitespace. One definition serves all three. */
module TextCleaning {

  import opened Seqs

  // ---------------------------------------------------------------------------
  // Characters

  /** Python's `str.isspace()`: the characters `str.split()` and `str.strip()`
      treat as whitespace, and the class `\s` matches in a `re` pattern on a `str`. */
  predicate IsSpace(c: char) {
    var n := c as int;
    (9 <= n <= 13) || (28 <= n <= 32) || n == 0x85 || n == 0xA0 || n == 0x1680
    || (0x2000 <= n <= 0x200A) || n == 0x2028 || n == 0x2029 || n == 0x202F
    || n == 0x205F || n == 0x3000
  }

  predicate IsUpper(c: char) {
    'A' <= c <= 'Z'
  }

  /** Every character is 7-bit ASCII and none is an upper-case letter. */
  predicate IsLowerAscii(s: string) {
    forall i :: 0 <= i < |s| ==> s[i] as int < 128 && !IsUpper(s[i])
  }

  /** The shape `' '.join(text.split())` gives: the only whitespace is ' ',
      never at either end and never two in a row. */
  predicate IsCollapsed(s: string) {
    && (forall i :: 0 <= i < |s| && IsSpace(s[i]) ==> s[i] == ' ')
    && (|s| > 0 ==> s[0] != ' ' && s[|s| - 1] != ' ')
    && (forall i :: 0 <= i < |s| - 1 ==> s[i] != ' ' || s[i + 1] != ' ')
  }

  /** Index of the first `c` in `s`, or `|s|` when there is none. */
  function IndexOf(s: string, c: char): (n: nat)
    ensures n <= |s|
    ensures forall i :: 0 <= i < n ==> s[i] != c
    ensures n < |s| ==> s[n] == c
  {
    if s == [] || s[0] == c then 0 else 1 + IndexOf(s[1..], c)
  }

  /** Length of the longest prefix of `s` without whitespace (what a greedy `\S*` takes). */
  function NonSpaceRun(s: string): (n: nat)
    ensures n <= |s|
    ensures forall i :: 0 <= i < n ==> !IsSpace(s[i])
    ensures n < |s| ==> IsSpace(s[n])
  {
    if s == [] || IsSpace(s[0]) then 0 else 1 + NonSpaceRun(s[1..])
  }

  // ---------------------------------------------------------------------------
  // Passes 1 and 2: re.sub(pattern, '', text)

  /** The two regular expressions `clean_text` deletes. */
  datatype Pattern =
    | Tag   // <[^>]+>
    | Url   // http\S+|www.\S+   (case-sensitive; '.' is any character but '\n')

  /** Length of the match of `p` anchored at the start of `s`, or 0 when `p`
      does not match there (neither pattern matches the empty string). */
  function MatchLength(p: Pattern, s: string): (n: nat)
    ensures n <= |s|
    ensures p == Tag && n > 0 ==>
      3 <= n && s[0] == '<' && s[n - 1] == '>' && forall i :: 1 <= i < n - 1 ==> s[i] != '>'
    ensures p == Tag && n == 0 ==>
      |s| < 3 || s[0] != '<' || s[1] == '>' || forall i :: 1 <= i < |s| ==> s[i] != '>'
    ensures p == Url && n > 0 ==>
      && 5 <= n
      && (s[..4] == "http" || (s[..3] == "www" && s[3] != '\n'))
      && (forall i :: 4 <= i < n ==> !IsSpace(s[i]))
      && (n == |s| || IsSpace(s[n]))
    ensures p == Url && n == 0 ==>
      !(|s| >= 5 && !IsSpace(s[4]) && (s[..4] == "http" || (s[..3] == "www" && s[3] != '\n')))
  {
    match p
    case Tag =>
      if s == [] || s[0] != '<' then 0
      else
        // [^>]+ runs to the first '>' after the '<'; it needs at least one character
        var close := 1 + IndexOf(s[1..], '>');
        if 2 <= close < |s| then close + 1 else 0
    case Url =>
      if |s| >= 5 && !IsSpace(s[4]) && (s[..4] == "http" || (s[..3] == "www" && s[3] != '\n'))
      then 4 + NonSpaceRun(s[4..])
      else 0
  }

  /** `p` matches nowhere in `s`. */
  predicate NoMatch(p: Pattern, s: string) {
    forall i :: 0 <= i < |s| ==> MatchLength(p, s[i..]) == 0
  }

  /** `re.sub(p, '', s)`: scanning left to right, each match is deleted and the
      scan resumes after it; where nothing matches, one character is kept. */
  function RemoveAll(p: Pattern, s: string): (r: string)
    ensures |r| <= |s|
    ensures IsSubsequence(r, s)
    decreases |s|
  {
    if s == [] then ""
    else
      var n := MatchLength(p, s);
      if n > 0 then
        var rest := RemoveAll(p, s[n..]);
        SubsequenceOfSuffix(rest, s, n);
        rest
      else
        var rest := RemoveAll(p, s[1..]);
        assert ([s[0]] + rest)[1..] == rest;
        [s[0]] + rest
  }

  /** Where the pattern matches nowhere, `re.sub` changes nothing. */
  lemma {:induction false} RemoveAllNoMatch(p: Pattern, s: string)
    requires NoMatch(p, s)
    ensures RemoveAll(p, s) == s
    decreases |s|
  {
    if s != [] {
      assert MatchLength(p, s[0..]) == 0;
      assert s[0..] == s;
      assert NoMatch(p, s[1..]) by {
        forall i | 0 <= i < |s[1..]| ensures MatchLength(p, s[1..][i..]) == 0 {
          assert s[1..][i..] == s[i + 1..];
        }
      }
      RemoveAllNoMatch(p, s[1..]);
    }
  }

  // ---------------------------------------------------------------------------
  // Passes 3 and 4

  /** `text.encode('ascii', 'ignore').decode('ascii')`: drops every code point >= 128. */
  function DropNonAscii(s: string): (r: string)
    ensures forall i :: 0 <= i < |r| ==> r[i] as int < 128
    ensures IsSubsequence(r, s)
    ensures (forall i :: 0 <= i < |s| ==> s[i] as int < 128) ==> r == s
  {
    if s == [] then ""
    else if s[0] as int < 128 then [s[0]] + DropNonAscii(s[1..])
    else DropNonAscii(s[1..])
  }

  /** Every ASCII character is kept as often as it occurs, and no other is. */
  lemma {:induction false} DropNonAsciiCounts(s: string)
    ensures forall c :: multiset(DropNonAscii(s))[c] == if c as int < 128 then multiset(s)[c] else 0
  {
    if s != [] {
      DropNonAsciiCounts(s[1..]);
      assert s == [s[0]] + s[1..];
    }
  }

  function LowerChar(c: char): char {
    if IsUpper(c) then (c as int + 32) as char else c
  }

  /** `text.lower()` on a string that is already ASCII: only 'A'..'Z' change. */
  function Lower(s: string): (r: string)
    ensures |r| == |s|
    ensures forall i :: 0 <= i < |s| ==> !IsUpper(r[i])
    ensures forall i :: 0 <= i < |s| && !IsUpper(s[i]) ==> r[i] == s[i]
    ensures (forall i :: 0 <= i < |s| ==> s[i] as int < 128) ==> IsLowerAscii(r)
  {
    if s == [] then "" else [LowerChar(s[0])] + Lower(s[1..])
  }

  lemma {:induction false} LowerAt(s: string)
    ensures forall i :: 0 <= i < |s| ==> Lower(s)[i] == LowerChar(s[i])
  {
    if s != [] {
      LowerAt(s[1..]);
    }
  }

  // ---------------------------------------------------------------------------
  // Pass 5: ' '.join(text.split())

  /** A piece `str.split()` produces: non-empty, no whitespace. */
  predicate IsWord(w: string) {
    |w| > 0 && forall i :: 0 <= i < |w| ==> !IsSpace(w[i])
  }

  /** `s.split()` with no separator: the maximal runs of non-whitespace, in order. */
  function Split(s: string): (ws: seq<string>)
    ensures forall i :: 0 <= i < |ws| ==> IsWord(ws[i])
    ensures IsLowerAscii(s) ==> forall i :: 0 <= i < |ws| ==> IsLowerAscii(ws[i])
    decreases |s|
  {
    if s == [] then []
    else if IsSpace(s[0]) then Split(s[1..])
    else
      var n := NonSpaceRun(s);
      [s[..n]] + Split(s[n..])
  }

  /** `' '.join(ws)`. */
  function Join(ws: seq<string>): (r: string)
    ensures (forall i :: 0 <= i < |ws| ==> IsLowerAscii(ws[i])) ==> IsLowerAscii(r)
  {
    if |ws| == 0 then ""
    else if |ws| == 1 then ws[0]
    else
      var rest := Join(ws[1..]);
      assert forall i :: 0 <= i < |ws[1..]| ==> ws[1..][i] == ws[i + 1];
      ws[0] + " " + rest
  }

  function Collapse(s: string): string {
    Join(Split(s))
  }

  /** Joining words gives the collapsed shape, starting with the first word's
      first character and ending with the last word's last character. */
  lemma {:induction false} JoinWordsCollapsed(ws: seq<string>)
    requires forall i :: 0 <= i < |ws| ==> IsWord(ws[i])
    ensures IsCollapsed(Join(ws))
    ensures |ws| > 0 ==>
      && |Join(ws)| > 0
      && Join(ws)[0] == ws[0][0]
      && IsWord(ws[|ws| - 1])
      && Join(ws)[|Join(ws)| - 1] == ws[|ws| - 1][|ws[|ws| - 1]| - 1]
  {
    if |ws| > 1 {
      JoinWordsCollapsed(ws[1..]);
      var w, rest := ws[0], Join(ws[1..]);
      var r := w + " " + rest;
      assert r == Join(ws);
      assert !IsSpace(rest[0]);
      forall i | 0 <= i < |r| && IsSpace(r[i]) ensures r[i] == ' ' {
        if i > |w| { assert r[i] == rest[i - |w| - 1]; }
      }
      forall i | 0 <= i < |r| - 1 ensures r[i] != ' ' || r[i + 1] != ' ' {
        if i > |w| { assert r[i] == rest[i - |w| - 1] && r[i + 1] == rest[i - |w|]; }
        else if i == |w| { assert r[i + 1] == rest[0]; }
        else if i == |w| - 1 { assert r[i] == w[i] && !IsSpace(w[i]); }
        else { assert r[i] == w[i] && !IsSpace(w[i]); }
      }
    } else if |ws| == 1 {
      assert Join(ws) == ws[0];
    }
  }

  /** Round trip: splitting joined words gives the words back. */
  lemma {:induction false} SplitJoin(ws: seq<string>)
    requires forall i :: 0 <= i < |ws| ==> IsWord(ws[i])
    ensures Split(Join(ws)) == ws
  {
    if |ws| == 1 {
      var w := ws[0];
      assert NonSpaceRun(w) == |w|;
      assert w[..|w|] == w && w[|w|..] == [];
    } else if |ws| > 1 {
      var w, rest := ws[0], Join(ws[1..]);
      var s := w + " " + rest;
      assert s == Join(ws);
      assert forall i :: 0 <= i < |w| ==> s[i] == w[i];
      assert s[|w|] == ' ' && IsSpace(s[|w|]);
      assert NonSpaceRun(s) == |w|;
      assert s[..|w|] == w;
      assert s[|w|..][1..] == rest;
      assert Split(s[|w|..]) == Split(rest);
      SplitJoin(ws[1..]);
    }
  }

  /** The text after a space inside collapsed text is itself collapsed and non-empty. */
  lemma CollapsedAfterSpace(s: string, n: nat)
    requires IsCollapsed(s) && n < |s| && s[n] == ' '
    ensures |s[n + 1..]| > 0 && s[n + 1] != ' ' && IsCollapsed(s[n + 1..])
  {
    var rest := s[n + 1..];
    assert n < |s| - 1;
    forall i | 0 <= i < |rest| - 1 ensures rest[i] != ' ' || rest[i + 1] != ' ' {
      assert rest[i] == s[n + 1 + i] && rest[i + 1] == s[n + 2 + i];
    }
    forall i | 0 <= i < |rest| && IsSpace(rest[i]) ensures rest[i] == ' ' {
      assert rest[i] == s[n + 1 + i];
    }
    assert rest[|rest| - 1] == s[|s| - 1];
  }

  /** One step of `JoinSplit`: the first word, the space after it, and the rest. */
  lemma JoinSplitStep(s: string, n: nat)
    requires 0 < n < |s| && n == NonSpaceRun(s) && s[n] == ' '
    requires |s[n + 1..]| > 0 && !IsSpace(s[n + 1])
    requires Join(Split(s[n + 1..])) == s[n + 1..]
    ensures Join(Split(s)) == s
  {
    var w, rest := s[..n], s[n + 1..];
    assert Split(s) == [w] + Split(s[n..]);
    assert s[n..][1..] == rest;
    assert Split(s[n..]) == Split(rest);
    var ws := Split(rest);
    assert ws != [] by {
      assert NonSpaceRun(rest) > 0;
    }
    assert Join([w] + ws) == w + " " + Join(ws) by {
      assert ([w] + ws)[1..] == ws;
    }
    assert s == w + " " + rest;
  }

  /** Round trip the other way: on collapsed text, joining its words rebuilds it. */
  lemma {:induction false} JoinSplit(s: string)
    requires IsCollapsed(s)
    ensures Join(Split(s)) == s
    decreases |s|
  {
    if s != [] {
      var n := NonSpaceRun(s);
      assert n > 0 by {
        assert s[0] != ' ';
      }
      if n == |s| {
        assert Split(s) == [s[..n]] + Split(s[n..]);
        assert Split(s[n..]) == [];
        assert s[..n] == s;
      } else {
        assert s[n] == ' ' by { assert IsSpace(s[n]); }
        CollapsedAfterSpace(s, n);
        JoinSplit(s[n + 1..]);
        assert !IsSpace(s[n + 1]) by {
          assert s[n + 1..][0] == s[n + 1];
        }
        JoinSplitStep(s, n);
      }
    }
  }

  /** Collapsing never lengthens the text; it strictly shortens text that
      starts with whitespace. */
  lemma {:induction false} CollapseLength(s: string)
    ensures |Collapse(s)| <= |s|
    ensures |s| > 0 && IsSpace(s[0]) ==> |Collapse(s)| < |s|
    decreases |s|
  {
    if s != [] {
      if IsSpace(s[0]) {
        CollapseLength(s[1..]);
      } else {
        var n := NonSpaceRun(s);
        var w, tail := s[..n], s[n..];
        CollapseLength(tail);
        var ws := Split(tail);
        assert Split(s) == [w] + ws;
        if ws == [] {
          assert Join([w]) == w;
        } else {
          assert tail != [] && IsSpace(tail[0]);
          assert Join([w] + ws) == w + " " + Join(ws) by {
            assert ([w] + ws)[1..] == ws;
          }
        }
      }
    }
  }

  /** Collapsing is idempotent and keeps the word sequence. */
  lemma CollapseKeepsWords(s: string)
    ensures Split(Collapse(s)) == Split(s)
    ensures Collapse(Collapse(s)) == Collapse(s)
  {
    SplitJoin(Split(s));
  }

  // ---------------------------------------------------------------------------
  // str.strip() with no argument

  /** Every character of `s` is whitespace. */
  predicate AllSpace(s: string) {
    forall i :: 0 <= i < |s| ==> IsSpace(s[i])
  }

  /** Where the run of whitespace starting at `i` ends: the first index at
      or after `i` that holds no whitespace, or `|s|`. */
  function SpaceRunEnd(s: string, i: nat): (n: nat)
    requires i <= |s|
    ensures i <= n <= |s|
    ensures forall k :: i <= k < n ==> IsSpace(s[k])
    ensures n < |s| ==> !IsSpace(s[n])
    decreases |s| - i
  {
    if i == |s| || !IsSpace(s[i]) then i else SpaceRunEnd(s, i + 1)
  }

  /** Where the run of whitespace ending at `j` starts, looking no further
      back than `lo`. */
  function SpaceRunStart(s: string, lo: nat, j: nat): (m: nat)
    requires lo <= j <= |s|
    ensures lo <= m <= j
    ensures forall k :: m <= k < j ==> IsSpace(s[k])
    ensures m > lo ==> !IsSpace(s[m - 1])
    decreases j
  {
    if j == lo || !IsSpace(s[j - 1]) then j else SpaceRunStart(s, lo, j - 1)
  }

  /** `r` is the slice of `s` starting at `a` with only whitespace around it. */
  predicate IsTrimmedSlice(s: string, r: string, a: int) {
    && 0 <= a <= |s| - |r| && r == s[a..a + |r|]
    && AllSpace(s[..a]) && AllSpace(s[a + |r|..])
  }

  /** `s.strip()`: the slice of `s` left after removing whitespace at both
      ends; it neither starts nor ends with whitespace. */
  function Strip(s: string): (r: string)
    ensures |r| == 0 || (!IsSpace(r[0]) && !IsSpace(r[|r| - 1]))
    ensures exists a :: IsTrimmedSlice(s, r, a)
  {
    var n := SpaceRunEnd(s, 0);
    var m := SpaceRunStart(s, n, |s|);
    TrimmedSliceOfRuns(s, n, m);
    s[n..m]
  }

  /** Cutting the whitespace runs `s[..n]` and `s[m..]` off `s` leaves a
      trimmed slice. */
  lemma TrimmedSliceOfRuns(s: string, n: nat, m: nat)
    requires n <= m <= |s|
    requires forall k :: 0 <= k < n ==> IsSpace(s[k])
    requires forall k :: m <= k < |s| ==> IsSpace(s[k])
    ensures IsTrimmedSlice(s, s[n..m], n)
  {
    assert forall k :: 0 <= k < n ==> s[..n][k] == s[k];
    assert forall k :: 0 <= k < |s| - m ==> s[m..][k] == s[m + k];
  }

  /** A character that is not whitespace lies past an all-whitespace prefix. */
  lemma NonSpaceAfterPrefix(s: string, n: int, k: int)
    requires 0 <= n <= |s| && AllSpace(s[..n])
    requires 0 <= k < |s| && !IsSpace(s[k])
    ensures n <= k
  {
    assert forall i :: 0 <= i < n ==> s[..n][i] == s[i];
  }

  /** A character that is not whitespace lies before an all-whitespace suffix. */
  lemma NonSpaceBeforeSuffix(s: string, m: int, k: int)
    requires 0 <= m <= |s| && AllSpace(s[m..])
    requires 0 <= k < |s| && !IsSpace(s[k])
    ensures k < m
  {
    assert forall i :: m <= i < |s| ==> s[m..][i - m] == s[i];
  }

  /** Stripping text that neither starts nor ends with whitespace changes nothing. */
  lemma StripUnchanged(s: string)
    requires |s| == 0 || (!IsSpace(s[0]) && !IsSpace(s[|s| - 1]))
    ensures Strip(s) == s
  {
  }

  /** Text made only of whitespace strips to "". */
  lemma StripAllSpace(s: string)
    requires AllSpace(s)
    ensures Strip(s) == ""
  {
  }

  lemma StripIdempotent(s: string)
    ensures Strip(Strip(s)) == Strip(s)
  {
    StripUnchanged(Strip(s));
  }

  /** A slice of lower-case ASCII text is lower-case ASCII. */
  lemma StripKeepsLowerAscii(s: string)
    requires IsLowerAscii(s)
    ensures IsLowerAscii(Strip(s))
  {
    var r := Strip(s);
    var a :| IsTrimmedSlice(s, r, a);
    SliceKeepsLowerAscii(s, a, a + |r|);
  }

  lemma SliceKeepsLowerAscii(s: string, a: int, b: int)
    requires IsLowerAscii(s) && 0 <= a <= b <= |s|
    ensures IsLowerAscii(s[a..b])
  {
    assert forall i :: 0 <= i < b - a ==> s[a..b][i] == s[a + i];
  }

  // ---------------------------------------------------------------------------
  // The whole cleaner

  /** `clean_text(text)` for a `str` argument (so `str(text)` is the identity). */
  function CleanText(s: string): (r: string)
    ensures IsLowerAscii(r)
    ensures IsCollapsed(r)
    ensures |r| <= |s|
  {
    var noTags := RemoveAll(Tag, s);
    var noUrls := RemoveAll(Url, noTags);
    var ascii := DropNonAscii(noUrls);
    SubsequenceLength(ascii, noUrls);
    var lower := Lower(ascii);
    JoinWordsCollapsed(Split(lower));
    CollapseLength(lower);
    Collapse(lower)
  }

  /** Text with no tag, no URL match, no non-ASCII or upper-case character and
      collapsed whitespace is left exactly as it is. */
  lemma CleanTextFixpoint(t: string)
    requires IsLowerAscii(t) && IsCollapsed(t)
    requires NoMatch(Tag, t) && NoMatch(Url, t)
    ensures CleanText(t) == t
  {
    RemoveAllNoMatch(Tag, t);
    RemoveAllNoMatch(Url, t);
    assert Lower(t) == t;
    JoinSplit(t);
  }

  /** Cleaning twice equals cleaning once when the first result holds
      no URL or tag match; the counterexamples below show such matches arise. */
  lemma CleanTextIdempotentWhenNoMarkupLeft(s: string)
    requires NoMatch(Tag, CleanText(s)) && NoMatch(Url, CleanText(s))
    ensures CleanText(CleanText(s)) == CleanText(s)
  {
    CleanTextFixpoint(CleanText(s));
  }

  /** Text that is one tag from end to end cleans to "". */
  lemma CleanTextOfTag(s: string)
    requires MatchLength(Tag, s) == |s| > 0
    ensures CleanText(s) == ""
  {
    assert RemoveAll(Tag, s) == RemoveAll(Tag, s[|s|..]);
    assert Split("") == [];
  }

  /** With no tag and no URL to delete, cleaning is the last three passes. */
  lemma CleanTextWithoutMarkup(s: string)
    requires NoMatch(Tag, s) && NoMatch(Url, s)
    ensures CleanText(s) == Collapse(Lower(DropNonAscii(s)))
  {
    RemoveAllNoMatch(Tag, s);
    RemoveAllNoMatch(Url, s);
  }

  /** A string holding a single URL match and nothing else cleans to "". */
  lemma CleanTextOfUrl(s: string)
    requires NoMatch(Tag, s) && MatchLength(Url, s) == |s| > 0
    ensures CleanText(s) == ""
  {
    RemoveAllNoMatch(Tag, s);
    assert RemoveAll(Url, s) == RemoveAll(Url, s[|s|..]);
    assert Split("") == [];
  }

  lemma NoTagWithoutAngle(s: string)
    requires forall i :: 0 <= i < |s| ==> s[i] != '<'
    ensures NoMatch(Tag, s)
  {
    forall i | 0 <= i < |s| ensures MatchLength(Tag, s[i..]) == 0 {
      assert s[i..][0] == s[i];
    }
  }

  /** Lower-case letters and dots with no whitespace are already collapsed. */
  lemma PlainIsCollapsed(t: string)
    requires forall i :: 0 <= i < |t| ==> 'a' <= t[i] <= 'z' || t[i] == '.'
    ensures IsCollapsed(t) && Collapse(t) == t
  {
    JoinSplit(t);
  }

  /** Text without markup whose last three passes give plain lower-case
      letters and dots cleans to exactly that. */
  lemma CleanTextOfPlain(s: string, t: string)
    requires NoMatch(Tag, s) && NoMatch(Url, s)
    requires Lower(DropNonAscii(s)) == t
    requires forall i :: 0 <= i < |t| ==> 'a' <= t[i] <= 'z' || t[i] == '.'
    ensures CleanText(s) == t
  {
    CleanTextWithoutMarkup(s);
    PlainIsCollapsed(t);
  }

  // The concrete strings below are parameters pinned by a requires clause, so
  // that the verifier does not unfold every function on literal arguments.

  lemma UpperCaseUrlSteps(s: string)
    requires s == "HTTPx" || s == "WWW.a"
    ensures NoMatch(Tag, s) && NoMatch(Url, s)
  {
    NoTagWithoutAngle(s);
    assert s[0..][..4][0] != "http"[0] && s[0..][..3][0] != "www"[0];
  }

  lemma UpperCaseUrlLowered(s: string)
    requires s == "HTTPx" || s == "WWW.a"
    ensures s == "HTTPx" ==> Lower(DropNonAscii(s)) == "httpx"
    ensures s == "WWW.a" ==> Lower(DropNonAscii(s)) == "www.a"
  {
    assert DropNonAscii(s) == s;
    LowerAt(s);
  }

  lemma AccentedSteps(s: string)
    requires s == "ht\U{e9}tpx"
    ensures NoMatch(Tag, s) && NoMatch(Url, s)
  {
    NoTagWithoutAngle(s);
    assert s[0..][..4][2] != "http"[2] && s[0..][..3][0] != "www"[0];
    assert s[1..][..4][0] != "http"[0] && s[1..][..3][0] != "www"[0];
  }

  lemma AccentedLowered(s: string)
    requires s == "ht\U{e9}tpx"
    ensures Lower(DropNonAscii(s)) == "httpx"
  {
    AccentedDropped(s);
    LowerUnchanged("httpx");
  }

  lemma AccentedDropped(s: string)
    requires s == "ht\U{e9}tpx"
    ensures DropNonAscii(s) == "httpx"
  {
    assert DropNonAscii(s) == "ht" + DropNonAscii(s[2..]);
    assert DropNonAscii(s[2..]) == DropNonAscii(s[3..]);
    assert s[3..] == "tpx";
  }

  lemma LowerUnchanged(s: string)
    requires forall i :: 0 <= i < |s| ==> !IsUpper(s[i])
    ensures Lower(s) == s
  {
    assert forall i :: 0 <= i < |s| ==> Lower(s)[i] == s[i];
  }

  lemma CleanLowerUrl(s: string)
    requires s == "httpx" || s == "www.a"
    ensures CleanText(s) == ""
  {
    NoTagWithoutAngle(s);
    assert s[..4] == "http" || s[..3] == "www";
    CleanTextOfUrl(s);
  }

  // `clean_text` is not idempotent: the URL pattern is case-sensitive and runs
  // before lower-casing, and dropping a non-ASCII character can join "http".
  // Each input below cleans to a URL, which a second cleaning deletes.

  lemma UpperHttpNotIdempotent(s: string)
    requires s == "HTTPx"
    ensures CleanText(s) == "httpx" && CleanText(CleanText(s)) == ""
  {
    UpperCaseUrlSteps(s);
    UpperCaseUrlLowered(s);
    CleanTextOfPlain(s, "httpx");
    CleanLowerUrl(CleanText(s));
  }

  lemma UpperWwwNotIdempotent(s: string)
    requires s == "WWW.a"
    ensures CleanText(s) == "www.a" && CleanText(CleanText(s)) == ""
  {
    UpperCaseUrlSteps(s);
    UpperCaseUrlLowered(s);
    CleanTextOfPlain(s, "www.a");
    CleanLowerUrl(CleanText(s));
  }

  lemma AccentedNotIdempotent(s: string)
    requires s == "ht\U{e9}tpx"
    ensures CleanText(s) == "httpx" && CleanText(CleanText(s)) == ""
  {
    AccentedSteps(s);
    AccentedLowered(s);
    CleanTextOfPlain(s, "httpx");
    CleanLowerUrl(CleanText(s));
  }
}
