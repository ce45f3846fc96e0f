/** The corpus side of the evaluation sample: the text each product is
    embedded from, the de-duplication of products, and the two files the
    script writes (the embeddings and the `parent_asin` column), which the
    evaluation reads back as parallel arrays. The sentence encoder,
    `literal_eval` and `json.loads` are parameters. */
module ComputeEmbeddings {

  import opened Wrappers
  import opened Seqs
  import opened TextCleaning
  import opened Json
  import opened Dataset

  // ---------------------------------------------------------------------------
  // List columns: clean_text(' '.join(literal_eval(cell)))

  /** What `literal_eval` returns, as `' '.join` sees it: an iterable of
      strings (a list, a tuple, a set, or the keys of a dict, in iteration
      order), a single string (iterated character by character), or anything
      else, which `join` rejects with a `TypeError`. */
  datatype Literal = StrItems(items: seq<string>) | Str(text: string) | NotStrings

  /** `' '.join(value)`; `None` is the `TypeError`. */
  function JoinLiteral(l: Literal): (r: Option<string>)
    ensures r.None? <==> l.NotStrings?
    ensures l.StrItems? ==> r == Some(Join(l.items))
    ensures l.Str? ==> |r.value| == if |l.text| == 0 then 0 else 2 * |l.text| - 1
    ensures l.Str? ==> forall i :: 0 <= i < |l.text| ==> r.value[2 * i] == l.text[i]
    ensures l.Str? ==> forall i :: 0 <= i < |l.text| - 1 ==> r.value[2 * i + 1] == ' '
  {
    match l
    case StrItems(items) => Some(Join(items))
    case Str(text) =>
      var chars := seq(|text|, i requires 0 <= i < |text| => [text[i]]);
      JoinSingles(chars);
      Some(Join(chars))
    case NotStrings => None
  }

  /** Joining one-character pieces puts a space between every two of them. */
  lemma {:induction false} JoinSingles(chars: seq<string>)
    requires forall i :: 0 <= i < |chars| ==> |chars[i]| == 1
    ensures |Join(chars)| == if |chars| == 0 then 0 else 2 * |chars| - 1
    ensures forall i :: 0 <= i < |chars| ==> Join(chars)[2 * i] == chars[i][0]
    ensures forall i :: 0 <= i < |chars| - 1 ==> Join(chars)[2 * i + 1] == ' '
  {
    if |chars| > 1 {
      var rest := chars[1..];
      JoinSingles(rest);
      var r := Join(chars);
      assert r == chars[0] + " " + Join(rest);
      forall i | 1 <= i < |chars| ensures r[2 * i] == chars[i][0] {
        assert r[2 * i] == Join(rest)[2 * (i - 1)];
        assert rest[i - 1] == chars[i];
      }
      forall i | 1 <= i < |chars| - 1 ensures r[2 * i + 1] == ' ' {
        assert r[2 * i + 1] == Join(rest)[2 * (i - 1) + 1];
      }
    }
  }

  /** The `features` or `description` part. `literalEval` stands for
      `ast.literal_eval`, `None` for the `ValueError`/`SyntaxError` it raises
      on malformed text; neither that nor the `TypeError` is caught, so both
      make the whole row fail. An empty cell contributes "". */
  function ListPart(cell: Option<string>, literalEval: string -> Option<Literal>): (r: Option<string>)
    ensures cell.None? ==> r == Some("")
    ensures cell.Some? ==> (r.None? <==> literalEval(cell.value).None? || literalEval(cell.value).value.NotStrings?)
    ensures forall items :: cell.Some? && literalEval(cell.value) == Some(StrItems(items)) ==>
      r == Some(CleanText(Join(items)))
    ensures forall t :: cell.Some? && literalEval(cell.value) == Some(Str(t)) ==>
      r == Some(CleanText(JoinLiteral(Str(t)).value))
    ensures r.Some? ==> IsLowerAscii(r.value) && IsCollapsed(r.value)
  {
    match cell
    case None => Some("")
    case Some(text) =>
      match literalEval(text)
      case None => None
      case Some(l) =>
        match JoinLiteral(l)
        case None => None
        case Some(joined) => Some(CleanText(joined))
  }

  // ---------------------------------------------------------------------------
  // The details column

  /** `details_raw.replace("'", '"')`. */
  function ReplaceQuotes(s: string): (r: string)
    ensures |r| == |s| && '\'' !in r
    ensures forall i :: 0 <= i < |s| && s[i] != '\'' ==> r[i] == s[i]
    ensures forall i :: 0 <= i < |s| && s[i] == '\'' ==> r[i] == '"'
  {
    if s == [] then []
    else
      var rest := ReplaceQuotes(s[1..]);
      assert forall i :: 1 <= i < |s| ==> s[i] == s[1..][i - 1];
      [if s[0] == '\'' then '"' else s[0]] + rest
  }

  /** Replacing again changes nothing, and the double quotes afterwards are
      the double and the single quotes before. */
  lemma {:induction false} ReplaceQuotesComplete(s: string)
    ensures ReplaceQuotes(ReplaceQuotes(s)) == ReplaceQuotes(s)
    ensures multiset(ReplaceQuotes(s))['"'] == multiset(s)['"'] + multiset(s)['\'']
  {
    if s != [] {
      ReplaceQuotesComplete(s[1..]);
      assert s == [s[0]] + s[1..];
      assert ReplaceQuotes(s) == [ReplaceQuotes(s)[0]] + ReplaceQuotes(s[1..]);
    }
  }

  /** `str(v)` in an f-string: a string as itself, `None`, `True`, `False` by
      name; `reprOther` stands for Python's rendering of numbers, lists and
      dicts. */
  function PyStr(v: Json, reprOther: Json -> string): string {
    match v
    case JString(s) => s
    case JNull => "None"
    case JBool(b) => if b then "True" else "False"
    case _ => reprOther(v)
  }

  /** `[f"{k}: {v}" for k, v in details_dict.items()]`, in insertion order. */
  function DetailPairs(members: seq<(string, Json)>, reprOther: Json -> string): (r: seq<string>)
    ensures |r| == |members|
    ensures forall i :: 0 <= i < |members| ==>
      var k := members[i].0;
      && |r[i]| == |k| + 2 + |PyStr(members[i].1, reprOther)|
      && r[i][..|k|] == k && r[i][|k|..|k| + 2] == ": " && r[i][|k| + 2..] == PyStr(members[i].1, reprOther)
  {
    seq(|members|, i requires 0 <= i < |members| => members[i].0 + ": " + PyStr(members[i].1, reprOther))
  }

  /** An integer and an integral float are different JSON values, so the
      pairs can render them as Python does: `{'w': 1}` gives "w: 1" and
      `{'w': 1.0}` gives "w: 1.0". */
  lemma IntAndFloatRenderApart(reprOther: Json -> string)
    requires reprOther(JInt(1)) == "1" && reprOther(JFloat(1.0)) == "1.0"
    ensures DetailPairs([("w", JInt(1))], reprOther) == ["w: 1"]
    ensures DetailPairs([("w", JFloat(1.0))], reprOther) == ["w: 1.0"]
  {
    assert PyStr(JInt(1), reprOther) == "1" && PyStr(JFloat(1.0), reprOther) == "1.0";
    assert "w" + ": " + "1" == "w: 1" && "w" + ": " + "1.0" == "w: 1.0";
  }

  /** The `details` part. `jsonLoads` stands for `json.loads`, `None` for the
      `JSONDecodeError` that is caught and gives "". A decoded value that is
      not an object has no `.items()`; that `AttributeError` is not caught and
      the row fails. An empty cell is decoded as "". */
  function DetailsPart(cell: Option<string>, jsonLoads: string -> Option<Json>,
                       reprOther: Json -> string): (r: Option<string>)
    ensures var raw := if cell.Some? then cell.value else "";
      && (jsonLoads(ReplaceQuotes(raw)).None? ==> r == Some(""))
      && (r.None? <==> jsonLoads(ReplaceQuotes(raw)).Some? && !jsonLoads(ReplaceQuotes(raw)).value.JObject?)
      && (forall m :: jsonLoads(ReplaceQuotes(raw)) == Some(JObject(m)) ==>
            r == Some(CleanText(Join(DetailPairs(m, reprOther)))))
    ensures r.Some? ==> IsLowerAscii(r.value) && IsCollapsed(r.value)
  {
    var raw := if cell.Some? then cell.value else "";
    match jsonLoads(ReplaceQuotes(raw))
    case None => Some("")
    case Some(JObject(members)) => Some(CleanText(Join(DetailPairs(members, reprOther))))
    case Some(_) => None
  }

  // ---------------------------------------------------------------------------
  // preprocess_text

  /** The title part: "" for an empty cell. */
  function TitlePart(cell: Option<string>): (r: string)
    ensures cell.None? ==> r == ""
    ensures IsLowerAscii(r) && IsCollapsed(r)
  {
    if cell.Some? then CleanText(cell.value) else ""
  }

  /** `f"{title} {features} {description} {details}".strip()`. */
  function CombineParts(title: string, features: string, description: string, details: string): (r: string)
    ensures |r| == 0 || (!IsSpace(r[0]) && !IsSpace(r[|r| - 1]))
    ensures exists a :: IsTrimmedSlice(title + " " + features + " " + description + " " + details, r, a)
  {
    Strip(title + " " + features + " " + description + " " + details)
  }

  /** `preprocess_text(row)`; `None` when it raises. */
  function PreprocessText(row: Row, literalEval: string -> Option<Literal>,
                          jsonLoads: string -> Option<Json>, reprOther: Json -> string): (r: Option<string>)
    ensures r.Some? ==> IsLowerAscii(r.value)
    ensures r.Some? ==> |r.value| == 0 || (!IsSpace(r.value[0]) && !IsSpace(r.value[|r.value| - 1]))
    ensures r.None? <==> (ListPart(row.features, literalEval).None?
      || ListPart(row.description, literalEval).None?
      || DetailsPart(row.details, jsonLoads, reprOther).None?)
    ensures r.Some? ==> r.value == CombineParts(TitlePart(row.title),
      ListPart(row.features, literalEval).value, ListPart(row.description, literalEval).value,
      DetailsPart(row.details, jsonLoads, reprOther).value)
  {
    var title := TitlePart(row.title);
    var features := ListPart(row.features, literalEval);
    var description := ListPart(row.description, literalEval);
    var details := DetailsPart(row.details, jsonLoads, reprOther);
    if features.None? || description.None? || details.None? then None
    else
      var joined := title + " " + features.value + " " + description.value + " " + details.value;
      JoinedPartsLowerAscii(title, features.value, description.value, details.value);
      StripKeepsLowerAscii(joined);
      Some(CombineParts(title, features.value, description.value, details.value))
  }

  lemma JoinedPartsLowerAscii(t: string, f: string, d: string, det: string)
    requires IsLowerAscii(t) && IsLowerAscii(f) && IsLowerAscii(d) && IsLowerAscii(det)
    ensures IsLowerAscii(t + " " + f + " " + d + " " + det)
  {
  }

  // ---------------------------------------------------------------------------
  // Properties of the product text

  /** A row whose four text cells are all empty gives "" (json.loads("")
      raises a JSONDecodeError, which is caught). */
  lemma EmptyRowGivesEmptyText(row: Row, literalEval: string -> Option<Literal>,
                               jsonLoads: string -> Option<Json>, reprOther: Json -> string)
    requires row.title.None? && row.features.None? && row.description.None? && row.details.None?
    requires jsonLoads("").None?
    ensures PreprocessText(row, literalEval, jsonLoads, reprOther) == Some("")
  {
    assert ReplaceQuotes("") == "";
    assert DetailsPart(row.details, jsonLoads, reprOther) == Some("");
    EmptyPartsCombine("");
  }

  lemma EmptyPartsCombine(e: string)
    requires e == ""
    ensures CombineParts(e, e, e, e) == ""
  {
    assert e + " " + e + " " + e + " " + e == "   ";
    StripAllSpace("   ");
  }

  /** The combined text is not collapsed again: with a title and details but
      no features or description, three spaces separate them. */
  lemma InteriorSpacesKept(title: string, details: string)
    requires |title| > 0 && IsCollapsed(title)
    requires |details| > 0 && IsCollapsed(details)
    ensures CombineParts(title, "", "", details) == title + "   " + details
  {
    var s := title + " " + "" + " " + "" + " " + details;
    assert s == title + "   " + details;
    assert s[0] == title[0] && s[|s| - 1] == details[|details| - 1];
    CollapsedEndsNotSpace(title);
    CollapsedEndsNotSpace(details);
    StripUnchanged(s);
  }

  // The list elements are joined first and cleaned once, so markup may span
  // two elements: "<b" and "c>" join to the tag "<b c>", which is deleted,
  // while neither element is a tag on its own.

  lemma JoinedItemsAreOneTag(a: string, c: string)
    requires a == "<b" && c == "c>"
    ensures Join([a, c]) == "<b c>" && MatchLength(Tag, Join([a, c])) == 5
  {
    var s := Join([a, c]);
    assert [a, c][1..] == [c];
    assert Join([c]) == c;
    assert s == [a, c][0] + " " + Join([a, c][1..]);
    assert s == "<b c>" by {
      assert |s| == 5;
      assert forall i :: 0 <= i < 5 ==> s[i] == "<b c>"[i];
    }
    var t := s[1..];
    assert t == ['b', ' ', 'c', '>'];
    assert t[1..] == [' ', 'c', '>'] && t[2..] == ['c', '>'] && t[3..] == ['>'];
    assert t[1..][1..] == t[2..] && t[2..][1..] == t[3..];
    assert IndexOf(t[3..], '>') == 0;
    assert IndexOf(t, '>') == 3;
  }

  /** Two characters other than whitespace, '<' followed by no '>', or ending
      in '>' without a '<': no tag and no URL, so cleaning keeps them. */
  lemma ShortItemIsClean(a: string)
    requires a == "<b" || a == "c>"
    ensures CleanText(a) == a
  {
    assert a[1..][1..] == [];
    assert a[1..][..1] == [a[1]];
    assert NoMatch(Tag, a) by {
      assert a[0..] == a && a[1..] == [a[1]];
    }
    JoinSplit(a);
    CleanTextFixpoint(a);
  }

  /** Cleaning the joined list deletes the spanning tag; cleaning each element
      before joining would have kept it. */
  lemma ItemsCleanedAsWhole(a: string, c: string, literalEval: string -> Option<Literal>, cell: string)
    requires a == "<b" && c == "c>"
    requires literalEval(cell) == Some(StrItems([a, c]))
    ensures ListPart(Some(cell), literalEval) == Some("")
    ensures Join([CleanText(a), CleanText(c)]) == "<b c>"
  {
    JoinedItemsAreOneTag(a, c);
    CleanTextOfTag(Join([a, c]));
    ShortItemIsClean(a);
    ShortItemIsClean(c);
  }

  /** A cleaned, non-empty text neither starts nor ends with whitespace. */
  lemma CollapsedEndsNotSpace(s: string)
    requires |s| > 0 && IsCollapsed(s)
    ensures !IsSpace(s[0]) && !IsSpace(s[|s| - 1])
  {
  }

  /** Missing leading parts leave no leading space: the strip removes it. */
  lemma MissingLeadingPartsStripped(details: string)
    requires |details| > 0 && IsCollapsed(details)
    ensures CombineParts("", "", "", details) == details
  {
    var s := "" + " " + "" + " " + "" + " " + details;
    assert s == "   " + details;
    CollapsedEndsNotSpace(details);
    assert IsTrimmedSlice(s, details, 3);
    StripOfTrimmedSlice(s, details, 3);
  }

  /** The slice `Strip` returns is the only trimmed slice that neither starts
      nor ends with whitespace. */
  lemma StripOfTrimmedSlice(s: string, r: string, a: int)
    requires IsTrimmedSlice(s, r, a) && (|r| == 0 || (!IsSpace(r[0]) && !IsSpace(r[|r| - 1])))
    requires |r| > 0
    ensures Strip(s) == r
  {
    var q := Strip(s);
    var b :| IsTrimmedSlice(s, q, b);
    assert s[a] == r[0] && s[a + |r| - 1] == r[|r| - 1];
    NonSpaceAfterPrefix(s, b, a);
    NonSpaceBeforeSuffix(s, b + |q|, a);
    assert s[b] == q[0] && s[b + |q| - 1] == q[|q| - 1];
    NonSpaceAfterPrefix(s, a, b);
    NonSpaceBeforeSuffix(s, b + |q|, a + |r| - 1);
    NonSpaceBeforeSuffix(s, a + |r|, b + |q| - 1);
  }

  // ---------------------------------------------------------------------------
  // De-duplication and the saved corpus

  /** The subset of columns `drop_duplicates` compares. */
  function ProductKey(r: Row): (string, Option<string>, Option<string>, Option<string>, Option<string>) {
    (r.parentAsin, r.title, r.features, r.description, r.details)
  }

  /** `df.drop_duplicates(subset=[...])`: the first row of each key, in file
      order; no two kept rows share a key and every key is kept. Empty cells
      compare equal to each other, as pandas treats NaN here. */
  function UniqueProducts(rows: seq<Row>): (r: seq<Row>)
    ensures IsSubsequence(r, rows)
    ensures DistinctKeys(r, ProductKey)
    ensures KeysOf(r, ProductKey) == KeysOf(rows, ProductKey)
    ensures r == FirstsFrom(rows, ProductKey, 0)
  {
    DistinctByKeepsFirsts(rows, ProductKey);
    DistinctBy(rows, ProductKey)
  }

  /** A row repeated later is kept at its first position only. */
  lemma RepeatedRowKeptFirst(a: Row, b: Row)
    requires ProductKey(a) != ProductKey(b)
    ensures UniqueProducts([a, b, a]) == [a, b]
  {
    var xs := [a, b, a];
    assert ProductKey(xs[0]) == ProductKey(xs[2]);
    assert FirstsFrom(xs, ProductKey, 2) == [];
    assert IsFirstWithKey(xs, ProductKey, 1);
    assert FirstsFrom(xs, ProductKey, 1) == [b];
  }

  /** The key includes the text columns, so two rows of one `parent_asin`
      that differ in any of them both stay: the corpus can hold the same asin
      twice. */
  lemma SameAsinKeptTwice(a: Row, b: Row)
    requires a.parentAsin == b.parentAsin && a.title != b.title
    ensures UniqueProducts([a, b]) == [a, b]
  {
    assert [a, b][1..] == [b] && [b][1..] == [];
    assert ProductKey(b) !in {ProductKey(a)};
    assert DistinctFrom([b][1..], ProductKey, {ProductKey(a), ProductKey(b)}) == [];
    assert DistinctFrom([b], ProductKey, {ProductKey(a)}) == [b];
    assert DistinctFrom([a, b], ProductKey, {}) == [a, b];
  }

  /** The two saved arrays: one embedding and one `parent_asin` per kept row. */
  datatype Corpus<E> = Corpus(embeddings: seq<E>, parentAsins: seq<string>)

  /** The `processed_text` column: `preprocess_text` applied to each kept row,
      one text per row, or `None` when some row raises. */
  function PreprocessAll(rows: seq<Row>, literalEval: string -> Option<Literal>,
                         jsonLoads: string -> Option<Json>, reprOther: Json -> string): (r: Option<seq<string>>)
    ensures r.Some? <==> forall i :: 0 <= i < |rows| ==> PreprocessText(rows[i], literalEval, jsonLoads, reprOther).Some?
    ensures r.Some? ==> |r.value| == |rows| && forall i :: 0 <= i < |rows| ==>
      r.value[i] == PreprocessText(rows[i], literalEval, jsonLoads, reprOther).value
  {
    MapAll(rows, (row: Row) => PreprocessText(row, literalEval, jsonLoads, reprOther))
  }

  /** The script from the CSV rows to the saved files. `encode` stands for the
      sentence encoder applied to one text (batching does not change the
      rows it returns). */
  function BuildCorpus<E>(rows: seq<Row>, literalEval: string -> Option<Literal>,
                          jsonLoads: string -> Option<Json>, reprOther: Json -> string,
                          encode: string -> E): (c: Option<Corpus<E>>)
    ensures var unique := UniqueProducts(rows);
      c.Some? ==>
        && |c.value.embeddings| == |unique| && |c.value.parentAsins| == |unique|
        && forall i :: 0 <= i < |unique| ==>
             && c.value.parentAsins[i] == unique[i].parentAsin
             && PreprocessText(unique[i], literalEval, jsonLoads, reprOther).Some?
             && c.value.embeddings[i] == encode(PreprocessText(unique[i], literalEval, jsonLoads, reprOther).value)
    ensures c.None? <==> exists i :: (0 <= i < |UniqueProducts(rows)|
      && PreprocessText(UniqueProducts(rows)[i], literalEval, jsonLoads, reprOther).None?)
  {
    var unique := UniqueProducts(rows);
    match PreprocessAll(unique, literalEval, jsonLoads, reprOther)
    case None => None
    case Some(texts) =>
      Some(Corpus(seq(|texts|, i requires 0 <= i < |texts| => encode(texts[i])),
                  seq(|unique|, i requires 0 <= i < |unique| => unique[i].parentAsin)))
  }
}
