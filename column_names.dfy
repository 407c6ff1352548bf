/** The column-name normaliser (`step10_clean_column_name`) and the header
    rewrite of `step11_process_single_file`, which lower-case CSV headers,
    drop quotes and put `_` in place of the separators; other punctuation is
    kept. */
module ColumnNames {
  import opened Wrappers
  import opened Text

  /** The characters the normaliser deletes: `'`, `"` and the backtick. */
  predicate IsQuote(c: char) {
    c == '\'' || c == '"' || c == '`'
  }

  /** The characters the normaliser turns into `_`: `( ) % & -` and space. */
  predicate IsSeparator(c: char) {
    c == '(' || c == ')' || c == '%' || c == '&' || c == '-' || c == ' '
  }

  /** Python's test `"__" in s`. */
  predicate HasDoubleUnderscore(s: string) {
    exists i | 0 <= i < |s| - 1 :: s[i] == '_' && s[i + 1] == '_'
  }

  /** No quote, no separator and no upper-case letter. */
  predicate HasNameChars(s: string) {
    forall i :: 0 <= i < |s| ==> !IsQuote(s[i]) && !IsSeparator(s[i]) && !IsUpper(s[i])
  }

  /** The loop test is Python's substring test for `"__"`. */
  lemma HasDoubleUnderscoreIsSubstring(s: string)
    ensures HasDoubleUnderscore(s) <==> IsSubstring("__", s)
  {
    if HasDoubleUnderscore(s) {
      var i :| 0 <= i < |s| - 1 && s[i] == '_' && s[i + 1] == '_';
      assert s[i..i + 2] == "__";
      assert OccursAt("__", s, i);
    }
    if IsSubstring("__", s) {
      var i :| 0 <= i <= |s| - 2 && OccursAt("__", s, i);
      assert s[i..i + 2] == "__";
      assert s[i] == s[i..i + 2][0] && s[i + 1] == s[i..i + 2][1];
    }
  }

  /** What a cleaned name looks like: lower case, none of the deleted or
      replaced characters, no `__`, and no `_` at either end. */
  predicate IsCleanName(s: string) {
    && HasNameChars(s)
    && !HasDoubleUnderscore(s)
    && (|s| > 0 ==> s[0] != '_' && s[|s| - 1] != '_')
  }

  // ---------------------------------------------------------------------
  // Reference definition: one character at a time, then collapse, then strip
  // ---------------------------------------------------------------------

  /** What one character of the original name becomes. */
  function NormalizeChar(c: char): string {
    if IsQuote(c) then "" else if IsSeparator(c) then "_" else [LowerChar(c)]
  }

  function Normalize(s: string): (r: string)
    ensures |r| <= |s|
    ensures HasNameChars(r)
  {
    if s == [] then [] else NormalizeChar(s[0]) + Normalize(s[1..])
  }

  /** Every run of `_` shrunk to a single `_`. */
  function Squash(s: string): (r: string)
    ensures |r| <= |s|
    ensures |s| > 0 ==> |r| > 0 && r[0] == s[0]
    ensures !HasDoubleUnderscore(r)
  {
    if |s| <= 1 then s
    else if s[0] == '_' && s[1] == '_' then Squash(s[1..])
    else
      var t := Squash(s[1..]);
      assert forall i :: 1 <= i < |[s[0]] + t| ==> ([s[0]] + t)[i] == t[i - 1];
      [s[0]] + t
  }

  /** `s[1:]` when `s.startswith("_")`. */
  function DropLeadingUnderscore(s: string): (r: string)
    ensures s == r || s == ['_'] + r
    ensures |s| > 0 && s[0] == '_' ==> s == ['_'] + r
  {
    if |s| > 0 && s[0] == '_' then s[1..] else s
  }

  /** `s[:-1]` when `s.endswith("_")`. */
  function DropTrailingUnderscore(s: string): (r: string)
    ensures s == r || s == r + ['_']
    ensures |s| > 0 && s[|s| - 1] == '_' ==> s == r + ['_']
  {
    if |s| > 0 && s[|s| - 1] == '_' then s[..|s| - 1] else s
  }

  /** Drop one leading `_`, then one trailing `_`. */
  function StripEdges(s: string): string {
    DropTrailingUnderscore(DropLeadingUnderscore(s))
  }

  /** The cleaned form of a column name. */
  function CleanName(s: string): string {
    StripEdges(Squash(Normalize(s)))
  }

  // ---------------------------------------------------------------------
  // The source's own steps
  // ---------------------------------------------------------------------

  /** Python's `s.replace("__", "_")`: a left-to-right scan that replaces
      non-overlapping occurrences, so `"___"` becomes `"__"`. */
  function ReplaceDoubleUnderscore(s: string): (r: string)
    ensures |r| <= |s|
    ensures HasDoubleUnderscore(s) ==> |r| < |s|
    ensures |s| > 0 ==> |r| > 0 && r[0] == s[0]
  {
    if |s| < 2 then s
    else if s[0] == '_' && s[1] == '_' then "_" + ReplaceDoubleUnderscore(s[2..])
    else
      assert HasDoubleUnderscore(s) ==> HasDoubleUnderscore(s[1..]) by {
        if HasDoubleUnderscore(s) {
          var i :| 0 <= i < |s| - 1 && s[i] == '_' && s[i + 1] == '_';
          assert s[1..][i - 1] == '_' && s[1..][i] == '_';
        }
      }
      [s[0]] + ReplaceDoubleUnderscore(s[1..])
  }

  /** One `replace("__", "_")` pass does not change the collapsed form, so the
      collapse loop computes `Squash` of the name it started from. */
  lemma {:induction false} ReplaceDoubleUnderscoreKeepsSquash(s: string)
    ensures Squash(ReplaceDoubleUnderscore(s)) == Squash(s)
  {
    if |s| >= 2 {
      if s[0] == '_' && s[1] == '_' {
        var t := ReplaceDoubleUnderscore(s[2..]);
        ReplaceDoubleUnderscoreKeepsSquash(s[2..]);
        assert ("_" + t)[1..] == t;
        assert s[1..][1..] == s[2..];
      } else {
        var t := ReplaceDoubleUnderscore(s[1..]);
        ReplaceDoubleUnderscoreKeepsSquash(s[1..]);
        assert ([s[0]] + t)[1..] == t;
      }
    }
  }

  /** The collapse keeps the name's characters. */
  lemma {:induction false} SquashKeepsNameChars(s: string)
    requires HasNameChars(s)
    ensures HasNameChars(Squash(s))
  {
    if |s| > 1 {
      SquashKeepsNameChars(s[1..]);
    }
  }

  /** The nine `replace` calls the source makes after lower-casing, in the
      source's order. */
  ghost function ReplacementChain(s: string): string {
    var r := ReplaceChar(s, '\'', "");
    var r := ReplaceChar(r, '"', "");
    var r := ReplaceChar(r, '`', "");
    var r := ReplaceChar(r, '(', "_");
    var r := ReplaceChar(r, ')', "_");
    var r := ReplaceChar(r, '%', "_");
    var r := ReplaceChar(r, '&', "_");
    var r := ReplaceChar(r, '-', "_");
    ReplaceChar(r, ' ', "_")
  }

  lemma ReplacementChainAppend(a: string, b: string)
    ensures ReplacementChain(a + b) == ReplacementChain(a) + ReplacementChain(b)
  {
    var a, b := a, b;
    ReplaceCharAppend(a, b, '\'', "");
    a, b := ReplaceChar(a, '\'', ""), ReplaceChar(b, '\'', "");
    ReplaceCharAppend(a, b, '"', "");
    a, b := ReplaceChar(a, '"', ""), ReplaceChar(b, '"', "");
    ReplaceCharAppend(a, b, '`', "");
    a, b := ReplaceChar(a, '`', ""), ReplaceChar(b, '`', "");
    ReplaceCharAppend(a, b, '(', "_");
    a, b := ReplaceChar(a, '(', "_"), ReplaceChar(b, '(', "_");
    ReplaceCharAppend(a, b, ')', "_");
    a, b := ReplaceChar(a, ')', "_"), ReplaceChar(b, ')', "_");
    ReplaceCharAppend(a, b, '%', "_");
    a, b := ReplaceChar(a, '%', "_"), ReplaceChar(b, '%', "_");
    ReplaceCharAppend(a, b, '&', "_");
    a, b := ReplaceChar(a, '&', "_"), ReplaceChar(b, '&', "_");
    ReplaceCharAppend(a, b, '-', "_");
    a, b := ReplaceChar(a, '-', "_"), ReplaceChar(b, '-', "_");
    ReplaceCharAppend(a, b, ' ', "_");
  }

  lemma ReplacementChainChar(c: char)
    ensures ReplacementChain([LowerChar(c)]) == NormalizeChar(c)
  {
    var l := LowerChar(c);
    forall d: char, rep: string
      ensures ReplaceChar([l], d, rep) == if l == d then rep else [l]
      ensures ReplaceChar([], d, rep) == []
      ensures ReplaceChar("_", d, rep) == if d == '_' then rep else "_"
    {
      assert [l][1..] == [];
      assert "_"[1..] == [];
    }
  }

  /** The chain of `replace` calls on a lower-cased name is the
      character-by-character normalisation. */
  lemma {:induction false} ReplacementsNormalize(s: string)
    ensures ReplacementChain(Lower(s)) == Normalize(s)
  {
    if s != [] {
      assert Lower(s) == [LowerChar(s[0])] + Lower(s[1..]);
      ReplacementChainAppend([LowerChar(s[0])], Lower(s[1..]));
      ReplacementChainChar(s[0]);
      ReplacementsNormalize(s[1..]);
    }
  }

  // ---------------------------------------------------------------------
  // Properties of the cleaned name
  // ---------------------------------------------------------------------

  /** Stripping the ends of a `__`-free name keeps it `__`-free, keeps its
      characters and leaves no `_` at either end. */
  lemma StripEdgesClean(s: string)
    requires HasNameChars(s)
    requires !HasDoubleUnderscore(s)
    ensures IsCleanName(StripEdges(s))
    ensures |StripEdges(s)| <= |s|
  {
    var t := DropLeadingUnderscore(s);
    assert !HasDoubleUnderscore(t);
    assert |t| > 0 ==> t[0] != '_' by {
      if |t| > 0 && t != s {
        assert s[0] == '_' && s[1] == t[0];
      }
    }
    var u := DropTrailingUnderscore(t);
    assert !HasDoubleUnderscore(u);
    if |u| > 0 && u != t {
      assert u[|u| - 1] == t[|t| - 2];
    }
  }

  /** Every cleaned name has the shape `IsCleanName` describes and is no
      longer than the original. */
  lemma CleanNameIsClean(s: string)
    ensures IsCleanName(CleanName(s))
    ensures |CleanName(s)| <= |s|
  {
    var q := Squash(Normalize(s));
    SquashKeepsNameChars(Normalize(s));
    StripEdgesClean(q);
  }

  lemma {:induction false} NormalizeKeepsClean(s: string)
    requires HasNameChars(s)
    ensures Normalize(s) == s
  {
    if s != [] {
      NormalizeKeepsClean(s[1..]);
      assert s == [s[0]] + s[1..];
    }
  }

  lemma {:induction false} SquashKeepsSingleUnderscores(s: string)
    requires !HasDoubleUnderscore(s)
    ensures Squash(s) == s
  {
    if |s| > 1 {
      assert !HasDoubleUnderscore(s[1..]);
      assert !(s[0] == '_' && s[1] == '_');
      SquashKeepsSingleUnderscores(s[1..]);
      assert s == [s[0]] + s[1..];
    }
  }

  /** The names the normaliser leaves unchanged are exactly the clean ones. */
  lemma CleanNameFixedPoints(s: string)
    ensures CleanName(s) == s <==> IsCleanName(s)
  {
    CleanNameIsClean(s);
    if IsCleanName(s) {
      NormalizeKeepsClean(s);
      SquashKeepsSingleUnderscores(s);
    }
  }

  /** Cleaning a cleaned name changes nothing. */
  lemma CleanNameIdempotent(s: string)
    ensures CleanName(CleanName(s)) == CleanName(s)
  {
    CleanNameIsClean(s);
    CleanNameFixedPoints(CleanName(s));
  }

  /** Names made only of separators and underscores clean to the empty name. */
  lemma CleanNameOfUnderscores()
    ensures CleanName("_") == ""
    ensures CleanName("__") == ""
    ensures CleanName("(%)") == ""
  {
    assert Normalize("__") == "__";
    assert Squash("__") == "_";
    assert Normalize("(%)") == "___";
    assert Squash("___") == "_";
  }

  /** A separator inside a name becomes `_`. */
  lemma CleanNameOfHyphenated()
    ensures CleanName("A-B") == "a_b"
  {
    assert Normalize("A-B") == "a_b";
    assert Squash("_b") == "_b";
    assert Squash("a_b") == "a_b";
  }

  /** Separators at the ends of a name vanish. */
  lemma CleanNameOfParenthesized()
    ensures CleanName("(X)") == "x"
  {
    assert Normalize("(X)") == "_x_";
    assert Squash("x_") == "x_";
    assert Squash("_x_") == "_x_";
  }

  // ---------------------------------------------------------------------
  // The operations
  // ---------------------------------------------------------------------

  /** `step10_clean_column_name`. */
  method CleanColumnName(columnName: string) returns (cleanName: string)
    ensures cleanName == CleanName(columnName)
    ensures IsCleanName(cleanName)
    ensures |cleanName| <= |columnName|
  {
    cleanName := Lower(columnName);
    ghost var lowered := cleanName;
    cleanName := ReplaceChar(cleanName, '\'', "");
    cleanName := ReplaceChar(cleanName, '"', "");
    cleanName := ReplaceChar(cleanName, '`', "");
    cleanName := ReplaceChar(cleanName, '(', "_");
    cleanName := ReplaceChar(cleanName, ')', "_");
    cleanName := ReplaceChar(cleanName, '%', "_");
    cleanName := ReplaceChar(cleanName, '&', "_");
    cleanName := ReplaceChar(cleanName, '-', "_");
    cleanName := ReplaceChar(cleanName, ' ', "_");
    assert cleanName == ReplacementChain(lowered);
    ReplacementsNormalize(columnName);
    ghost var normalized := cleanName;

    while HasDoubleUnderscore(cleanName)
      invariant Squash(cleanName) == Squash(normalized)
      decreases |cleanName|
    {
      ReplaceDoubleUnderscoreKeepsSquash(cleanName);
      cleanName := ReplaceDoubleUnderscore(cleanName);
    }
    SquashKeepsSingleUnderscores(cleanName);
    ghost var squashed := cleanName;
    assert squashed == Squash(Normalize(columnName));

    if |cleanName| > 0 && cleanName[0] == '_' {
      cleanName := cleanName[1..];
    }
    assert cleanName == DropLeadingUnderscore(squashed);
    if |cleanName| > 0 && cleanName[|cleanName| - 1] == '_' {
      cleanName := cleanName[..|cleanName| - 1];
    }
    CleanNameIsClean(columnName);
  }

  /** The header rewrite of `step11_process_single_file`: one cleaned name per
      original header, in the same order. */
  method CleanHeaders(originalHeaders: seq<string>) returns (cleanedHeaders: seq<string>)
    ensures |cleanedHeaders| == |originalHeaders|
    ensures forall i :: 0 <= i < |originalHeaders| ==> cleanedHeaders[i] == CleanName(originalHeaders[i])
    ensures forall i :: 0 <= i < |cleanedHeaders| ==> IsCleanName(cleanedHeaders[i])
  {
    cleanedHeaders := [];
    for i := 0 to |originalHeaders|
      invariant |cleanedHeaders| == i
      invariant forall j :: 0 <= j < i ==> cleanedHeaders[j] == CleanName(originalHeaders[j])
    {
      var header := CleanColumnName(originalHeaders[i]);
      cleanedHeaders := cleanedHeaders + [header];
    }
    forall i | 0 <= i < |cleanedHeaders|
      ensures IsCleanName(cleanedHeaders[i])
    {
      CleanNameIsClean(originalHeaders[i]);
    }
  }

  /** A CSV file with no records at all: `next(csv_reader)` has no header row
      to return.  (A blank line is a record, the empty row, so a file of blank
      lines still has a header row.) */
  datatype ProcessError = MissingHeaderRow

  /** `step11_process_single_file` on the parsed records of one CSV file: the
      records it writes are the cleaned header row followed by the data rows
      exactly as read. */
  method ProcessRecords(records: seq<seq<string>>) returns (written: Result<seq<seq<string>>, ProcessError>)
    ensures written.Failure? <==> records == []
    ensures written.Success? ==>
      && |written.value| == |records|
      && written.value[1..] == records[1..]
      && |written.value[0]| == |records[0]|
      && (forall i :: 0 <= i < |records[0]| ==> written.value[0][i] == CleanName(records[0][i]))
  {
    if records == [] {
      return Failure(MissingHeaderRow);
    }
    var originalHeaders := records[0];
    var rows := records[1..];
    var cleanedHeaders := CleanHeaders(originalHeaders);
    written := Success([cleanedHeaders] + rows);
    assert written.value[1..] == rows;
  }
}
