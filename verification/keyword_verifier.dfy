/**
 The keyword check of `TestCodeValidator.validateTestMethodFromFile`.

 The two regular expressions of `validateTestMethodFromFile` are written out
 here as predicates over strings: the signature gate, matched against the
 whole file text, and the per-keyword pattern `\b<keyword>\s*\(`, matched
 against the body that `fetchBody` extracts. Word characters are the ASCII
 ones (`[A-Za-z0-9_]`) and white space is Java's `\s` (space, tab, newline,
 vertical tab, form feed, carriage return).
 */
module KeywordVerifier {
  import opened Text
  import opened MethodLocator

  predicate IsWordChar(c: char)
  {
    ('a' <= c <= 'z') || ('A' <= c <= 'Z') || ('0' <= c <= '9') || c == '_'
  }

  predicate IsSpace(c: char)
  {
    c == ' ' || c == '\t' || c == '\n' || c as int == 0x0B || c as int == 0x0C || c == '\r'
  }

  /** The characters that end a line for Java's `.` (which matches anything else). */
  predicate IsLineTerminator(c: char)
  {
    c == '\n' || c == '\r' || c as int == 0x85 || c as int == 0x2028 || c as int == 0x2029
  }

  /** `s[i..j]` is all white space. */
  predicate SpacesBetween(s: string, i: int, j: int)
  {
    0 <= i <= j <= |s| && forall m :: i <= m < j ==> IsSpace(s[m])
  }

  /** `s[i..j]` holds no line terminator. */
  predicate NoLineBreak(s: string, i: int, j: int)
  {
    0 <= i <= j <= |s| && forall m :: i <= m < j ==> !IsLineTerminator(s[m])
  }

  /** `\b` at position `p`: exactly one of the characters either side of `p` is a word character. */
  predicate WordBoundary(s: string, p: int)
    requires 0 <= p <= |s|
  {
    (p > 0 && IsWordChar(s[p - 1])) != (p < |s| && IsWordChar(s[p]))
  }

  /** `\s*\(` matches at position `i`. */
  predicate ParenAfter(s: string, i: int)
  {
    exists j :: 0 <= i <= j < |s| && SpacesBetween(s, i, j) && s[j] == '('
  }

  /** `\b<keyword>\s*\(` matches at position `p`. */
  predicate CallAt(s: string, keyword: string, p: int)
  {
    && 0 <= p
    && p + |keyword| <= |s|
    && WordBoundary(s, p)
    && s[p..p + |keyword|] == keyword
    && ParenAfter(s, p + |keyword|)
  }

  /** `Pattern.compile("\\b" + keyword + "\\s*\\(").matcher(s).find()`. */
  predicate Called(s: string, keyword: string)
  {
    exists p :: 0 <= p <= |s| && CallAt(s, keyword, p)
  }

  /** The end of the run of white space that starts at `i`. */
  function SkipSpaces(s: string, i: nat): (j: nat)
    requires i <= |s|
    ensures i <= j <= |s| && SpacesBetween(s, i, j)
    ensures j < |s| ==> !IsSpace(s[j])
    decreases |s| - i
  {
    if i < |s| && IsSpace(s[i]) then SkipSpaces(s, i + 1) else i
  }

  /** `\s*\(` matches at `i` exactly when the first character after the white space run is `(`. */
  lemma ParenAfterBySkipping(s: string, i: nat)
    requires i <= |s|
    ensures ParenAfter(s, i) <==> (SkipSpaces(s, i) < |s| && s[SkipSpaces(s, i)] == '(')
  {
  }

  /** Searches `s` for the keyword pattern, position by position. */
  method FindCall(s: string, keyword: string) returns (found: bool)
    ensures found <==> Called(s, keyword)
  {
    var p := 0;
    while p + |keyword| <= |s|
      invariant 0 <= p <= |s| + 1
      invariant forall q :: 0 <= q < p ==> !CallAt(s, keyword, q)
    {
      if WordBoundary(s, p) && s[p..p + |keyword|] == keyword {
        var j := SkipSpaces(s, p + |keyword|);
        ParenAfterBySkipping(s, p + |keyword|);
        if j < |s| && s[j] == '(' {
          assert CallAt(s, keyword, p);
          return true;
        }
      }
      p := p + 1;
    }
    return false;
  }

  /** The keywords the body does not call, in the order given (the diagnostics the check prints). */
  ghost function MissingKeywords(body: string, keywords: seq<string>): (missing: seq<string>)
    ensures forall m :: m in missing ==> m in keywords && !Called(body, m)
    ensures forall i :: 0 <= i < |keywords| && !Called(body, keywords[i]) ==> keywords[i] in missing
    ensures |missing| <= |keywords|
  {
    if |keywords| == 0 then []
    else
      var last := keywords[|keywords| - 1];
      MissingKeywords(body, keywords[..|keywords| - 1]) + (if Called(body, last) then [] else [last])
  }

  /** The loop over the keywords: all present, and the missing ones in order. */
  method CheckKeywords(body: string, keywords: seq<string>) returns (allPresent: bool, missing: seq<string>)
    ensures allPresent <==> forall i :: 0 <= i < |keywords| ==> Called(body, keywords[i])
    ensures allPresent <==> missing == []
    ensures missing == MissingKeywords(body, keywords)
  {
    allPresent := true;
    missing := [];
    for n := 0 to |keywords|
      invariant allPresent <==> forall i :: 0 <= i < n ==> Called(body, keywords[i])
      invariant allPresent <==> missing == []
      invariant missing == MissingKeywords(body, keywords[..n])
    {
      assert keywords[..n + 1][..n] == keywords[..n];
      var found := FindCall(body, keywords[n]);
      if !found {
        missing := missing + [keywords[n]];
        allPresent := false;
      }
    }
    assert keywords[..|keywords|] == keywords;
  }

  // ---------------------------------------------------------------------------
  // The signature gate: public\s+CustomResponse\s+<name>\s*\(.*?\)\s*\{[\s\S]*?}
  // ---------------------------------------------------------------------------

  /**
   The gate pattern matches with `public` at `p`, `CustomResponse` at `a`, the
   method name at `b`, `(` at `c`, `)` at `q` and `{` at `o`: white space of
   at least one character between the first three, any white space before `(`
   and `{`, no line terminator between `(` and `)`, and a `}` somewhere after
   the `{`.
   */
  predicate GateMatch(s: string, name: string, p: int, a: int, b: int, c: int, q: int, o: int)
  {
    && OccursAt(s, "public", p)
    && p + 6 < a && SpacesBetween(s, p + 6, a) && OccursAt(s, "CustomResponse", a)
    && a + 14 < b && SpacesBetween(s, a + 14, b) && OccursAt(s, name, b)
    && b + |name| <= c < |s| && SpacesBetween(s, b + |name|, c) && s[c] == '('
    && c < q < |s| && s[q] == ')' && NoLineBreak(s, c + 1, q)
    && q < o < |s| && SpacesBetween(s, q + 1, o) && s[o] == '{'
    && '}' in s[o + 1..]
  }

  /** `methodMatcher.find()` on the file text. */
  predicate Gate(text: string, name: string)
  {
    exists p, a, b, c, q, o
      | 0 <= p <= |text| && 0 <= a <= |text| && 0 <= b <= |text| && 0 <= c <= |text| && 0 <= q <= |text| && 0 <= o <= |text|
      :: GateMatch(text, name, p, a, b, c, q, o)
  }

  /**
   `validateTestMethodFromFile` on a file given as its lines: false when the
   gate does not match; otherwise true exactly when the body `fetchBody`
   extracts calls every keyword.
   */
  method ValidateTestMethodFromFile(lines: seq<string>, name: string, keywords: seq<string>) returns (ok: bool)
    ensures ok <==> Gate(Unlines(lines), name)
                    && forall i :: 0 <= i < |keywords| ==> Called(FetchBody(lines, name), keywords[i])
  {
    if Gate(Unlines(lines), name) {
      var body := FetchBody(lines, name);
      var missing;
      ok, missing := CheckKeywords(body, keywords);
    } else {
      ok := false;
    }
  }

  // ---------------------------------------------------------------------------
  // Properties.
  // ---------------------------------------------------------------------------

  /** An empty body calls nothing, so with an empty body every keyword is reported missing. */
  lemma {:induction false} EmptyBodyMissesEveryKeyword(keywords: seq<string>)
    ensures MissingKeywords("", keywords) == keywords
  {
    if |keywords| > 0 {
      EmptyBodyMissesEveryKeyword(keywords[..|keywords| - 1]);
      assert keywords[..|keywords| - 1] + [keywords[|keywords| - 1]] == keywords;
    }
  }

  /** The match is whole-word: `response` is not found in `responseCode()`, but is in `response()`. */
  lemma WholeWordOnly()
    ensures !Called("responseCode()", "response")
    ensures Called("response()", "response")
  {
    var s := "responseCode()";
    forall p | 0 <= p <= |s|
      ensures !CallAt(s, "response", p)
    {
      if p == 0 {
        ParenAfterBySkipping(s, 8);
        assert SkipSpaces(s, 8) == 8;
      } else if p <= 6 {
        assert IsWordChar(s[p - 1]) && IsWordChar(s[p]) by {
          if p == 1 {} else if p == 2 {} else if p == 3 {} else if p == 4 {} else if p == 5 {} else {}
        }
      }
    }
    assert SpacesBetween("response()", 8, 8);
    assert CallAt("response()", "response", 0);
  }

  /** A file whose `CustomResponse` declaration is split across two lines. */
  const SplitDeclaration: seq<string> := ["public" + " " + "CustomResponse", "foo" + "(" + ")" + " " + "{", "given" + "();", "}"]

  /** The text of that file. */
  const SplitText: string :=
    "public" + " " + "CustomResponse" + "\n" + "foo" + "(" + ")" + " " + "{" + "\n" + "given" + "();" + "\n" + "}" + "\n"

  lemma SplitDeclarationText()
    ensures Unlines(SplitDeclaration) == SplitText
  {
    var lines := SplitDeclaration;
    assert lines[..1] == [lines[0]];
    assert Unlines(lines[..1]) == lines[0] + "\n";
    assert lines[..2][..1] == lines[..1];
    assert Unlines(lines[..2]) == lines[0] + "\n" + lines[1] + "\n";
    assert lines[..3][..2] == lines[..2];
    assert Unlines(lines[..3]) == lines[0] + "\n" + lines[1] + "\n" + lines[2] + "\n";
    assert lines[..4][..3] == lines[..3];
  }

  /** The gate matches the split declaration: `\s+` also matches a newline. */
  lemma SplitDeclarationPassesGate()
    ensures Gate(Unlines(SplitDeclaration), "foo")
  {
    SplitDeclarationText();
    var s := SplitText;
    assert s[0..6] == "public" && s[7..21] == "CustomResponse" && s[22..25] == "foo";
    assert SpacesBetween(s, 6, 7) && SpacesBetween(s, 21, 22) && SpacesBetween(s, 25, 25);
    assert s[25] == '(' && s[26] == ')' && NoLineBreak(s, 26, 26);
    assert SpacesBetween(s, 27, 28) && s[28] == '{';
    assert s[29..][10] == '}';
    assert GateMatch(s, "foo", 0, 7, 22, 25, 26, 28);
  }

  /** No line of the split declaration is a declaration line, so `fetchBody` returns "". */
  lemma SplitDeclarationHasNoBody()
    ensures FetchBody(SplitDeclaration, "foo") == ""
  {
    var lines := SplitDeclaration;
    var sigs := ["public CustomResponse foo(", "public String foo(", "public Response foo("];
    assert sigs[0] == "public CustomResponse " + "foo" + "(";
    assert sigs[1] == "public String " + "foo" + "(";
    assert sigs[2] == "public Response " + "foo" + "(";
    assert sigs[0][25] == '(' && sigs[1][17] == '(' && sigs[2][19] == '(';
    forall i | 0 <= i < |lines|
      ensures !IsSignatureLine(lines[i], "foo")
    {
      if i == 0 {
        assert '(' !in lines[0];
        MissingCharNotContained(lines[0], sigs[0], '(');
        MissingCharNotContained(lines[0], sigs[1], '(');
        MissingCharNotContained(lines[0], sigs[2], '(');
      } else {
        ShorterNotContained(lines[i], sigs[0]);
        ShorterNotContained(lines[i], sigs[1]);
        ShorterNotContained(lines[i], sigs[2]);
      }
    }
    FetchBodyNoSignature(lines, "foo");
  }

  /** The file does call `given`. */
  lemma SplitDeclarationCallsGiven()
    ensures Called(Unlines(SplitDeclaration), "given")
  {
    SplitDeclarationText();
    var s := SplitText;
    assert s[29] == '\n' && s[30..35] == "given" && s[35] == '(';
    assert SpacesBetween(s, 35, 35);
    assert CallAt(s, "given", 30);
  }

  /**
   The gate allows any white space where `fetchBody` needs a single space: a
   declaration split across two lines passes the gate, yet `fetchBody` finds no
   declaration line and returns "", so a keyword the method does call is
   reported missing.
   */
  lemma GatePassesWithEmptyBody()
    ensures Gate(Unlines(SplitDeclaration), "foo")
    ensures Called(Unlines(SplitDeclaration), "given")
    ensures FetchBody(SplitDeclaration, "foo") == ""
    ensures MissingKeywords(FetchBody(SplitDeclaration, "foo"), ["given"]) == ["given"]
  {
    SplitDeclarationPassesGate();
    SplitDeclarationCallsGiven();
    SplitDeclarationHasNoBody();
    EmptyBodyMissesEveryKeyword(["given"]);
  }
}
