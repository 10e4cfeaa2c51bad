/** JobMultiplier::match: wildcard patterns turned textually into one anchored regular expression. */
module Globs {

  // ------------------------------------------------------------ wildcards

  /** '*' stands for any text, '?' for any one character. */
  predicate GlobMatches(pattern: string, name: string)
    decreases |pattern| + |name|
  {
    if pattern == "" then name == ""
    else if pattern[0] == '*' then
      GlobMatches(pattern[1..], name) || (name != "" && GlobMatches(pattern, name[1..]))
    else name != "" && (pattern[0] == '?' || pattern[0] == name[0]) && GlobMatches(pattern[1..], name[1..])
  }

  // --------------------------------------- the regular expressions in use

  predicate AtomMatches(atom: char, c: char) {
    if atom == '.' then c != '\n' else atom == c
  }

  /** A concatenation of atoms, each possibly starred. */
  predicate SequenceMatches(text: string, name: string)
    decreases |text| + |name|
  {
    if text == "" then name == ""
    else if |text| > 1 && text[1] == '*' then
      SequenceMatches(text[2..], name) ||
      (name != "" && AtomMatches(text[0], name[0]) && SequenceMatches(text, name[1..]))
    else name != "" && AtomMatches(text[0], name[0]) && SequenceMatches(text[1..], name[1..])
  }

  /** The alternatives of a group. */
  function Alternatives(text: string): (r: seq<string>)
    ensures r != []
  {
    if text == "" then [""]
    else
      var rest := Alternatives(text[1..]);
      if text[0] == '|' then [""] + rest else [[text[0]] + rest[0]] + rest[1..]
  }

  /** "^(text)$": one alternative spans the whole name, or all but a final line break. */
  predicate AnchoredMatches(text: string, name: string) {
    exists i | 0 <= i < |Alternatives(text)| :: Spans(Alternatives(text)[i], name)
  }

  predicate Spans(text: string, name: string) {
    SequenceMatches(text, name) ||
    (name != "" && name[|name| - 1] == '\n' && SequenceMatches(text, name[..|name| - 1]))
  }

  // -------------------------------------------------- textual replacement

  function Replace(s: string, c: char, text: string): string {
    if s == "" then "" else (if s[0] == c then text else [s[0]]) + Replace(s[1..], c, text)
  }

  function Regify(pattern: string): string {
    Replace(Replace(pattern, '*', ".*"), '?', ".")
  }

  function Join(parts: seq<string>): string {
    if parts == [] then ""
    else if |parts| == 1 then parts[0]
    else parts[0] + "|" + Join(parts[1..])
  }

  function RegifyAll(patterns: seq<string>): (r: seq<string>)
    ensures |r| == |patterns|
  {
    seq(|patterns|, i requires 0 <= i < |patterns| => Regify(patterns[i]))
  }

  /** No characters with a meaning in regular expressions except the two wildcards. */
  predicate Plain(pattern: string) {
    forall i | 0 <= i < |pattern| :: pattern[i] !in "\\^$.|()[]{}+\n"
  }

  // ------------------------------------------------------------ the proof

  lemma {:induction false} ReplaceConcat(a: string, b: string, c: char, text: string)
    ensures Replace(a + b, c, text) == Replace(a, c, text) + Replace(b, c, text)
  {
    if a == "" {
      assert a + b == b;
    } else {
      ReplaceConcat(a[1..], b, c, text);
      assert (a + b)[0] == a[0] && (a + b)[1..] == a[1..] + b;
      Associate(if a[0] == c then text else [a[0]], Replace(a[1..], c, text), Replace(b, c, text));
    }
  }

  lemma Associate(a: string, b: string, c: string)
    ensures (a + b) + c == a + (b + c)
  {
  }

  /** The expression for one character after the other. */
  lemma RegifyStep(pattern: string)
    requires pattern != ""
    ensures Regify(pattern) ==
            (if pattern[0] == '*' then ".*" else if pattern[0] == '?' then "." else [pattern[0]]) + Regify(pattern[1..])
  {
    var first := if pattern[0] == '*' then ".*" else [pattern[0]];
    ReplaceConcat(first, Replace(pattern[1..], '*', ".*"), '?', ".");
    assert Replace(first[1..], '?', ".") == first[1..];
    assert Replace(first, '?', ".") == if pattern[0] == '?' then "." else first;
  }

  lemma {:induction false} NoLeadingStar(pattern: string)
    ensures Regify(pattern) != "" ==> Regify(pattern)[0] != '*'
    ensures Plain(pattern) ==> forall i | 0 <= i < |Regify(pattern)| :: Regify(pattern)[i] != '|'
  {
    if pattern != "" {
      RegifyStep(pattern);
      NoLeadingStar(pattern[1..]);
    }
  }

  lemma {:induction false} RegifyPreserves(pattern: string, name: string)
    requires Plain(pattern) && '\n' !in name
    ensures SequenceMatches(Regify(pattern), name) <==> GlobMatches(pattern, name)
    decreases |pattern| + |name|
  {
    if pattern != "" {
      RegifyStep(pattern);
      NoLeadingStar(pattern[1..]);
      var text, rest := Regify(pattern), Regify(pattern[1..]);
      if pattern[0] == '*' {
        assert text[2..] == rest;
        RegifyPreserves(pattern[1..], name);
        if name != "" { RegifyPreserves(pattern, name[1..]); }
      } else {
        assert text[1..] == rest;
        if name != "" { RegifyPreserves(pattern[1..], name[1..]); }
      }
    }
  }

  lemma {:induction false} SplitFirst(a: string, b: string)
    requires forall i | 0 <= i < |a| :: a[i] != '|'
    ensures Alternatives(a + "|" + b) == [a] + Alternatives(b)
    ensures Alternatives(a) == [a]
  {
    if a == "" {
      assert ("" + "|" + b)[1..] == b;
    } else {
      SplitFirst(a[1..], b);
      assert (a + "|" + b)[1..] == a[1..] + "|" + b;
      assert [a[0]] + a[1..] == a;
    }
  }

  lemma {:induction false} SplitJoin(parts: seq<string>)
    requires parts != [] && forall i, k | 0 <= i < |parts| && 0 <= k < |parts[i]| :: parts[i][k] != '|'
    ensures Alternatives(Join(parts)) == parts
  {
    if |parts| == 1 {
      SplitFirst(parts[0], "");
    } else {
      SplitFirst(parts[0], Join(parts[1..]));
      SplitJoin(parts[1..]);
    }
  }

  /** The one expression for all patterns accepts a name exactly if some pattern does. Only the empty list of
      patterns is an exception: its expression accepts the empty name. */
  lemma MatchIsGlob(patterns: seq<string>, name: string)
    requires (forall i | 0 <= i < |patterns| :: Plain(patterns[i])) && '\n' !in name
    ensures AnchoredMatches(Join(RegifyAll(patterns)), name) <==>
            (exists i | 0 <= i < |patterns| :: GlobMatches(patterns[i], name)) || (patterns == [] && name == "")
  {
    var parts := RegifyAll(patterns);
    assert name != "" ==> name[|name| - 1] in name;
    if patterns == [] {
      assert Spans(Alternatives("")[0], name) <==> name == "";
    } else {
      forall i, k | 0 <= i < |parts| && 0 <= k < |parts[i]| ensures parts[i][k] != '|' {
        NoLeadingStar(patterns[i]);
      }
      SplitJoin(parts);
      forall i | 0 <= i < |patterns| ensures Spans(parts[i], name) <==> GlobMatches(patterns[i], name) {
        RegifyPreserves(patterns[i], name);
      }
      if i :| 0 <= i < |patterns| && GlobMatches(patterns[i], name) {
        assert Spans(Alternatives(Join(parts))[i], name);
      }
    }
  }

  /** Whether the one expression for all patterns accepts the name. */
  predicate Accepts(patterns: seq<string>, name: string) {
    AnchoredMatches(Join(RegifyAll(patterns)), name)
  }

  /** The accepted names, in their order. */
  function Accepted(testcases: seq<string>, patterns: seq<string>): seq<string> {
    if testcases == [] then []
    else Accepted(testcases[..|testcases| - 1], patterns) +
         (if Accepts(patterns, testcases[|testcases| - 1]) then [testcases[|testcases| - 1]] else [])
  }

  lemma {:induction false} AcceptedIn(testcases: seq<string>, patterns: seq<string>, name: string)
    ensures name in Accepted(testcases, patterns) <==> name in testcases && Accepts(patterns, name)
  {
    if testcases != [] {
      var k := |testcases| - 1;
      AcceptedIn(testcases[..k], patterns, name);
      assert testcases == testcases[..k] + [testcases[k]];
    }
  }

  /** Names without line breaks, and patterns with no special characters but the wildcards. */
  predicate Sanitised(testcases: seq<string>, patterns: seq<string>) {
    && (forall i | 0 <= i < |patterns| :: Plain(patterns[i]))
    && (forall i | 0 <= i < |testcases| :: testcases[i] != "" && '\n' !in testcases[i])
  }

  /** The accepted names are those that some pattern matches. */
  lemma {:induction false} AcceptedAreFiltered(testcases: seq<string>, patterns: seq<string>)
    requires Sanitised(testcases, patterns)
    ensures Accepted(testcases, patterns) == Filtered(testcases, patterns)
  {
    if testcases != [] {
      AcceptedAreFiltered(testcases[..|testcases| - 1], patterns);
      MatchIsGlob(patterns, testcases[|testcases| - 1]);
    }
  }

  /** The loop over all testcase names. */
  method Match(testcases: seq<string>, patterns: seq<string>) returns (matchedNames: seq<string>)
    ensures matchedNames == Accepted(testcases, patterns)
    ensures Sanitised(testcases, patterns) ==> matchedNames == Filtered(testcases, patterns)
  {
    matchedNames := [];
    var regifiedPatterns := RegifyAll(patterns);
    var pattern := Join(regifiedPatterns);
    for i := 0 to |testcases|
      invariant matchedNames == Accepted(testcases[..i], patterns)
    {
      assert testcases[..i + 1][..i] == testcases[..i];
      if AnchoredMatches(pattern, testcases[i]) {
        matchedNames := matchedNames + [testcases[i]];
      }
    }
    assert testcases[..|testcases|] == testcases;
    if Sanitised(testcases, patterns) {
      AcceptedAreFiltered(testcases, patterns);
    }
  }

  predicate Covers(patterns: seq<string>, name: string) {
    exists i | 0 <= i < |patterns| :: GlobMatches(patterns[i], name)
  }

  /** The names that some pattern matches, in their order. */
  function Filtered(testcases: seq<string>, patterns: seq<string>): seq<string> {
    if testcases == [] then []
    else Filtered(testcases[..|testcases| - 1], patterns) +
         (if Covers(patterns, testcases[|testcases| - 1]) then [testcases[|testcases| - 1]] else [])
  }
}
