/** The syllabus line extractor of the back end (backend/parser.py): from the
    text of an uploaded PDF, keep the lines that look like topics, clean off
    their bullet or number and their punctuation, drop repeats, and return at
    most 100 of them joined with ", ". Text extraction itself belongs to a PDF
    library; the model starts from the text each page yields. */
module Parser {
  import opened Text
  import opened Wrappers

  /** `â€¢`: the bullet `•` as its UTF-8 bytes read as Windows-1252, which is
      how the pattern spells it — three characters, not one. */
  const BulletGlyph: string := "\U{00E2}\U{20AC}\U{00A2}"

  /** Lines starting with one of these (case-insensitively) are headers. */
  const StructuralKeywords: seq<string> := ["unit", "chapter", "module", "part", "topic"]

  /** Lines containing one of these (case-insensitively) are metadata. */
  const SkipKeywords: seq<string> :=
    ["page", "syllabus", "course code", "semester", "credit", "total hours", "books", "reference"]

  /** What `clean_line.strip('.:;,')` removes from both ends. */
  const Punctuation: set<char> := {'.', ':', ';', ','}

  /** What the `except` branch puts in front of the exception's message. */
  const ErrorPrefix: string := "Error parsing PDF: "

  /** How many topics the result keeps. */
  const MaxTopics: nat := 100

  /** The regular-expression class `\d`, on ASCII digits. */
  const Digits: set<char> := {'0', '1', '2', '3', '4', '5', '6', '7', '8', '9'}

  /** The characters a number token like `1.2.` is made of. */
  const NumberChars: set<char> := Digits + {'.'}

  // ---------------------------------------------------------------------
  // The bullet pattern  ^(\d+(\.\d+)*\.?|â€¢|-|\*|[A-Z]\.)\s+
  // ---------------------------------------------------------------------

  /** No two dots in a row. */
  predicate NoDoubleDot(t: string)
  {
    forall i :: 0 <= i < |t| - 1 ==> !(t[i] == '.' && t[i + 1] == '.')
  }

  /** The strings `\d+(\.\d+)*\.?` matches: groups of digits separated by
      single dots, starting with a digit, with at most one dot at the end. */
  predicate NumberToken(t: string)
  {
    |t| > 0 && t[0] in Digits && (forall i :: 0 <= i < |t| ==> t[i] in NumberChars) && NoDoubleDot(t)
  }

  /** The strings the group `(\d+(\.\d+)*\.?|â€¢|-|\*|[A-Z]\.)` matches. */
  predicate BulletToken(t: string)
  {
    NumberToken(t) || t == BulletGlyph || t == "-" || t == "*"
    || (|t| == 2 && 'A' <= t[0] <= 'Z' && t[1] == '.')
  }

  /** `re.match(bullet_pattern, line)` succeeds and its match is `line[..n]`:
      a bullet token, then whitespace up to `n`, and the greedy `\s+` stops at
      `n` because nothing or no whitespace follows. */
  predicate PatternMatch(line: string, n: nat)
  {
    n <= |line| &&
    exists t: nat | 0 < t < n ::
      BulletToken(line[..t]) && (forall i :: t <= i < n ==> line[i] in PySpace)
      && (n == |line| || line[n] !in PySpace)
  }

  /** Length of the bullet token at the start of `s` that could be followed
      by whitespace, or 0 when there is none. The alternatives start with
      different characters, and a number token followed by whitespace must be
      the whole leading run of digits and dots. */
  function TokenLen(s: string): (t: nat)
    ensures t <= |s|
  {
    if StartsWith(s, BulletGlyph) then 3
    else if |s| > 0 && (s[0] == '-' || s[0] == '*') then 1
    else if |s| >= 2 && 'A' <= s[0] <= 'Z' && s[1] == '.' then 2
    else if |s| > 0 && s[0] in Digits && NoDoubleDot(s[..LeadingIn(s, NumberChars)]) then
      LeadingIn(s, NumberChars)
    else 0
  }

  /** Length of the match of the bullet pattern at the start of `line`, or
      0 when it does not match. */
  function BulletMatch(line: string): (n: nat)
    ensures n <= |line|
  {
    var t := TokenLen(line);
    if 0 < t < |line| && line[t] in PySpace then t + LeadingIn(line[t..], PySpace) else 0
  }

  /** Whatever `BulletMatch` reports is a match of the pattern. */
  lemma BulletMatchSound(line: string)
    ensures BulletMatch(line) > 0 ==> PatternMatch(line, BulletMatch(line))
  {
    var n := BulletMatch(line);
    if n > 0 {
      var t := TokenLen(line);
      var w := LeadingIn(line[t..], PySpace);
      assert n == t + w;
      forall i | t <= i < n ensures line[i] in PySpace {
        assert line[t..][i - t] == line[i];
      }
      assert n == |line| || line[n] !in PySpace by {
        if n < |line| {
          assert line[t..][w] == line[n];
        }
      }
      assert BulletToken(line[..t]);
    }
  }

  /** The leading run of characters of `cs` ends at the first character
      outside `cs`. */
  lemma LeadingInEnds(s: string, cs: set<char>, n: nat)
    requires n <= |s| && (forall i :: 0 <= i < n ==> s[i] in cs) && (n == |s| || s[n] !in cs)
    ensures LeadingIn(s, cs) == n
  {
  }

  /** A number token followed by a character outside it is the token
      `TokenLen` finds. */
  lemma NumberTokenLen(line: string, t: nat)
    requires t < |line| && NumberToken(line[..t]) && line[t] !in NumberChars
    ensures TokenLen(line) == t
  {
    var tok := line[..t];
    assert line[0] == tok[0];
    assert !StartsWith(line, BulletGlyph) by { assert line[0] != BulletGlyph[0]; }
    forall i | 0 <= i < t ensures line[i] in NumberChars {
      assert line[i] == tok[i];
    }
    LeadingInEnds(line, NumberChars, t);
    assert line[..LeadingIn(line, NumberChars)] == tok;
  }

  /** A glyph, dash, star or letter-dot token is the token `TokenLen` finds. */
  lemma SymbolTokenLen(line: string, t: nat)
    requires t <= |line| && BulletToken(line[..t]) && !NumberToken(line[..t])
    ensures TokenLen(line) == t
  {
    var tok := line[..t];
    if tok == BulletGlyph {
      assert StartsWith(line, BulletGlyph);
    } else {
      assert line[0] == tok[0];
      assert !StartsWith(line, BulletGlyph) by { assert line[0] != BulletGlyph[0]; }
      assert |tok| == 2 ==> line[1] == tok[1];
    }
  }

  /** Every match of the pattern is the one `BulletMatch` reports. */
  lemma BulletMatchComplete(line: string, n: nat)
    requires PatternMatch(line, n)
    ensures BulletMatch(line) == n
  {
    var t: nat :| 0 < t < n && BulletToken(line[..t]) && (forall i :: t <= i < n ==> line[i] in PySpace)
                  && (n == |line| || line[n] !in PySpace);
    assert line[t] in PySpace;
    if NumberToken(line[..t]) {
      NumberTokenLen(line, t);
    } else {
      SymbolTokenLen(line, t);
    }
    forall i | 0 <= i < n - t ensures line[t..][i] in PySpace {
      assert line[t..][i] == line[t + i];
    }
    LeadingInEnds(line[t..], PySpace, n - t);
  }

  // ---------------------------------------------------------------------
  // One line
  // ---------------------------------------------------------------------

  /** Python's `line[0].isupper()` on ASCII letters. */
  predicate IsUpperChar(c: char)
  {
    'A' <= c <= 'Z'
  }

  /** `any(k in lower_line for k in skip_keywords)`. */
  predicate HasSkipKeyword(lower: string)
  {
    exists i | 0 <= i < |SkipKeywords| :: Contains(lower, SkipKeywords[i])
  }

  /** `any(lower_line.startswith(k) for k in structural_keywords)`. */
  predicate IsStructure(lower: string)
  {
    exists i | 0 <= i < |StructuralKeywords| :: StartsWith(lower, StructuralKeywords[i])
  }

  /** A stripped line of at least four characters is a likely topic when it
      is a structural header, starts with a bullet or number, or is shorter
      than 80 characters and starts with a capital letter. */
  predicate IsLikelyTopic(line: string)
    requires |line| > 0
  {
    IsStructure(Lower(line)) || BulletMatch(line) > 0 || (|line| < 80 && IsUpperChar(line[0]))
  }

  /** `re.sub(bullet_pattern, '', line).strip().strip('.:;,')`: the pattern
      is anchored, so at most one bullet goes. */
  function Clean(line: string): string
  {
    Strip(Strip(line[BulletMatch(line)..], PySpace), Punctuation)
  }

  /** The cleaned line is a contiguous piece of the line. */
  lemma CleanInLine(line: string)
    ensures Contains(line, Clean(line))
  {
    var r := line[BulletMatch(line)..];
    var s1 := Strip(r, PySpace);
    assert OccursAt(line, r, BulletMatch(line));
    StripInString(r, PySpace);
    StripInString(s1, Punctuation);
    ContainsTrans(r, s1, Clean(line));
    ContainsTrans(line, r, Clean(line));
  }

  /** A line free of metadata keywords gives a cleaned line free of them. */
  lemma CleanHasNoSkipKeyword(line: string)
    requires !HasSkipKeyword(Lower(line))
    ensures !HasSkipKeyword(Lower(Clean(line)))
  {
    CleanInLine(line);
    LowerContains(line, Clean(line));
    forall i | 0 <= i < |SkipKeywords| ensures !Contains(Lower(Clean(line)), SkipKeywords[i]) {
      ContainsTrans(Lower(line), Lower(Clean(line)), SkipKeywords[i]);
    }
  }

  /** What one iteration of the loop decides about a raw line. */
  datatype Verdict = TooShort | Metadata | NotTopic | Candidate(clean: string)

  /** The classification of one raw line, before the length and repeat
      checks on its cleaned form. */
  function Classify(raw: string): (v: Verdict)
    ensures v.Candidate? ==> Contains(raw, v.clean) && !HasSkipKeyword(Lower(v.clean))
    ensures v.Candidate? && v.clean != [] ==>
              v.clean[0] !in Punctuation && v.clean[|v.clean| - 1] !in Punctuation
  {
    var line := Strip(raw, PySpace);
    if |line| < 4 then TooShort
    else if HasSkipKeyword(Lower(line)) then Metadata
    else if IsLikelyTopic(line) then
      CleanInLine(line);
      CleanHasNoSkipKeyword(line);
      StripInString(raw, PySpace);
      ContainsTrans(raw, line, Clean(line));
      Candidate(Clean(line))
    else NotTopic
  }

  /** The steps of the loop body for one raw line, up to the repeat check. */
  method ClassifyLine(raw: string) returns (v: Verdict)
    ensures v == Classify(raw)
  {
    var line := Strip(raw, PySpace);
    if |line| < 4 {
      return TooShort;
    }
    var lowerLine := Lower(line);
    if HasSkipKeyword(lowerLine) {
      return Metadata;
    }
    var isStructure := IsStructure(lowerLine);
    var hasBullet := BulletMatch(line) > 0;
    var isLikelyTopic := isStructure || hasBullet;
    if !isLikelyTopic && |line| < 80 && IsUpperChar(line[0]) {
      isLikelyTopic := true;
    }
    if !isLikelyTopic {
      return NotTopic;
    }
    var cleanLine := Strip(line[BulletMatch(line)..], PySpace);
    cleanLine := Strip(cleanLine, Punctuation);
    return Candidate(cleanLine);
  }

  /** Line `raw` yields the topic `c`, unless `c` was found before. */
  predicate Produces(raw: string, c: string)
  {
    Yields(Classify(raw), c)
  }

  /** A verdict that offers the topic `c`. */
  predicate Yields(v: Verdict, c: string)
  {
    v == Candidate(c) && |c| > 3
  }

  // ---------------------------------------------------------------------
  // All lines
  // ---------------------------------------------------------------------

  /** The repeat check: `candidates` after one more verdict. */
  function Keep(found: seq<string>, v: Verdict): seq<string>
  {
    if v.Candidate? && |v.clean| > 3 && v.clean !in found then found + [v.clean] else found
  }

  /** `candidates` after the verdicts `vs`. */
  function Collect(vs: seq<Verdict>): seq<string>
  {
    if vs == [] then [] else Keep(Collect(vs[..|vs| - 1]), vs[|vs| - 1])
  }

  /** The verdict on each line. */
  function Verdicts(lines: seq<string>): (vs: seq<Verdict>)
    ensures |vs| == |lines|
    ensures forall i :: 0 <= i < |lines| ==> vs[i] == Classify(lines[i])
  {
    seq(|lines|, i requires 0 <= i < |lines| => Classify(lines[i]))
  }

  /** `candidates` after the loop has seen `lines`. */
  function Candidates(lines: seq<string>): seq<string>
  {
    Collect(Verdicts(lines))
  }

  /** Python's `s[:n]`. */
  function Take(s: seq<string>, n: nat): (r: seq<string>)
    ensures |r| <= n && |r| <= |s|
    ensures r == s[..|r|]
    ensures |s| <= n ==> r == s
    ensures |s| > n ==> |r| == n
  {
    if |s| <= n then s else s[..n]
  }

  /** The result for the extracted text `fullText`. */
  function Topics(fullText: string): string
  {
    Join(Take(Candidates(Split(fullText, '\n')), MaxTopics), ", ")
  }

  /** The loop of `extract_topics_from_pdf` over the lines of the text. */
  method ExtractTopics(fullText: string) returns (result: string)
    ensures result == Topics(fullText)
  {
    var rawLines := Split(fullText, '\n');
    ghost var vs := Verdicts(rawLines);
    var candidates: seq<string> := [];
    var seen: set<string> := {};
    for i := 0 to |rawLines|
      invariant candidates == Collect(vs[..i])
      invariant seen == set c | c in candidates
    {
      assert vs[..i + 1][..i] == vs[..i];
      assert Collect(vs[..i + 1]) == Keep(Collect(vs[..i]), vs[i]);
      var v := ClassifyLine(rawLines[i]);
      if v.Candidate? {
        var cleanLine := v.clean;
        if |cleanLine| > 3 && cleanLine !in seen {
          SeenGrows(candidates, cleanLine);
          candidates := candidates + [cleanLine];
          seen := seen + {cleanLine};
        }
      }
    }
    assert vs[..|rawLines|] == vs;
    result := Join(Take(candidates, MaxTopics), ", ");
  }

  /** The `seen` set follows the list of candidates. */
  lemma SeenGrows(candidates: seq<string>, c: string)
    ensures (set x | x in candidates + [c]) == (set x | x in candidates) + {c}
  {
  }

  /** Topics found from a prefix of the verdicts stay at the front. */
  lemma {:induction false} CollectPrefix(vs: seq<Verdict>, m: nat)
    requires m <= |vs|
    ensures |Collect(vs[..m])| <= |Collect(vs)|
    ensures Collect(vs[..m]) == Collect(vs)[..|Collect(vs[..m])|]
    decreases |vs| - m
  {
    if m < |vs| {
      var n := |vs|;
      CollectPrefix(vs[..n - 1], m);
      assert vs[..n - 1][..m] == vs[..m];
    } else {
      assert vs[..m] == vs;
    }
  }

  /** A topic is collected iff some verdict offers it. */
  lemma {:induction false} CollectMembership(vs: seq<Verdict>, c: string)
    ensures c in Collect(vs) <==> exists i :: 0 <= i < |vs| && Yields(vs[i], c)
  {
    if vs != [] {
      var n := |vs|;
      var init := vs[..n - 1];
      CollectMembership(init, c);
      if exists i :: 0 <= i < n - 1 && Yields(init[i], c) {
        var i :| 0 <= i < n - 1 && Yields(init[i], c);
        assert vs[i] == init[i];
      }
      if exists i :: 0 <= i < n && Yields(vs[i], c) {
        var i :| 0 <= i < n && Yields(vs[i], c);
        if i < n - 1 {
          assert init[i] == vs[i];
        }
      }
    }
  }

  /** No topic is collected twice. */
  lemma {:induction false} CollectDistinct(vs: seq<Verdict>)
    ensures forall p, q :: 0 <= p < q < |Collect(vs)| ==> Collect(vs)[p] != Collect(vs)[q]
  {
    if vs != [] {
      CollectDistinct(vs[..|vs| - 1]);
    }
  }

  /** Topics are collected in the order of the verdicts that first offer
      them. */
  lemma CollectOrder(vs: seq<Verdict>, i: nat, j: nat, c: string, d: string)
    requires i < j < |vs|
    requires Yields(vs[i], c) && Yields(vs[j], d)
    requires forall k :: 0 <= k < j ==> !Yields(vs[k], d)
    ensures exists p, q :: 0 <= p < q < |Collect(vs)| && Collect(vs)[p] == c && Collect(vs)[q] == d
  {
    var before := Collect(vs[..j]);
    CollectMembership(vs[..j], c);
    assert vs[..j][i] == vs[i];
    CollectMembership(vs[..j], d);
    assert d !in before by {
      forall k | 0 <= k < j ensures !Yields(vs[..j][k], d) {
        assert vs[..j][k] == vs[k];
      }
    }
    assert vs[..j + 1][..j] == vs[..j];
    assert Collect(vs[..j + 1]) == before + [d];
    CollectPrefix(vs, j + 1);
    var all := Collect(vs);
    var p :| 0 <= p < |before| && before[p] == c;
    assert all[p] == c && all[|before|] == d;
  }

  /** A verdict that offers no topic can be removed without changing what
      is collected. */
  lemma {:induction false} CollectSkipsInert(a: seq<Verdict>, v: Verdict, b: seq<Verdict>)
    requires !v.Candidate?
    ensures Collect(a + [v] + b) == Collect(a + b)
  {
    if b == [] {
      assert (a + [v])[..|a|] == a;
      assert a + [v] + b == a + [v] && a + b == a;
    } else {
      var n := |b|;
      CollectSkipsInert(a, v, b[..n - 1]);
      assert (a + [v] + b)[..|a| + n] == a + [v] + b[..n - 1];
      assert (a + b)[..|a| + n - 1] == a + b[..n - 1];
    }
  }

  /** A topic is in the list iff some line yields it. */
  lemma CandidatesMembership(lines: seq<string>, c: string)
    ensures c in Candidates(lines) <==> exists i :: 0 <= i < |lines| && Produces(lines[i], c)
  {
    CollectMembership(Verdicts(lines), c);
  }

  /** No topic is listed twice. */
  lemma CandidatesDistinct(lines: seq<string>)
    ensures forall p, q :: 0 <= p < q < |Candidates(lines)| ==> Candidates(lines)[p] != Candidates(lines)[q]
  {
    CollectDistinct(Verdicts(lines));
  }

  /** Every listed topic is longer than three characters, free of metadata
      keywords in any case, and a contiguous piece of some line. */
  lemma CandidatesClean(lines: seq<string>, c: string)
    requires c in Candidates(lines)
    ensures |c| > 3 && !HasSkipKeyword(Lower(c))
    ensures exists i :: 0 <= i < |lines| && Contains(lines[i], c)
  {
    CandidatesMembership(lines, c);
  }

  /** Topics are listed in the order of the lines that first yield them. */
  lemma FirstOccurrenceOrder(lines: seq<string>, i: nat, j: nat, c: string, d: string)
    requires i < j < |lines|
    requires Produces(lines[i], c) && Produces(lines[j], d)
    requires forall k :: 0 <= k < j ==> !Produces(lines[k], d)
    ensures exists p, q :: 0 <= p < q < |Candidates(lines)| && Candidates(lines)[p] == c
                           && Candidates(lines)[q] == d
  {
    var vs := Verdicts(lines);
    forall k | 0 <= k < j ensures !Yields(vs[k], d) {
      assert vs[k] == Classify(lines[k]);
    }
    CollectOrder(vs, i, j, c, d);
    assert Candidates(lines) == Collect(vs);
  }

  /** A line too short after stripping, or carrying a metadata keyword, can
      be taken out of the input without changing the topics found. */
  lemma DroppedLineIgnored(a: seq<string>, x: string, b: seq<string>)
    requires |Strip(x, PySpace)| < 4 || HasSkipKeyword(Lower(Strip(x, PySpace)))
    ensures Candidates(a + [x] + b) == Candidates(a + b)
  {
    var va, vx, vb := Verdicts(a), Verdicts([x]), Verdicts(b);
    DroppedLineVerdict(x);
    assert vx == [vx[0]];
    VerdictsAppend(a + [x], b);
    VerdictsAppend(a, [x]);
    VerdictsAppend(a, b);
    assert Verdicts(a + [x] + b) == va + [vx[0]] + vb;
    CollectSkipsInert(va, vx[0], vb);
  }

  /** A short or metadata line offers no topic. */
  lemma DroppedLineVerdict(x: string)
    requires |Strip(x, PySpace)| < 4 || HasSkipKeyword(Lower(Strip(x, PySpace)))
    ensures !Verdicts([x])[0].Candidate?
  {
  }

  /** The verdicts of two runs of lines are the verdicts of each. */
  lemma VerdictsAppend(a: seq<string>, b: seq<string>)
    ensures Verdicts(a + b) == Verdicts(a) + Verdicts(b)
  {
    var l, r := Verdicts(a + b), Verdicts(a) + Verdicts(b);
    forall k | 0 <= k < |l| ensures l[k] == r[k] {
      if k < |a| {
        assert (a + b)[k] == a[k];
      } else {
        assert (a + b)[k] == b[k - |a|];
      }
    }
  }

  /** The result is empty iff no line yields a topic, and then it is `""`
      rather than an error. */
  lemma TopicsEmpty(fullText: string)
    ensures Topics(fullText) == "" <==> Candidates(Split(fullText, '\n')) == []
  {
    var cs := Candidates(Split(fullText, '\n'));
    if cs != [] {
      var shown := Take(cs, MaxTopics);
      CandidatesClean(Split(fullText, '\n'), cs[0]);
      assert shown[0] == cs[0];
      assert |Join(shown, ", ")| >= |shown[0]|;
    }
  }

  /** The result lists at most 100 distinct topics, the first ones found. */
  lemma TopicsShown(fullText: string)
    ensures var shown := Take(Candidates(Split(fullText, '\n')), MaxTopics);
            var cs := Candidates(Split(fullText, '\n'));
            Topics(fullText) == Join(shown, ", ")
            && |shown| == (if |cs| <= MaxTopics then |cs| else MaxTopics)
            && shown == Candidates(Split(fullText, '\n'))[..|shown|]
            && forall p, q :: 0 <= p < q < |shown| ==> shown[p] != shown[q]
  {
    CandidatesDistinct(Split(fullText, '\n'));
  }

  // ---------------------------------------------------------------------
  // The document
  // ---------------------------------------------------------------------

  /** What `page.extract_text()` gave for one page: its text (empty when it
      has none), or the message of the exception it raised. */
  datatype PageText = Extracted(text: string) | Failed(msg: string)

  /** The upload: either the PDF reader could not open it (and raised with
      message `msg`), or it has pages. */
  datatype Document = Unreadable(msg: string) | Readable(pages: seq<PageText>)

  /** `full_text` after the pages: each non-empty page text followed by a
      newline. */
  function FullText(pages: seq<PageText>): (r: string)
    ensures r == "" <==> forall i :: 0 <= i < |pages| ==> !(pages[i].Extracted? && pages[i].text != "")
    ensures r != "" ==> r[|r| - 1] == '\n'
  {
    if pages == [] then ""
    else
      var last := pages[|pages| - 1];
      FullText(pages[..|pages| - 1])
      + (if last.Extracted? && last.text != "" then last.text + "\n" else "")
  }

  /** The message of the first page whose extraction raised, if any. */
  function FirstFailure(pages: seq<PageText>): (r: Option<string>)
    ensures r.None? <==> forall i :: 0 <= i < |pages| ==> pages[i].Extracted?
  {
    if pages == [] then None
    else
      var n := |pages| - 1;
      assert forall i :: 0 <= i < n ==> pages[..n][i] == pages[i];
      if FirstFailure(pages[..n]).Some? then FirstFailure(pages[..n])
      else if pages[n].Failed? then Some(pages[n].msg)
      else None
  }

  /** The failure reported is the message of the first page that raised. */
  lemma {:induction false} FirstFailureAt(pages: seq<PageText>, i: nat)
    requires i < |pages| && pages[i].Failed? && AllExtracted(pages, i)
    ensures FirstFailure(pages) == Some(pages[i].msg)
  {
    var n := |pages| - 1;
    if i < n {
      assert pages[..n][i] == pages[i];
      assert AllExtracted(pages[..n], i);
      FirstFailureAt(pages[..n], i);
    } else {
      assert FirstFailure(pages[..n]).None? by {
        assert forall j :: 0 <= j < n ==> pages[..n][j] == pages[j];
      }
    }
  }

  /** The pages before page `i` were all extracted without an exception. */
  predicate AllExtracted(pages: seq<PageText>, i: int)
  {
    forall j :: 0 <= j < i && j < |pages| ==> pages[j].Extracted?
  }

  /** A failure in a prefix is the first failure of the whole. */
  lemma {:induction false} FirstFailurePrefix(pages: seq<PageText>, m: nat)
    requires m <= |pages| && FirstFailure(pages[..m]).Some?
    ensures FirstFailure(pages) == FirstFailure(pages[..m])
    decreases |pages| - m
  {
    if m < |pages| {
      var n := |pages|;
      assert pages[..n - 1][..m] == pages[..m];
      FirstFailurePrefix(pages[..n - 1], m);
    } else {
      assert pages[..m] == pages;
    }
  }

  /** What `extract_topics_from_pdf` returns for `doc`. */
  function ExtractResult(doc: Document): string
  {
    match doc
    case Unreadable(msg) => ErrorPrefix + msg
    case Readable(pages) =>
      match FirstFailure(pages)
      case Some(msg) => ErrorPrefix + msg
      case None => Topics(FullText(pages))
  }

  /** `extract_topics_from_pdf`: concatenate the pages' text, then pick the
      topics out of it; any exception becomes an error message. */
  method ExtractTopicsFromPdf(doc: Document) returns (result: string)
    ensures result == ExtractResult(doc)
  {
    match doc
    case Unreadable(msg) =>
      return ErrorPrefix + msg;
    case Readable(pages) =>
      var fullText := "";
      for i := 0 to |pages|
        invariant fullText == FullText(pages[..i])
        invariant FirstFailure(pages[..i]).None?
      {
        assert pages[..i + 1][..i] == pages[..i];
        match pages[i]
        case Failed(msg) =>
          FirstFailurePrefix(pages, i + 1);
          return ErrorPrefix + msg;
        case Extracted(text) =>
          if text != "" {
            fullText := fullText + text + "\n";
          }
      }
      assert pages[..|pages|] == pages;
      result := ExtractTopics(fullText);
  }

  /** Any exception yields a message starting with the error prefix and
      ending with the exception's own message, which for a page is the
      message of the first page that raised; without one, the result is
      the topic list of the text. */
  lemma ExtractOutcome(doc: Document)
    ensures doc.Unreadable? ==> ExtractResult(doc) == ErrorPrefix + doc.msg
    ensures doc.Readable? && (exists i :: 0 <= i < |doc.pages| && doc.pages[i].Failed?) ==>
              StartsWith(ExtractResult(doc), ErrorPrefix)
    ensures forall i :: (doc.Readable? && 0 <= i < |doc.pages| && doc.pages[i].Failed? && AllExtracted(doc.pages, i))
              ==> ExtractResult(doc) == ErrorPrefix + doc.pages[i].msg
    ensures doc.Readable? && (forall i :: 0 <= i < |doc.pages| ==> doc.pages[i].Extracted?) ==>
              ExtractResult(doc) == Topics(FullText(doc.pages))
  {
    if doc.Readable? {
      forall i | 0 <= i < |doc.pages| && doc.pages[i].Failed? && AllExtracted(doc.pages, i)
        ensures ExtractResult(doc) == ErrorPrefix + doc.pages[i].msg
      {
        FirstFailureAt(doc.pages, i);
      }
    }
  }
}
