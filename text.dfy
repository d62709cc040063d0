/** String helpers shared by the Python back end and the JavaScript front end:
    the two whitespace classes, trimming, splitting on one character, joining,
    ASCII case folding and substring search. Strings are `seq<char>`. */
module Text {

  /** The characters for which Python's `str.isspace()` holds: what `str.strip()`
      without an argument and the regular-expression class `\s` remove. */
  const PySpace: set<char> := {
    ' ', '\t', '\n', '\r', '\U{000B}', '\U{000C}',
    '\U{001C}', '\U{001D}', '\U{001E}', '\U{001F}', '\U{0085}', '\U{00A0}',
    '\U{1680}', '\U{2000}', '\U{2001}', '\U{2002}', '\U{2003}', '\U{2004}',
    '\U{2005}', '\U{2006}', '\U{2007}', '\U{2008}', '\U{2009}', '\U{200A}',
    '\U{2028}', '\U{2029}', '\U{202F}', '\U{205F}', '\U{3000}'
  }

  /** The characters JavaScript's `String.prototype.trim()` removes: the
      WhiteSpace and LineTerminator classes of ECMAScript. */
  const JsSpace: set<char> := {
    ' ', '\t', '\n', '\r', '\U{000B}', '\U{000C}', '\U{00A0}', '\U{FEFF}',
    '\U{1680}', '\U{2000}', '\U{2001}', '\U{2002}', '\U{2003}', '\U{2004}',
    '\U{2005}', '\U{2006}', '\U{2007}', '\U{2008}', '\U{2009}', '\U{200A}',
    '\U{2028}', '\U{2029}', '\U{202F}', '\U{205F}', '\U{3000}'
  }

  /** Length of the longest prefix of `s` made of characters of `cs`. */
  function LeadingIn(s: string, cs: set<char>): (n: nat)
    ensures n <= |s|
    ensures forall i :: 0 <= i < n ==> s[i] in cs
    ensures n == |s| || s[n] !in cs
  {
    if |s| > 0 && s[0] in cs then 1 + LeadingIn(s[1..], cs) else 0
  }

  /** Length of the longest suffix of `s` made of characters of `cs`. */
  function TrailingIn(s: string, cs: set<char>): (n: nat)
    ensures n <= |s|
    ensures forall i :: |s| - n <= i < |s| ==> s[i] in cs
    ensures n == |s| || s[|s| - n - 1] !in cs
  {
    if |s| > 0 && s[|s| - 1] in cs then 1 + TrailingIn(s[..|s| - 1], cs) else 0
  }

  /** Where the kept part of `s` starts once `Strip(s, cs)` has removed its
      leading characters of `cs`. */
  function StripStart(s: string, cs: set<char>): nat
  {
    LeadingIn(s, cs)
  }

  /** Where the kept part of `s` ends once `Strip(s, cs)` has removed its
      trailing characters of `cs`. */
  function StripEnd(s: string, cs: set<char>): nat
  {
    var a := LeadingIn(s, cs);
    |s| - TrailingIn(s[a..], cs)
  }

  /** Python's `s.strip(cs)` (and, with `PySpace`, `s.strip()`; with
      `JsSpace`, JavaScript's `s.trim()`): the contiguous part of `s` left
      after removing every leading and every trailing character of `cs`. */
  function Strip(s: string, cs: set<char>): (r: string)
    ensures StripStart(s, cs) <= StripEnd(s, cs) <= |s|
    ensures r == s[StripStart(s, cs)..StripEnd(s, cs)]
    ensures forall i :: 0 <= i < StripStart(s, cs) ==> s[i] in cs
    ensures forall i :: StripEnd(s, cs) <= i < |s| ==> s[i] in cs
    ensures r == [] || (r[0] !in cs && r[|r| - 1] !in cs)
  {
    var a := LeadingIn(s, cs);
    var t := s[a..];
    t[..|t| - TrailingIn(t, cs)]
  }

  /** Stripping a string that neither starts nor ends with a character of
      `cs` gives it back unchanged. */
  lemma StripStripped(s: string, cs: set<char>)
    requires s == [] || (s[0] !in cs && s[|s| - 1] !in cs)
    ensures Strip(s, cs) == s
  {
  }

  /** Stripping is idempotent. */
  lemma StripIdempotent(s: string, cs: set<char>)
    ensures Strip(Strip(s, cs), cs) == Strip(s, cs)
  {
    StripStripped(Strip(s, cs), cs);
  }

  /** Stripping removes leading characters of `cs` one at a time. */
  lemma StripSkipsLeading(c: char, s: string, cs: set<char>)
    requires c in cs
    ensures Strip([c] + s, cs) == Strip(s, cs)
  {
    assert ([c] + s)[1..] == s;
  }

  /** Index of the first occurrence of `c` in `s`. */
  function IndexOf(s: string, c: char): (i: nat)
    requires c in s
    ensures i < |s| && s[i] == c && c !in s[..i]
  {
    if s[0] == c then 0 else 1 + IndexOf(s[1..], c)
  }

  /** The first index holding `c` is the one `IndexOf` finds. */
  lemma {:induction false} IndexOfFirst(s: string, c: char, k: nat)
    requires k < |s| && s[k] == c && c !in s[..k]
    ensures IndexOf(s, c) == k
  {
    if k > 0 {
      assert s[0] in s[..k];
      assert s[1..][..k - 1] == s[..k][1..];
      IndexOfFirst(s[1..], c, k - 1);
    }
  }

  /** Python's `s.split(sep)` and JavaScript's `s.split(sep)` for a
      one-character separator: the pieces between occurrences of `sep`,
      always at least one. */
  function Split(s: string, sep: char): (parts: seq<string>)
    ensures |parts| >= 1
    ensures forall p :: p in parts ==> sep !in p
    decreases |s|
  {
    if sep !in s then [s]
    else
      var i := IndexOf(s, sep);
      [s[..i]] + Split(s[i + 1..], sep)
  }

  /** Splitting at the first separator, found at `k`. */
  lemma SplitFirst(s: string, sep: char, k: nat)
    requires k < |s| && s[k] == sep && sep !in s[..k]
    ensures Split(s, sep) == [s[..k]] + Split(s[k + 1..], sep)
  {
    assert sep in s;
    IndexOfFirst(s, sep, k);
  }

  /** Splitting two strings glued by the separator splits each. */
  lemma {:induction false} SplitConcat(a: string, sep: char, b: string)
    ensures Split(a + [sep] + b, sep) == Split(a, sep) + Split(b, sep)
    decreases |a|
  {
    var s := a + [sep] + b;
    if sep !in a {
      assert s[..|a|] == a && s[|a|] == sep && s[|a| + 1..] == b;
      SplitFirst(s, sep, |a|);
    } else {
      var i := IndexOf(a, sep);
      assert s[..i] == a[..i] && s[i] == sep;
      assert s[i + 1..] == a[i + 1..] + [sep] + b;
      SplitFirst(s, sep, i);
      SplitFirst(a, sep, i);
      SplitConcat(a[i + 1..], sep, b);
      SeqAssoc([a[..i]], Split(a[i + 1..], sep), Split(b, sep));
    }
  }

  /** Concatenation of sequences regroups. */
  lemma SeqAssoc<T>(x: seq<T>, y: seq<T>, z: seq<T>)
    ensures x + (y + z) == (x + y) + z
  {
  }

  /** Python's `sep.join(parts)` (and JavaScript's `parts.join(sep)`). */
  function Join(parts: seq<string>, sep: string): string
  {
    if |parts| == 0 then ""
    else if |parts| == 1 then parts[0]
    else parts[0] + sep + Join(parts[1..], sep)
  }

  /** Joining the pieces of a split with the separator gives the string back. */
  lemma {:induction false} JoinSplit(s: string, sep: char)
    ensures Join(Split(s, sep), [sep]) == s
    decreases |s|
  {
    if sep in s {
      var i := IndexOf(s, sep);
      var rest := s[i + 1..];
      JoinSplit(rest, sep);
      assert Split(s, sep) == [s[..i]] + Split(rest, sep);
      assert s == s[..i] + [sep] + rest;
    }
  }

  /** Splitting a join of separator-free pieces gives the pieces back. */
  lemma {:induction false} SplitJoin(parts: seq<string>, sep: char)
    requires |parts| >= 1
    requires forall p :: p in parts ==> sep !in p
    ensures Split(Join(parts, [sep]), sep) == parts
  {
    if |parts| > 1 {
      var first := parts[0];
      var rest := Join(parts[1..], [sep]);
      var s := first + [sep] + rest;
      assert parts == [first] + parts[1..];
      JoinCons(first, parts[1..], [sep]);
      assert first in parts;
      assert s[..|first|] == first && s[|first|] == sep && s[|first| + 1..] == rest;
      SplitFirst(s, sep, |first|);
      SplitJoin(parts[1..], sep);
    }
  }

  /** ASCII case folding, the part of Python's `str.lower()` this model keeps. */
  function LowerChar(c: char): (r: char)
    ensures 'A' <= c <= 'Z' ==> 'a' <= r <= 'z' && r as int - c as int == 32
    ensures !('A' <= c <= 'Z') ==> r == c
  {
    if 'A' <= c <= 'Z' then (c as int + 32) as char else c
  }

  /** Python's `s.lower()` on ASCII letters; other characters are kept. */
  function Lower(s: string): (r: string)
    ensures |r| == |s|
    ensures forall i :: 0 <= i < |s| ==> r[i] == LowerChar(s[i])
  {
    seq(|s|, i requires 0 <= i < |s| => LowerChar(s[i]))
  }

  /** Folding commutes with taking a slice. */
  lemma LowerSlice(s: string, a: nat, b: nat)
    requires a <= b <= |s|
    ensures Lower(s[a..b]) == Lower(s)[a..b]
  {
  }

  /** Python's `s.startswith(p)`. */
  predicate StartsWith(s: string, p: string)
  {
    |p| <= |s| && s[..|p|] == p
  }

  /** `sub` occurs in `s` starting at index `i`. */
  predicate OccursAt(s: string, sub: string, i: nat)
  {
    i + |sub| <= |s| && s[i..i + |sub|] == sub
  }

  /** Python's `sub in s` on strings. */
  predicate Contains(s: string, sub: string)
  {
    exists i: nat | i <= |s| :: OccursAt(s, sub, i)
  }

  /** What occurs in a slice of `s` occurs in `s`. */
  lemma ContainsInSlice(s: string, a: nat, b: nat, sub: string)
    requires a <= b <= |s|
    ensures Contains(s[a..b], sub) ==> Contains(s, sub)
  {
    if Contains(s[a..b], sub) {
      var i: nat :| i <= b - a && OccursAt(s[a..b], sub, i);
      forall k | 0 <= k < |sub|
        ensures s[a + i + k] == sub[k]
      {
        assert s[a..b][i..i + |sub|][k] == sub[k];
      }
      assert s[a + i..a + i + |sub|] == sub;
      assert OccursAt(s, sub, a + i);
    }
  }

  /** Being a substring is transitive. */
  lemma ContainsTrans(s: string, t: string, u: string)
    requires Contains(s, t)
    ensures Contains(t, u) ==> Contains(s, u)
  {
    var i: nat :| i <= |s| && OccursAt(s, t, i);
    ContainsInSlice(s, i, i + |t|, u);
  }

  /** Folding the case of a string folds the case of its substrings. */
  lemma LowerContains(s: string, t: string)
    requires Contains(s, t)
    ensures Contains(Lower(s), Lower(t))
  {
    var i: nat :| i <= |s| && OccursAt(s, t, i);
    LowerSlice(s, i, i + |t|);
    assert OccursAt(Lower(s), Lower(t), i);
  }

  /** A stripped string is a substring of the original. */
  lemma StripInString(s: string, cs: set<char>)
    ensures Contains(s, Strip(s, cs))
  {
    assert OccursAt(s, Strip(s, cs), StripStart(s, cs));
  }

  /** The pieces of `parts` stripped of `ws`, with the blank ones dropped,
      in order: the `if t.strip()` comprehension of Python and the
      `.map(trim).filter(...)` chain of JavaScript. */
  function NonBlank(parts: seq<string>, ws: set<char>): seq<string>
  {
    if parts == [] then []
    else
      var t := Strip(parts[0], ws);
      (if t != "" then [t] else []) + NonBlank(parts[1..], ws)
  }

  /** `s` split on `sep`, each piece stripped of `ws`, blank pieces dropped. */
  function TrimmedPieces(s: string, sep: char, ws: set<char>): seq<string>
  {
    NonBlank(Split(s, sep), ws)
  }

  /** Dropping blanks from a run that starts with `x`. */
  lemma NonBlankCons(x: string, rest: seq<string>, ws: set<char>)
    ensures NonBlank([x] + rest, ws)
         == (if Strip(x, ws) != "" then [Strip(x, ws)] else []) + NonBlank(rest, ws)
  {
    assert ([x] + rest)[0] == x;
    assert ([x] + rest)[1..] == rest;
  }

  /** Dropping blanks from two runs of pieces. */
  lemma {:induction false} NonBlankAppend(a: seq<string>, b: seq<string>, ws: set<char>)
    ensures NonBlank(a + b, ws) == NonBlank(a, ws) + NonBlank(b, ws)
  {
    if a != [] {
      var head := if Strip(a[0], ws) != "" then [Strip(a[0], ws)] else [];
      assert a == [a[0]] + a[1..];
      assert a + b == [a[0]] + (a[1..] + b);
      NonBlankCons(a[0], a[1..] + b, ws);
      NonBlankCons(a[0], a[1..], ws);
      NonBlankAppend(a[1..], b, ws);
      SeqAssoc(head, NonBlank(a[1..], ws), NonBlank(b, ws));
    } else {
      assert a + b == b;
    }
  }

  /** A separator and a blank at the end add no piece. */
  lemma TrimmedTrailingBlank(s: string, sep: char, ws: set<char>)
    requires ' ' in ws && sep != ' '
    ensures TrimmedPieces(s + [sep] + " ", sep, ws) == TrimmedPieces(s, sep, ws)
  {
    SplitConcat(s, sep, " ");
    assert Split(" ", sep) == [" "];
    NonBlankAppend(Split(s, sep), [" "], ws);
    assert Strip(" ", ws) == "";
    assert NonBlank([" "], ws) == [] + NonBlank([], ws);
  }

  /** Every kept piece is non-empty, neither starts nor ends with a character
      of `ws`, and holds no character that no input piece holds. */
  lemma {:induction false} NonBlankPieces(parts: seq<string>, ws: set<char>, c: char)
    requires forall p :: p in parts ==> c !in p
    ensures forall t :: t in NonBlank(parts, ws) ==>
              t != "" && t[0] !in ws && t[|t| - 1] !in ws && c !in t
  {
    if parts != [] {
      assert parts[0] in parts;
      NonBlankPieces(parts[1..], ws, c);
      var t := Strip(parts[0], ws);
      assert t == parts[0][StripStart(parts[0], ws)..StripEnd(parts[0], ws)];
      assert c !in t;
    }
  }

  /** The pieces of a split on `sep` are non-empty, trimmed and free of
      `sep`. */
  lemma TrimmedPiecesShape(s: string, sep: char, ws: set<char>)
    ensures forall t :: t in TrimmedPieces(s, sep, ws) ==>
              t != "" && t[0] !in ws && t[|t| - 1] !in ws && sep !in t
  {
    NonBlankPieces(Split(s, sep), ws, sep);
  }

  /** `names` with `pad` in front of every name but the first. */
  function Padded(names: seq<string>, pad: string): (r: seq<string>)
    ensures |r| == |names|
  {
    if |names| <= 1 then names else [names[0]] + Prefixed(names[1..], pad)
  }

  /** `pad` put in front of every name. */
  function Prefixed(names: seq<string>, pad: string): (r: seq<string>)
    ensures |r| == |names|
    ensures forall k :: 0 <= k < |names| ==> r[k] == pad + names[k]
  {
    if names == [] then [] else [pad + names[0]] + Prefixed(names[1..], pad)
  }

  /** Joining with `sep` followed by `pad` is joining the padded names with
      `sep`. */
  lemma {:induction false} JoinPadded(names: seq<string>, sep: char, pad: string)
    ensures Join(names, [sep] + pad) == Join(Padded(names, pad), [sep])
  {
    if |names| > 1 {
      JoinPadded(names[1..], sep, pad);
      var rest := names[1..];
      assert Padded(names, pad) == [names[0]] + Prefixed(rest, pad);
      if |rest| > 1 {
        assert Padded(rest, pad) == [rest[0]] + Prefixed(rest[1..], pad);
        assert Prefixed(rest, pad) == [pad + rest[0]] + Prefixed(rest[1..], pad);
        JoinPrefixed(rest[0], Prefixed(rest[1..], pad), sep, pad);
      } else {
        assert Prefixed(rest, pad) == [pad + rest[0]];
      }
    }
  }

  /** Joining a name in front of at least one more. */
  lemma JoinCons(x: string, more: seq<string>, sep: string)
    requires |more| >= 1
    ensures Join([x] + more, sep) == x + sep + Join(more, sep)
  {
    assert ([x] + more)[1..] == more;
  }

  /** Prepending `pad` to the first of several joined names prepends it to
      the join. */
  lemma JoinPrefixed(first: string, more: seq<string>, sep: char, pad: string)
    requires |more| >= 1
    ensures Join([pad + first] + more, [sep]) == pad + Join([first] + more, [sep])
  {
    var rest := Join(more, [sep]);
    assert Join([pad + first] + more, [sep]) == (pad + first) + [sep] + rest by {
      JoinCons(pad + first, more, [sep]);
    }
    assert Join([first] + more, [sep]) == first + [sep] + rest by {
      JoinCons(first, more, [sep]);
    }
    ConcatAssoc(pad, first, [sep], rest);
  }

  /** Concatenation of four strings regroups. */
  lemma ConcatAssoc(a: string, b: string, c: string, d: string)
    ensures a + b + c + d == a + (b + c + d)
  {
  }

  /** Non-empty names, each free of `sep` and neither starting nor ending
      with a character of `ws`, joined with `sep` and a space (`", "` for a
      comma), split and trimmed again, give the names back. */
  lemma TrimmedPiecesJoin(names: seq<string>, sep: char, ws: set<char>)
    requires ' ' in ws && sep != ' '
    requires forall t :: t in names ==> t != "" && t[0] !in ws && t[|t| - 1] !in ws && sep !in t
    ensures TrimmedPieces(Join(names, [sep, ' ']), sep, ws) == names
  {
    JoinPadded(names, sep, " ");
    assert [sep] + " " == [sep, ' '];
    var padded := Padded(names, " ");
    if names == [] {
      assert Join(names, [sep, ' ']) == "";
      assert Split("", sep) == [""];
      assert Strip("", ws) == "";
      assert [""][1..] == [];
      assert NonBlank([""], ws) == [] + NonBlank([], ws);
      assert TrimmedPieces("", sep, ws) == NonBlank([""], ws);
    } else {
      forall p | p in padded ensures sep !in p {
        var k :| 0 <= k < |padded| && padded[k] == p;
        if k == 0 {
          assert p == names[0];
        } else {
          assert p == " " + names[k];
          assert names[k] in names;
        }
      }
      SplitJoin(padded, sep);
      NonBlankPadded(names, ws);
    }
  }

  /** Trimming the padded names gives the names back. */
  lemma NonBlankPadded(names: seq<string>, ws: set<char>)
    requires ' ' in ws
    requires forall t :: t in names ==> t != "" && t[0] !in ws && t[|t| - 1] !in ws
    ensures NonBlank(Padded(names, " "), ws) == names
  {
    if names != [] {
      assert names[0] in names;
      StripStripped(names[0], ws);
      var rest := if |names| > 1 then Prefixed(names[1..], " ") else [];
      assert Padded(names, " ") == [names[0]] + rest;
      NonBlankCons(names[0], rest, ws);
      if |names| > 1 {
        NonBlankPrefixed(names[1..], ws);
      }
      assert names == [names[0]] + names[1..];
    }
  }

  /** Trimming names with a space in front gives the names back. */
  lemma {:induction false} NonBlankPrefixed(names: seq<string>, ws: set<char>)
    requires ' ' in ws
    requires forall t :: t in names ==> t != "" && t[0] !in ws && t[|t| - 1] !in ws
    ensures NonBlank(Prefixed(names, " "), ws) == names
  {
    if names != [] {
      assert names[0] in names;
      StripSkipsLeading(' ', names[0], ws);
      StripStripped(names[0], ws);
      assert Prefixed(names, " ") == [" " + names[0]] + Prefixed(names[1..], " ");
      NonBlankCons(" " + names[0], Prefixed(names[1..], " "), ws);
      NonBlankPrefixed(names[1..], ws);
      assert names == [names[0]] + names[1..];
    }
  }
}
