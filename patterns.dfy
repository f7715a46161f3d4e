/**
 * The regular expressions the scripts use, re-expressed as character-level
 * recursive functions that scan the way Python's `re` engine does
 * (leftmost match first, greedy repetition, the search resumes after a match).
 */
module Patterns {
  import opened Text

  // ---------------------------------------------------------------
  // re.findall over character runs
  // ---------------------------------------------------------------

  /** Length of the leading run of characters satisfying `p`. */
  function Span(s: string, p: char -> bool): (k: nat)
    ensures k <= |s|
    ensures forall i :: 0 <= i < k ==> p(s[i])
    ensures k == |s| || !p(s[k])
  {
    if s == [] || !p(s[0]) then 0 else 1 + Span(s[1..], p)
  }

  /**
   * `re.findall` of the pattern `S C*`, where `S` is the class `start` and `C`
   * the class `cont`: each match begins at the leftmost remaining `start`
   * character and extends greedily over `cont` characters.
   */
  function Tokens(s: string, start: char -> bool, cont: char -> bool): (ts: seq<string>)
    ensures forall t :: t in ts ==> t != [] && start(t[0]) && forall i :: 1 <= i < |t| ==> cont(t[i])
    decreases |s|
  {
    if s == [] then []
    else if !start(s[0]) then Tokens(s[1..], start, cont)
    else
      var k := 1 + Span(s[1..], cont);
      assert forall i :: 1 <= i < k ==> s[..k][i] == s[1..][i - 1];
      [s[..k]] + Tokens(s[k..], start, cont)
  }

  lemma {:induction false} SpanOf(t: string, u: string, p: char -> bool)
    requires forall i :: 0 <= i < |t| ==> p(t[i])
    requires u == [] || !p(u[0])
    ensures Span(t + u, p) == |t|
  {
    if t != [] {
      assert (t + u)[1..] == t[1..] + u;
      SpanOf(t[1..], u, p);
    } else {
      assert t + u == u;
    }
  }

  /** A whole match followed by a character that cannot continue it. */
  lemma TokensCons(t: string, u: string, start: char -> bool, cont: char -> bool)
    requires t != [] && start(t[0]) && forall i :: 1 <= i < |t| ==> cont(t[i])
    requires u == [] || !cont(u[0])
    ensures Tokens(t + u, start, cont) == [t] + Tokens(u, start, cont)
  {
    assert (t + u)[1..] == t[1..] + u;
    SpanOf(t[1..], u, cont);
    assert (t + u)[..|t|] == t && (t + u)[|t|..] == u;
  }

  /** A string that starts with a `start` character and continues with `cont` characters is one whole match. */
  lemma TokensWhole(t: string, start: char -> bool, cont: char -> bool)
    requires t != [] && start(t[0]) && forall i :: 1 <= i < |t| ==> cont(t[i])
    ensures Tokens(t, start, cont) == [t]
  {
    var k := 1 + Span(t[1..], cont);
    assert t[..k] == t && t[k..] == [];
  }

  /** Characters that start no match are skipped. */
  lemma TokensSkip(pre: string, t: string, start: char -> bool, cont: char -> bool)
    requires forall i :: 0 <= i < |pre| ==> !start(pre[i])
    ensures Tokens(pre + t, start, cont) == Tokens(t, start, cont)
    decreases |pre|
  {
    if pre != [] {
      assert (pre + t)[1..] == pre[1..] + t;
      TokensSkip(pre[1..], t, start, cont);
    } else {
      assert pre + t == t;
    }
  }

  /** `re.findall` finds nothing exactly when no character can start a match. */
  lemma {:induction false} TokensNone(s: string, start: char -> bool, cont: char -> bool)
    ensures Tokens(s, start, cont) == [] <==> forall i :: 0 <= i < |s| ==> !start(s[i])
    decreases |s|
  {
    if s != [] && !start(s[0]) {
      TokensNone(s[1..], start, cont);
      assert forall i :: 1 <= i < |s| ==> s[i] == s[1..][i - 1];
    }
  }

  // ---------------------------------------------------------------
  // Case-insensitive whole-word search: re.search(r"\bfoil\b", s, re.I)
  // ---------------------------------------------------------------

  /**
   * One character matched against a lower-case ASCII letter under
   * `re.IGNORECASE`: its simple lower case, plus the extra case pairs the
   * engine adds (dotless and dotted i, long s, Kelvin sign).
   */
  predicate CharMatchesCI(c: char, t: char) {
    LowerChar(c) == t
    || (t == 'i' && (c == '\U{130}' || c == '\U{131}'))
    || (t == 's' && c == '\U{17f}')
    || (t == 'k' && c == '\U{212a}')
  }

  /** `w` (lower-case ASCII) matches case-insensitively at index `i` of `s`. */
  predicate MatchesAtCI(s: string, i: nat, w: string) {
    i + |w| <= |s| && forall j :: 0 <= j < |w| ==> CharMatchesCI(s[i + j], w[j])
  }

  /** Both `\b` assertions around a word-character literal occupying `s[i..i+n]`. */
  predicate BoundedAt(s: string, i: nat, n: nat)
    requires i + n <= |s|
  {
    (i == 0 || !IsWordChar(s[i - 1])) && (i + n == |s| || !IsWordChar(s[i + n]))
  }

  /** `\b` + `w` + `\b` matches at index `i`. */
  predicate WholeWordAt(s: string, i: nat, w: string) {
    MatchesAtCI(s, i, w) && BoundedAt(s, i, |w|)
  }

  /** The engine's scan: try index `i`, then `i + 1`, and so on. */
  predicate SearchWordFrom(s: string, i: nat, w: string)
    decreases |s| - i
  {
    i + |w| <= |s| && (WholeWordAt(s, i, w) || SearchWordFrom(s, i + 1, w))
  }

  /** `re.search(r"\b" + w + r"\b", s, re.I)` succeeds. */
  predicate SearchWord(s: string, w: string) { SearchWordFrom(s, 0, w) }

  lemma {:induction false} SearchWordFromSpec(s: string, i: nat, w: string)
    ensures SearchWordFrom(s, i, w) <==> exists j :: i <= j && WholeWordAt(s, j, w)
    decreases |s| - i
  {
    if i + |w| <= |s| {
      SearchWordFromSpec(s, i + 1, w);
      if exists j :: i <= j && WholeWordAt(s, j, w) {
        var j :| i <= j && WholeWordAt(s, j, w);
        if j != i { assert i + 1 <= j; }
      }
    }
  }

  /** The search succeeds exactly when the word occurs, case-insensitively, with a word boundary on both sides. */
  lemma SearchWordSpec(s: string, w: string)
    ensures SearchWord(s, w) <==> exists j :: 0 <= j && WholeWordAt(s, j, w)
  {
    SearchWordFromSpec(s, 0, w);
  }

  // ---------------------------------------------------------------
  // re.sub(r"\s*\([^)]*\)", "", s)
  // ---------------------------------------------------------------

  /** Index of the first `c` in `s`, or `|s|` when absent. */
  function IndexOf(s: string, c: char): (k: nat)
    ensures k <= |s|
    ensures k < |s| ==> s[k] == c
    ensures forall i :: 0 <= i < k ==> s[i] != c
  {
    if s == [] then 0 else if s[0] == c then 0 else 1 + IndexOf(s[1..], c)
  }

  /** The first occurrence is the one with none before it. */
  lemma IndexOfIs(s: string, c: char, k: nat)
    requires k <= |s| && (k < |s| ==> s[k] == c) && forall i :: 0 <= i < k ==> s[i] != c
    ensures IndexOf(s, c) == k
  {
  }

  /** Length of the match of `\s*\([^)]*\)` at the start of `s`, if there is one. */
  function ParenGroupAt(s: string): (k: nat)
    ensures k <= |s|
  {
    var w := LeadingSpaces(s);
    if w < |s| && s[w] == '(' && IndexOf(s[w + 1..], ')') < |s| - w - 1 then w + 1 + IndexOf(s[w + 1..], ')') + 1 else 0
  }

  /** Deletes every match of `\s*\([^)]*\)`, scanning from the left. */
  function RemoveParenGroups(s: string): (r: string)
    ensures |r| <= |s|
    decreases |s|
  {
    if s == [] then []
    else
      var k := ParenGroupAt(s);
      if k > 0 then RemoveParenGroups(s[k..]) else [s[0]] + RemoveParenGroups(s[1..])
  }

  lemma {:induction false} RemoveParenGroupsChars(s: string)
    ensures forall c :: c in RemoveParenGroups(s) ==> c in s
    decreases |s|
  {
    if s != [] {
      var k := ParenGroupAt(s);
      if k > 0 {
        RemoveParenGroupsChars(s[k..]);
        assert forall c :: c in s[k..] ==> c in s;
      } else {
        RemoveParenGroupsChars(s[1..]);
        assert forall c :: c in s[1..] ==> c in s;
      }
    }
  }

  /** No `(` is left that has a `)` after it: every complete group has been removed. */
  predicate NoParenGroup(s: string) {
    forall i, j :: 0 <= i < j < |s| && s[i] == '(' ==> s[j] != ')'
  }

  lemma {:induction false} RemoveParenGroupsNoGroup(s: string)
    ensures NoParenGroup(RemoveParenGroups(s))
    decreases |s|
  {
    if s != [] {
      var k := ParenGroupAt(s);
      if k > 0 {
        RemoveParenGroupsNoGroup(s[k..]);
      } else {
        RemoveParenGroupsNoGroup(s[1..]);
        var rest := RemoveParenGroups(s[1..]);
        var r := [s[0]] + rest;
        if s[0] == '(' {
          assert LeadingSpaces(s) == 0;
          assert IndexOf(s[1..], ')') == |s| - 1;
          RemoveParenGroupsChars(s[1..]);
          assert ')' !in rest;
        }
        forall i, j | 0 <= i < j < |r| && r[i] == '(' ensures r[j] != ')' {
          if i == 0 {
            assert r[j] in rest by { assert r[j] == rest[j - 1]; }
          } else {
            assert r[i] == rest[i - 1] && r[j] == rest[j - 1];
          }
        }
      }
    }
  }

  /** Text without `(` is left unchanged. */
  lemma {:induction false} RemoveParenGroupsNoOpen(s: string)
    requires '(' !in s
    ensures RemoveParenGroups(s) == s
    decreases |s|
  {
    if s != [] {
      var w := LeadingSpaces(s);
      assert w < |s| ==> s[w] != '(';
      assert ParenGroupAt(s) == 0;
      RemoveParenGroupsNoOpen(s[1..]);
    }
  }

  /**
   * No match starts inside a prefix `a` without "(": the whitespace run at
   * any of its positions ends at a character of `a`, or runs on into `t`
   * only when `t` does not open a group there.
   */
  lemma {:induction false} RemoveParenGroupsConcat(a: string, t: string)
    requires '(' !in a
    requires a == [] || !IsSpace(a[|a| - 1]) || t == [] || (!IsSpace(t[0]) && t[0] != '(')
    ensures RemoveParenGroups(a + t) == a + RemoveParenGroups(t)
    decreases |a|
  {
    if a == [] {
      assert a + t == t;
    } else {
      ConcatStep(a, t);
      assert '(' !in a[1..] by { assert forall c :: c in a[1..] ==> c in a; }
      assert a[1..] != [] ==> a[1..][|a[1..]| - 1] == a[|a| - 1];
      RemoveParenGroupsConcat(a[1..], t);
      var x := RemoveParenGroups(t);
      var l := RemoveParenGroups(a + t);
      assert l == [a[0]] + (a[1..] + x);
      ConsRest(a, x);
    }
  }

  lemma ConsRest(a: string, x: string)
    requires a != []
    ensures [a[0]] + (a[1..] + x) == a + x
  {
    assert [a[0]] + a[1..] == a;
  }

  /** A group " (g)" is one whole match, and the scan goes on after it. */
  lemma RemoveParenGroupsGroup(g: string, c: string)
    requires ')' !in g
    ensures RemoveParenGroups(" (" + g + ")" + c) == RemoveParenGroups(c)
  {
    var s := " (" + g + ")" + c;
    var rest := s[2..];
    assert rest == g + ")" + c;
    IndexOfIs(rest, ')', |g|);
    assert LeadingSpaces(s) == 1;
    assert ParenGroupAt(s) == |g| + 3;
    assert s[|g| + 3..] == c;
  }

  /** One step of `RemoveParenGroupsConcat`: the first character of `a` is kept. */
  lemma ConcatStep(a: string, t: string)
    requires a != [] && '(' !in a
    requires !IsSpace(a[|a| - 1]) || t == [] || (!IsSpace(t[0]) && t[0] != '(')
    ensures RemoveParenGroups(a + t) == [a[0]] + RemoveParenGroups(a[1..] + t)
  {
    var s := a + t;
    var u := a[1..] + t;
    assert s[1..] == u && s[0] == a[0];
    NoGroupAtPrefix(a, t);
    KeepFirst(s);
  }

  /** Where no match starts, the first character is kept. */
  lemma KeepFirst(s: string)
    requires s != [] && ParenGroupAt(s) == 0
    ensures RemoveParenGroups(s) == [s[0]] + RemoveParenGroups(s[1..])
  {
  }

  /** The step of `RemoveParenGroupsConcat`: no match starts at the front of `a + t`. */
  lemma NoGroupAtPrefix(a: string, t: string)
    requires a != [] && '(' !in a
    requires !IsSpace(a[|a| - 1]) || t == [] || (!IsSpace(t[0]) && t[0] != '(')
    ensures ParenGroupAt(a + t) == 0
  {
    var s := a + t;
    var w := LeadingSpaces(s);
    if w < |s| {
      if w < |a| {
        assert s[w] == a[w];
      } else {
        assert IsSpace(s[|a| - 1]);
        assert s[|a|] == t[0];
      }
    }
  }

  // ---------------------------------------------------------------
  // re.sub(r"\s+", " ", s)
  // ---------------------------------------------------------------

  /** Replaces every maximal whitespace run by one blank. */
  function CollapseSpaces(s: string): (r: string)
    ensures |r| <= |s|
    decreases |s|
  {
    if s == [] then []
    else if IsSpace(s[0]) then " " + CollapseSpaces(s[LeadingSpaces(s)..])
    else [s[0]] + CollapseSpaces(s[1..])
  }

  /** Every whitespace character is a blank followed by a non-whitespace character or the end. */
  predicate Collapsed(s: string) {
    forall i :: 0 <= i < |s| && IsSpace(s[i]) ==> s[i] == ' ' && (i + 1 == |s| || !IsSpace(s[i + 1]))
  }

  /** Text whose whitespace is already single blanks is left unchanged. */
  lemma {:induction false} CollapseSpacesKeeps(s: string)
    requires Collapsed(s)
    ensures CollapseSpaces(s) == s
    decreases |s|
  {
    if s != [] {
      CollapsedSlice(s, 1, |s|);
      assert s[1..|s|] == s[1..];
      CollapseSpacesKeeps(s[1..]);
      if IsSpace(s[0]) {
        assert LeadingSpaces(s) == 1;
      }
      assert s == [s[0]] + s[1..];
    }
  }

  lemma {:induction false} CollapseSpacesCollapsed(s: string)
    ensures Collapsed(CollapseSpaces(s))
    ensures CollapseSpaces(s) != [] && s != [] ==> (IsSpace(CollapseSpaces(s)[0]) <==> IsSpace(s[0]))
    decreases |s|
  {
    if s != [] {
      if IsSpace(s[0]) {
        var k := LeadingSpaces(s);
        CollapseSpacesCollapsed(s[k..]);
        var rest := CollapseSpaces(s[k..]);
        var r := " " + rest;
        forall i | 0 <= i < |r| && IsSpace(r[i]) ensures r[i] == ' ' && (i + 1 == |r| || !IsSpace(r[i + 1])) {
          if i > 0 { assert r[i] == rest[i - 1]; }
          if i + 1 < |r| { assert r[i + 1] == rest[i]; }
        }
      } else {
        CollapseSpacesCollapsed(s[1..]);
        var rest := CollapseSpaces(s[1..]);
        var r := [s[0]] + rest;
        forall i | 0 <= i < |r| && IsSpace(r[i]) ensures r[i] == ' ' && (i + 1 == |r| || !IsSpace(r[i + 1])) {
          assert r[i] == rest[i - 1];
          if i + 1 < |r| { assert r[i + 1] == rest[i]; }
        }
      }
    }
  }

  lemma CollapsedSlice(s: string, a: nat, b: nat)
    requires Collapsed(s) && a <= b <= |s|
    ensures Collapsed(s[a..b])
  {
    forall i | 0 <= i < b - a && IsSpace(s[a..b][i]) ensures s[a..b][i] == ' ' && (i + 1 == b - a || !IsSpace(s[a..b][i + 1])) {
      assert s[a..b][i] == s[a + i];
      if i + 1 < b - a { assert s[a..b][i + 1] == s[a + i + 1]; }
    }
  }

  /** `re.sub(r"\s+", " ", s).strip()` leaves single blanks between non-blank text and none at the ends. */
  lemma CollapseStripSingleSpaced(s: string)
    ensures SingleSpaced(Strip(CollapseSpaces(s)))
  {
    var c := CollapseSpaces(s);
    CollapseSpacesCollapsed(s);
    StripSpec(c);
    var a, b :| 0 <= a <= b <= |c| && Strip(c) == c[a..b];
    CollapsedSlice(c, a, b);
  }

  // ---------------------------------------------------------------
  // NFKD followed by encode("ASCII", "ignore")
  // ---------------------------------------------------------------

  /**
   * The ASCII characters left from one character after its compatibility
   * decomposition, for the Latin-1 range; every other non-ASCII character
   * yields nothing.
   */
  function AsciiFoldChar(c: char): string {
    if c < '\U{80}' then [c]
    else if '\U{c0}' <= c <= '\U{c5}' then "A"
    else if c == '\U{c7}' then "C"
    else if '\U{c8}' <= c <= '\U{cb}' then "E"
    else if '\U{cc}' <= c <= '\U{cf}' then "I"
    else if c == '\U{d1}' then "N"
    else if '\U{d2}' <= c <= '\U{d6}' then "O"
    else if '\U{d9}' <= c <= '\U{dc}' then "U"
    else if c == '\U{dd}' then "Y"
    else if '\U{e0}' <= c <= '\U{e5}' then "a"
    else if c == '\U{e7}' then "c"
    else if '\U{e8}' <= c <= '\U{eb}' then "e"
    else if '\U{ec}' <= c <= '\U{ef}' then "i"
    else if c == '\U{f1}' then "n"
    else if '\U{f2}' <= c <= '\U{f6}' then "o"
    else if '\U{f9}' <= c <= '\U{fc}' then "u"
    else if c == '\U{fd}' || c == '\U{ff}' then "y"
    else if c == '\U{a0}' || c == '\U{a8}' || c == '\U{af}' || c == '\U{b4}' || c == '\U{b8}' then " "
    else if c == '\U{aa}' then "a"
    else if c == '\U{ba}' then "o"
    else if c == '\U{b2}' then "2"
    else if c == '\U{b3}' then "3"
    else if c == '\U{b9}' then "1"
    else if c == '\U{bc}' then "14"
    else if c == '\U{bd}' then "12"
    else if c == '\U{be}' then "34"
    else []
  }

  function AsciiFold(s: string): (r: string)
    ensures forall c :: c in r ==> c < '\U{80}'
  {
    if s == [] then [] else AsciiFoldChar(s[0]) + AsciiFold(s[1..])
  }

  lemma {:induction false} AsciiFoldAscii(s: string)
    requires forall c :: c in s ==> c < '\U{80}'
    ensures AsciiFold(s) == s
  {
    if s != [] {
      assert s[0] in s;
      assert forall c :: c in s[1..] ==> c in s;
      AsciiFoldAscii(s[1..]);
      assert s == [s[0]] + s[1..];
    }
  }

  // ---------------------------------------------------------------
  // Which characters the later cleaning steps can introduce
  // ---------------------------------------------------------------

  lemma NoParenGroupSlice(s: string, a: nat, b: nat)
    requires NoParenGroup(s) && a <= b <= |s|
    ensures NoParenGroup(s[a..b])
  {
    forall i, j | 0 <= i < j < b - a && s[a..b][i] == '(' ensures s[a..b][j] != ')' {
      assert s[a..b][i] == s[a + i] && s[a..b][j] == s[a + j];
    }
  }

  /** The folding table produces no parenthesis or hyphen that was not already there. */
  /** `strip` keeps no character that was not there and makes no group. */
  lemma StripNoParenGroup(s: string)
    requires NoParenGroup(s)
    ensures NoParenGroup(Strip(s))
    ensures forall c :: c in Strip(s) ==> c in s
  {
    StripSlice(s);
    NoParenGroupSlice(s, LeadingSpaces(s), LeadingSpaces(s) + |Strip(s)|);
  }

  lemma {:induction false} AsciiFoldKeepsOut(s: string, x: char)
    requires x == '(' || x == ')' || x == '-'
    ensures x in AsciiFold(s) ==> x in s
  {
    if s != [] {
      AsciiFoldKeepsOut(s[1..], x);
      if x in AsciiFoldChar(s[0]) {
        assert s[0] == x;
      }
      assert AsciiFold(s) == AsciiFoldChar(s[0]) + AsciiFold(s[1..]);
    }
  }

  lemma {:induction false} AsciiFoldNoParenGroup(s: string)
    requires NoParenGroup(s)
    ensures NoParenGroup(AsciiFold(s))
  {
    if s != [] {
      NoParenGroupSlice(s, 1, |s|);
      assert s[1..|s|] == s[1..];
      AsciiFoldNoParenGroup(s[1..]);
      var f := AsciiFoldChar(s[0]);
      var rest := AsciiFold(s[1..]);
      var r := f + rest;
      assert AsciiFold(s) == r;
      if '(' in f {
        assert s[0] == '(';
        assert ')' !in s[1..] by {
          forall j | 0 <= j < |s[1..]| ensures s[1..][j] != ')' {
            assert s[1..][j] == s[j + 1];
          }
        }
        AsciiFoldKeepsOut(s[1..], ')');
      }
      forall i, j | 0 <= i < j < |r| && r[i] == '(' ensures r[j] != ')' {
        if i < |f| {
          assert r[i] in f;
          if j >= |f| { assert r[j] == rest[j - |f|]; }
        } else {
          assert r[i] == rest[i - |f|] && r[j] == rest[j - |f|];
        }
      }
    }
  }

  lemma {:induction false} CollapseKeepsOut(s: string, x: char)
    requires x != ' '
    ensures x in CollapseSpaces(s) ==> x in s
    decreases |s|
  {
    if s != [] {
      if IsSpace(s[0]) {
        CollapseKeepsOut(s[LeadingSpaces(s)..], x);
        assert forall c :: c in s[LeadingSpaces(s)..] ==> c in s;
      } else {
        CollapseKeepsOut(s[1..], x);
        assert forall c :: c in s[1..] ==> c in s;
      }
    }
  }

  lemma {:induction false} CollapseNoParenGroup(s: string)
    requires NoParenGroup(s)
    ensures NoParenGroup(CollapseSpaces(s))
    decreases |s|
  {
    if s != [] {
      if IsSpace(s[0]) {
        var k := LeadingSpaces(s);
        NoParenGroupSlice(s, k, |s|);
        assert s[k..|s|] == s[k..];
        CollapseNoParenGroup(s[k..]);
        var rest := CollapseSpaces(s[k..]);
        var r := " " + rest;
        forall i, j | 0 <= i < j < |r| && r[i] == '(' ensures r[j] != ')' {
          assert r[i] == rest[i - 1] && r[j] == rest[j - 1];
        }
      } else {
        NoParenGroupSlice(s, 1, |s|);
        assert s[1..|s|] == s[1..];
        CollapseNoParenGroup(s[1..]);
        var rest := CollapseSpaces(s[1..]);
        var r := [s[0]] + rest;
        if s[0] == '(' {
          assert ')' !in s[1..] by {
            forall j | 0 <= j < |s[1..]| ensures s[1..][j] != ')' {
              assert s[1..][j] == s[j + 1];
            }
          }
          CollapseKeepsOut(s[1..], ')');
        }
        forall i, j | 0 <= i < j < |r| && r[i] == '(' ensures r[j] != ')' {
          if i == 0 {
            assert r[j] == rest[j - 1];
          } else {
            assert r[i] == rest[i - 1] && r[j] == rest[j - 1];
          }
        }
      }
    }
  }

  // ---------------------------------------------------------------
  // re.sub(r"\s+", c, s) for another replacement character
  // ---------------------------------------------------------------

  /** Replaces every maximal whitespace run by the one character `c`. */
  function SpacesTo(s: string, c: char): (r: string)
    ensures |r| <= |s|
    decreases |s|
  {
    if s == [] then []
    else if IsSpace(s[0]) then [c] + SpacesTo(s[LeadingSpaces(s)..], c)
    else [s[0]] + SpacesTo(s[1..], c)
  }

  /** The result keeps the non-whitespace characters and adds only `c`. */
  lemma {:induction false} SpacesToChars(s: string, c: char)
    ensures forall x :: x in SpacesTo(s, c) ==> x == c || (x in s && !IsSpace(x))
    decreases |s|
  {
    if s != [] {
      var k := if IsSpace(s[0]) then LeadingSpaces(s) else 1;
      SpacesToChars(s[k..], c);
      assert forall x :: x in s[k..] ==> x in s;
    }
  }

  /** Text without whitespace is left as it is. */
  lemma {:induction false} SpacesToNoSpace(s: string, c: char)
    requires forall i :: 0 <= i < |s| ==> !IsSpace(s[i])
    ensures SpacesTo(s, c) == s
    decreases |s|
  {
    if s != [] {
      SpacesToNoSpace(s[1..], c);
    }
  }

  /** Index of the last character satisfying `p`, or -1: `str.rfind`. */
  function RFind(s: string, p: char -> bool): (k: int)
    ensures -1 <= k < |s|
    ensures k >= 0 ==> p(s[k])
    ensures forall i :: k < i < |s| ==> !p(s[i])
  {
    if s == [] then -1 else if p(s[|s| - 1]) then |s| - 1 else RFind(s[..|s| - 1], p)
  }

  // ---------------------------------------------------------------
  // Leftmost match and trailing runs
  // ---------------------------------------------------------------

  /** The first position in `i .. n-1` where a match begins (`p`), or `n`: where `re.search` stops. */
  function Leftmost(n: nat, i: nat, p: nat -> bool): (k: nat)
    requires i <= n
    ensures i <= k <= n
    ensures k < n ==> p(k)
    ensures forall j :: i <= j < k ==> !p(j)
    decreases n - i
  {
    if i == n then n else if p(i) then i else Leftmost(n, i + 1, p)
  }

  /** Any position where a match begins, with none before it, is the leftmost one. */
  lemma LeftmostIs(n: nat, p: nat -> bool, k: nat)
    requires k < n && p(k) && forall j :: 0 <= j < k ==> !p(j)
    ensures Leftmost(n, 0, p) == k
  {
  }

  /** Length of the final run of characters satisfying `p`. */
  function SpanEnd(s: string, p: char -> bool): (k: nat)
    ensures k <= |s|
    ensures forall i :: |s| - k <= i < |s| ==> p(s[i])
    ensures k == |s| || !p(s[|s| - 1 - k])
  {
    if s == [] || !p(s[|s| - 1]) then 0 else 1 + SpanEnd(s[..|s| - 1], p)
  }

  /** A final run of `p` characters from `m` on is within the final run. */
  lemma SpanEndCovers(s: string, p: char -> bool, m: nat)
    requires m <= |s| && forall i :: m <= i < |s| ==> p(s[i])
    ensures SpanEnd(s, p) >= |s| - m
  {
  }

  /** The leading run stops at the first character outside `p`. */
  lemma SpanStops(s: string, p: char -> bool, m: nat)
    requires m < |s| && !p(s[m])
    ensures Span(s, p) <= m
  {
  }

  /** A string made of `p` characters is one whole run. */
  lemma SpanAll(s: string, p: char -> bool)
    requires forall i :: 0 <= i < |s| ==> p(s[i])
    ensures Span(s, p) == |s|
  {
  }
}
