/**
 * Character classes and string operations of Python's `str` and `re` that the
 * scripts rely on, written out character by character.
 *
 * Digits are the ASCII digits; whitespace is the set Python's `str.isspace`
 * (and `\s` in a str pattern) accepts; letters, `\w` and lower-casing cover
 * ASCII and Latin-1.
 */
module Text {
  import opened Wrappers

  predicate IsDigit(c: char) { '0' <= c <= '9' }

  predicate IsSpace(c: char) {
    ('\t' <= c <= '\r') || ('\U{1c}' <= c <= '\U{1f}') || c == ' ' || c == '\U{85}' || c == '\U{a0}'
    || c == '\U{1680}' || ('\U{2000}' <= c <= '\U{200a}') || c == '\U{2028}' || c == '\U{2029}'
    || c == '\U{202f}' || c == '\U{205f}' || c == '\U{3000}'
  }

  /** Letters of ASCII and Latin-1 (what `str.isalpha` accepts below U+0100). */
  predicate IsLetter(c: char) {
    ('a' <= c <= 'z') || ('A' <= c <= 'Z') || c == '\U{aa}' || c == '\U{b5}' || c == '\U{ba}'
    || ('\U{c0}' <= c <= '\U{d6}') || ('\U{d8}' <= c <= '\U{f6}') || ('\U{f8}' <= c <= '\U{ff}')
  }

  predicate IsAsciiLetter(c: char) { ('a' <= c <= 'z') || ('A' <= c <= 'Z') }

  predicate IsAlnum(c: char) { IsLetter(c) || IsDigit(c) }

  /** `\w` of a str pattern. */
  predicate IsWordChar(c: char) { IsAlnum(c) || c == '_' }

  function LowerChar(c: char): char {
    if ('A' <= c <= 'Z') || ('\U{c0}' <= c <= '\U{de}' && c != '\U{d7}') then (c as int + 32) as char else c
  }

  /** `str.lower()` */
  function Lower(s: string): (r: string)
    ensures |r| == |s|
    ensures forall i :: 0 <= i < |s| ==> r[i] == LowerChar(s[i])
  {
    if s == [] then [] else [LowerChar(s[0])] + Lower(s[1..])
  }

  lemma LowerAppend(a: string, b: string)
    ensures Lower(a + b) == Lower(a) + Lower(b)
  {
    var l, r := Lower(a + b), Lower(a) + Lower(b);
    forall i | 0 <= i < |l| ensures l[i] == r[i] {
      if i < |a| { assert (a + b)[i] == a[i]; } else { assert (a + b)[i] == b[i - |a|]; }
    }
  }

  // ---------------------------------------------------------------
  // Substrings and splitting
  // ---------------------------------------------------------------

  /** `t in s` for strings. */
  predicate Contains(s: string, t: string)
    decreases |s|
  {
    t <= s || (s != [] && Contains(s[1..], t))
  }

  /** `t in s` holds exactly when `t` occurs at some index of `s`. */
  lemma {:induction false} ContainsAt(s: string, t: string, i: nat)
    requires i + |t| <= |s| && s[i..i + |t|] == t
    ensures Contains(s, t)
    decreases i
  {
    if i == 0 {
      assert t <= s;
    } else {
      assert s[1..][i - 1..i - 1 + |t|] == t;
      ContainsAt(s[1..], t, i - 1);
    }
  }

  lemma {:induction false} ContainsWitness(s: string, t: string) returns (i: nat)
    requires Contains(s, t)
    ensures i + |t| <= |s| && s[i..i + |t|] == t
    decreases |s|
  {
    if t <= s {
      i := 0;
    } else {
      var j := ContainsWitness(s[1..], t);
      i := j + 1;
      assert s[i..i + |t|] == s[1..][j..j + |t|];
    }
  }

  /** `s.split(c)[0]` for a one-character separator: everything before the first `c`. */
  function Before(s: string, c: char): (r: string)
    ensures r <= s
    ensures c !in r
    ensures r == s || s[|r|] == c
  {
    if s == [] then [] else if s[0] == c then [] else [s[0]] + Before(s[1..], c)
  }

  /** Text without `c` is kept whole. */
  lemma {:induction false} BeforeAbsent(s: string, c: char)
    requires c !in s
    ensures Before(s, c) == s
  {
    if s != [] {
      assert c !in s[1..];
      BeforeAbsent(s[1..], c);
    }
  }

  /** A prefix without `c` is kept whole, and the search goes on in what follows. */
  lemma {:induction false} BeforeConcat(a: string, b: string, c: char)
    requires c !in a
    ensures Before(a + b, c) == a + Before(b, c)
  {
    if a != [] {
      assert a[0] in a && c !in a[1..];
      assert (a + b)[1..] == a[1..] + b;
      BeforeConcat(a[1..], b, c);
      assert a == [a[0]] + a[1..];
      assert Before(a + b, c) == [a[0]] + Before(a[1..] + b, c);
    } else {
      assert a + b == b;
    }
  }

  /** `s.replace(c, "")` */
  function Remove(s: string, c: char): (r: string)
    ensures c !in r
    ensures |r| <= |s|
    ensures forall x :: x in r ==> x in s
  {
    if s == [] then [] else (if s[0] == c then [] else [s[0]]) + Remove(s[1..], c)
  }

  lemma RemoveAppend(a: string, b: string, c: char)
    ensures Remove(a + b, c) == Remove(a, c) + Remove(b, c)
  {
    if a != [] {
      assert (a + b)[1..] == a[1..] + b;
      RemoveAppend(a[1..], b, c);
    } else {
      assert a + b == b;
    }
  }

  lemma RemoveAbsent(s: string, c: char)
    requires c !in s
    ensures Remove(s, c) == s
  {
  }

  /** `s.replace(pat, "")` for a non-empty pattern: matches removed left to right, without overlap. */
  function Delete(s: string, pat: string): (r: string)
    requires pat != []
    ensures |r| <= |s|
    decreases |s|
  {
    if |s| == 0 then []
    else if pat <= s then Delete(s[|pat|..], pat)
    else [s[0]] + Delete(s[1..], pat)
  }

  /** Text in which the pattern's first character never occurs is kept, and the scan goes on after it. */
  lemma {:induction false} DeleteSkips(a: string, b: string, pat: string)
    requires pat != [] && pat[0] !in a
    ensures Delete(a + b, pat) == a + Delete(b, pat)
  {
    if a != [] {
      assert a[0] in a && pat[0] !in a[1..];
      assert (a + b)[1..] == a[1..] + b;
      assert !(pat <= a + b);
      DeleteSkips(a[1..], b, pat);
      assert a == [a[0]] + a[1..];
    } else {
      assert a + b == b;
    }
  }

  /** A match at the start is removed. */
  lemma DeleteHead(b: string, pat: string)
    requires pat != []
    ensures Delete(pat + b, pat) == Delete(b, pat)
  {
    assert pat <= pat + b;
    assert (pat + b)[|pat|..] == b;
  }

  // ---------------------------------------------------------------
  // Whitespace
  // ---------------------------------------------------------------

  function LeadingSpaces(s: string): (k: nat)
    ensures k <= |s|
    ensures forall i :: 0 <= i < k ==> IsSpace(s[i])
    ensures k == |s| || !IsSpace(s[k])
  {
    if s == [] || !IsSpace(s[0]) then 0 else 1 + LeadingSpaces(s[1..])
  }

  function TrailingSpaces(s: string): (k: nat)
    ensures k <= |s|
    ensures forall i :: |s| - k <= i < |s| ==> IsSpace(s[i])
    ensures k == |s| || !IsSpace(s[|s| - 1 - k])
  {
    if s == [] || !IsSpace(s[|s| - 1]) then 0 else 1 + TrailingSpaces(s[..|s| - 1])
  }

  function TrimStart(s: string): string { s[LeadingSpaces(s)..] }

  function TrimEnd(s: string): string { s[..|s| - TrailingSpaces(s)] }

  /** `str.strip()` */
  function Strip(s: string): string { TrimEnd(TrimStart(s)) }

  predicate NoOuterSpace(s: string) { s == [] || (!IsSpace(s[0]) && !IsSpace(s[|s| - 1])) }

  /** What `strip` promises: only whitespace is removed, from both ends, and none is left there. */
  lemma StripSpec(s: string)
    ensures NoOuterSpace(Strip(s))
    ensures exists a, b :: 0 <= a <= b <= |s| && Strip(s) == s[a..b]
                           && (forall i :: 0 <= i < a ==> IsSpace(s[i]))
                           && (forall i :: b <= i < |s| ==> IsSpace(s[i]))
  {
    var t := TrimStart(s);
    var a := LeadingSpaces(s);
    var b := a + |t| - TrailingSpaces(t);
    assert Strip(s) == s[a..b];
    forall i | b <= i < |s| ensures IsSpace(s[i]) {
      assert s[i] == t[i - a];
    }
  }

  /** `strip` keeps a contiguous slice, starting after the leading whitespace. */
  lemma StripSlice(s: string)
    ensures LeadingSpaces(s) + |Strip(s)| <= |s|
    ensures Strip(s) == s[LeadingSpaces(s)..LeadingSpaces(s) + |Strip(s)|]
  {
  }

  /** Text after the first non-space character does not change the leading whitespace count. */
  lemma LeadingSpacesPrefix(u: string, v: string)
    requires LeadingSpaces(u) < |u|
    ensures LeadingSpaces(u + v) == LeadingSpaces(u)
  {
    if IsSpace(u[0]) {
      assert (u + v)[1..] == u[1..] + v;
      LeadingSpacesPrefix(u[1..], v);
    }
  }

  /** The leading whitespace stops at the first other character. */
  lemma LeadingSpacesStops(s: string, m: nat)
    requires m < |s| && !IsSpace(s[m])
    ensures LeadingSpaces(s) <= m
  {
  }

  /** Whitespace from `m` to the end is within the trailing whitespace. */
  lemma TrailingSpacesCovers(s: string, m: nat)
    requires m <= |s| && forall i :: m <= i < |s| ==> IsSpace(s[i])
    ensures TrailingSpaces(s) >= |s| - m
  {
  }

  lemma StripNoSpace(s: string)
    requires NoOuterSpace(s)
    ensures Strip(s) == s
  {
  }

  lemma StripIdempotent(s: string)
    ensures Strip(Strip(s)) == Strip(s)
  {
    StripSpec(s);
    StripNoSpace(Strip(s));
  }

  /** A whitespace character at the end does not change the stripped text. */
  lemma {:induction false} StripTrailingSpace(x: string, c: char)
    requires IsSpace(c)
    ensures Strip(x + [c]) == Strip(x)
  {
    var l := LeadingSpaces(x);
    if l == |x| {
      assert Strip(x) == [] by {
        assert TrimStart(x) == [];
      }
      assert LeadingSpaces(x + [c]) == |x + [c]| by {
        AllSpaceLeading(x + [c]);
      }
    } else {
      var y := x[l..];
      assert TrimStart(x + [c]) == y + [c] by {
        LeadingSpacesPrefix(x, [c]);
      }
      TrimEndSpace(y, c);
    }
  }

  /** A whitespace character at the end is trimmed with the rest. */
  lemma TrimEndSpace(y: string, c: char)
    requires IsSpace(c)
    ensures TrimEnd(y + [c]) == TrimEnd(y)
  {
    var t := y + [c];
    assert t[..|y|] == y;
    assert TrailingSpaces(t) == 1 + TrailingSpaces(y);
    assert t[..|t| - TrailingSpaces(t)] == y[..|y| - TrailingSpaces(y)];
  }

  lemma {:induction false} AllSpaceLeading(s: string)
    requires forall i :: 0 <= i < |s| ==> IsSpace(s[i])
    ensures LeadingSpaces(s) == |s|
    decreases |s|
  {
    if s != [] {
      AllSpaceLeading(s[1..]);
    }
  }

  /** Length of the leading run of non-space characters. */
  function WordLength(s: string): (k: nat)
    ensures k <= |s|
    ensures forall i :: 0 <= i < k ==> !IsSpace(s[i])
    ensures k == |s| || IsSpace(s[k])
  {
    if s == [] || IsSpace(s[0]) then 0 else 1 + WordLength(s[1..])
  }

  /** `s.split()`: the maximal runs of non-whitespace characters, in order. */
  function Words(s: string): (ws: seq<string>)
    ensures forall w :: w in ws ==> w != [] && forall c :: c in w ==> !IsSpace(c)
    decreases |s|
  {
    var t := TrimStart(s);
    if t == [] then [] else
      var k := WordLength(t);
      [t[..k]] + Words(t[k..])
  }

  /** `" ".join(ws)` */
  function JoinSpace(ws: seq<string>): string {
    if |ws| == 0 then [] else if |ws| == 1 then ws[0] else ws[0] + " " + JoinSpace(ws[1..])
  }

  /** Every whitespace character of `s` is a single blank between two non-blank characters. */
  predicate SingleSpaced(s: string) {
    NoOuterSpace(s) && forall i :: 0 <= i < |s| && IsSpace(s[i]) ==> s[i] == ' ' && 0 < i < |s| - 1 && !IsSpace(s[i + 1])
  }

  predicate ProperWords(ws: seq<string>) {
    forall w :: w in ws ==> w != [] && forall c :: c in w ==> !IsSpace(c)
  }

  lemma {:induction false} JoinSpaceSingleSpaced(ws: seq<string>)
    requires ProperWords(ws)
    ensures SingleSpaced(JoinSpace(ws))
  {
    if |ws| > 1 {
      assert forall w :: w in ws[1..] ==> w in ws;
      JoinSpaceSingleSpaced(ws[1..]);
      var rest := JoinSpace(ws[1..]);
      var r := ws[0] + " " + rest;
      assert ws[0] in ws && ws[1] in ws;
      JoinSpaceNonEmpty(ws[1..]);
      forall i | 0 <= i < |ws[0]| ensures !IsSpace(r[i]) {
        assert r[i] == ws[0][i] && ws[0][i] in ws[0];
      }
      forall i | |ws[0]| < i < |r| && IsSpace(r[i])
        ensures r[i] == ' ' && 0 < i < |r| - 1 && !IsSpace(r[i + 1])
      {
        assert r[i] == rest[i - |ws[0]| - 1];
      }
    } else if |ws| == 1 {
      assert ws[0] in ws;
      forall i | 0 <= i < |ws[0]| ensures !IsSpace(ws[0][i]) {
        assert ws[0][i] in ws[0];
      }
    }
  }

  lemma JoinSpaceNonEmpty(ws: seq<string>)
    requires ProperWords(ws) && |ws| > 0
    ensures JoinSpace(ws) != [] && !IsSpace(JoinSpace(ws)[0])
  {
    assert ws[0] in ws && ws[0][0] in ws[0];
  }

  /** `" ".join(s.strip().split())`: the tokens of `s` joined by single blanks. */
  function NormalizeSpaces(s: string): (r: string)
    ensures SingleSpaced(r)
  {
    JoinSpaceSingleSpaced(Words(Strip(s)));
    JoinSpace(Words(Strip(s)))
  }

  /** Normalising twice is normalising once. */
  lemma {:induction false} NormalizeSpacesIdempotent(s: string)
    ensures NormalizeSpaces(NormalizeSpaces(s)) == NormalizeSpaces(s)
  {
    var r := NormalizeSpaces(s);
    StripNoSpace(r);
    WordsJoinSpace(Words(Strip(s)));
  }

  /** Normalising keeps the tokens of the text, in order. */
  lemma {:induction false} NormalizeSpacesWords(s: string)
    ensures Words(NormalizeSpaces(s)) == Words(Strip(s))
  {
    WordsJoinSpace(Words(Strip(s)));
  }

  /** Splitting words joined by single blanks gives the words back. */
  lemma {:induction false} WordsJoinSpace(ws: seq<string>)
    requires ProperWords(ws)
    ensures Words(JoinSpace(ws)) == ws
    decreases |ws|
  {
    if |ws| == 1 {
      assert ws[0] in ws;
      WordsOne(ws[0]);
    } else if |ws| > 1 {
      var tail := ws[1..];
      assert ws[0] in ws;
      assert ProperWords(tail) by {
        forall v | v in tail ensures v != [] && forall c :: c in v ==> !IsSpace(c) {
          assert v in ws;
        }
      }
      var rest := JoinSpace(tail);
      assert JoinSpace(ws) == ws[0] + (" " + rest);
      WordsCons(ws[0], rest);
      WordsJoinSpace(tail);
      assert ws == [ws[0]] + tail;
    }
  }

  lemma {:induction false} WordsOne(w: string)
    requires w != [] && forall c :: c in w ==> !IsSpace(c)
    ensures Words(w) == [w]
  {
    assert w[0] in w;
    WordLengthOf(w, []);
    assert w + [] == w;
    assert LeadingSpaces(w) == 0;
    assert w[|w|..] == [];
  }

  lemma {:induction false} WordsCons(w: string, rest: string)
    requires w != [] && forall c :: c in w ==> !IsSpace(c)
    ensures Words(w + (" " + rest)) == [w] + Words(rest)
  {
    var j := w + (" " + rest);
    assert w[0] in w;
    WordLengthOf(w, " " + rest);
    assert LeadingSpaces(j) == 0;
    assert j[..|w|] == w;
    assert j[|w|..] == " " + rest;
    assert LeadingSpaces(" " + rest) == 1 + LeadingSpaces(rest) by {
      assert (" " + rest)[1..] == rest;
    }
    assert TrimStart(" " + rest) == TrimStart(rest);
  }

  /** A word followed by whitespace or nothing is read up to its end. */
  lemma {:induction false} WordLengthOf(w: string, s: string)
    requires forall c :: c in w ==> !IsSpace(c)
    requires s == [] || IsSpace(s[0])
    ensures WordLength(w + s) == |w|
    decreases |w|
  {
    if w != [] {
      assert w[0] in w;
      assert forall c :: c in w[1..] ==> c in w;
      assert (w + s)[1..] == w[1..] + s;
      WordLengthOf(w[1..], s);
    } else {
      assert w + s == s;
    }
  }

  // ---------------------------------------------------------------
  // Digits and integers
  // ---------------------------------------------------------------

  predicate AllDigits(s: string) { forall i :: 0 <= i < |s| ==> IsDigit(s[i]) }

  /** `"".join(filter(str.isdigit, s))`, also `re.sub(r"[^\d]", "", s)` */
  function DigitsOf(s: string): (r: string)
    ensures AllDigits(r)
    ensures |r| <= |s|
  {
    if s == [] then [] else (if IsDigit(s[0]) then [s[0]] else []) + DigitsOf(s[1..])
  }

  lemma DigitsOfAppend(a: string, b: string)
    ensures DigitsOf(a + b) == DigitsOf(a) + DigitsOf(b)
  {
    if a != [] {
      assert (a + b)[1..] == a[1..] + b;
      DigitsOfAppend(a[1..], b);
    } else {
      assert a + b == b;
    }
  }

  lemma DigitsOfDigits(s: string)
    requires AllDigits(s)
    ensures DigitsOf(s) == s
  {
  }

  function DigitValue(c: char): nat
    requires IsDigit(c)
  {
    c as int - '0' as int
  }

  function DigitChar(d: nat): (c: char)
    requires d < 10
    ensures IsDigit(c) && DigitValue(c) == d
  {
    ('0' as int + d) as char
  }

  /** The number a digit string denotes (leading zeros allowed). */
  function NatValue(d: string): nat
    requires AllDigits(d)
  {
    if d == [] then 0 else NatValue(d[..|d| - 1]) * 10 + DigitValue(d[|d| - 1])
  }

  function Pow10(k: nat): nat { if k == 0 then 1 else 10 * Pow10(k - 1) }

  lemma {:induction false} NatValueAppend(a: string, b: string)
    requires AllDigits(a) && AllDigits(b)
    ensures AllDigits(a + b)
    ensures NatValue(a + b) == NatValue(a) * Pow10(|b|) + NatValue(b)
    decreases |b|
  {
    AllDigitsAppend(a, b);
    if b == [] {
      assert a + b == a;
    } else {
      var b' := b[..|b| - 1];
      var last := b[|b| - 1];
      assert (a + b)[..|a + b| - 1] == a + b';
      assert (a + b)[|a + b| - 1] == last;
      AllDigitsAppend(a, b');
      calc {
        NatValue(a + b);
        NatValue(a + b') * 10 + DigitValue(last);
        { NatValueAppend(a, b'); }
        (NatValue(a) * Pow10(|b'|) + NatValue(b')) * 10 + DigitValue(last);
        { ShiftDigit(NatValue(a), Pow10(|b'|), NatValue(b'), DigitValue(last)); }
        NatValue(a) * (Pow10(|b'|) * 10) + (NatValue(b') * 10 + DigitValue(last));
        { assert b[..|b| - 1] == b'; }
        NatValue(a) * Pow10(|b|) + NatValue(b);
      }
    }
  }

  lemma ShiftDigit(x: nat, p: nat, y: nat, d: nat)
    ensures (x * p + y) * 10 + d == x * (p * 10) + (y * 10 + d)
  {
  }

  lemma AllDigitsAppend(a: string, b: string)
    requires AllDigits(a) && AllDigits(b)
    ensures AllDigits(a + b)
  {
    forall i | 0 <= i < |a + b| ensures IsDigit((a + b)[i]) {
      if i < |a| { assert (a + b)[i] == a[i]; } else { assert (a + b)[i] == b[i - |a|]; }
    }
  }

  lemma NatValueBound(d: string)
    requires AllDigits(d)
    ensures NatValue(d) < Pow10(|d|)
  {
  }

  /** `str(n)` for a natural number. */
  function NatToString(n: nat): (r: string)
    ensures r != [] && AllDigits(r)
    ensures NatValue(r) == n
    ensures r[0] != '0' || n == 0
  {
    if n < 10 then [DigitChar(n)] else
      var r := NatToString(n / 10) + [DigitChar(n % 10)];
      assert r[..|r| - 1] == NatToString(n / 10);
      r
  }

  /** `int(t)` for an already stripped text: digits, single underscores between digits. */
  function UnsignedValue(t: string): Option<nat> {
    if t == [] || !IsDigit(t[0]) || !IsDigit(t[|t| - 1]) then None
    else if exists i :: 0 <= i < |t| && !IsDigit(t[i]) && (t[i] != '_' || t[i + 1] == '_') then None
    else Some(NatValue(DigitsOf(t)))
  }

  /** Python's `int(s)` on a string: `None` where it raises `ValueError`. */
  function PyInt(s: string): Option<int> {
    var t := Strip(s);
    if t != [] && (t[0] == '+' || t[0] == '-') then
      match UnsignedValue(t[1..])
      case None => None
      case Some(v) => Some(if t[0] == '-' then -(v as int) else v as int)
    else
      match UnsignedValue(t)
      case None => None
      case Some(v) => Some(v)
  }

  lemma PyIntDigits(d: string)
    requires d != [] && AllDigits(d)
    ensures PyInt(d) == Some(NatValue(d))
  {
    assert LeadingSpaces(d) == 0;
    assert TrailingSpaces(d) == 0;
    assert Strip(d) == d;
    UnsignedDigits(d);
  }

  lemma UnsignedDigits(d: string)
    requires d != [] && AllDigits(d)
    ensures UnsignedValue(d) == Some(NatValue(d))
  {
    DigitsOfDigits(d);
  }

  lemma PyIntEmpty()
    ensures PyInt("") == None
  {
  }

  /** `str(v)` for any integer. */
  function IntToString(v: int): (r: string)
    ensures r != []
    ensures v >= 0 ==> r == NatToString(v)
    ensures v < 0 ==> r == "-" + NatToString(-v)
  {
    if v < 0 then "-" + NatToString(-v) else NatToString(v)
  }

  /** `str.isdigit()`, for ASCII digits: a non-empty run of digits. */
  predicate IsDecimal(s: string) { s != [] && AllDigits(s) }

  /** `[l.strip() for l in lines if l.strip()]`: the non-blank lines, stripped, in order. */
  function NonBlankLines(lines: seq<string>): (r: seq<string>)
    ensures |r| <= |lines|
    ensures forall t :: t in r ==> t != [] && NoOuterSpace(t)
  {
    if |lines| == 0 then []
    else
      var t := Strip(lines[0]);
      StripSpec(lines[0]);
      (if t == [] then [] else [t]) + NonBlankLines(lines[1..])
  }

  // ---------------------------------------------------------------
  // Thousands grouping: f"{n:,}" with the comma replaced by `sep`
  // ---------------------------------------------------------------

  /** Three digits, zero padded. */
  function Pad3(m: nat): (r: string)
    requires m < 1000
    ensures |r| == 3 && AllDigits(r) && NatValue(r) == m
  {
    var r := [DigitChar(m / 100), DigitChar(m / 10 % 10), DigitChar(m % 10)];
    assert r[..2][..1] == r[..1];
    assert NatValue(r[..1]) == m / 100;
    assert NatValue(r[..2]) == m / 100 * 10 + m / 10 % 10;
    r
  }

  function GroupedNat(n: nat, sep: char): (r: string)
    ensures r != [] && IsDigit(r[0])
  {
    if n < 1000 then NatToString(n) else GroupedNat(n / 1000, sep) + [sep] + Pad3(n % 1000)
  }

  /** `f"{v:,}".replace(",", sep)` for any integer. */
  function Grouped(v: int, sep: char): string {
    if v < 0 then "-" + GroupedNat(-v, sep) else GroupedNat(v, sep)
  }

  lemma {:induction false} GroupedNatChars(n: nat, sep: char)
    ensures forall c :: c in GroupedNat(n, sep) ==> IsDigit(c) || c == sep
    decreases n
  {
    if n >= 1000 {
      GroupedNatChars(n / 1000, sep);
      var lo := Pad3(n % 1000);
      assert GroupedNat(n, sep) == GroupedNat(n / 1000, sep) + [sep] + lo;
      assert forall c :: c in lo ==> IsDigit(c);
    } else {
      var r := NatToString(n);
      assert forall c :: c in r ==> IsDigit(c);
    }
  }

  /** Removing the separators from the grouped form gives back the decimal digits of `n`. */
  lemma {:induction false} GroupedNatDigits(n: nat, sep: char)
    requires !IsDigit(sep)
    ensures AllDigits(Remove(GroupedNat(n, sep), sep))
    ensures NatValue(Remove(GroupedNat(n, sep), sep)) == n
    decreases n
  {
    if n < 1000 {
      var r := NatToString(n);
      assert forall c :: c in r ==> IsDigit(c);
      RemoveAbsent(r, sep);
    } else {
      GroupedNatDigits(n / 1000, sep);
      GroupStep(GroupedNat(n / 1000, sep), n / 1000, n % 1000, sep);
    }
  }

  lemma GroupStep(hi: string, q: nat, m: nat, sep: char)
    requires !IsDigit(sep) && m < 1000
    requires AllDigits(Remove(hi, sep)) && NatValue(Remove(hi, sep)) == q
    ensures AllDigits(Remove(hi + [sep] + Pad3(m), sep))
    ensures NatValue(Remove(hi + [sep] + Pad3(m), sep)) == q * 1000 + m
  {
    var lo := Pad3(m);
    var d := Remove(hi, sep);
    assert forall c :: c in lo ==> IsDigit(c);
    RemoveAbsent(lo, sep);
    assert Remove([sep], sep) == [];
    calc {
      Remove(hi + [sep] + lo, sep);
      { RemoveAppend(hi + [sep], lo, sep); }
      Remove(hi + [sep], sep) + Remove(lo, sep);
      { RemoveAppend(hi, [sep], sep); }
      Remove(hi, sep) + Remove([sep], sep) + lo;
      { assert Remove(hi, sep) + [] == d; }
      d + lo;
    }
    NatValueAppend(d, lo);
    assert Pow10(3) == 1000;
  }
  /**
   * What `f"{n:,}"` looks like: digits, with `sep` exactly at the positions a
   * multiple of four from the end, so every group after the first has three
   * digits and the first has one to three; no leading zero unless `n` is 0.
   */
  predicate ThousandsGrouped(g: string, sep: char) {
    g != [] && |g| % 4 != 0 && (g[0] != '0' || g == "0")
    && forall i :: 0 <= i < |g| ==> if (|g| - i) % 4 == 0 then g[i] == sep else IsDigit(g[i])
  }

  lemma NatToStringShort(n: nat)
    requires n < 1000
    ensures 1 <= |NatToString(n)| <= 3
  {
    if n >= 10 {
      if n >= 100 {
        assert NatToString(n) == NatToString(n / 10) + [DigitChar(n % 10)];
        assert NatToString(n / 10) == NatToString(n / 100) + [DigitChar(n / 10 % 10)];
      }
    }
  }

  lemma {:induction false} GroupedNatShape(n: nat, sep: char)
    requires !IsDigit(sep)
    ensures ThousandsGrouped(GroupedNat(n, sep), sep)
    ensures GroupedNat(n, sep) == "0" <==> n == 0
    decreases n
  {
    if n < 1000 {
      var g := NatToString(n);
      NatToStringShort(n);
      assert forall i :: 0 <= i < |g| ==> IsDigit(g[i]) && (|g| - i) % 4 != 0;
    } else {
      GroupedNatShape(n / 1000, sep);
      GroupShapeStep(GroupedNat(n / 1000, sep), Pad3(n % 1000), sep);
    }
  }

  /** One more group of three digits keeps the grouped shape. */
  lemma GroupShapeStep(h: string, lo: string, sep: char)
    requires ThousandsGrouped(h, sep) && h != "0" && |lo| == 3 && AllDigits(lo)
    ensures ThousandsGrouped(h + [sep] + lo, sep)
  {
    var g := h + [sep] + lo;
    forall i | 0 <= i < |g| ensures if (|g| - i) % 4 == 0 then g[i] == sep else IsDigit(g[i]) {
      if i < |h| {
        ModFour(|h| - i);
        assert g[i] == h[i];
      } else if i > |h| {
        assert g[i] == lo[i - |h| - 1];
      }
    }
    ModFour(|h|);
    assert g[0] == h[0];
  }

  lemma ModFour(a: nat)
    ensures (a + 4) % 4 == a % 4
  {
  }
}
