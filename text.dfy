/**
 * ASCII models of the Python string operations the pipeline uses:
 * `str.strip`, `re.sub(r"\s+", " ", ...)`, `str.lower`, `str.title`,
 * string ordering and decimal rendering of integers.
 */
module Text {

  /** Python's `str.isspace` (and the regex `\s`) restricted to ASCII. */
  predicate IsSpace(c: char) {
    c == ' ' || ('\t' <= c <= '\r') || ('\U{1C}' <= c <= '\U{1F}')
  }

  predicate IsUpper(c: char) { 'A' <= c <= 'Z' }

  predicate IsLower(c: char) { 'a' <= c <= 'z' }

  /** A cased character in the sense of `str.title`. */
  predicate IsLetter(c: char) { IsUpper(c) || IsLower(c) }

  function LowerChar(c: char): (r: char)
    ensures !IsUpper(r)
    ensures IsSpace(r) <==> IsSpace(c)
    ensures IsLetter(r) <==> IsLetter(c)
  {
    if IsUpper(c) then (c as int + 32) as char else c
  }

  function UpperChar(c: char): (r: char)
    ensures !IsLower(r)
    ensures IsSpace(r) <==> IsSpace(c)
    ensures IsLetter(r) <==> IsLetter(c)
  {
    if IsLower(c) then (c as int - 32) as char else c
  }

  /** `str.lower()` */
  function Lower(s: string): (r: string)
    ensures |r| == |s|
    ensures forall i :: 0 <= i < |s| ==> r[i] == LowerChar(s[i])
  {
    if s == [] then [] else [LowerChar(s[0])] + Lower(s[1..])
  }

  /**
   * Position `i` of `r` is the title-cased position `i` of `s`: lower-cased
   * when the character before it is a letter (`prevCased` standing for the
   * character before the first), upper-cased otherwise.
   */
  predicate TitleAt(s: string, r: string, prevCased: bool, i: nat)
    requires i < |s| && i < |r|
  {
    r[i] == if (if i == 0 then prevCased else IsLetter(s[i - 1])) then LowerChar(s[i]) else UpperChar(s[i])
  }

  /** `str.title()` continuing after a character that was (`prevCased`) or was not a letter. */
  function TitleFrom(s: string, prevCased: bool): (r: string)
    ensures |r| == |s|
    ensures forall i :: 0 <= i < |s| ==> TitleAt(s, r, prevCased, i)
  {
    if s == [] then []
    else
      var c := if prevCased then LowerChar(s[0]) else UpperChar(s[0]);
      var rest := TitleFrom(s[1..], IsLetter(s[0]));
      var r := [c] + rest;
      forall i | 1 <= i < |s| ensures TitleAt(s, r, prevCased, i) {
        assert TitleAt(s[1..], rest, IsLetter(s[0]), i - 1);
        assert r[i] == rest[i - 1] && s[1..][i - 1] == s[i];
        assert i - 1 > 0 ==> s[1..][i - 2] == s[i - 1];
      }
      r
  }

  /** `str.title()`: a letter is upper-cased after a non-letter and lower-cased after a letter. */
  function Title(s: string): (r: string)
    ensures |r| == |s|
    ensures forall i :: 0 <= i < |s| ==> TitleAt(s, r, false, i)
  {
    TitleFrom(s, false)
  }

  /** Lower-casing forgets whether a character was upper- or lower-cased first. */
  lemma CaseFold(c: char)
    ensures LowerChar(UpperChar(c)) == LowerChar(c) && LowerChar(LowerChar(c)) == LowerChar(c)
  {
  }

  /** Title case keeps whitespace where it was and changes only the case of letters. */
  lemma TitleKeepsLetters(s: string)
    ensures forall i :: 0 <= i < |s| ==> (IsSpace(Title(s)[i]) <==> IsSpace(s[i]))
    ensures Lower(Title(s)) == Lower(s)
  {
    var r := Title(s);
    var lr, ls := Lower(r), Lower(s);
    forall i | 0 <= i < |s| ensures lr[i] == ls[i] && (IsSpace(r[i]) <==> IsSpace(s[i])) {
      CaseFold(s[i]);
      assert TitleAt(s, r, false, i);
      assert lr[i] == LowerChar(r[i]) && ls[i] == LowerChar(s[i]);
    }
    assert |lr| == |ls|;
  }

  /** The number of whitespace characters `s` starts with. */
  function LeadingSpaces(s: string): (n: nat)
    ensures n <= |s|
    ensures forall i :: 0 <= i < n ==> IsSpace(s[i])
    ensures n < |s| ==> !IsSpace(s[n])
  {
    if s != [] && IsSpace(s[0]) then
      var m := LeadingSpaces(s[1..]);
      assert forall i :: 1 <= i <= m ==> s[i] == s[1..][i - 1];
      1 + m
    else 0
  }

  /** The number of whitespace characters `s` ends with. */
  function TrailingSpaces(s: string): (n: nat)
    ensures n <= |s|
    ensures forall i :: |s| - n <= i < |s| ==> IsSpace(s[i])
    ensures n < |s| ==> !IsSpace(s[|s| - n - 1])
  {
    if s != [] && IsSpace(s[|s| - 1]) then
      var m := TrailingSpaces(s[..|s| - 1]);
      assert forall i :: 0 <= i < |s| - 1 ==> s[i] == s[..|s| - 1][i];
      1 + m
    else 0
  }

  /** `str.lstrip()`: drops the leading whitespace and nothing else. */
  function StripLeft(s: string): (r: string)
    ensures r == [] || !IsSpace(r[0])
    ensures |r| <= |s| && r == s[|s| - |r|..]
    ensures forall i :: 0 <= i < |s| - |r| ==> IsSpace(s[i])
  {
    s[LeadingSpaces(s)..]
  }

  /** `str.rstrip()`: drops the trailing whitespace and nothing else. */
  function StripRight(s: string): (r: string)
    ensures r == [] || !IsSpace(r[|r| - 1])
    ensures |r| <= |s| && r == s[..|r|]
    ensures forall i :: |r| <= i < |s| ==> IsSpace(s[i])
  {
    s[..|s| - TrailingSpaces(s)]
  }

  /**
   * `r` is the slice of `s` starting at `a` with only whitespace before and
   * after it in `s`, and no whitespace at either end of its own.
   */
  predicate StrippedAt(s: string, a: nat, r: string) {
    && a + |r| <= |s|
    && r == s[a..a + |r|]
    && (forall i :: 0 <= i < a ==> IsSpace(s[i]))
    && (forall i :: a + |r| <= i < |s| ==> IsSpace(s[i]))
    && (r == [] || (!IsSpace(r[0]) && !IsSpace(r[|r| - 1])))
  }

  /** `str.strip()`: the text between the leading and the trailing whitespace. */
  function Strip(s: string): (r: string)
    ensures StrippedAt(s, LeadingSpaces(s), r)
  {
    var a := LeadingSpaces(s);
    var t := TrailingSpaces(s[a..]);
    SuffixTrailing(s, a);
    var r := s[a..|s| - t];
    assert r != [] ==> r[0] == s[a] && r[|r| - 1] == s[|s| - t - 1];
    r
  }

  /** The trailing whitespace of a suffix `s[a..]`, counted in positions of `s`. */
  lemma SuffixTrailing(s: string, a: nat)
    requires a <= |s|
    ensures var t := TrailingSpaces(s[a..]);
      && t <= |s| - a
      && (forall i :: |s| - t <= i < |s| ==> IsSpace(s[i]))
      && (t < |s| - a ==> !IsSpace(s[|s| - t - 1]))
  {
    var l := s[a..];
    var t := TrailingSpaces(l);
    forall i | |s| - t <= i < |s| ensures IsSpace(s[i]) {
      assert s[i] == l[i - a];
    }
    if t < |l| {
      assert s[|s| - t - 1] == l[|l| - t - 1];
    }
  }

  /** There is only one such slice, so `Strip` is exactly `str.strip()`. */
  lemma StripUnique(s: string, a: nat, r: string)
    requires StrippedAt(s, a, r)
    ensures r == Strip(s)
  {
    var b := LeadingSpaces(s);
    var q := Strip(s);
    assert StrippedAt(s, b, q);
    SlicesAgree(s, a, r, b, q);
  }

  /** Two stripped slices of the same text start at the same place and have the same length. */
  lemma SlicesAgree(s: string, a: nat, r: string, b: nat, q: string)
    requires StrippedAt(s, a, r) && StrippedAt(s, b, q)
    ensures r == q
  {
    assert |r| > 0 ==> !IsSpace(s[a]) && !IsSpace(s[a + |r| - 1]);
    assert |q| > 0 ==> !IsSpace(s[b]) && !IsSpace(s[b + |q| - 1]);
  }

  /** `re.sub(r"\s+", " ", s)` with `inRun` telling whether a run of whitespace is open. */
  function CollapseFrom(s: string, inRun: bool): string {
    if s == [] then []
    else if IsSpace(s[0]) then
      (if inRun then CollapseFrom(s[1..], true) else [' '] + CollapseFrom(s[1..], true))
    else [s[0]] + CollapseFrom(s[1..], false)
  }

  function Collapse(s: string): string {
    CollapseFrom(s, false)
  }

  /** No two adjacent whitespace characters. */
  predicate NoDoubleSpace(s: string) {
    forall i :: 0 <= i < |s| - 1 ==> !(IsSpace(s[i]) && IsSpace(s[i + 1]))
  }

  /** No whitespace at either end. */
  predicate Trimmed(s: string) {
    s == [] || (!IsSpace(s[0]) && !IsSpace(s[|s| - 1]))
  }

  /** The only whitespace a collapsed string keeps is the single space. */
  lemma {:induction false} CollapseShape(s: string, inRun: bool)
    ensures var r := CollapseFrom(s, inRun);
      && NoDoubleSpace(r)
      && (forall i :: 0 <= i < |r| && IsSpace(r[i]) ==> r[i] == ' ')
      && (inRun && r != [] ==> !IsSpace(r[0]))
      && (s != [] && !IsSpace(s[0]) ==> r != [] && r[0] == s[0])
      && (s != [] && !IsSpace(s[|s| - 1]) ==> r != [] && r[|r| - 1] == s[|s| - 1])
      && (s == [] ==> r == [])
  {
    if s != [] {
      var rest := CollapseFrom(s[1..], if IsSpace(s[0]) then true else false);
      CollapseShape(s[1..], IsSpace(s[0]));
      var r := CollapseFrom(s, inRun);
      if IsSpace(s[0]) {
        if !inRun {
          assert r == [' '] + rest;
        }
      } else {
        assert r == [s[0]] + rest;
      }
    }
  }

  /** The characters of `s` that are not whitespace, in order. */
  function NonSpace(s: string): string {
    if s == [] then [] else (if IsSpace(s[0]) then [] else [s[0]]) + NonSpace(s[1..])
  }

  predicate AllSpace(w: string) {
    forall i :: 0 <= i < |w| ==> IsSpace(w[i])
  }

  predicate NoSpace(x: string) {
    forall i :: 0 <= i < |x| ==> !IsSpace(x[i])
  }

  lemma {:induction false} NonSpaceAppend(u: string, v: string)
    ensures NonSpace(u + v) == NonSpace(u) + NonSpace(v)
  {
    if u != [] {
      assert (u + v)[1..] == u[1..] + v;
      NonSpaceAppend(u[1..], v);
    } else {
      assert u + v == v;
    }
  }

  lemma {:induction false} NonSpaceAllSpace(w: string)
    requires AllSpace(w)
    ensures NonSpace(w) == []
  {
    if w != [] {
      NonSpaceAllSpace(w[1..]);
    }
  }

  /** Collapsing keeps every non-whitespace character, in order. */
  lemma {:induction false} CollapseNonSpace(s: string, inRun: bool)
    ensures NonSpace(CollapseFrom(s, inRun)) == NonSpace(s)
  {
    if s != [] {
      CollapseNonSpace(s[1..], IsSpace(s[0]));
      var rest := CollapseFrom(s[1..], IsSpace(s[0]));
      if IsSpace(s[0]) {
        if !inRun {
          assert ([' '] + rest)[1..] == rest;
        }
      } else {
        assert ([s[0]] + rest)[1..] == rest;
      }
    }
  }

  /** Whether a whitespace run is open after reading `u`, starting in state `inRun`. */
  function RunAfter(u: string, inRun: bool): bool {
    if u == [] then inRun else IsSpace(u[|u| - 1])
  }

  /** Collapsing works piece by piece, carrying whether a run is open. */
  lemma {:induction false} CollapseAppend(u: string, v: string, inRun: bool)
    ensures CollapseFrom(u + v, inRun) == CollapseFrom(u, inRun) + CollapseFrom(v, RunAfter(u, inRun))
  {
    if u == [] {
      assert u + v == v;
    } else {
      var w, sp := u + v, IsSpace(u[0]);
      var head: string := if sp then (if inRun then [] else [' ']) else [u[0]];
      assert w[0] == u[0] && w[1..] == u[1..] + v;
      assert CollapseFrom(w, inRun) == head + CollapseFrom(u[1..] + v, sp);
      assert CollapseFrom(u, inRun) == head + CollapseFrom(u[1..], sp);
      CollapseAppend(u[1..], v, sp);
      assert RunAfter(u[1..], sp) == RunAfter(u, inRun);
    }
  }

  /** Text without whitespace is left as it is. */
  lemma {:induction false} CollapseWord(x: string, inRun: bool)
    requires NoSpace(x)
    ensures CollapseFrom(x, inRun) == x
  {
    if x != [] {
      CollapseWord(x[1..], false);
      assert x == [x[0]] + x[1..];
    }
  }

  /** A run of whitespace becomes one space, or nothing when a run is already open. */
  lemma {:induction false} CollapseGap(w: string, inRun: bool)
    requires w != [] && AllSpace(w)
    ensures CollapseFrom(w, inRun) == if inRun then [] else [' ']
  {
    if |w| > 1 {
      CollapseGap(w[1..], true);
    }
  }

  /**
   * Two words stay apart by exactly one space when whitespace separated them,
   * and stay joined when nothing did.
   */
  lemma CollapseSeparated(x: string, w: string, y: string)
    requires x != [] && NoSpace(x) && AllSpace(w) && NoSpace(y)
    ensures Collapse(x + w + y) == x + (if w == [] then [] else [' ']) + y
  {
    CollapseAppend(x + w, y, false);
    CollapseAppend(x, w, false);
    CollapseWord(x, false);
    CollapseWord(y, RunAfter(x + w, false));
    assert RunAfter(x, false) == false;
    if w != [] {
      CollapseGap(w, false);
    } else {
      assert x + w == x;
    }
  }

  /** Lower-casing and dropping whitespace can be done in either order. */
  lemma {:induction false} NonSpaceLower(x: string)
    ensures NonSpace(Lower(x)) == Lower(NonSpace(x))
  {
    if x != [] {
      NonSpaceLower(x[1..]);
      assert Lower(x)[1..] == Lower(x[1..]);
      var head := if IsSpace(x[0]) then [] else [x[0]];
      LowerAppend(head, NonSpace(x[1..]));
    }
  }

  lemma LowerAppend(u: string, v: string)
    ensures Lower(u + v) == Lower(u) + Lower(v)
  {
    var l, r := Lower(u + v), Lower(u) + Lower(v);
    forall i | 0 <= i < |u + v| ensures l[i] == r[i] {
      if i < |u| { assert (u + v)[i] == u[i]; } else { assert (u + v)[i] == v[i - |u|]; }
    }
  }

  /** Lower-casing twice is lower-casing once. */
  lemma LowerIdempotent(x: string)
    ensures Lower(Lower(x)) == Lower(x)
  {
    forall i | 0 <= i < |x| ensures Lower(Lower(x))[i] == Lower(x)[i] {
      CaseFold(x[i]);
    }
  }

  /** Stripping keeps every non-whitespace character, in order. */
  lemma StripNonSpace(s: string)
    ensures NonSpace(Strip(s)) == NonSpace(s)
  {
    var r := Strip(s);
    var a := LeadingSpaces(s);
    NonSpaceOfSlice(s, a, a + |r|);
  }

  /** Whitespace around the slice `s[a..e]` adds nothing to the non-whitespace characters. */
  lemma NonSpaceOfSlice(s: string, a: nat, e: nat)
    requires a <= e <= |s|
    requires forall i :: 0 <= i < a ==> IsSpace(s[i])
    requires forall i :: e <= i < |s| ==> IsSpace(s[i])
    ensures NonSpace(s) == NonSpace(s[a..e])
  {
    var m := s[..e];
    NonSpaceDropTail(s, e);
    forall i | 0 <= i < a ensures IsSpace(m[i]) {
      assert m[i] == s[i];
    }
    NonSpaceDropHead(m, a);
    assert m[a..] == s[a..e];
  }

  lemma NonSpaceDropTail(s: string, e: nat)
    requires e <= |s|
    requires forall i :: e <= i < |s| ==> IsSpace(s[i])
    ensures NonSpace(s) == NonSpace(s[..e])
  {
    var post := s[e..];
    assert s == s[..e] + post;
    forall i | 0 <= i < |post| ensures IsSpace(post[i]) {
      assert post[i] == s[e + i];
    }
    NonSpaceAppend(s[..e], post);
    NonSpaceAllSpace(post);
  }

  lemma NonSpaceDropHead(s: string, a: nat)
    requires a <= |s|
    requires forall i :: 0 <= i < a ==> IsSpace(s[i])
    ensures NonSpace(s) == NonSpace(s[a..])
  {
    var pre := s[..a];
    assert s == pre + s[a..];
    forall i | 0 <= i < a ensures IsSpace(pre[i]) {
      assert pre[i] == s[i];
    }
    NonSpaceAppend(pre, s[a..]);
    NonSpaceAllSpace(pre);
  }

  /**
   * Strip, then collapse whitespace runs: the result has no whitespace at
   * either end and no two adjacent whitespace characters, and it keeps every
   * other character of the input in order.
   */
  lemma CleanWhitespace(s: string)
    ensures Trimmed(Collapse(Strip(s))) && NoDoubleSpace(Collapse(Strip(s)))
    ensures NonSpace(Collapse(Strip(s))) == NonSpace(s)
  {
    CollapseShape(Strip(s), false);
    CollapseNonSpace(Strip(s), false);
    StripNonSpace(s);
  }

  /** A case mapping keeps whitespace where it was, so it keeps both shapes above. */
  lemma SpacesCarryOver(s: string, r: string)
    requires |r| == |s|
    requires forall i :: 0 <= i < |s| ==> (IsSpace(r[i]) <==> IsSpace(s[i]))
    ensures Trimmed(s) ==> Trimmed(r)
    ensures NoDoubleSpace(s) ==> NoDoubleSpace(r)
  {
  }

  // ---------------------------------------------------------------------
  // The spellings of NaN that text standardisation meets

  lemma StripLeftSpacedNaN()
    ensures StripLeft(" NaN ") == "NaN "
  {
    var padded, right := " NaN ", "NaN ";
    assert IsSpace(padded[0]) && padded[1..] == right;
    assert StripLeft(padded) == StripLeft(right);
    assert !IsSpace(right[0]);
  }

  lemma StripRightNaNSpace()
    ensures StripRight("NaN ") == "NaN"
  {
    var right, bare := "NaN ", "NaN";
    assert IsSpace(right[|right| - 1]) && right[..|right| - 1] == bare;
    assert StripRight(right) == StripRight(bare);
    assert !IsSpace(bare[|bare| - 1]);
  }

  lemma StripSpacedNaN()
    ensures Strip(" NaN ") == "NaN"
  {
    StripLeftSpacedNaN();
    StripRightNaNSpace();
  }

  lemma CollapseNaN()
    ensures Collapse("NaN") == "NaN"
  {
    assert "NaN"[1..] == "aN" && "aN"[1..] == "N" && "N"[1..] == "";
    assert CollapseFrom("N", false) == "N";
    assert CollapseFrom("aN", false) == "aN";
  }

  lemma LowerNaN()
    ensures Lower("NaN") == "nan"
  {
    assert "NaN"[1..] == "aN" && "aN"[1..] == "N" && "N"[1..] == "";
    assert Lower("N") == "n";
    assert Lower("aN") == "an";
  }

  /** `str(nan)` is "nan", which stripping and collapsing keep and title case turns into "Nan". */
  lemma TitleOfNan()
    ensures Strip("nan") == "nan" && Collapse("nan") == "nan" && Title("nan") == "Nan"
  {
    assert StripLeft("nan") == "nan";
    assert CollapseFrom("n", false) == "n";
    assert CollapseFrom("an", false) == "an";
    assert TitleFrom("n", true) == "n";
    assert TitleFrom("an", true) == "an";
  }

  // ---------------------------------------------------------------------
  // Ordering of strings (Python compares code points lexicographically)

  predicate StrLe(a: string, b: string) {
    if a == [] then true
    else if b == [] then false
    else if a[0] != b[0] then a[0] < b[0]
    else StrLe(a[1..], b[1..])
  }

  lemma {:induction false} StrLeTotal(a: string, b: string)
    ensures StrLe(a, b) || StrLe(b, a)
  {
    if a != [] && b != [] && a[0] == b[0] {
      StrLeTotal(a[1..], b[1..]);
    }
  }

  lemma {:induction false} StrLeAntisymmetric(a: string, b: string)
    requires StrLe(a, b) && StrLe(b, a)
    ensures a == b
  {
    if a != [] && b != [] {
      StrLeAntisymmetric(a[1..], b[1..]);
      assert a == [a[0]] + a[1..] && b == [b[0]] + b[1..];
    }
  }

  lemma {:induction false} StrLeTransitive(a: string, b: string, c: string)
    requires StrLe(a, b) && StrLe(b, c)
    ensures StrLe(a, c)
  {
    if a != [] && b != [] && c != [] && a[0] == b[0] && b[0] == c[0] {
      StrLeTransitive(a[1..], b[1..], c[1..]);
    }
  }

  // ---------------------------------------------------------------------
  // Decimal rendering

  function Digit(d: nat): (c: char)
    requires d < 10
    ensures '0' <= c <= '9' && DigitValue(c) == d
  {
    ('0' as int + d) as char
  }

  function DigitValue(c: char): int {
    c as int - '0' as int
  }

  /** The number a string of decimal digits denotes. */
  function DigitsValue(s: string): nat
    requires AllDigits(s)
  {
    if s == [] then 0 else DigitsValue(s[..|s| - 1]) * 10 + DigitValue(s[|s| - 1])
  }

  predicate AllDigits(s: string) {
    forall i :: 0 <= i < |s| ==> '0' <= s[i] <= '9'
  }

  /** `str(n)` for a non-negative integer. */
  function NatToString(n: nat): (s: string)
    ensures |s| > 0 && AllDigits(s)
    ensures |s| > 1 ==> s[0] != '0'
  {
    if n < 10 then [Digit(n)] else NatToString(n / 10) + [Digit(n % 10)]
  }

  /** `str(n)` spells `n`: its digits denote `n` again. */
  lemma {:induction false} NatToStringValue(n: nat)
    ensures DigitsValue(NatToString(n)) == n
  {
    if n >= 10 {
      NatToStringValue(n / 10);
      var s := NatToString(n);
      assert s[..|s| - 1] == NatToString(n / 10);
    }
  }

  /** `str(i)` for any integer. */
  function IntToString(i: int): string {
    if i < 0 then "-" + NatToString(-i) else NatToString(i)
  }
}
