/**
  The few string operations the search stack leans on: trimming, lower-casing,
  case folding, and the decimal integers that travel inside paging cursors.
  Strings are sequences of characters; case mapping covers the ASCII letters.
  */
module Text {

  /** The characters Unicode calls white space, which is what trimming removes. */
  predicate IsSpace(c: char) {
    var n := c as int;
    || 0x09 <= n <= 0x0D || n == 0x20 || n == 0x85 || n == 0xA0 || n == 0x1680
    || 0x2000 <= n <= 0x200A || n == 0x2028 || n == 0x2029 || n == 0x202F
    || n == 0x205F || n == 0x3000
  }

  function TrimLeft(s: string): string {
    if s != "" && IsSpace(s[0]) then TrimLeft(s[1..]) else s
  }

  function TrimRight(s: string): string {
    if s != "" && IsSpace(s[|s| - 1]) then TrimRight(s[..|s| - 1]) else s
  }

  function TrimSpace(s: string): string {
    TrimRight(TrimLeft(s))
  }

  function LowerChar(c: char): char {
    if 'A' <= c <= 'Z' then (c as int + 32) as char else c
  }

  function ToLower(s: string): (r: string)
    ensures |r| == |s|
  {
    seq(|s|, i requires 0 <= i < |s| => LowerChar(s[i]))
  }

  predicate EqualFold(s: string, t: string) {
    ToLower(s) == ToLower(t)
  }

  const CAPITALS := "ABCDEFGHIJKLMNOPQRSTUVWXYZ"
  const SMALLS := "abcdefghijklmnopqrstuvwxyz"

  /** Lower-casing maps each capital to the small letter of its place in the alphabet and leaves the rest. */
  lemma LowerCharIs(c: char)
    ensures forall k | 0 <= k < 26 && c == CAPITALS[k] :: LowerChar(c) == SMALLS[k]
    ensures (forall k | 0 <= k < 26 :: c != CAPITALS[k]) ==> LowerChar(c) == c
  {
    if 'A' <= c <= 'Z' {
      assert c == CAPITALS[c as int - 'A' as int];
    }
  }

  /** The same character, or the two cases of one letter. */
  ghost predicate SameLetter(c: char, d: char) {
    c == d || exists k :: 0 <= k < 26 && c in [CAPITALS[k], SMALLS[k]] && d in [CAPITALS[k], SMALLS[k]]
  }

  /** Two texts fold together exactly when they are as long and agree letter by letter up to case. */
  lemma EqualFoldIff(s: string, t: string)
    ensures EqualFold(s, t) <==> |s| == |t| && forall i | 0 <= i < |s| :: SameLetter(s[i], t[i])
  {
    forall i | 0 <= i < |s| && i < |t|
      ensures LowerChar(s[i]) == LowerChar(t[i]) <==> SameLetter(s[i], t[i])
    {
      FoldedChars(s[i], t[i]);
    }
    if EqualFold(s, t) {
      forall i | 0 <= i < |s|
        ensures LowerChar(s[i]) == LowerChar(t[i])
      {
        assert ToLower(s)[i] == ToLower(t)[i];
      }
    } else if |s| == |t| {
      var i :| 0 <= i < |s| && ToLower(s)[i] != ToLower(t)[i];
      assert LowerChar(s[i]) != LowerChar(t[i]);
    }
  }

  lemma LetterPlaces(k: nat)
    requires k < 26
    ensures CAPITALS[k] as int == 'A' as int + k && SMALLS[k] as int == 'a' as int + k
  {
  }

  lemma FoldsTo(c: char, k: nat)
    requires k < 26 && (c == CAPITALS[k] || c == SMALLS[k])
    ensures LowerChar(c) == SMALLS[k]
  {
    LetterPlaces(k);
  }

  lemma FoldedApart(c: char, d: char)
    requires LowerChar(c) == LowerChar(d) && c != d
    ensures SameLetter(c, d)
  {
    var k := LowerChar(c) as int - 'a' as int;
    LetterPlaces(k);
    assert c in [CAPITALS[k], SMALLS[k]] && d in [CAPITALS[k], SMALLS[k]];
  }

  lemma FoldedChars(c: char, d: char)
    ensures LowerChar(c) == LowerChar(d) <==> SameLetter(c, d)
  {
    if c != d {
      if LowerChar(c) == LowerChar(d) {
        FoldedApart(c, d);
      }
      if SameLetter(c, d) {
        var k :| 0 <= k < 26 && c in [CAPITALS[k], SMALLS[k]] && d in [CAPITALS[k], SMALLS[k]];
        FoldsTo(c, k);
        FoldsTo(d, k);
      }
    }
  }

  /** The white space characters of Unicode. */
  const SPACES: seq<char> := ['\t', '\n', '\U{0B}', '\U{0C}', '\r', ' ', '\U{85}', '\U{A0}', '\U{1680}',
    '\U{2000}', '\U{2001}', '\U{2002}', '\U{2003}', '\U{2004}', '\U{2005}', '\U{2006}', '\U{2007}',
    '\U{2008}', '\U{2009}', '\U{200A}', '\U{2028}', '\U{2029}', '\U{202F}', '\U{205F}', '\U{3000}']

  lemma SpacesAre(c: char)
    ensures IsSpace(c) <==> c in SPACES
  {
  }

  ghost predicate AllSpace(s: string) {
    forall i | 0 <= i < |s| :: IsSpace(s[i])
  }

  lemma {:induction false} TrimLeftCuts(s: string) returns (a: string)
    ensures s == a + TrimLeft(s) && AllSpace(a)
  {
    a := "";
    if s != "" && IsSpace(s[0]) {
      var rest := TrimLeftCuts(s[1..]);
      a := [s[0]] + rest;
      assert s == [s[0]] + s[1..];
    }
  }

  lemma {:induction false} TrimRightCuts(s: string) returns (b: string)
    ensures s == TrimRight(s) + b && AllSpace(b)
  {
    b := "";
    if s != "" && IsSpace(s[|s| - 1]) {
      var rest := TrimRightCuts(s[..|s| - 1]);
      b := rest + [s[|s| - 1]];
      assert s == s[..|s| - 1] + [s[|s| - 1]];
    }
  }

  /** Trimming cuts off white space at both ends, all of it and nothing else. */
  lemma TrimSpaceCuts(s: string) returns (a: string, b: string)
    ensures s == a + TrimSpace(s) + b && AllSpace(a) && AllSpace(b) && IsTrimmed(TrimSpace(s))
  {
    a := TrimLeftCuts(s);
    b := TrimRightCuts(TrimLeft(s));
    TrimSpaceTrims(s);
  }

  /** No white space at either end. */
  predicate IsTrimmed(s: string) {
    s != "" ==> !IsSpace(s[0]) && !IsSpace(s[|s| - 1])
  }

  lemma {:induction false} TrimRightKeepsFirst(s: string)
    requires s != "" && !IsSpace(s[0])
    ensures var r := TrimRight(s); r != "" && r[0] == s[0] && !IsSpace(r[|r| - 1])
  {
    if IsSpace(s[|s| - 1]) {
      TrimRightKeepsFirst(s[..|s| - 1]);
    }
  }

  lemma {:induction false} TrimLeftStopsAtText(s: string)
    ensures var r := TrimLeft(s); r != "" ==> !IsSpace(r[0])
    ensures s != "" && !IsSpace(s[|s| - 1]) ==> TrimLeft(s) != ""
  {
    if s != "" && IsSpace(s[0]) {
      TrimLeftStopsAtText(s[1..]);
    }
  }

  /** Trimming leaves a trimmed string, and leaves trimmed strings alone. */
  lemma TrimSpaceTrims(s: string)
    ensures IsTrimmed(TrimSpace(s))
    ensures IsTrimmed(s) ==> TrimSpace(s) == s
  {
    TrimLeftStopsAtText(s);
    var l := TrimLeft(s);
    if l != "" {
      TrimRightKeepsFirst(l);
    }
  }

  lemma {:induction false} TrimLeftKeepsText(s: string, c: char)
    requires c in s && !IsSpace(c)
    ensures c in TrimLeft(s)
  {
    if IsSpace(s[0]) {
      assert c in s[1..];
      TrimLeftKeepsText(s[1..], c);
    }
  }

  lemma {:induction false} TrimRightKeepsText(s: string, c: char)
    requires c in s && !IsSpace(c)
    ensures c in TrimRight(s)
  {
    var n := |s| - 1;
    if IsSpace(s[n]) {
      assert s == s[..n] + [s[n]];
      TrimRightKeepsText(s[..n], c);
    }
  }

  /** A visible character survives trimming. */
  lemma VisibleTextSurvives(s: string, c: char)
    requires c in s && !IsSpace(c)
    ensures c in TrimSpace(s)
  {
    TrimLeftKeepsText(s, c);
    TrimRightKeepsText(TrimLeft(s), c);
  }

  /** Lower-casing twice is lower-casing once, and never touches white space. */
  lemma ToLowerStable(s: string)
    ensures ToLower(ToLower(s)) == ToLower(s)
    ensures IsTrimmed(s) ==> IsTrimmed(ToLower(s))
  {
  }

  // ----- decimal integers -----

  const MAX_INT := 0x7FFF_FFFF_FFFF_FFFF
  const MIN_INT := -0x8000_0000_0000_0000

  function DigitChar(d: int): char
    requires 0 <= d < 10
  {
    ('0' as int + d) as char
  }

  predicate IsDigit(c: char) {
    '0' <= c <= '9'
  }

  function NatText(n: nat): string {
    if n < 10 then [DigitChar(n)] else NatText(n / 10) + [DigitChar(n % 10)]
  }

  /** Decimal print of an integer. */
  function Itoa(n: int): string {
    if n < 0 then "-" + NatText(-n) else NatText(n)
  }

  predicate AllDigits(s: string) {
    forall i | 0 <= i < |s| :: IsDigit(s[i])
  }

  function DigitsValue(s: string): int
    requires AllDigits(s)
  {
    if s == "" then 0
    else DigitsValue(s[..|s| - 1]) * 10 + (s[|s| - 1] as int - '0' as int)
  }

  function Clamp64(n: int): int {
    if n > MAX_INT then MAX_INT else if n < MIN_INT then MIN_INT else n
  }

  /**
    Decimal parse as a caller sees it that ignores the reported error: a
    malformed text yields 0, a number out of range the nearest 64-bit integer.
    */
  function Atoi(s: string): int {
    if s == "" then 0
    else
      var digits := if s[0] == '-' || s[0] == '+' then s[1..] else s;
      if digits == "" || !AllDigits(digits) then 0
      else Clamp64(if s[0] == '-' then -DigitsValue(digits) else DigitsValue(digits))
  }

  lemma {:induction false} NatTextParses(n: nat)
    ensures var t := NatText(n); t != "" && AllDigits(t) && DigitsValue(t) == n
  {
    if n < 10 {
      assert NatText(n)[..0] == "";
    } else {
      NatTextParses(n / 10);
      var t := NatText(n);
      assert t[..|t| - 1] == NatText(n / 10);
    }
  }

  /** Not digits after an optional sign. */
  ghost predicate Malformed(s: string) {
    || s == "" || s == "-" || s == "+"
    || (exists i :: 1 <= i < |s| && !IsDigit(s[i]))
    || (s[0] != '-' && s[0] != '+' && !IsDigit(s[0]))
  }

  /** A text with anything but digits after its sign, or nothing, counts as zero; numbers out of range are cut to it. */
  lemma AtoiElsewhere(s: string, n: nat)
    ensures Malformed(s) ==> Atoi(s) == 0
    ensures n > MAX_INT ==> Atoi(NatText(n)) == MAX_INT
    ensures n > -MIN_INT ==> Atoi("-" + NatText(n)) == MIN_INT
    ensures n <= MAX_INT ==> Atoi("+" + NatText(n)) == n
  {
    NatTextParses(n);
    assert ("-" + NatText(n))[1..] == NatText(n) && ("+" + NatText(n))[1..] == NatText(n);
    if s != "" {
      var digits := if s[0] == '-' || s[0] == '+' then s[1..] else s;
      if i :| 1 <= i < |s| && !IsDigit(s[i]) {
        assert digits[i - (|s| - |digits|)] == s[i];
      }
    }
  }

  /** A print has a minus exactly below zero, and a leading zero only for zero itself. */
  lemma {:induction false} PrintsAreShortest(n: int)
    ensures var t := Itoa(n); t != "" && (t[0] == '-' <==> n < 0) && (t[0] == '0' <==> t == "0") && (t == "0" <==> n == 0)
    ensures n < 0 ==> Itoa(n) == "-" + Itoa(-n)
    decreases if n < 0 then 1 - n else n
  {
    if n < 0 {
      PrintsAreShortest(-n);
    } else if n >= 10 {
      PrintsAreShortest(n / 10);
      assert Itoa(n) == Itoa(n / 10) + [DigitChar(n % 10)];
    }
  }

  /** Parsing undoes printing on every 64-bit integer, and a print is never empty. */
  lemma AtoiUndoesItoa(n: int)
    requires MIN_INT <= n <= MAX_INT
    ensures Itoa(n) != "" && Atoi(Itoa(n)) == n
  {
    if n < 0 {
      NatTextParses(-n);
      assert Itoa(n)[1..] == NatText(-n);
    } else {
      NatTextParses(n);
    }
  }
}
