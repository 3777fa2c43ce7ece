/** The two JavaScript string primitives the to-do list depends on:
    String.prototype.trim (the empty-input check of addTodo) and Number()
    (the priority guard and the priority comparator). */
module JsText {

  datatype Option<T> = None | Some(value: T)

  /** The code points String.prototype.trim removes: ECMAScript WhiteSpace
      (tab, vertical tab, form feed, space, no-break space, zero-width no-break
      space and the Unicode "Zs" spaces) and LineTerminator (LF, CR, LS, PS). */
  predicate IsWhiteSpace(c: char) {
    c == '\U{9}' || c == '\U{A}' || c == '\U{B}' || c == '\U{C}' || c == '\U{D}' ||
    c == ' ' || c == '\U{A0}' || c == '\U{1680}' || ('\U{2000}' <= c <= '\U{200A}') ||
    c == '\U{2028}' || c == '\U{2029}' || c == '\U{202F}' || c == '\U{205F}' ||
    c == '\U{3000}' || c == '\U{FEFF}'
  }

  predicate AllWhiteSpace(s: string) {
    forall i :: 0 <= i < |s| ==> IsWhiteSpace(s[i])
  }

  /** s without its leading white space. */
  function TrimStart(s: string): string {
    if s != [] && IsWhiteSpace(s[0]) then TrimStart(s[1..]) else s
  }

  /** s without its trailing white space. */
  function TrimEnd(s: string): string {
    if s != [] && IsWhiteSpace(s[|s| - 1]) then TrimEnd(s[..|s| - 1]) else s
  }

  /** TrimStart(s) is a suffix of s that does not start with white space,
      and what it cuts off is white space. */
  lemma {:induction false} TrimStartCuts(s: string)
    ensures |TrimStart(s)| <= |s| && TrimStart(s) == s[|s| - |TrimStart(s)|..]
    ensures AllWhiteSpace(s[..|s| - |TrimStart(s)|])
    ensures TrimStart(s) != [] ==> !IsWhiteSpace(TrimStart(s)[0])
  {
    if s != [] && IsWhiteSpace(s[0]) {
      TrimStartCuts(s[1..]);
      var r := TrimStart(s[1..]);
      assert TrimStart(s) == r;
      assert s[1..][|s[1..]| - |r|..] == s[|s| - |r|..];
      var e := s[..|s| - |r|];
      forall j | 0 <= j < |e| ensures IsWhiteSpace(e[j]) {
        if j > 0 {
          assert e[j] == s[1..][..|s[1..]| - |r|][j - 1];
        }
      }
    }
  }

  /** TrimEnd(s) is a prefix of s that does not end with white space, and
      what it cuts off is white space. */
  lemma {:induction false} TrimEndCuts(s: string)
    ensures |TrimEnd(s)| <= |s| && TrimEnd(s) == s[..|TrimEnd(s)|]
    ensures AllWhiteSpace(s[|TrimEnd(s)|..])
    ensures TrimEnd(s) != [] ==> !IsWhiteSpace(TrimEnd(s)[|TrimEnd(s)| - 1])
  {
    if s != [] && IsWhiteSpace(s[|s| - 1]) {
      var p := s[..|s| - 1];
      TrimEndCuts(p);
      var r := TrimEnd(p);
      assert TrimEnd(s) == r;
      assert p[..|r|] == s[..|r|];
      var e := s[|r|..];
      forall j | 0 <= j < |e| ensures IsWhiteSpace(e[j]) {
        if |r| + j < |s| - 1 {
          assert e[j] == p[|r|..][j];
        } else {
          assert e[j] == s[|s| - 1];
        }
      }
    }
  }

  /** String.prototype.trim. */
  function Trim(s: string): string {
    TrimEnd(TrimStart(s))
  }

  /** t is the slice of s starting at i, and only white space surrounds it. */
  predicate SliceBetweenWhiteSpace(s: string, t: string, i: int) {
    0 <= i <= |s| - |t| && t == s[i..i + |t|] && AllWhiteSpace(s[..i]) && AllWhiteSpace(s[i + |t|..])
  }

  /** The trimmed string is a slice of s that neither starts nor ends with
      white space, and everything cut off on either side is white space. */
  lemma TrimIsInnerSlice(s: string)
    ensures exists i :: SliceBetweenWhiteSpace(s, Trim(s), i)
    ensures Trim(s) != [] ==> !IsWhiteSpace(Trim(s)[0]) && !IsWhiteSpace(Trim(s)[|Trim(s)| - 1])
  {
    var t := TrimStart(s);
    var r := TrimEnd(t);
    var i := |s| - |t|;
    TrimStartCuts(s);
    TrimEndCuts(t);
    SliceOfSuffix(s, i, |r|);
    assert r == s[i..i + |r|];
    assert s[i + |r|..] == t[|r|..];
    assert Trim(s) == r;
    assert SliceBetweenWhiteSpace(s, r, i);
    if r != [] {
      assert r[0] == t[0];
    }
  }

  /** The slices of a suffix s[i..] are slices of s. */
  lemma SliceOfSuffix(s: string, i: nat, n: nat)
    requires i + n <= |s|
    ensures s[i..][..n] == s[i..i + n] && s[i..][n..] == s[i + n..]
  {
  }

  /** addTodo's test `input.trim() !== ''` fails exactly for strings made only
      of white space (the empty string included). */
  lemma TrimEmptyIff(s: string)
    ensures Trim(s) == "" <==> AllWhiteSpace(s)
  {
    var t := TrimStart(s);
    TrimStartCuts(s);
    TrimEndCuts(t);
    if Trim(s) == "" {
      // TrimEnd(t) is empty, so t is all white space, and TrimStart leaves no
      // leading white space: t is empty and s was all white space
      assert s[..|s| - |t|] == s;
    }
  }

  predicate IsDigit(c: char) {
    '0' <= c <= '9'
  }

  function DigitValue(c: char): (d: nat)
    requires IsDigit(c)
    ensures d <= 9
  {
    (c as int) - ('0' as int)
  }

  predicate AllDigits(s: string) {
    forall i :: 0 <= i < |s| ==> IsDigit(s[i])
  }

  /** The value of a string of decimal digits, read most significant digit first. */
  function Decimal(s: string): nat
    requires AllDigits(s)
  {
    if s == [] then 0 else 10 * Decimal(s[..|s| - 1]) + DigitValue(s[|s| - 1])
  }

  /** A digit string denotes zero exactly when all its digits are '0'. */
  lemma {:induction false} DecimalZeroIff(s: string)
    requires AllDigits(s)
    ensures Decimal(s) == 0 <==> forall i :: 0 <= i < |s| ==> s[i] == '0'
  {
    if s != [] {
      var p := s[..|s| - 1];
      DecimalZeroIff(p);
      if Decimal(s) == 0 {
        forall i | 0 <= i < |s| ensures s[i] == '0' {
          if i < |s| - 1 { assert s[i] == p[i]; }
        }
      }
      if forall i :: 0 <= i < |s| ==> s[i] == '0' {
        forall i | 0 <= i < |p| ensures p[i] == '0' { assert p[i] == s[i]; }
      }
    }
  }

  /** What JavaScript's Number() gives for the strings this model reads:
      the empty string is 0, a string of decimal digits is its value, and
      None stands for NaN, which the model gives to every other string. */
  function NumberOf(s: string): Option<nat> {
    if s == "" then Some(0)
    else if AllDigits(s) then Some(Decimal(s))
    else None
  }
}
