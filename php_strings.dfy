/**
 * The PHP string built-ins the Oracle grammar relies on: interpolation of an
 * integer into a double-quoted string, implode, str_replace of the two
 * parenthesis characters, and trim with its default character list.  Each
 * comes with the reading back (a parser, a length, an end-point property)
 * that the grammar's lemmas use.
 */
module PhpStrings {
  import opened Wrappers

  // ---------------------------------------------------------------------
  // Integers rendered as decimal text, as "{$n}" does, and read back.
  // ---------------------------------------------------------------------

  predicate IsDigit(c: char) {
    '0' <= c <= '9'
  }

  predicate IsNumeral(s: string) {
    |s| > 0 && forall i :: 0 <= i < |s| ==> IsDigit(s[i])
  }

  function DigitChar(d: nat): (c: char)
    requires d < 10
    ensures IsDigit(c) && c as int - '0' as int == d
  {
    ('0' as int + d) as char
  }

  /** Decimal digits of n, most significant first, without leading zeros. */
  function NatToString(n: nat): (s: string)
    ensures IsNumeral(s)
    ensures s[0] == '0' <==> n == 0
    ensures n == 0 ==> s == "0"
    decreases n
  {
    if n < 10 then [DigitChar(n)] else NatToString(n / 10) + [DigitChar(n % 10)]
  }

  function DigitValue(c: char): (d: nat)
    requires IsDigit(c)
    ensures d < 10
  {
    c as int - '0' as int
  }

  /** The value of a string of decimal digits. */
  function DigitsValue(s: string): nat
    requires forall i :: 0 <= i < |s| ==> IsDigit(s[i])
    decreases |s|
  {
    if |s| == 0 then 0 else 10 * DigitsValue(s[..|s| - 1]) + DigitValue(s[|s| - 1])
  }

  /**
   * PHP's rendering of an integer: a minus sign exactly when it is negative,
   * then the digits without leading zeros ("0" for zero).
   */
  function IntToString(i: int): (s: string)
    ensures |s| > 0
    ensures forall k :: 0 <= k < |s| ==> IsDigit(s[k]) || (k == 0 && s[k] == '-')
    ensures s[0] == '-' <==> i < 0
    ensures s[0] == '0' ==> s == "0"
    ensures i < 0 ==> |s| >= 2 && s[1] != '0'
    ensures ' ' !in s && '(' !in s && ')' !in s
  {
    if i < 0 then "-" + NatToString(-i) else NatToString(i)
  }

  /** Reads an optionally signed decimal integer; anything else is None. */
  function ParseInt(s: string): Option<int> {
    if |s| > 0 && s[0] == '-' then
      if IsNumeral(s[1..]) then Some(0 - DigitsValue(s[1..])) else None
    else if IsNumeral(s) then Some(DigitsValue(s))
    else None
  }

  lemma {:induction false} NatToStringValue(n: nat)
    ensures DigitsValue(NatToString(n)) == n
    decreases n
  {
    if n >= 10 {
      var s := NatToString(n);
      NatToStringValue(n / 10);
      assert s[..|s| - 1] == NatToString(n / 10);
    }
  }

  /** Reading back an interpolated integer gives the integer. */
  lemma IntToStringRoundTrip(i: int)
    ensures ParseInt(IntToString(i)) == Some(i)
  {
    var s := IntToString(i);
    if i < 0 {
      var t := NatToString(-i);
      NatToStringValue(-i);
      assert s == "-" + t;
      assert s[0] == '-' && s[1..] == t;
    } else {
      NatToStringValue(i);
      assert IsDigit(s[0]);
    }
  }

  // ---------------------------------------------------------------------
  // Splitting on single spaces (explode(' ', s)), used to read text back.
  // ---------------------------------------------------------------------

  /** The pieces between single spaces; "" splits into [""]. */
  function Words(s: string): (r: seq<string>)
    ensures |r| >= 1
    decreases |s|
  {
    if |s| == 0 then [""]
    else
      var rest := Words(s[1..]);
      if s[0] == ' ' then [""] + rest else [[s[0]] + rest[0]] + rest[1..]
  }

  lemma {:induction false} WordsOfWord(a: string)
    requires ' ' !in a
    ensures Words(a) == [a]
    decreases |a|
  {
    if |a| > 0 {
      WordsOfWord(a[1..]);
      assert [a[0]] + a[1..] == a;
    }
  }

  lemma {:induction false} WordsSplit(a: string, b: string)
    requires ' ' !in a
    ensures Words(a + " " + b) == [a] + Words(b)
    decreases |a|
  {
    var s := a + " " + b;
    if |a| == 0 {
      assert s[1..] == b;
    } else {
      assert s[1..] == a[1..] + " " + b;
      WordsSplit(a[1..], b);
      assert [a[0]] + a[1..] == a;
    }
  }

  // ---------------------------------------------------------------------
  // implode(sep, parts) and array_fill(0, n, s).
  // ---------------------------------------------------------------------

  /** PHP's implode: the parts with sep between consecutive ones. */
  function Join(sep: string, parts: seq<string>): (r: string)
    ensures |parts| == 0 ==> r == ""
    ensures |parts| > 0 ==> StartsWith(r, parts[0])
    decreases |parts|
  {
    if |parts| == 0 then ""
    else if |parts| == 1 then parts[0]
    else parts[0] + sep + Join(sep, parts[1..])
  }

  /** PHP's array_fill(0, n, s): n copies of s. */
  function Repeat(n: nat, s: string): (r: seq<string>)
    ensures |r| == n
    ensures forall i :: 0 <= i < n ==> r[i] == s
  {
    seq(n, _ => s)
  }

  /** n copies joined by sep take n copies of s and n - 1 copies of sep. */
  lemma {:induction false} JoinRepeatLength(sep: string, n: nat, s: string)
    requires n >= 1
    ensures |Join(sep, Repeat(n, s))| == n * |s| + (n - 1) * |sep|
    decreases n
  {
    if n > 1 {
      assert Repeat(n, s)[1..] == Repeat(n - 1, s);
      JoinRepeatLength(sep, n - 1, s);
    }
  }

  /** A character absent from every part and from the separator is absent from the join. */
  lemma {:induction false} JoinAvoids(sep: string, parts: seq<string>, c: char)
    requires c !in sep
    requires forall i :: 0 <= i < |parts| ==> c !in parts[i]
    ensures c !in Join(sep, parts)
    decreases |parts|
  {
    if |parts| > 1 {
      JoinAvoids(sep, parts[1..], c);
    }
  }

  // ---------------------------------------------------------------------
  // str_replace(array('(', ')'), '', s).
  // ---------------------------------------------------------------------

  predicate IsParen(c: char) {
    c == '(' || c == ')'
  }

  /** s with every '(' and ')' deleted, the other characters kept in order. */
  function RemoveParens(s: string): (r: string)
    ensures '(' !in r && ')' !in r
    ensures |r| <= |s|
    decreases |s|
  {
    if |s| == 0 then ""
    else if IsParen(s[0]) then RemoveParens(s[1..])
    else [s[0]] + RemoveParens(s[1..])
  }

  /** Deleting parentheses works piecewise on a concatenation. */
  lemma {:induction false} RemoveParensConcat(a: string, b: string)
    ensures RemoveParens(a + b) == RemoveParens(a) + RemoveParens(b)
    decreases |a|
  {
    if |a| > 0 {
      assert (a + b)[1..] == a[1..] + b;
      RemoveParensConcat(a[1..], b);
    } else {
      assert a + b == b;
    }
  }

  /** Text without parentheses is left as it is. */
  lemma {:induction false} RemoveParensIdentity(s: string)
    requires '(' !in s && ')' !in s
    ensures RemoveParens(s) == s
    decreases |s|
  {
    if |s| > 0 {
      RemoveParensIdentity(s[1..]);
      assert [s[0]] + s[1..] == s;
    }
  }

  /** The enclosing pair of a parenthesised group goes with the rest. */
  lemma RemoveParensWrapped(p: string)
    ensures RemoveParens("(" + p + ")") == RemoveParens(p)
  {
    RemoveParensConcat("(" + p, ")");
    RemoveParensConcat("(", p);
    assert RemoveParens(")") == "";
    assert RemoveParens("(") == "";
  }

  // ---------------------------------------------------------------------
  // trim(s) with PHP's default list " \t\n\r\0\x0B".
  // ---------------------------------------------------------------------

  predicate IsTrimmable(c: char) {
    c == ' ' || c == '\t' || c == '\n' || c == '\r' || c == 0 as char || c == 11 as char
  }

  /** The end of the run of trimmable characters that starts at k. */
  function TrimmedFrom(s: string, k: nat): (a: nat)
    requires k <= |s|
    ensures k <= a <= |s|
    ensures forall i :: k <= i < a ==> IsTrimmable(s[i])
    ensures a < |s| ==> !IsTrimmable(s[a])
    decreases |s| - k
  {
    if k < |s| && IsTrimmable(s[k]) then TrimmedFrom(s, k + 1) else k
  }

  /** The start of the run of trimmable characters that ends at e, not going below a. */
  function TrimmedUntil(s: string, a: nat, e: nat): (b: nat)
    requires a <= e <= |s|
    ensures a <= b <= e
    ensures forall i :: b <= i < e ==> IsTrimmable(s[i])
    ensures b > a ==> !IsTrimmable(s[b - 1])
    decreases e - a
  {
    if e > a && IsTrimmable(s[e - 1]) then TrimmedUntil(s, a, e - 1) else e
  }

  /**
   * PHP's trim: s without its leading and its trailing run of trimmable
   * characters. The result is the stretch of s between the two runs, and it
   * neither starts nor ends with a trimmable character.
   */
  function Trim(s: string): (r: string)
    ensures var a := TrimmedFrom(s, 0);
      && a + |r| <= |s| && r == s[a..a + |r|]
      && (forall i :: 0 <= i < a ==> IsTrimmable(s[i]))
      && (forall i :: a + |r| <= i < |s| ==> IsTrimmable(s[i]))
    ensures |r| > 0 ==> !IsTrimmable(r[0]) && !IsTrimmable(r[|r| - 1])
  {
    var a := TrimmedFrom(s, 0);
    s[a..TrimmedUntil(s, a, |s|)]
  }

  /** Text whose ends are not trimmable is returned unchanged. */
  lemma TrimOfTrimmed(s: string)
    requires |s| > 0 ==> !IsTrimmable(s[0]) && !IsTrimmable(s[|s| - 1])
    ensures Trim(s) == s
  {
  }

  // ---------------------------------------------------------------------
  // Prefix test and last occurrence of a character.
  // ---------------------------------------------------------------------

  predicate StartsWith(s: string, prefix: string) {
    |prefix| <= |s| && s[..|prefix|] == prefix
  }

  /** The position of the last c in s, if any. */
  function LastIndexOf(s: string, c: char): (r: Option<nat>)
    ensures r.Some? ==> r.value < |s| && s[r.value] == c && c !in s[r.value + 1..]
    ensures r.None? ==> c !in s
    decreases |s|
  {
    if |s| == 0 then None
    else if s[|s| - 1] == c then Some(|s| - 1)
    else
      var r := LastIndexOf(s[..|s| - 1], c);
      assert r.Some? ==> s[r.value + 1..] == s[..|s| - 1][r.value + 1..] + [s[|s| - 1]];
      assert r.None? ==> s == s[..|s| - 1] + [s[|s| - 1]];
      r
  }

  /** A c with no c after it is the last one. */
  lemma LastIndexOfAt(s: string, c: char, k: nat)
    requires k < |s| && s[k] == c && c !in s[k + 1..]
    ensures LastIndexOf(s, c) == Some(k)
  {
  }
}
