/** The Ruby string operations the XML-RPC layer leans on: `Integer#to_s`,
    `String#to_i` (and `nil.to_i`), `String#chomp` and ActiveSupport's `blank?`
    on strings. */
module Text {
  import opened Wrappers

  predicate IsDigit(c: char) { '0' <= c <= '9' }

  function DigitValue(c: char): (d: nat)
    requires IsDigit(c)
    ensures d < 10
  {
    c as int - '0' as int
  }

  function DigitChar(d: nat): (c: char)
    requires d < 10
    ensures IsDigit(c) && DigitValue(c) == d
  {
    ('0' as int + d) as char
  }

  /** Ruby's whitespace class (`\s`): space, tab, line feed, vertical tab,
      form feed and carriage return. */
  predicate IsSpace(c: char) {
    c == ' ' || c == '\t' || c == '\n' || c == '\r' || c as int == 11 || c as int == 12
  }

  /** Decimal digits of a natural number, without leading zeros. */
  function ShowNat(n: nat): (s: string)
    ensures |s| >= 1
    ensures forall i :: 0 <= i < |s| ==> IsDigit(s[i])
  {
    if n < 10 then [DigitChar(n)] else ShowNat(n / 10) + [DigitChar(n % 10)]
  }

  /** `Integer#to_s`: an optional minus sign followed by the digits. */
  function ShowInt(i: int): string {
    if i < 0 then "-" + ShowNat(-i) else ShowNat(i)
  }

  /** The number a string of decimal digits denotes. */
  function DigitsValue(s: string): nat
    requires forall i :: 0 <= i < |s| ==> IsDigit(s[i])
  {
    if s == [] then 0 else DigitsValue(s[..|s| - 1]) * 10 + DigitValue(s[|s| - 1])
  }

  /** Length of the longest prefix of `s` made of digits. */
  function DigitRun(s: string): (n: nat)
    ensures n <= |s|
    ensures forall i :: 0 <= i < n ==> IsDigit(s[i])
    ensures n < |s| ==> !IsDigit(s[n])
  {
    if s != [] && IsDigit(s[0]) then 1 + DigitRun(s[1..]) else 0
  }

  function DropSpaces(s: string): (r: string)
    ensures |r| <= |s| && r == s[|s| - |r|..]
    ensures r != [] ==> !IsSpace(r[0])
  {
    if s != [] && IsSpace(s[0]) then DropSpaces(s[1..]) else s
  }

  /** The value of the leading run of digits of `s` (0 when there is none). */
  function LeadingNumber(s: string): nat {
    DigitsValue(s[..DigitRun(s)])
  }

  /** `String#to_i`, with `nil.to_i == 0`: leading whitespace is skipped, an
      optional sign is read, then the longest run of digits; whatever follows is
      ignored and text without digits gives 0. */
  function ToI(t: Option<string>): int {
    match t
    case None => 0
    case Some(s) =>
      var r := DropSpaces(s);
      if r != [] && r[0] == '-' then -(LeadingNumber(r[1..]) as int)
      else if r != [] && r[0] == '+' then LeadingNumber(r[1..])
      else LeadingNumber(r)
  }

  lemma {:induction false} DigitsValueShowNat(n: nat)
    ensures DigitsValue(ShowNat(n)) == n
  {
    if n >= 10 {
      var s := ShowNat(n);
      assert s[..|s| - 1] == ShowNat(n / 10);
      DigitsValueShowNat(n / 10);
    }
  }

  lemma {:induction false} DigitRunAllDigits(s: string)
    requires forall i :: 0 <= i < |s| ==> IsDigit(s[i])
    ensures DigitRun(s) == |s|
  {
    if s != [] {
      DigitRunAllDigits(s[1..]);
    }
  }

  lemma LeadingNumberShowNat(n: nat)
    ensures LeadingNumber(ShowNat(n)) == n
  {
    var s := ShowNat(n);
    DigitRunAllDigits(s);
    assert s[..|s|] == s;
    DigitsValueShowNat(n);
  }

  /** Reading back the decimal text `Integer#to_s` writes gives the integer. */
  lemma ToIShowInt(i: int)
    ensures ToI(Some(ShowInt(i))) == i
  {
    if i < 0 {
      var t := ShowNat(-i);
      var s := "-" + t;
      assert s[0] == '-' && !IsSpace(s[0]);
      assert DropSpaces(s) == s;
      assert s[1..] == t;
      LeadingNumberShowNat(-i);
    } else {
      var s := ShowNat(i);
      assert IsDigit(s[0]) && !IsSpace(s[0]);
      assert DropSpaces(s) == s;
      LeadingNumberShowNat(i);
    }
  }

  /** `String#chomp` with no argument, over any sequence of characters or bytes
      given the values of carriage return and line feed: drops one trailing
      CR LF, LF or CR. */
  function ChompWith<T(==)>(s: seq<T>, cr: T, lf: T): (r: seq<T>)
    ensures r <= s && |s| - 2 <= |r|
  {
    if |s| >= 2 && s[|s| - 2] == cr && s[|s| - 1] == lf then s[..|s| - 2]
    else if |s| >= 1 && (s[|s| - 1] == lf || s[|s| - 1] == cr) then s[..|s| - 1]
    else s
  }

  /** `String#chomp` on text. */
  function Chomp(s: string): string {
    ChompWith(s, '\r', '\n')
  }

  /** What `chomp` removes is only line terminators, and a sequence that does
      not end in one is left alone. */
  lemma ChompRemovesLineEnd<T>(s: seq<T>, cr: T, lf: T)
    ensures forall i :: |ChompWith(s, cr, lf)| <= i < |s| ==> s[i] == lf || s[i] == cr
    ensures |s| == 0 || (s[|s| - 1] != lf && s[|s| - 1] != cr) ==> ChompWith(s, cr, lf) == s
  {
  }

  /** A single line feed appended to text not ending in "\r" is what `chomp` takes off. */
  lemma ChompNewline(s: string)
    requires |s| == 0 || s[|s| - 1] != '\r'
    ensures Chomp(s + "\n") == s
  {
    var t := s + "\n";
    assert t[..|t| - 1] == s;
  }

  /** ActiveSupport's `String#blank?`: empty or only whitespace. */
  predicate BlankText(s: string) {
    forall i :: 0 <= i < |s| ==> IsSpace(s[i])
  }
}
