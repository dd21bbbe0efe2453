/** Dotted IPv4 addresses as text: validation, parsing and printing (util.c). A C string is a
    string without its terminator; reading at its length gives the terminator. */
module IpText {

  datatype Option<T> = None | Some(value: T)

  function At(s: string, i: nat): char
    requires i <= |s|
  {
    if i < |s| then s[i] else '\0'
  }

  predicate IsDigit(c: char) {
    '0' <= c <= '9'
  }

  function Digit(c: char): nat
    requires IsDigit(c)
  {
    c as int - '0' as int
  }

  predicate AllDigits(s: string) {
    forall i :: 0 <= i < |s| ==> IsDigit(s[i])
  }

  /** The number a string of digits stands for. */
  function Value(s: string): nat
    requires AllDigits(s)
  {
    if s == "" then 0 else Value(s[..|s| - 1]) * 10 + Digit(s[|s| - 1])
  }

  /** The end of the run of digits at p. */
  function DigitsEnd(s: string, p: nat): (e: nat)
    requires p <= |s|
    ensures p <= e <= |s| && AllDigits(s[p..e]) && !IsDigit(At(s, e))
    decreases |s| - p
  {
    if IsDigit(At(s, p)) then
      var e := DigitsEnd(s, p + 1);
      assert s[p..e] == [s[p]] + s[p + 1..e];
      e
    else p
  }

  function RunValue(s: string, p: nat): nat
    requires p <= |s|
  {
    Value(s[p..DigitsEnd(s, p)])
  }

  // ------------------------------------------------------------- numbers

  lemma {:induction false} ValueConcat(s: string, t: string)
    requires AllDigits(s) && AllDigits(t)
    ensures AllDigits(s + t) && Value(s + t) == Value(s) * Pow10(|t|) + Value(t)
  {
    if t == "" {
      assert s + t == s;
    } else {
      var n := |t| - 1;
      ValueConcat(s, t[..n]);
      assert (s + t)[..|s + t| - 1] == s + t[..n];
      assert Value(s) * Pow10(n) * 10 == Value(s) * (Pow10(n) * 10);
    }
  }

  function Pow10(n: nat): nat {
    if n == 0 then 1 else Pow10(n - 1) * 10
  }

  /** A zero in front does not matter. */
  lemma LeadingZero(s: string, p: nat)
    requires p < |s| && s[p] == '0'
    ensures DigitsEnd(s, p) == DigitsEnd(s, p + 1) && RunValue(s, p) == RunValue(s, p + 1)
  {
    var e := DigitsEnd(s, p + 1);
    assert s[p..e] == "0" + s[p + 1..e];
    ValueConcat("0", s[p + 1..e]);
    assert Value("0") == Value("") * 10 + 0;
  }

  /** A number with no zero in front is below 256 if and only if it has at most three digits
      and, with three, the test str_is_uint8 makes passes. */
  predicate ThreeDigitsFit(a: char, b: char, c: char) {
    !(a > '2' || (a == '2' && (b > '5' || (b == '5' && c > '5'))))
  }

  lemma Value1(a: char)
    requires IsDigit(a)
    ensures AllDigits([a]) && Value([a]) == Digit(a) < 10
  {
    assert [a][..0] == "";
  }

  lemma Value2(a: char, b: char)
    requires IsDigit(a) && IsDigit(b)
    ensures AllDigits([a, b]) && Value([a, b]) == Digit(a) * 10 + Digit(b) < 100
  {
    Value1(a);
    assert [a, b][..1] == [a];
  }

  lemma Value3(a: char, b: char, c: char)
    requires IsDigit(a) && IsDigit(b) && IsDigit(c)
    ensures AllDigits([a, b, c]) && Value([a, b, c]) == Digit(a) * 100 + Digit(b) * 10 + Digit(c)
    ensures Value([a, b, c]) < 256 <==> ThreeDigitsFit(a, b, c)
  {
    Value2(a, b);
    assert [a, b, c][..2] == [a, b];
  }

  lemma RunOf(s: string, p: nat, n: nat)
    requires p + n <= |s| && DigitsEnd(s, p) == p + n
    ensures forall i :: p <= i < p + n ==> IsDigit(s[i])
  {
    assert forall i :: p <= i < p + n ==> s[i] == s[p..p + n][i - p];
  }

  lemma RunValue3(s: string, p: nat)
    requires p + 3 <= |s| && DigitsEnd(s, p) == p + 3
    ensures IsDigit(s[p]) && IsDigit(s[p + 1]) && IsDigit(s[p + 2])
    ensures RunValue(s, p) == Digit(s[p]) * 100 + Digit(s[p + 1]) * 10 + Digit(s[p + 2])
    ensures RunValue(s, p) < 256 <==> ThreeDigitsFit(s[p], s[p + 1], s[p + 2])
  {
    hide Value;
    RunOf(s, p, 3);
    assert s[p..p + 3] == [s[p], s[p + 1], s[p + 2]];
    Value3(s[p], s[p + 1], s[p + 2]);
  }

  lemma RunValue2(s: string, p: nat)
    requires p + 2 <= |s| && DigitsEnd(s, p) == p + 2
    ensures IsDigit(s[p]) && IsDigit(s[p + 1])
    ensures RunValue(s, p) == Digit(s[p]) * 10 + Digit(s[p + 1]) < 100
  {
    hide Value;
    RunOf(s, p, 2);
    assert s[p..p + 2] == [s[p], s[p + 1]];
    Value2(s[p], s[p + 1]);
  }

  lemma RunValue1(s: string, p: nat)
    requires p + 1 <= |s| && DigitsEnd(s, p) == p + 1
    ensures IsDigit(s[p]) && RunValue(s, p) == Digit(s[p]) < 10
  {
    hide Value;
    RunOf(s, p, 1);
    assert s[p..p + 1] == [s[p]];
    Value1(s[p]);
  }

  /** Four digits, the first not zero, are at least a thousand. */
  lemma RunValueLong(s: string, p: nat)
    requires p <= |s| && DigitsEnd(s, p) >= p + 4 && s[p] != '0'
    ensures RunValue(s, p) >= 1000
  {
    var e := DigitsEnd(s, p);
    var d := s[p..e];
    assert d[0] == s[p];
    LongValue(d);
  }

  lemma {:induction false} LongValue(d: string)
    requires AllDigits(d) && |d| >= 1 && d[0] != '0'
    ensures Value(d) >= Pow10(|d| - 1)
    ensures |d| >= 4 ==> Value(d) >= 1000
  {
    if |d| == 1 {
      assert d[..0] == "";
    } else {
      LongValue(d[..|d| - 1]);
      if |d| == 4 {
        assert Pow10(3) == 1000;
      }
    }
  }

  // -------------------------------------------------------- one number

  /** Counts digits from p, up to four of them. */
  method CountDigits(s: string, p: nat) returns (n: nat)
    requires p <= |s| && '\0' !in s
    ensures n <= 4 && p + n <= |s|
    ensures n < 4 ==> DigitsEnd(s, p) == p + n
    ensures n == 4 ==> DigitsEnd(s, p) >= p + 4
  {
    n := 0;
    while n < 4 && IsDigit(At(s, p + n))
      invariant n <= 4 && p + n <= |s| && DigitsEnd(s, p) == DigitsEnd(s, p + n)
    {
      n := n + 1;
    }
  }

  /** str_is_uint8: succeeds, at the end of the run of digits, if and only if there is one and
      its value fits a byte, whatever zeros it starts with. */
  method IsUint8(str: string, start: nat) returns (next: Option<nat>)
    requires start <= |str| && '\0' !in str
    ensures next == if start < DigitsEnd(str, start) && RunValue(str, start) < 256
                    then Some(DigitsEnd(str, start)) else None
  {
    hide Value;
    var p := start;
    while At(str, p) == '0' && IsDigit(At(str, p + 1))
      invariant start <= p <= |str|
      invariant DigitsEnd(str, p) == DigitsEnd(str, start) && RunValue(str, p) == RunValue(str, start)
      invariant p > start ==> p < |str| && IsDigit(str[p])
      decreases |str| - p
    {
      LeadingZero(str, p);
      p := p + 1;
    }
    var n := CountDigits(str, p);
    match n {
      case 3 =>
        RunValue3(str, p);
        if !ThreeDigitsFit(str[p], str[p + 1], str[p + 2]) {
          return None;
        }
        next := Some(p + n);
      case 2 =>
        RunValue2(str, p);
        next := Some(p + n);
      case 1 =>
        RunValue1(str, p);
        next := Some(p + n);
      case _ =>
        if n == 4 {
          RunValueLong(str, p);
        }
        next := None;
    }
  }

  /** str_to_uint8: the value of the run of digits, which may be empty, if it fits a byte. */
  method ToUint8(str: string, start: nat) returns (next: Option<nat>, result: nat)
    requires start <= |str| && '\0' !in str
    ensures next == if RunValue(str, start) < 256 then Some(DigitsEnd(str, start)) else None
    ensures result == if RunValue(str, start) < 256 then RunValue(str, start) else 0
  {
    hide Value;
    var p := start;
    result := 0;
    while At(str, p) == '0'
      invariant start <= p <= |str|
      invariant DigitsEnd(str, p) == DigitsEnd(str, start) && RunValue(str, p) == RunValue(str, start)
      decreases |str| - p
    {
      LeadingZero(str, p);
      p := p + 1;
    }
    if !IsDigit(At(str, p)) {
      EmptyRun(str, p);
      return Some(p), 0;
    }
    var n := CountDigits(str, p);
    match n {
      case 3 =>
        RunValue3(str, p);
        if !ThreeDigitsFit(str[p], str[p + 1], str[p + 2]) {
          return None, 0;
        }
        result := Digit(str[p]) * 100;
        result := result + Digit(str[p + 1]) * 10;
        result := result + Digit(str[p + 2]);
        next := Some(p + 3);
      case 2 =>
        RunValue2(str, p);
        result := result + Digit(str[p]) * 10;
        result := result + Digit(str[p + 1]);
        next := Some(p + 2);
      case 1 =>
        RunValue1(str, p);
        result := result + Digit(str[p]);
        next := Some(p + 1);
      case _ =>
        RunValueLong(str, p);
        next := None;
    }
  }

  lemma EmptyRun(s: string, p: nat)
    requires p <= |s| && !IsDigit(At(s, p))
    ensures DigitsEnd(s, p) == p && RunValue(s, p) == 0
  {
    assert s[p..p] == "";
  }
}
