/** Dotted IPv4 addresses: what is accepted, what it means, and what is printed (util.c). */
module IpAddress {
  import opened IpText

  /** The n byte values of a dotted text from p to the end of s, if it is one. */
  function Octets(s: string, p: nat, n: nat): Option<seq<nat>>
    requires p <= |s| && n >= 1
    decreases n
  {
    var e := DigitsEnd(s, p);
    if e == p || RunValue(s, p) >= 256 then None
    else if n == 1 then (if e == |s| then Some([RunValue(s, p)]) else None)
    else if At(s, e) != '.' then None
    else
      match Octets(s, e + 1, n - 1)
      case None => None
      case Some(rest) => Some([RunValue(s, p)] + rest)
  }

  // An address stated without a parser: numbers joined by dots.

  predicate IsNumber(d: string) {
    d != "" && AllDigits(d) && Value(d) < 256
  }

  predicate AllNumbers(parts: seq<string>) {
    forall i :: 0 <= i < |parts| ==> IsNumber(parts[i])
  }

  function Join(parts: seq<string>): string
    requires parts != []
  {
    if |parts| == 1 then parts[0] else parts[0] + "." + Join(parts[1..])
  }

  function Values(parts: seq<string>): seq<nat>
    requires AllNumbers(parts)
  {
    if parts == [] then [] else [Value(parts[0])] + Values(parts[1..])
  }

  lemma {:induction false} RunFound(s: string, p: nat, e: nat)
    requires p <= e <= |s| && AllDigits(s[p..e]) && !IsDigit(At(s, e))
    ensures DigitsEnd(s, p) == e
    decreases e - p
  {
    if p < e {
      assert s[p] == s[p..e][0];
      assert s[p + 1..e] == s[p..e][1..];
      RunFound(s, p + 1, e);
    }
  }

  lemma FirstPart(s: string, p: nat, parts: seq<string>)
    requires p <= |s| && parts != [] && AllNumbers(parts) && s[p..] == Join(parts)
    ensures var e := p + |parts[0]|;
            && e <= |s| && s[p..e] == parts[0] && DigitsEnd(s, p) == e
            && if |parts| == 1 then e == |s| else At(s, e) == '.' && s[e + 1..] == Join(parts[1..])
  {
    hide Value;
    var d := parts[0];
    var e := p + |d|;
    assert s[p..e] == s[p..][..|d|] == d;
    if |parts| > 1 {
      assert s[p..][|d|] == '.';
      assert s[e + 1..] == s[p..][|d| + 1..] == Join(parts[1..]);
    }
    RunFound(s, p, e);
  }

  lemma NumberRead(s: string, p: nat, d: string)
    requires IsNumber(d) && p + |d| <= |s| && s[p..p + |d|] == d && DigitsEnd(s, p) == p + |d|
    ensures p < DigitsEnd(s, p) && AllDigits(d) && RunValue(s, p) == Value(d) < 256
  {
  }

  lemma LastRead(s: string, p: nat)
    requires p < |s| == DigitsEnd(s, p) && RunValue(s, p) < 256
    ensures Octets(s, p, 1) == Some([RunValue(s, p)])
  {
  }

  lemma MoreRead(s: string, p: nat, n: nat, rest: seq<nat>)
    requires p < |s| && p < DigitsEnd(s, p) < |s| && RunValue(s, p) < 256 && n > 1
    requires At(s, DigitsEnd(s, p)) == '.' && Octets(s, DigitsEnd(s, p) + 1, n - 1) == Some(rest)
    ensures Octets(s, p, n) == Some([RunValue(s, p)] + rest)
  {
  }

  /** Every joining of numbers is read back, leading zeros and all. */
  lemma {:induction false} JoinedIsRead(s: string, p: nat, parts: seq<string>)
    requires p <= |s| && parts != [] && AllNumbers(parts) && s[p..] == Join(parts)
    ensures Octets(s, p, |parts|) == Some(Values(parts))
    decreases |parts|
  {
    hide Value, Join, DigitsEnd, RunValue, IsNumber, Octets;
    FirstPart(s, p, parts);
    assert IsNumber(parts[0]);
    NumberRead(s, p, parts[0]);
    if |parts| > 1 {
      JoinedIsRead(s, p + |parts[0]| + 1, parts[1..]);
      MoreRead(s, p, |parts|, Values(parts[1..]));
    } else {
      LastRead(s, p);
      assert parts[1..] == [] && Values(parts) == [Value(parts[0])] + [] == [Value(parts[0])];
    }
  }

  /** And only such texts are accepted. */
  lemma {:induction false} ReadIsJoined(s: string, p: nat, n: nat) returns (parts: seq<string>)
    requires p <= |s| && n >= 1 && Octets(s, p, n).Some?
    ensures |parts| == n && AllNumbers(parts) && s[p..] == Join(parts)
    decreases n
  {
    var e := DigitsEnd(s, p);
    if n == 1 {
      parts := [s[p..e]];
      assert s[p..] == s[p..e];
    } else {
      var rest := ReadIsJoined(s, e + 1, n - 1);
      parts := [s[p..e]] + rest;
      assert parts[1..] == rest;
      assert s[p..] == s[p..e] + "." + s[e + 1..];
    }
  }

  /** n more numbers follow, each after a dot, up to the end. */
  predicate Rest(s: string, p: nat, n: nat)
    requires p <= |s|
  {
    if n == 0 then p == |s| else At(s, p) == '.' && Octets(s, p + 1, n).Some?
  }

  lemma NumberThenRest(s: string, p: nat, n: nat)
    requires p <= |s| && n >= 1
    ensures Octets(s, p, n).Some? <==>
            p < DigitsEnd(s, p) && RunValue(s, p) < 256 && Rest(s, DigitsEnd(s, p), n - 1)
  {
    hide RunValue;
  }

  /** ip_validate */
  method Validate(str: string) returns (ok: bool)
    requires '\0' !in str
    ensures ok <==> Octets(str, 0, 4).Some?
  {
    hide Octets, DigitsEnd, RunValue;
    NumberThenRest(str, 0, 4);
    var next := IsUint8(str, 0);
    if next == None {
      return false;
    }
    var p: nat := next.value;
    var i: nat := 3;
    while i > 0
      invariant p <= |str|
      invariant Octets(str, 0, 4).Some? <==> Rest(str, p, i)
    {
      if At(str, p) != '.' {
        return false;
      }
      NumberThenRest(str, p + 1, i);
      next := IsUint8(str, p + 1);
      if next == None {
        return false;
      }
      p := next.value;
      i := i - 1;
    }
    ok := At(str, p) == '\0';
  }

  /** ip_validate accepts exactly the texts that are four numbers below 256 joined by dots. */
  lemma AcceptedIffDotted(str: string)
    ensures Octets(str, 0, 4).Some? <==>
            exists parts: seq<string> :: |parts| == 4 && AllNumbers(parts) && str == Join(parts)
  {
    assert str[0..] == str;
    if Octets(str, 0, 4).Some? {
      var parts := ReadIsJoined(str, 0, 4);
    }
    forall parts: seq<string> | |parts| == 4 && AllNumbers(parts) && str == Join(parts)
      ensures Octets(str, 0, 4).Some?
    {
      JoinedIsRead(str, 0, parts);
    }
  }

  /** `Wild`: text would be read behind its terminator. */
  datatype Parsed = Bytes(b: seq<nat>) | Rejected | Wild

  /** ip_str_to_uint32, as the four bytes of the result. */
  method ToBytes(ip: string) returns (r: Parsed)
    requires '\0' !in ip
    ensures Octets(ip, 0, 4).Some? ==> r == Bytes(Octets(ip, 0, 4).value)
  {
    hide Octets, Remaining, DigitsEnd, RunValue;
    var bytes: seq<nat> := [];
    Begin(ip);
    var p: nat := 0;
    while |bytes| < 4
      invariant |bytes| <= 4
      invariant Octets(ip, 0, 4).Some? ==> Remaining(ip, p, bytes, Octets(ip, 0, 4).value)
      decreases 4 - |bytes|
    {
      OneByte(ip, p, bytes);
      if p > |ip| {
        return Wild;
      }
      var next, byte := ToUint8(ip, p);
      if next == None {
        return Rejected;
      }
      bytes := bytes + [byte];
      p := next.value + 1;
    }
    Finish(ip, p, bytes);
    r := Bytes(bytes);
  }

  predicate Remaining(s: string, p: nat, bytes: seq<nat>, all: seq<nat>) {
    if |bytes| >= 4 then bytes == all
    else p <= |s| && Octets(s, p, 4 - |bytes|).Some? && bytes + Octets(s, p, 4 - |bytes|).value == all
  }

  lemma Begin(s: string)
    ensures Octets(s, 0, 4).Some? ==> Remaining(s, 0, [], Octets(s, 0, 4).value)
  {
  }

  lemma OneByte(s: string, p: nat, bytes: seq<nat>)
    requires |bytes| < 4
    ensures forall all :: Remaining(s, p, bytes, all) ==>
              p <= |s| && RunValue(s, p) < 256 && Remaining(s, DigitsEnd(s, p) + 1, bytes + [RunValue(s, p)], all)
  {
  }

  lemma Finish(s: string, p: nat, bytes: seq<nat>)
    requires |bytes| >= 4
    ensures forall all :: Remaining(s, p, bytes, all) ==> bytes == all
  {
  }

  // ------------------------------------------------------------- printing

  function DigitChar(d: nat): char
    requires d < 10
  {
    '0' + d as char
  }

  /** uint8_to_str writes the tens only if they are not zero, hundreds or not. */
  function Printed(num: nat): string
    requires num < 256
  {
    var rest := if num > 199 then num - 200 else if num > 99 then num - 100 else num;
    (if num > 199 then "2" else if num > 99 then "1" else "") +
    (if rest / 10 != 0 then [DigitChar(rest / 10)] else "") +
    [DigitChar(rest % 10)]
  }

  /** The printed text is a number below 256 without needless zeros in front, and it is the right
      one if and only if no zero stands between a hundreds digit and a last digit. */
  lemma PrintedValueIff(num: nat)
    requires num < 256
    ensures IsNumber(Printed(num)) && |Printed(num)| <= 3
    ensures Printed(num)[0] == '0' ==> num == 0 && |Printed(num)| == 1
    ensures Value(Printed(num)) == num <==> !(100 <= num <= 109 || 200 <= num <= 209)
  {
    hide Value;
    var rest := if num > 199 then num - 200 else if num > 99 then num - 100 else num;
    var t, u := rest / 10, DigitChar(rest % 10);
    var h := if num > 199 then '2' else '1';
    if num <= 99 {
      if t == 0 {
        Value1(u);
        assert Printed(num) == [u];
      } else {
        Value2(DigitChar(t), u);
        assert Printed(num) == [DigitChar(t), u];
      }
    } else if t == 0 {
      Value2(h, u);
      assert Printed(num) == [h, u];
    } else {
      Value3(h, DigitChar(t), u);
      assert Printed(num) == [h, DigitChar(t), u];
    }
  }

  /** uint8_to_str at position `at` of a buffer. */
  method PrintUint8(num: nat, str: array<char>, at: nat) returns (len: nat)
    requires num < 256 && at + 4 <= str.Length
    modifies str
    ensures len == |Printed(num)| <= 3
    ensures str[..at] == old(str[..at]) && str[at..at + len] == Printed(num) && str[at + len] == '\0'
  {
    var n := num;
    len := 0;
    if n > 199 {
      str[at] := '2';
      len := 1;
      n := n - 200;
    } else if n > 99 {
      str[at] := '1';
      len := 1;
      n := n - 100;
    }
    var tmp := n / 10;
    if tmp != 0 {
      str[at + len] := DigitChar(tmp);
      len := len + 1;
    }
    str[at + len] := DigitChar(n % 10);
    len := len + 1;
    str[at + len] := '\0';
  }

  /** uint32_to_ip_str, for the four bytes of the address in the order they are in memory. */
  method PrintAddress(b: seq<nat>, str: array<char>) returns (pos: nat)
    requires |b| == 4 && (forall i :: 0 <= i < 4 ==> b[i] < 256) && str.Length >= 16
    modifies str
    ensures pos < str.Length && str[..pos] == AddressText(b) && str[pos] == '\0'
  {
    pos := 0;
    var i := 0;
    while i < 3
      invariant 0 <= i <= 3 && pos <= 4 * i
      invariant str[..pos] == Dotted(b[..i])
    {
      ghost var done := str[..pos];
      var n := PrintUint8(b[i], str, pos);
      pos := pos + n;
      assert str[..pos] == done + Printed(b[i]);
      str[pos] := '.';
      pos := pos + 1;
      assert str[..pos] == done + Printed(b[i]) + ".";
      assert b[..i + 1][..i] == b[..i];
      i := i + 1;
    }
    ghost var done := str[..pos];
    var n := PrintUint8(b[3], str, pos);
    pos := pos + n;
    assert str[..pos] == done + Printed(b[3]);
  }

  predicate AllBytes(b: seq<nat>) {
    forall i :: 0 <= i < |b| ==> b[i] < 256
  }

  /** Each number printed, with a dot behind it. */
  function Dotted(b: seq<nat>): string
    requires AllBytes(b)
  {
    if b == [] then "" else Dotted(b[..|b| - 1]) + Printed(b[|b| - 1]) + "."
  }

  function AddressText(b: seq<nat>): string
    requires |b| == 4 && AllBytes(b)
  {
    Dotted(b[..3]) + Printed(b[3])
  }

  /** Does uint8_to_str print this byte in full? */
  predicate PrintsInFull(num: nat) {
    !(100 <= num <= 109 || 200 <= num <= 209)
  }

  /** What is printed for an address is always accepted; it parses back to the address if and
      only if no byte is in 100-109 or 200-209. */
  lemma PrintedAddressParsesBackIff(b: seq<nat>)
    requires |b| == 4 && AllBytes(b)
    ensures Octets(AddressText(b), 0, 4).Some?
    ensures Octets(AddressText(b), 0, 4).value == b <==> forall i :: 0 <= i < 4 ==> PrintsInFull(b[i])
  {
    hide Printed, Octets, Value;
    var parts := [Printed(b[0]), Printed(b[1]), Printed(b[2]), Printed(b[3])];
    PrintedValueIff(b[0]);
    PrintedValueIff(b[1]);
    PrintedValueIff(b[2]);
    PrintedValueIff(b[3]);
    TextJoins(b);
    var s := AddressText(b);
    assert s[0..] == s;
    JoinedIsRead(s, 0, parts);
    FourValues(parts);
  }

  lemma JoinOne(d: string, parts: seq<string>)
    ensures Join([d]) == d
    ensures parts != [] ==> Join([d] + parts) == d + "." + Join(parts)
  {
    assert ([d] + parts)[1..] == parts;
  }

  lemma TextJoins(b: seq<nat>)
    requires |b| == 4 && AllBytes(b)
    ensures AddressText(b) == Join([Printed(b[0]), Printed(b[1]), Printed(b[2]), Printed(b[3])])
  {
    hide Printed, Join;
    var p0, p1, p2, p3 := Printed(b[0]), Printed(b[1]), Printed(b[2]), Printed(b[3]);
    assert b[..3][..2] == b[..2] && b[..2][..1] == b[..1] && b[..1][..0] == [];
    assert Dotted(b[..1]) == "" + p0 + "." == p0 + ".";
    assert Dotted(b[..2]) == Dotted(b[..1]) + p1 + ".";
    JoinOne(p3, []);
    JoinOne(p2, [p3]);
    JoinOne(p1, [p2, p3]);
    JoinOne(p0, [p1, p2, p3]);
    assert [p0] + [p1, p2, p3] == [p0, p1, p2, p3] && [p1] + [p2, p3] == [p1, p2, p3] && [p2] + [p3] == [p2, p3];
    assert p0 + "." + (p1 + "." + (p2 + "." + p3)) == p0 + "." + p1 + "." + p2 + "." + p3;
  }

  lemma ValuesOne(d: string, parts: seq<string>)
    requires IsNumber(d) && AllNumbers(parts)
    ensures AllNumbers([d] + parts) && Values([d] + parts) == [Value(d)] + Values(parts)
  {
    assert ([d] + parts)[1..] == parts;
  }

  lemma FourValues(parts: seq<string>)
    requires |parts| == 4 && AllNumbers(parts)
    ensures Values(parts) == [Value(parts[0]), Value(parts[1]), Value(parts[2]), Value(parts[3])]
  {
    hide Value, Values;
    var a, b, c, d := parts[0], parts[1], parts[2], parts[3];
    assert Values([]) == [] by { NoValues(); }
    ValuesOne(d, []);
    ValuesOne(c, [d]);
    ValuesOne(b, [c, d]);
    ValuesOne(a, [b, c, d]);
    assert [d] + [] == [d] && [c] + [d] == [c, d] && [b] + [c, d] == [b, c, d] && [a] + [b, c, d] == parts;
  }

  lemma NoValues()
    ensures Values([]) == []
  {
  }
}
