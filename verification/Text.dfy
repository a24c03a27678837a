/** The string operations that the gateway's keys and normalizers are made of. */
module Text {

  // ----- decimal numbers -----

  function Digit(d: nat): char
    requires d < 10
  {
    '0' + d as char
  }

  function DecimalNat(n: nat): (s: string)
    ensures s != ""
    ensures forall c :: c in s ==> '0' <= c <= '9'
  {
    if n < 10 then [Digit(n)] else DecimalNat(n / 10) + [Digit(n % 10)]
  }

  /** An integer as the `%d` verb prints it. */
  function Decimal(n: int): (s: string)
    ensures s != ""
    ensures forall c :: c in s ==> c == '-' || '0' <= c <= '9'
  {
    if n < 0 then "-" + DecimalNat(-n) else DecimalNat(n)
  }

  lemma {:induction false} DecimalNatInjective(a: nat, b: nat)
    requires DecimalNat(a) == DecimalNat(b)
    ensures a == b
  {
    var s, t := DecimalNat(a), DecimalNat(b);
    assert s[|s|-1] == Digit(a % 10) && t[|t|-1] == Digit(b % 10);
    if a >= 10 && b >= 10 {
      assert s[..|s|-1] == DecimalNat(a / 10) && t[..|t|-1] == DecimalNat(b / 10);
      DecimalNatInjective(a / 10, b / 10);
    }
  }

  lemma DecimalInjective(a: int, b: int)
    requires Decimal(a) == Decimal(b)
    ensures a == b
  {
    if a < 0 && b < 0 {
      assert Decimal(a)[1..] == DecimalNat(-a) && Decimal(b)[1..] == DecimalNat(-b);
      DecimalNatInjective(-a, -b);
    } else if a >= 0 && b >= 0 {
      DecimalNatInjective(a, b);
    } else {
      var n := if a < 0 then b else a;
      assert DecimalNat(n)[0] in DecimalNat(n);
    }
  }

  // ----- separated fields -----

  /** A text is cut at its first separator in only one way. */
  lemma FirstFieldUnique(a: string, b: string, c: char, x: string, y: string)
    requires a + [c] + x == b + [c] + y && c !in a && c !in b
    ensures a == b && x == y
  {
    var s := a + [c] + x;
    assert s[|a|] == c && s[|b|] == c;
    assert forall i :: 0 <= i < |a| ==> s[i] == a[i] != c;
    assert forall i :: 0 <= i < |b| ==> s[i] == b[i] != c;
    assert |a| == |b|;
    assert a == s[..|a|] && x == s[|a|+1..];
    assert b == s[..|b|] && y == s[|b|+1..];
  }

  /** ... and at its last separator as well. */
  lemma LastFieldUnique(x: string, y: string, c: char, a: string, b: string)
    requires x + [c] + a == y + [c] + b && c !in a && c !in b
    ensures x == y && a == b
  {
    LaterSeparator(x, y, c, a, b);
    LaterSeparator(y, x, c, b, a);
    var s := x + [c] + a;
    assert x == s[..|x|] && a == s[|x|+1..];
    assert y == s[..|x|] && b == s[|x|+1..];
  }

  lemma LaterSeparator(x: string, y: string, c: char, a: string, b: string)
    requires x + [c] + a == y + [c] + b
    ensures |y| > |x| ==> c in a
  {
    if |y| > |x| {
      var s := x + [c] + a;
      assert s[|y|] == c && s[|y|] == a[|y|-|x|-1];
    }
  }

  /** The parts of a text between separators; a text without separator is its own only part. */
  function Split(s: string, separator: char): (parts: seq<string>)
    ensures parts != []
  {
    if s == "" then [""]
    else
      var rest := Split(s[1..], separator);
      if s[0] == separator then [""] + rest else [[s[0]] + rest[0]] + rest[1..]
  }

  /** A text without the separator is one part. */
  lemma {:induction false} SplitWhole(s: string, separator: char)
    requires separator !in s
    ensures Split(s, separator) == [s]
  {
    if s != "" {
      SplitWhole(s[1..], separator);
      assert [s[0]] + s[1..] == s;
    }
  }

  /** Up to the first separator is the first part. */
  lemma {:induction false} SplitFirst(s: string, separator: char, rest: string)
    requires separator !in s
    ensures Split(s + [separator] + rest, separator) == [s] + Split(rest, separator)
  {
    var whole := s + [separator] + rest;
    if s == "" {
      assert whole[1..] == rest;
    } else {
      SplitFirst(s[1..], separator, rest);
      assert whole[1..] == s[1..] + [separator] + rest;
      assert [s[0]] + s[1..] == s;
    }
  }

  ghost function Join(parts: seq<string>, separator: char): string
    requires parts != []
  {
    if |parts| == 1 then parts[0] else parts[0] + [separator] + Join(parts[1..], separator)
  }

  /** Splitting undoes joining, and no part keeps a separator. */
  lemma {:induction false} SplitJoins(s: string, separator: char)
    ensures Join(Split(s, separator), separator) == s
    ensures forall part :: part in Split(s, separator) ==> separator !in part
  {
    if s != "" {
      var rest := Split(s[1..], separator);
      SplitJoins(s[1..], separator);
      assert s == [s[0]] + s[1..];
      if s[0] == separator {
        assert ([""] + rest)[1..] == rest;
      } else {
        var parts := [[s[0]] + rest[0]] + rest[1..];
        assert separator !in rest[0];
        assert parts[1..] == rest[1..];
      }
    }
  }

  // ----- white space and case -----

  predicate IsSpace(c: char)
  {
    var n := c as int;
    || 9 <= n <= 13 || n == 32 || n == 0x85 || n == 0xA0 || n == 0x1680
    || 0x2000 <= n <= 0x200A || n == 0x2028 || n == 0x2029 || n == 0x202F || n == 0x205F || n == 0x3000
  }

  function TrimLeft(s: string): string
  {
    if s != "" && IsSpace(s[0]) then TrimLeft(s[1..]) else s
  }

  function TrimRight(s: string): string
  {
    if s != "" && IsSpace(s[|s|-1]) then TrimRight(s[..|s|-1]) else s
  }

  function TrimSpace(s: string): string
  {
    TrimRight(TrimLeft(s))
  }

  /** Neither end is white space. */
  ghost predicate Trimmed(s: string)
  {
    s != "" ==> !IsSpace(s[0]) && !IsSpace(s[|s|-1])
  }

  lemma {:induction false} TrimLeftTrims(s: string)
    ensures var t := TrimLeft(s); t != "" ==> !IsSpace(t[0])
  {
    if s != "" && IsSpace(s[0]) {
      TrimLeftTrims(s[1..]);
    }
  }

  lemma {:induction false} TrimRightTrims(s: string)
    requires s != "" ==> !IsSpace(s[0])
    ensures Trimmed(TrimRight(s)) && (s != "" ==> TrimRight(s) != "")
  {
    if s != "" && IsSpace(s[|s|-1]) {
      TrimRightTrims(s[..|s|-1]);
    }
  }

  /** Trimming yields a trimmed text and leaves a trimmed text alone. */
  lemma TrimSpaceTrims(s: string)
    ensures Trimmed(TrimSpace(s))
    ensures Trimmed(s) ==> TrimSpace(s) == s
  {
    TrimLeftTrims(s);
    TrimRightTrims(TrimLeft(s));
  }

  /** The white space of Unicode, as the program's trimming takes it. */
  lemma IsSpaceIff(c: char)
    ensures IsSpace(c) <==>
              c in {'\t', '\n', '\U{000B}', '\U{000C}', '\r', ' ', '\U{0085}', '\U{00A0}', '\U{1680}', '\U{2000}',
                    '\U{2001}', '\U{2002}', '\U{2003}', '\U{2004}', '\U{2005}', '\U{2006}', '\U{2007}', '\U{2008}',
                    '\U{2009}', '\U{200A}', '\U{2028}', '\U{2029}', '\U{202F}', '\U{205F}', '\U{3000}'}
  {
  }

  lemma {:induction false} TrimLeftDrops(s: string) returns (i: nat)
    ensures i <= |s| && TrimLeft(s) == s[i..] && forall k :: 0 <= k < i ==> IsSpace(s[k])
  {
    i := 0;
    if s != "" && IsSpace(s[0]) {
      i := TrimLeftDrops(s[1..]);
      assert forall k :: 0 < k < i + 1 ==> s[k] == s[1..][k-1];
      i := i + 1;
    }
  }

  lemma {:induction false} TrimRightDrops(s: string) returns (j: nat)
    ensures j <= |s| && TrimRight(s) == s[..j] && forall k :: j <= k < |s| ==> IsSpace(s[k])
  {
    j := |s|;
    if s != "" && IsSpace(s[j-1]) {
      j := TrimRightDrops(s[..j-1]);
    }
  }

  /** What trimming leaves is the text between two places, and all that it drops is white space. */
  lemma TrimSpaceDrops(s: string) returns (i: nat, j: nat)
    ensures i <= j <= |s| && TrimSpace(s) == s[i..j]
    ensures forall k :: 0 <= k < i || j <= k < |s| ==> IsSpace(s[k])
  {
    i := TrimLeftDrops(s);
    var n := TrimRightDrops(TrimLeft(s));
    j := i + n;
    forall k | j <= k < |s| ensures IsSpace(s[k]) {
      assert s[k] == s[i..][k-i];
    }
  }

  /** Lower case, letter by letter. */
  function LowerChar(c: char): char
  {
    if 'A' <= c <= 'Z' then (c as int + 32) as char else c
  }

  /** Each of the 26 capitals becomes the letter of the same rank, and no other character changes. */
  lemma LowerCharIs(c: char)
    ensures 'A' <= c <= 'Z' ==> LowerChar(c) - 'a' == c - 'A'
    ensures !('A' <= c <= 'Z') ==> LowerChar(c) == c
  {
  }

  function ToLower(s: string): (t: string)
    ensures |t| == |s| && forall i :: 0 <= i < |s| ==> t[i] == LowerChar(s[i])
  {
    if s == "" then "" else [LowerChar(s[0])] + ToLower(s[1..])
  }

  predicate EqualFold(s: string, t: string)
  {
    ToLower(s) == ToLower(t)
  }

  /** Trimming adds no character. */
  lemma {:induction false} TrimKeepsChars(s: string)
    ensures forall c :: c in TrimSpace(s) ==> c in s
  {
    TrimLeftKeepsChars(s);
    TrimRightKeepsChars(TrimLeft(s));
  }

  lemma {:induction false} TrimLeftKeepsChars(s: string)
    ensures forall c :: c in TrimLeft(s) ==> c in s
  {
    if s != "" && IsSpace(s[0]) {
      TrimLeftKeepsChars(s[1..]);
    }
  }

  lemma {:induction false} TrimRightKeepsChars(s: string)
    ensures forall c :: c in TrimRight(s) ==> c in s
  {
    if s != "" && IsSpace(s[|s|-1]) {
      TrimRightKeepsChars(s[..|s|-1]);
    }
  }

  lemma LowerIsFixed(s: string)
    requires forall c :: c in s ==> LowerChar(c) == c
    ensures ToLower(s) == s
  {
  }

  lemma LowerKeepsSpace(c: char)
    ensures IsSpace(LowerChar(c)) <==> IsSpace(c)
  {
  }

  /** Putting a text in lower case neither makes it blank nor keeps it from being so. */
  lemma {:induction false} BlankWhenLowered(s: string)
    ensures TrimSpace(ToLower(s)) == "" <==> TrimSpace(s) == ""
  {
    Blank(s);
    Blank(ToLower(s));
    forall i | 0 <= i < |s| ensures IsSpace(ToLower(s)[i]) <==> IsSpace(s[i]) {
      LowerKeepsSpace(s[i]);
    }
  }

  lemma {:induction false} Blank(s: string)
    ensures TrimSpace(s) == "" <==> forall i :: 0 <= i < |s| ==> IsSpace(s[i])
  {
    if s != "" {
      if IsSpace(s[0]) {
        Blank(s[1..]);
        assert forall i :: 0 < i < |s| ==> s[i] == s[1..][i-1];
      } else {
        TrimRightTrims(s);
      }
    }
  }
}
