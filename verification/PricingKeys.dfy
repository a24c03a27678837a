/** The key normalizers of the pricing tables. Each leaves a normalized key alone. */
module PricingKeys {
  import opened Wrappers
  import opened Int64
  import opened Text

  const TIMES: char := '\U{D7}'

  // ----- image sizes and qualities -----

  function SizeChar(c: char): char
  {
    if c == TIMES || c == '*' then 'x' else c
  }

  /** The characters with both multiplication signs written `x` and without spaces. */
  function WithoutSpaces(s: string): string
  {
    if s == "" then "" else (if s[0] == ' ' then "" else [SizeChar(s[0])]) + WithoutSpaces(s[1..])
  }

  function NormalizeImageSizeKey(value: string): string
  {
    WithoutSpaces(TrimSpace(ToLower(value)))
  }

  function NormalizeImageQualityKey(value: string): string
  {
    TrimSpace(ToLower(value))
  }

  /** Spaces inside a size are dropped and multiplication signs become `x` ... */
  lemma WithoutSpacesOne(c: char)
    ensures WithoutSpaces([c]) == if c == ' ' then "" else if c == '*' || c == '\U{D7}' then "x" else [c]
  {
    assert [c][1..] == "" && WithoutSpaces("") == "";
  }

  lemma WithoutSpacesCons(c: char, rest: string)
    ensures WithoutSpaces([c] + rest) == WithoutSpaces([c]) + WithoutSpaces(rest)
  {
    assert ([c] + rest)[1..] == rest;
    WithoutSpacesOne(c);
  }

  lemma JoinsAssociate(x: string, y: string, z: string)
    ensures x + (y + z) == (x + y) + z
  {
  }

  /** ... character by character. */
  lemma {:induction false} WithoutSpacesJoins(s: string, t: string)
    ensures WithoutSpaces(s + t) == WithoutSpaces(s) + WithoutSpaces(t)
  {
    if s == "" {
      assert s + t == t;
    } else {
      var head, tail := [s[0]], s[1..];
      WithoutSpacesJoins(tail, t);
      WithoutSpacesCons(s[0], tail);
      WithoutSpacesCons(s[0], tail + t);
      JoinsAssociate(head, tail, t);
      JoinsAssociate(WithoutSpaces(head), WithoutSpaces(tail), WithoutSpaces(t));
      assert s == head + tail;
    }
  }

  ghost predicate SizeChars(s: string)
  {
    forall c :: c in s ==> LowerChar(c) == c && SizeChar(c) == c && c != ' '
  }

  lemma {:induction false} WithoutSpacesFixed(s: string)
    requires SizeChars(s)
    ensures WithoutSpaces(s) == s
  {
    if s != "" {
      WithoutSpacesFixed(s[1..]);
    }
  }

  lemma {:induction false} WithoutSpacesChars(s: string)
    requires forall c :: c in s ==> LowerChar(c) == c
    ensures SizeChars(WithoutSpaces(s))
  {
    if s != "" {
      WithoutSpacesChars(s[1..]);
    }
  }

  /** Dropping the spaces inside keeps the ends, which are not white space. */
  lemma {:induction false} WithoutSpacesEnds(s: string)
    ensures var t := WithoutSpaces(s);
            && (s != "" && !IsSpace(s[0]) ==> t != "" && t[0] == SizeChar(s[0]))
            && (s != "" && !IsSpace(s[|s|-1]) ==> t != "" && t[|t|-1] == SizeChar(s[|s|-1]))
  {
    if s != "" {
      WithoutSpacesEnds(s[1..]);
      assert WithoutSpaces("") == "";
    }
  }

  lemma LowerChars(s: string)
    ensures forall c :: c in ToLower(s) ==> LowerChar(c) == c
  {
    forall c | c in ToLower(s) ensures LowerChar(c) == c {
      var i :| 0 <= i < |ToLower(s)| && ToLower(s)[i] == c;
    }
  }

  lemma SizeKeyIsPlain(value: string)
    ensures SizeChars(NormalizeImageSizeKey(value)) && Trimmed(NormalizeImageSizeKey(value))
  {
    var trimmed := TrimSpace(ToLower(value));
    LowerChars(value);
    TrimKeepsChars(ToLower(value));
    TrimSpaceTrims(ToLower(value));
    WithoutSpacesChars(trimmed);
    WithoutSpacesEnds(trimmed);
  }

  lemma PlainKeyStays(key: string)
    requires SizeChars(key) && Trimmed(key)
    ensures NormalizeImageSizeKey(key) == key && TrimSpace(key) == key
  {
    LowerIsFixed(key);
    TrimSpaceTrims(key);
    WithoutSpacesFixed(key);
  }

  lemma SizeKeyIdempotent(value: string)
    ensures NormalizeImageSizeKey(NormalizeImageSizeKey(value)) == NormalizeImageSizeKey(value)
    ensures TrimSpace(NormalizeImageSizeKey(value)) == NormalizeImageSizeKey(value)
  {
    SizeKeyIsPlain(value);
    PlainKeyStays(NormalizeImageSizeKey(value));
  }

  lemma QualityKeyIdempotent(value: string)
    ensures NormalizeImageQualityKey(NormalizeImageQualityKey(value)) == NormalizeImageQualityKey(value)
    ensures TrimSpace(NormalizeImageQualityKey(value)) == NormalizeImageQualityKey(value)
  {
    var key := TrimSpace(ToLower(value));
    LowerChars(value);
    TrimKeepsChars(ToLower(value));
    LowerIsFixed(key);
    TrimSpaceTrims(ToLower(value));
    TrimSpaceTrims(key);
  }

  // ----- video resolutions -----

  predicate IsCross(c: char)
  {
    c == 'x' || c == '*' || c == TIMES
  }

  /** The maximal runs of characters that are not crosses. */
  function Fields(s: string): (parts: seq<string>)
    ensures forall p :: p in parts ==> p != ""
  {
    if s == "" then []
    else if IsCross(s[0]) then Fields(s[1..])
    else
      var rest := Fields(s[1..]);
      assert rest != [] ==> forall p :: p in rest[1..] ==> p in rest;
      if |s| == 1 || IsCross(s[1]) || rest == [] then [[s[0]]] + rest else [[s[0]] + rest[0]] + rest[1..]
  }

  predicate IsDigit(c: char)
  {
    '0' <= c <= '9'
  }

  function DigitsValue(s: string): nat
    requires forall c :: c in s ==> IsDigit(c)
  {
    if s == "" then 0
    else
      assert s[|s|-1] in s;
      assert IsDigit(s[|s|-1]);
      10 * DigitsValue(s[..|s|-1]) + (s[|s|-1] as int - '0' as int)
  }

  predicate AllDigits(s: string)
  {
    forall i :: 0 <= i < |s| ==> IsDigit(s[i])
  }

  /** A decimal integer with an optional sign that fits 64 bits. */
  function Atoi(s: string): Option<int>
  {
    var digits := if s != "" && (s[0] == '+' || s[0] == '-') then s[1..] else s;
    if digits == "" || !AllDigits(digits) then None
    else
      var n: int := DigitsValue(digits) * if s[0] == '-' then -1 else 1;
      if -MAX_INT64 - 1 <= n <= MAX_INT64 then Some(n) else None
  }

  datatype Size = Size(width: int, height: int)

  function SizeOf(parts: seq<string>): Option<Size>
  {
    if |parts| != 2 then None
    else
      var width, height := Atoi(parts[0]), Atoi(parts[1]);
      if width.None? || height.None? || width.value <= 0 || height.value <= 0 then None
      else Some(Size(width.value, height.value))
  }

  /** Two positive sizes are written wider first, anything else just trimmed and in lower case. */
  function NormalizeVideoResolutionKey(value: string): string
  {
    var trimmed := TrimSpace(ToLower(value));
    var size := SizeOf(Fields(trimmed));
    if size.None? then trimmed
    else if size.value.width < size.value.height then Decimal(size.value.height) + "x" + Decimal(size.value.width)
    else Decimal(size.value.width) + "x" + Decimal(size.value.height)
  }

  lemma {:induction false} DigitsOfDecimal(n: nat)
    ensures DigitsValue(DecimalNat(n)) == n
  {
    var s := DecimalNat(n);
    if n < 10 {
      assert s[..|s|-1] == "";
      assert DigitsValue(s) == 10 * DigitsValue(s[..|s|-1]) + (s[|s|-1] as int - '0' as int);
    } else {
      assert s[..|s|-1] == DecimalNat(n / 10);
      DigitsOfDecimal(n / 10);
    }
  }

  predicate FitsInt64(n: int)
  {
    -0x8000_0000_0000_0000 <= n <= 0x7FFF_FFFF_FFFF_FFFF
  }

  /** Digits are read as their value, provided it fits 64 bits ... */
  lemma AtoiOfDigits(s: string)
    requires s != "" && AllDigits(s) && forall c :: c in s ==> IsDigit(c)
    ensures Atoi(s) == if FitsInt64(DigitsValue(s)) then Some(DigitsValue(s)) else None
  {
    assert IsDigit(s[0]);
  }

  /** ... and a sign before them counts. */
  lemma AtoiOfSigned(sign: char, s: string)
    requires s != "" && AllDigits(s) && (forall c :: c in s ==> IsDigit(c)) && (sign == '+' || sign == '-')
    ensures var n := DigitsValue(s) * if sign == '-' then -1 else 1;
            Atoi([sign] + s) == if FitsInt64(n) then Some(n) else None
  {
    assert ([sign] + s)[1..] == s && ([sign] + s)[0] == sign;
  }

  /** An integer written out is read back exactly when it fits 64 bits. */
  lemma AtoiOfDecimal(n: int)
    ensures Atoi(Decimal(n)) == if FitsInt64(n) then Some(n) else None
  {
    var m := if n < 0 then -n else n;
    var s := DecimalNat(m);
    forall i | 0 <= i < |s| ensures IsDigit(s[i]) {
      assert s[i] in s;
    }
    DigitsOfDecimal(m);
    if n < 0 {
      AtoiOfSigned('-', s);
    } else {
      AtoiOfDigits(s);
    }
  }

  /** A text with anything but digits after its sign is not a number. */
  lemma AtoiOfOther(s: string, i: nat)
    requires i < |s| && !('0' <= s[i] <= '9') && (i == 0 ==> s[0] != '+' && s[0] != '-')
    ensures Atoi(s) == None
  {
    var signed := s[0] == '+' || s[0] == '-';
    var digits, k := if signed then s[1..] else s, if signed then i - 1 else i;
    assert digits[k] == s[i];
  }

  lemma {:induction false} FieldsOfRun(s: string)
    requires s != "" && forall c :: c in s ==> !IsCross(c)
    ensures Fields(s) == [s]
  {
    if |s| == 1 {
      assert s[1..] == "";
      assert s == [s[0]];
    } else {
      assert s[1] in s;
      FieldsOfRun(s[1..]);
      assert s == [s[0]] + s[1..];
    }
  }

  /** A cross separates the fields before it from those after it. */
  lemma {:induction false} FieldsOfPair(s: string, cross: char, t: string)
    requires cross == 'x' || cross == '*' || cross == '\U{D7}'
    ensures Fields(s + [cross] + t) == Fields(s) + Fields(t)
  {
    var all := s + [cross] + t;
    if s == "" {
      assert all[1..] == t;
    } else {
      assert all[0] == s[0] && all[1..] == s[1..] + [cross] + t;
      FieldsOfPair(s[1..], cross, t);
      FieldsStart(s[1..], cross, t);
    }
  }

  /** A text begins with a field exactly when it does not begin with a cross. */
  lemma FieldsStart(s: string, cross: char, t: string)
    requires IsCross(cross)
    ensures s == "" ==> Fields(s) == [] && (s + [cross] + t)[0] == cross
    ensures s != "" ==> (s + [cross] + t)[0] == s[0] && (!IsCross(s[0]) ==> Fields(s) != [])
  {
  }

  lemma DecimalIsPlain(n: nat)
    ensures forall c :: c in DecimalNat(n) ==> IsDigit(c) && !IsCross(c) && LowerChar(c) == c && !IsSpace(c)
  {
  }

  /** A text of two numbers and a cross is trimmed and in lower case. */
  lemma PairIsPlain(one: nat, other: nat, cross: char)
    requires cross == 'x' || cross == '*' || cross == '\U{D7}'
    ensures var key := DecimalNat(one) + [cross] + DecimalNat(other);
            ToLower(key) == key && TrimSpace(key) == key
  {
    var a, b := DecimalNat(one), DecimalNat(other);
    var key := a + [cross] + b;
    DecimalIsPlain(one);
    DecimalIsPlain(other);
    LowerIsFixed(key);
    assert key[0] == a[0] && a[0] in a;
    assert key[|key|-1] == b[|b|-1] && b[|b|-1] in b;
    TrimSpaceTrims(key);
  }

  lemma PairFields(one: nat, other: nat, cross: char)
    requires cross == 'x' || cross == '*' || cross == '\U{D7}'
    ensures Fields(DecimalNat(one) + [cross] + DecimalNat(other)) == [DecimalNat(one), DecimalNat(other)]
  {
    DecimalIsPlain(one);
    DecimalIsPlain(other);
    FieldsOfPair(DecimalNat(one), cross, DecimalNat(other));
    FieldsOfRun(DecimalNat(one));
    FieldsOfRun(DecimalNat(other));
  }

  /** Two positive sizes around any of the three crosses are normalized to the larger one first. */
  lemma PairIsSorted(one: int, other: int, cross: char)
    requires 0 < one <= MAX_INT64 && 0 < other <= MAX_INT64 && (cross == 'x' || cross == '*' || cross == '\U{D7}')
    ensures NormalizeVideoResolutionKey(Decimal(one) + [cross] + Decimal(other))
         == if one >= other then Decimal(one) + "x" + Decimal(other) else Decimal(other) + "x" + Decimal(one)
  {
    PairIsPlain(one, other, cross);
    PairFields(one, other, cross);
    AtoiOfDecimal(one);
    AtoiOfDecimal(other);
  }

  /** A resolution written wider first stays as it is. */
  lemma PairIsFixed(width: int, height: int)
    requires 0 < height <= width <= MAX_INT64
    ensures NormalizeVideoResolutionKey(Decimal(width) + "x" + Decimal(height))
              == Decimal(width) + "x" + Decimal(height)
  {
    PairIsSorted(width, height, 'x');
  }

  /** A resolution that does not consist of two positive numbers is only trimmed and put in lower case. */
  lemma OtherResolutionStays(value: string, parts: seq<string>)
    requires parts == Fields(TrimSpace(ToLower(value)))
    requires |parts| != 2 || Atoi(parts[0]) == None || Atoi(parts[1]) == None
             || Atoi(parts[0]).value <= 0 || Atoi(parts[1]).value <= 0
    ensures NormalizeVideoResolutionKey(value) == TrimSpace(ToLower(value))
  {
  }

  lemma SizeBound(parts: seq<string>)
    ensures SizeOf(parts).Some? ==> 0 < SizeOf(parts).value.width <= MAX_INT64
    ensures SizeOf(parts).Some? ==> 0 < SizeOf(parts).value.height <= MAX_INT64
  {
  }

  lemma VideoKeyIdempotent(value: string)
    ensures NormalizeVideoResolutionKey(NormalizeVideoResolutionKey(value)) == NormalizeVideoResolutionKey(value)
    ensures TrimSpace(NormalizeVideoResolutionKey(value)) == NormalizeVideoResolutionKey(value)
  {
    QualityKeyIdempotent(value);
    var trimmed := TrimSpace(ToLower(value));
    var size := SizeOf(Fields(trimmed));
    if size.Some? {
      SizeBound(Fields(trimmed));
      var width, height := size.value.width, size.value.height;
      var w, h := if width < height then height else width, if width < height then width else height;
      PairIsFixed(w, h);
      PairIsTrimmed(w, h);
    }
  }

  lemma PairIsTrimmed(width: int, height: int)
    requires 0 < height && 0 < width
    ensures TrimSpace(Decimal(width) + "x" + Decimal(height)) == Decimal(width) + "x" + Decimal(height)
  {
    PairIsPlain(width, height, 'x');
  }

  /** No key but a blank one is normalized to nothing. */
  lemma KeyBlankIff(k: string)
    ensures NormalizeImageSizeKey(k) == "" <==> TrimSpace(k) == ""
    ensures NormalizeImageQualityKey(k) == "" <==> TrimSpace(k) == ""
    ensures NormalizeVideoResolutionKey(k) == "" <==> TrimSpace(k) == ""
  {
    var trimmed := TrimSpace(ToLower(k));
    BlankWhenLowered(k);
    TrimSpaceTrims(ToLower(k));
    WithoutSpacesEnds(trimmed);
    assert WithoutSpaces("") == "" && Fields("") == [];
  }
}
