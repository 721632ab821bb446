/** Names that are built before they are hashed. */
module HashedNames {
  import opened FeatureHashing

  type Ordinal = n: int | 0 <= n < 0x1_0000

  /** An imported or exported function; the name is empty when it goes by its ordinal. */
  datatype Function = Function(name: seq<bv8>, ordinal: Ordinal)

  const MAX_NAME: nat := 10000
  const COLON: seq<bv8> := [58]
  const ORDINAL_PREFIX: seq<bv8> := [111, 114, 100, 105, 110, 97, 108]

  const DIGITS: seq<bv8> := [48, 49, 50, 51, 52, 53, 54, 55, 56, 57]

  /** std::to_string */
  function Decimal(n: nat): (s: seq<bv8>)
    ensures |s| <= n / 10 + 1 && 0 !in s
  {
    if n < 10 then [DIGITS[n]] else Decimal(n / 10) + [DIGITS[n % 10]]
  }

  /** The number that a string of decimal digits stands for. */
  function Value(s: seq<bv8>): int {
    if s == [] then 0 else 10 * Value(s[..|s| - 1]) + (s[|s| - 1] as int - 48)
  }

  predicate IsDigit(c: bv8) {
    48 <= c <= 57
  }

  lemma DigitValue(d: nat)
    requires d < 10
    ensures IsDigit(DIGITS[d]) && DIGITS[d] as int == 48 + d && (DIGITS[d] == 48 <==> d == 0)
  {}

  /** Reading the digits gives the number back. */
  lemma {:induction false} DecimalValue(n: nat)
    ensures Value(Decimal(n)) == n
  {
    DigitValue(n % 10);
    if n < 10 {
      assert [DIGITS[n]][..0] == [];
    } else {
      DecimalValue(n / 10);
      assert Decimal(n)[..|Decimal(n)| - 1] == Decimal(n / 10);
    }
  }

  /** Digits only, and no leading zero. */
  predicate IsNumeral(s: seq<bv8>) {
    s != [] && (forall i :: 0 <= i < |s| ==> IsDigit(s[i])) && (s[0] != 48 || |s| == 1)
  }

  lemma {:induction false} DecimalDigits(n: nat)
    ensures IsNumeral(Decimal(n)) && (Decimal(n)[0] == 48 <==> n == 0)
  {
    DigitValue(n % 10);
    if n < 10 {
    } else {
      DecimalDigits(n / 10);
    }
  }

  lemma DigitOf(c: bv8)
    requires IsDigit(c)
    ensures 0 <= c as int - 48 < 10 && DIGITS[c as int - 48] == c
  {
    assert c in [48 as bv8, 49, 50, 51, 52, 53, 54, 55, 56, 57];
  }

  lemma DecimalSnoc(v: nat, d: nat)
    requires v > 0 && d < 10
    ensures Decimal(10 * v + d) == Decimal(v) + [DIGITS[d]]
  {
    LastDigit(v, d);
  }

  lemma LastDigit(v: nat, d: nat)
    requires d < 10
    ensures (10 * v + d) / 10 == v && (10 * v + d) % 10 == d
  {}

  lemma ValueSnoc(s: seq<bv8>, c: bv8, d: nat)
    requires d < 10 && DIGITS[d] == c
    ensures Value(s + [c]) == 10 * Value(s) + d
  {
    DigitValue(d);
    assert (s + [c])[..|s|] == s;
  }

  lemma DigitNumber(c: bv8) returns (d: nat)
    requires IsDigit(c)
    ensures d < 10 && DIGITS[d] == c && (c != 48 ==> d > 0)
  {
    DigitOf(c);
    d := c as int - 48;
    DigitValue(d);
  }

  /** And every numeral is the one of the number that it stands for. */
  lemma {:induction false} DecimalUnique(s: seq<bv8>) returns (v: nat)
    requires IsNumeral(s)
    ensures Value(s) == v && Decimal(v) == s && (s[0] != 48 ==> v > 0)
  {
    var n := |s| - 1;
    var front, c := s[..n], s[n];
    assert s == front + [c];
    var d := DigitNumber(c);
    ValueSnoc(front, c, d);
    if n == 0 {
      v := d;
    } else {
      assert front[0] == s[0];
      var u := DecimalUnique(front);
      v := 10 * u + d;
      DecimalSnoc(u, d);
    }
  }

  function Cut(name: seq<bv8>): (s: seq<bv8>)
    ensures |s| <= MAX_NAME
  {
    if |name| <= MAX_NAME then name else name[..MAX_NAME]
  }

  /** The name of a function, cut to its maximal length and at a NUL, or made from its ordinal. */
  function PlainName(f: Function): (s: seq<bv8>)
    ensures |s| <= MAX_NAME
  {
    if f.name != [] then CString(Cut(f.name)) else ORDINAL_PREFIX + Decimal(f.ordinal)
  }

  /** A plain name is hashed whole. */
  lemma PlainNameWhole(f: Function)
    ensures CString(PlainName(f)) == PlainName(f)
  {
    CStringEnds(Cut(f.name));
    CStringWhole(PlainName(f));
  }

  /** A function without a name is called ordinal, followed by its number. */
  lemma OrdinalName(f: Function)
    requires f.name == []
    ensures var name := PlainName(f);
            && |name| > 7 && name[..7] == [111, 114, 100, 105, 110, 97, 108]
            && (forall i :: 7 <= i < |name| ==> 48 <= name[i] <= 57)
            && Value(name[7..]) == f.ordinal && (name[7] == 48 <==> f.ordinal == 0)
  {
    DecimalValue(f.ordinal);
    DecimalDigits(f.ordinal);
    assert PlainName(f)[7..] == Decimal(f.ordinal);
  }

  /** Any other name is the longest beginning of at most 10000 bytes without a NUL. */
  lemma LongestName(f: Function)
    requires f.name != []
    ensures var name := PlainName(f);
            && name <= f.name && 0 !in name && |name| <= 10000
            && (|name| == 10000 || |name| == |f.name| || f.name[|name|] == 0)
  {
    CStringEnds(Cut(f.name));
  }

  lemma DecimalWhole(n: nat)
    ensures CString(Decimal(n)) == Decimal(n)
  {
    CStringWhole(Decimal(n));
  }
}
