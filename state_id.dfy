/**
 * The key of a Q-table cell: the decimal renderings of the quantized indices
 * joined by '#'. A parser for such keys shows that the key determines the
 * index tuple, so distinct cells never share a key.
 */
module StateId {

  const Separator: char := '#'

  predicate IsDigit(c: char)
  {
    '0' <= c <= '9'
  }

  function DigitChar(d: nat): (c: char)
    requires d < 10
    ensures IsDigit(c)
  {
    ('0' as int + d) as char
  }

  /** The numeric value of a digit; any other character reads as 0. */
  function DigitValue(c: char): (d: nat)
    ensures d < 10
  {
    if IsDigit(c) then (c as int - '0' as int) else 0
  }

  /** The decimal rendering of n, as Python's str(int(n)) for n >= 0. */
  function Decimal(n: nat): (s: string)
    ensures |s| >= 1
    ensures forall i :: 0 <= i < |s| ==> IsDigit(s[i])
  {
    if n < 10 then [DigitChar(n)] else Decimal(n / 10) + [DigitChar(n % 10)]
  }

  /** The number a string of digits stands for, most significant digit first. */
  function ParseDecimal(s: string): nat
  {
    if s == [] then 0 else ParseDecimal(s[..|s| - 1]) * 10 + DigitValue(s[|s| - 1])
  }

  lemma {:induction false} ParseDecimalOfDecimal(n: nat)
    ensures ParseDecimal(Decimal(n)) == n
  {
    var s := Decimal(n);
    if n >= 10 {
      assert s[..|s| - 1] == Decimal(n / 10);
      ParseDecimalOfDecimal(n / 10);
    }
  }

  /** The cell key: the indices in decimal joined by '#' (the empty tuple gives ""). */
  function Key(indices: seq<nat>): (s: string)
  {
    if indices == [] then ""
    else if |indices| == 1 then Decimal(indices[0])
    else Decimal(indices[0]) + [Separator] + Key(indices[1..])
  }

  /** The position of the first separator in s, or |s| when there is none. */
  function FirstSeparator(s: string): (i: nat)
    ensures i <= |s|
    ensures forall j :: 0 <= j < i ==> s[j] != Separator
    ensures i < |s| ==> s[i] == Separator
  {
    if s == [] then 0 else if s[0] == Separator then 0 else 1 + FirstSeparator(s[1..])
  }

  /** Reads a key back into its index tuple: split at '#', read each field as a number. */
  function ParseKey(s: string): seq<nat>
    decreases |s|
  {
    if s == [] then []
    else
      var i := FirstSeparator(s);
      if i == |s| then [ParseDecimal(s)]
      else [ParseDecimal(s[..i])] + ParseKey(s[i + 1..])
  }

  /** A key is never empty unless the tuple is, and its first field is the first index's decimal rendering. */
  lemma {:induction false} KeyShape(indices: seq<nat>)
    ensures (Key(indices) == []) == (indices == [])
    ensures |indices| >= 1 ==> FirstSeparator(Key(indices)) == |Decimal(indices[0])|
  {
    if |indices| >= 1 {
      var d := Decimal(indices[0]);
      var k := Key(indices);
      FirstSeparatorAt(k, |d|);
    }
  }

  /** The first separator is at i whenever s has none before i and one at i (or ends there). */
  lemma {:induction false} FirstSeparatorAt(s: string, i: nat)
    requires i <= |s|
    requires forall j :: 0 <= j < i ==> s[j] != Separator
    requires i < |s| ==> s[i] == Separator
    ensures FirstSeparator(s) == i
  {
    if s != [] && i > 0 {
      FirstSeparatorAt(s[1..], i - 1);
    }
  }

  /** Parsing a key gives back the indices it was made from. */
  lemma {:induction false} ParseKeyOfKey(indices: seq<nat>)
    ensures ParseKey(Key(indices)) == indices
  {
    if indices != [] {
      var d := Decimal(indices[0]);
      var k := Key(indices);
      KeyShape(indices);
      ParseDecimalOfDecimal(indices[0]);
      if |indices| == 1 {
        assert k == d;
      } else {
        var rest := Key(indices[1..]);
        assert k == d + [Separator] + rest;
        assert k[..|d|] == d;
        assert k[|d| + 1..] == rest;
        KeyShape(indices[1..]);
        ParseKeyOfKey(indices[1..]);
      }
    }
  }

  /** Equal index tuples give equal keys and distinct tuples give distinct keys. */
  lemma KeyInjective(a: seq<nat>, b: seq<nat>)
    ensures Key(a) == Key(b) <==> a == b
  {
    ParseKeyOfKey(a);
    ParseKeyOfKey(b);
  }
}
