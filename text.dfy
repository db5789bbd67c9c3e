// Decimal text of numbers (Java's Integer.toString and Integer.parseInt on
// ASCII digits) and the comma-joining that StringBuilder code performs.

module Text {

  predicate IsDigit(c: char) {
    '0' <= c <= '9'
  }

  function DigitValue(c: char): (d: nat)
    requires IsDigit(c)
    ensures d < 10
  {
    (c as int) - ('0' as int)
  }

  function DigitChar(d: nat): (c: char)
    requires d < 10
    ensures IsDigit(c) && DigitValue(c) == d
  {
    ((('0' as int) + d) as char)
  }

  /** The decimal digits of n, without leading zeros. */
  function NatToString(n: nat): (s: string)
    decreases n
    ensures |s| >= 1
    ensures forall i :: 0 <= i < |s| ==> IsDigit(s[i])
    ensures s[0] == '0' ==> n == 0 && |s| == 1
  {
    if n < 10 then [DigitChar(n)] else NatToString(n / 10) + [DigitChar(n % 10)]
  }

  /** Integer.toString / string concatenation of an int. */
  function IntToString(n: int): string {
    if n < 0 then "-" + NatToString(-n) else NatToString(n)
  }

  /** The value of a string of decimal digits (Integer.parseInt on digits). */
  function DigitsValue(s: string): nat
    requires forall i :: 0 <= i < |s| ==> IsDigit(s[i])
  {
    if |s| == 0 then 0 else 10 * DigitsValue(s[..|s| - 1]) + DigitValue(s[|s| - 1])
  }

  /** Reading the digits back gives the number. */
  lemma {:induction false} DigitsOfNat(n: nat)
    decreases n
    ensures DigitsValue(NatToString(n)) == n
  {
    if n >= 10 {
      DigitsOfNat(n / 10);
      var s := NatToString(n);
      assert s[..|s| - 1] == NatToString(n / 10);
    }
  }

  /** One digit exactly below 10, two digits exactly from 10 to 99. */
  lemma {:induction false} NatToStringLength(n: nat)
    ensures |NatToString(n)| == 1 <==> n < 10
    ensures |NatToString(n)| == 2 <==> 10 <= n < 100
  {
    if n >= 10 {
      if n >= 100 {
        assert |NatToString(n / 10)| >= 2;
      } else {
        assert |NatToString(n / 10)| == 1;
      }
    }
  }

  function HexDigit(d: nat): (c: char)
    requires d < 16
  {
    if d < 10 then DigitChar(d) else (('a' as int) + d - 10) as char
  }

  /** String.format("%02x", b) of an unsigned byte value. */
  function Hex2(v: nat): (s: string)
    requires v < 0x100
    ensures |s| == 2
  {
    [HexDigit(v / 16), HexDigit(v % 16)]
  }

  /** StringBuilder logic: a separator goes before an item unless nothing was appended yet. */
  function AppendItem(sb: string, item: string): string {
    if |sb| != 0 then sb + "," + item else sb + item
  }

  function AppendAll(sb: string, items: seq<string>): string
    decreases |items|
  {
    if |items| == 0 then sb else AppendAll(AppendItem(sb, items[0]), items[1..])
  }

  /** The items separated by commas. */
  function Join(items: seq<string>): string {
    if |items| == 0 then ""
    else if |items| == 1 then items[0]
    else items[0] + "," + Join(items[1..])
  }

  /** Appending nonempty items from the start gives exactly the comma-joined list. */
  lemma {:induction false} AppendAllIsJoin(items: seq<string>)
    requires forall i :: 0 <= i < |items| ==> |items[i]| > 0
    ensures AppendAll("", items) == Join(items)
  {
    if |items| > 0 {
      assert AppendItem("", items[0]) == items[0];
      AppendAllFrom(items[0], items[1..]);
    }
  }

  lemma {:induction false} AppendAllFrom(sb: string, items: seq<string>)
    requires |sb| > 0
    ensures AppendAll(sb, items) == if |items| == 0 then sb else sb + "," + Join(items)
    decreases |items|
  {
    if |items| > 0 {
      var next := sb + "," + items[0];
      assert AppendItem(sb, items[0]) == next;
      AppendAllFrom(next, items[1..]);
      if |items| > 1 {
        assert Join(items) == items[0] + "," + Join(items[1..]);
        assert next + "," + Join(items[1..]) == sb + "," + (items[0] + "," + Join(items[1..]));
      }
    }
  }
}
