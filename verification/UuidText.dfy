/** The text form of a UUID, 32 hexadecimal digits in groups of 8, 4, 4, 4 and 12, and its
    order: comparing two texts from the left is comparing the ids as numbers. */
module UuidText {
  import opened Common

  const HEX := "0123456789abcdef"
  const DIGITS := 32

  const ID_LIMIT := 0x1_0000_0000_0000_0000_0000_0000_0000_0000

  function Power16(k: nat): nat {
    if k == 0 then 1 else 16 * Power16(k - 1)
  }

  // The k-th digit; a dash stands before the 9th, 13th, 17th and 21st.
  function Digit(k: nat, x: nat): string
    requires x < 16
  {
    if k == 9 || k == 13 || k == 17 || k == 21 then ['-', HEX[x]] else [HEX[x]]
  }

  // The last k digits of id.
  function Digits(id: Uuid, k: nat): string
    decreases id, k
  {
    if k == 0 then "" else Digits(id / 16, k - 1) + Digit(k, id % 16)
  }

  // id::text, and ID.String() in a cursor.
  function Text(id: Uuid): string {
    Digits(id, DIGITS)
  }

  // Text comparison from the left, by code point.
  predicate TextLess(a: string, b: string) {
    if a == "" || b == "" then a == "" && b != ""
    else a[0] < b[0] || (a[0] == b[0] && TextLess(a[1..], b[1..]))
  }

  lemma {:induction false} TextLessTransitive(a: string, b: string, c: string)
    requires TextLess(a, b) && TextLess(b, c)
    ensures TextLess(a, c)
  {
    if a != "" && a[0] == b[0] == c[0] {
      TextLessTransitive(a[1..], b[1..], c[1..]);
    }
  }

  lemma {:induction false} TextLessTotal(a: string, b: string)
    ensures !TextLess(a, a)
    ensures a == b || TextLess(a, b) || TextLess(b, a)
  {
    if a != "" {
      TextLessTotal(a[1..], if b == "" then "" else b[1..]);
      assert a == [a[0]] + a[1..];
      assert b != "" ==> b == [b[0]] + b[1..];
    }
  }

  lemma {:induction false} TextLessConcat(a: string, b: string, u: string, v: string)
    requires |a| == |b|
    ensures TextLess(a + u, b + v) <==> TextLess(a, b) || (a == b && TextLess(u, v))
  {
    if a == "" {
      assert a + u == u && b + v == v;
    } else {
      TextLessConcat(a[1..], b[1..], u, v);
      assert (a + u)[1..] == a[1..] + u && (b + v)[1..] == b[1..] + v;
      assert a == [a[0]] + a[1..] && b == [b[0]] + b[1..];
    }
  }

  lemma DigitOrder(k: nat, x: nat, y: nat)
    requires x < 16 && y < 16
    ensures |Digit(k, x)| == |Digit(k, y)|
    ensures Digit(k, x) == Digit(k, y) <==> x == y
    ensures TextLess(Digit(k, x), Digit(k, y)) <==> x < y
  {
    HexOrder(x, y);
    var a, b := Digit(k, x), Digit(k, y);
    assert a[|a| - 1] == HEX[x] && b[|b| - 1] == HEX[y];
    assert x == y ==> a == b;
    assert TextLess([HEX[x]], [HEX[y]]) <==> x < y;
    if |a| == 2 {
      assert a[1..] == [HEX[x]] && b[1..] == [HEX[y]];
    }
  }

  lemma ConcatInjective(a: string, b: string, u: string, v: string)
    requires |a| == |b|
    ensures a + u == b + v <==> a == b && u == v
  {
    assert (a + u)[..|a|] == a && (b + v)[..|b|] == b;
    assert (a + u)[|a|..] == u && (b + v)[|b|..] == v;
  }

  lemma {:induction false} DigitsOrder(a: Uuid, b: Uuid, k: nat)
    requires a < Power16(k) && b < Power16(k)
    ensures |Digits(a, k)| == |Digits(b, k)|
    ensures Digits(a, k) == Digits(b, k) <==> a == b
    ensures TextLess(Digits(a, k), Digits(b, k)) <==> a < b
  {
    if k > 0 {
      DigitsOrder(a / 16, b / 16, k - 1);
      DigitOrder(k, a % 16, b % 16);
      ConcatInjective(Digits(a / 16, k - 1), Digits(b / 16, k - 1), Digit(k, a % 16), Digit(k, b % 16));
      TextLessConcat(Digits(a / 16, k - 1), Digits(b / 16, k - 1), Digit(k, a % 16), Digit(k, b % 16));
    }
  }

  lemma HexOrder(x: nat, y: nat)
    requires x < 16 && y < 16
    ensures HEX[x] < HEX[y] <==> x < y
    ensures HEX[x] == HEX[y] <==> x == y
  {
    assert HEX[x] == if x < 10 then '0' + x as char else 'a' + (x - 10) as char;
    assert HEX[y] == if y < 10 then '0' + y as char else 'a' + (y - 10) as char;
  }

  // Comparing the texts of two UUIDs is comparing the UUIDs.
  lemma TextOrder(a: Uuid, b: Uuid)
    requires a < ID_LIMIT && b < ID_LIMIT
    ensures TextLess(Text(a), Text(b)) <==> a < b
    ensures Text(a) == Text(b) <==> a == b
  {
    assert Power16(8) == 0x1_0000_0000;
    assert Power16(16) == 0x1_0000_0000_0000_0000;
    assert Power16(24) == 0x1_0000_0000_0000_0000_0000_0000;
    assert Power16(DIGITS) == ID_LIMIT;
    DigitsOrder(a, b, DIGITS);
  }
}
