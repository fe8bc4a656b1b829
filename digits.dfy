/**
 * The panel's display of byte counts: the decimal digits of the number,
 * grouped in threes from the right with '.' between the groups.
 */
module Digits {

  predicate IsDigit(c: char)
  {
    '0' <= c <= '9'
  }

  function DigitChar(d: nat): (c: char)
    requires d < 10
    ensures IsDigit(c)
  {
    ['0', '1', '2', '3', '4', '5', '6', '7', '8', '9'][d]
  }

  /** `ToString()` of an unsigned number: its decimal digits without leading zeros. */
  function Decimal(n: nat): (s: seq<char>)
    ensures |s| > 0 && forall i :: 0 <= i < |s| ==> IsDigit(s[i])
  {
    if n < 10 then [DigitChar(n)] else Decimal(n / 10) + [DigitChar(n % 10)]
  }

  /** The digits in groups of three counted from the right, separated by '.'. */
  function Grouped(s: seq<char>): seq<char>
  {
    if |s| <= 3 then s else Grouped(s[..|s| - 3]) + ['.'] + s[|s| - 3..]
  }

  /** The string without its '.' characters. */
  function Undotted(s: seq<char>): seq<char>
  {
    if |s| == 0 then [] else Undotted(s[..|s| - 1]) + (if s[|s| - 1] == '.' then [] else [s[|s| - 1]])
  }

  /**
   * GetPoints: numbers of at most three digits are shown as they are;
   * otherwise the leading |digits| mod 3 digits (three when that is 0) come
   * first, then '.' and the next three digits, until the end.
   */
  method GetPoints(num: nat) returns (r: seq<char>)
    ensures r == Grouped(Decimal(num))
  {
    var str := Decimal(num);
    if |str| <= 3 {
      return str;
    }
    var firstPartLength := |str| % 3;
    if firstPartLength == 0 {
      firstPartLength := 3;
    }
    r := str[..firstPartLength];
    var i := firstPartLength;
    ghost var groups := (|str| - firstPartLength) / 3;
    assert |str| - firstPartLength == 3 * groups;
    while i < |str|
      invariant 0 < i <= |str| && |str| - i == 3 * groups
      invariant r == Grouped(str[..i])
      decreases groups
    {
      assert Grouped(str[..i + 3]) == r + ['.'] + str[i..i + 3] by {
        GroupedStep(str, i);
      }
      r := r + ['.'] + str[i..i + 3];
      i := i + 3;
      groups := groups - 1;
    }
    assert str[..i] == str;
  }

  /** One more group of three digits adds a separator and the group. */
  lemma GroupedStep(s: seq<char>, i: nat)
    requires 0 < i && i + 3 <= |s|
    ensures Grouped(s[..i + 3]) == Grouped(s[..i]) + ['.'] + s[i..i + 3]
  {
    assert s[..i + 3][..i] == s[..i];
    assert s[..i + 3][i..] == s[i..i + 3];
  }

  // ---------------------------------------------------------------------------
  // Properties

  /** Undotting distributes over concatenation. */
  lemma {:induction false} UndottedAppend(a: seq<char>, b: seq<char>)
    ensures Undotted(a + b) == Undotted(a) + Undotted(b)
    decreases |b|
  {
    if |b| == 0 {
      assert a + b == a;
    } else {
      assert (a + b)[..|a + b| - 1] == a + b[..|b| - 1];
      UndottedAppend(a, b[..|b| - 1]);
    }
  }

  /** A string without '.' is its own undotting. */
  lemma {:induction false} UndottedPlain(s: seq<char>)
    requires forall i :: 0 <= i < |s| ==> s[i] != '.'
    ensures Undotted(s) == s
    decreases |s|
  {
    if |s| > 0 {
      UndottedPlain(s[..|s| - 1]);
    }
  }

  /** Removing the separators from the grouped digits gives the digits back. */
  lemma {:induction false} UngroupGrouped(s: seq<char>)
    requires forall i :: 0 <= i < |s| ==> IsDigit(s[i])
    ensures Undotted(Grouped(s)) == s
    decreases |s|
  {
    if |s| <= 3 {
      UndottedPlain(s);
    } else {
      var head, tail := s[..|s| - 3], s[|s| - 3..];
      UngroupGrouped(head);
      UndottedJoin(Grouped(head), head, tail);
      assert s == head + tail;
    }
  }

  /** A separator between an undotted string and a group of digits disappears. */
  lemma UndottedJoin(g: seq<char>, head: seq<char>, tail: seq<char>)
    requires Undotted(g) == head
    requires forall i :: 0 <= i < |tail| ==> IsDigit(tail[i])
    ensures Undotted(g + ['.'] + tail) == head + tail
  {
    var dotted := g + ['.'];
    assert Undotted(dotted) == head by {
      assert Undotted(['.']) == [] by {
        assert ['.'][..0] == [];
      }
      UndottedAppend(g, ['.']);
    }
    assert Undotted(tail) == tail by {
      UndottedPlain(tail);
    }
    UndottedAppend(dotted, tail);
  }

  /** The grouped string has one '.' for every full group of three after the first group. */
  lemma {:induction false} GroupedLength(s: seq<char>)
    ensures |s| > 0 ==> |Grouped(s)| == |s| + (|s| - 1) / 3
    decreases |s|
  {
    if |s| > 3 {
      GroupedLength(s[..|s| - 3]);
    }
  }

  /** The display of a number is its digits once the separators are removed. */
  lemma PointsOfNumber(num: nat)
    ensures Undotted(Grouped(Decimal(num))) == Decimal(num)
    ensures |Grouped(Decimal(num))| == |Decimal(num)| + (|Decimal(num)| - 1) / 3
  {
    UngroupGrouped(Decimal(num));
    GroupedLength(Decimal(num));
  }
}
