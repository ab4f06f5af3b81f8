/** Spreadsheet column names: A to Z, then AA, AB and so on. */
module ExcelColumn {
  import Decimal

  function Letter(d: int): char
    requires 0 <= d < 26
  {
    ('A' as int + d) as char
  }

  predicate IsLetter(c: char) {
    'A' <= c <= 'Z'
  }

  ghost predicate IsName(s: string) {
    forall i :: 0 <= i < |s| ==> IsLetter(s[i])
  }

  /** The name counted from 1; 0 has the empty name. */
  function Name(value: nat): string {
    if value == 0 then "" else Name((value - 1) / 26) + [Letter((value - 1) % 26)]
  }

  method ExcelColumnName(index: nat) returns (result: string)
    ensures result == Name(index + 1)
  {
    var value: nat := index + 1;
    assert Name(value) + "" == Name(value);
    result := "";
    while value > 0
      invariant Name(value) + result == Name(index + 1)
    {
      value := value - 1;
      assert Name(value + 1) == Name(value / 26) + [Letter(value % 26)];
      assert Name(value / 26) + ([Letter(value % 26)] + result) == Name(value / 26) + [Letter(value % 26)] + result;
      result := [Letter(value % 26)] + result;
      value := value / 26;
    }
  }

  // ---- a bijection ----

  /** The value of a name: base 26 with digits 1 to 26. */
  function Value(s: string): nat
    requires IsName(s)
  {
    if s == "" then 0 else 26 * Value(s[..|s| - 1]) + (s[|s| - 1] as int - 'A' as int) + 1
  }

  lemma {:induction false} ValueOfName(value: nat)
    ensures IsName(Name(value)) && (Name(value) == "" <==> value == 0) && Value(Name(value)) == value
  {
    if value > 0 {
      ValueOfName((value - 1) / 26);
      assert Name(value)[..|Name(value)| - 1] == Name((value - 1) / 26);
    }
  }

  lemma {:induction false} NameOfValue(s: string)
    requires IsName(s)
    ensures Name(Value(s)) == s
  {
    if s != "" {
      var init, d := s[..|s| - 1], s[|s| - 1] as int - 'A' as int;
      NameOfValue(init);
      assert (Value(s) - 1) / 26 == Value(init) && (Value(s) - 1) % 26 == d;
      assert s == init + [s[|s| - 1]];
    }
  }

  // ---- in order ----

  /** Shorter names first, names of one length alphabetically. */
  ghost predicate Before(a: string, b: string) {
    || |a| < |b|
    || (|a| == |b| && exists k :: 0 <= k < |a| && a[k] < b[k] && forall i :: 0 <= i < k ==> a[i] == b[i])
  }

  lemma {:induction false} NamesInOrder(v: nat, w: nat)
    requires v < w
    ensures Before(Name(v), Name(w))
    decreases w
  {
    if v > 0 {
      var p, q := (v - 1) / 26, (w - 1) / 26;
      var x, y := Letter((v - 1) % 26), Letter((w - 1) % 26);
      var a, b := Name(p), Name(q);
      assert Name(v) == a + [x] && Name(w) == b + [y];
      if p < q {
        NamesInOrder(p, q);
        if |a| == |b| {
          var k :| 0 <= k < |a| && a[k] < b[k] && forall i :: 0 <= i < k ==> a[i] == b[i];
          assert Name(v)[k] < Name(w)[k];
        }
      } else {
        assert p == q && Name(v)[|a|] < Name(w)[|a|];
      }
    } else {
      assert |Name(w)| > 0;
    }
  }

  // ---- cell references ----

  /** Row and column count from 0. */
  function Reference(column: nat, row: nat): string {
    Name(column + 1) + Decimal.Text(row + 1)
  }

  lemma LettersEndAtDigits(a: string, b: string, x: string, y: string)
    requires IsName(a) && IsName(b) && x != "" && y != "" && Decimal.AllDigits(x) && Decimal.AllDigits(y)
    requires a + x == b + y
    ensures a == b && x == y
  {
    var s := a + x;
    assert forall i :: 0 <= i < |s| ==> (IsLetter(s[i]) <==> i < |a|);
    assert s == b + y && forall i :: 0 <= i < |s| ==> (IsLetter(s[i]) <==> i < |b|);
    assert !IsLetter(s[|a|]) && !IsLetter(s[|b|]);
    assert a == (a + x)[..|a|] && b == (b + y)[..|b|];
    assert x == (a + x)[|a|..] && y == (b + y)[|b|..];
  }

  /** No two cells of a sheet share a reference. */
  lemma ReferencesDistinct(c1: nat, r1: nat, c2: nat, r2: nat)
    requires Reference(c1, r1) == Reference(c2, r2)
    ensures c1 == c2 && r1 == r2
  {
    hide Name, Value, Decimal.Text;
    ValueOfName(c1 + 1);
    ValueOfName(c2 + 1);
    LettersEndAtDigits(Name(c1 + 1), Name(c2 + 1), Decimal.Text(r1 + 1), Decimal.Text(r2 + 1));
    Decimal.TextInjective(r1 + 1, r2 + 1);
  }

  lemma BeforeIsStrict(a: string, b: string)
    requires Before(a, b)
    ensures !Before(b, a) && a != b
  {
  }

  lemma BeforeWithTail(a: string, b: string, tail: string)
    requires Before(a, b)
    ensures Before(a + tail, b + tail)
  {
    if |a| == |b| {
      var k :| 0 <= k < |a| && a[k] < b[k] && forall i :: 0 <= i < k ==> a[i] == b[i];
      var c, d := a + tail, b + tail;
      assert c[k] == a[k] && d[k] == b[k] && forall i :: 0 <= i < k ==> c[i] == d[i];
    }
  }

  /** Along a row the references increase exactly as the columns do. */
  lemma ReferencesInOrder(c1: nat, c2: nat, row: nat)
    ensures c1 < c2 <==> Before(Reference(c1, row), Reference(c2, row))
  {
    hide Name, Decimal.Text, Before;
    var tail := Decimal.Text(row + 1);
    if c1 < c2 {
      NamesInOrder(c1 + 1, c2 + 1);
      BeforeWithTail(Name(c1 + 1), Name(c2 + 1), tail);
    } else if c2 < c1 {
      NamesInOrder(c2 + 1, c1 + 1);
      BeforeWithTail(Name(c2 + 1), Name(c1 + 1), tail);
      BeforeIsStrict(Reference(c2, row), Reference(c1, row));
    } else {
      NotBeforeItself(Reference(c1, row));
    }
  }

  lemma NotBeforeItself(a: string)
    ensures !Before(a, a)
  {
  }
}
