/** Spreadsheet column names: bijective base 26 over A to Z. */
module ColumnNames {

  function Letter(d: int): char
    requires 0 <= d < 26
  {
    'A' + d as char
  }

  /** The name of column n; nothing for a column that is not there. */
  function Name(n: int): string
    requires n >= -1
  {
    if n == -1 then "" else Name(n / 26 - 1) + [Letter(n % 26)]
  }

  method ColumnLetter(index: int) returns (letters: string)
    ensures letters == if index < 0 then "" else Name(index)
  {
    letters := "";
    if index < 0 {
      return;
    }
    var n := index;
    while n >= 0
      invariant n >= -1
      invariant Name(n) + letters == Name(index)
    {
      ghost var rest, done := Name(n / 26 - 1), letters;
      letters := [Letter(n % 26)] + letters;
      assert rest + [Letter(n % 26)] + done == rest + letters;
      n := n / 26 - 1;
    }
  }

  predicate IsName(w: string) {
    w != "" && forall i :: 0 <= i < |w| ==> 'A' <= w[i] <= 'Z'
  }

  /** The column that a name denotes. */
  function Column(w: string): int {
    if w == "" then -1 else (Column(w[..|w| - 1]) + 1) * 26 + (w[|w| - 1] as int - 'A' as int)
  }

  lemma {:induction false} ColumnOfName(n: int)
    requires n >= -1
    ensures Column(Name(n)) == n
    ensures n >= 0 ==> IsName(Name(n))
  {
    if n >= 0 {
      var w := Name(n);
      ColumnOfName(n / 26 - 1);
      assert w[..|w| - 1] == Name(n / 26 - 1);
    }
  }

  lemma {:induction false} NameOfColumn(w: string)
    requires IsName(w)
    ensures Column(w) >= 0 && Name(Column(w)) == w
  {
    var front, last := w[..|w| - 1], w[|w| - 1];
    if front != "" {
      NameOfColumn(front);
    }
    var n, d := Column(w), last as int - 'A' as int;
    assert n / 26 == Column(front) + 1 && n % 26 == d;
    assert w == front + [last];
  }

  /** Names and columns correspond one to one: a word is the name of column n
      exactly when it is a non-empty word over A to Z that denotes n. */
  lemma Bijective(n: nat, w: string)
    ensures Name(n) == w <==> IsName(w) && Column(w) == n
  {
    ColumnOfName(n);
    if IsName(w) {
      NameOfColumn(w);
    }
  }
}
