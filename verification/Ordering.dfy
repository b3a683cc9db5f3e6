/** The iteration order of Rust's BTreeMap and BTreeSet: ascending in a total order. */
module Ordering {

  ghost predicate TotalOrder<T(!new)>(le: (T, T) -> bool) {
    && (forall x, y :: le(x, y) || le(y, x))
    && (forall x, y :: le(x, y) && le(y, x) ==> x == y)
    && (forall x, y, z :: le(x, y) && le(y, z) ==> le(x, z))
  }

  lemma {:induction false} LeastExists<T(!new)>(s: set<T>, le: (T, T) -> bool)
    requires s != {} && TotalOrder(le)
    ensures exists x :: x in s && forall y | y in s :: le(x, y)
  {
    var x :| x in s;
    var rest := s - {x};
    if rest == {} {
      assert s == {x};
    } else {
      LeastExists(rest, le);
      var m :| m in rest && forall y | y in rest :: le(m, y);
      var least := if le(x, m) then x else m;
      assert forall y | y in s :: y == x || y in rest;
      assert least in s && forall y | y in s :: le(least, y);
    }
  }

  /** The members of `s`, each once, in ascending order. */
  function Ascending<T(!new, ==)>(s: set<T>, le: (T, T) -> bool): (r: seq<T>)
    requires TotalOrder(le)
    ensures forall x :: x in r <==> x in s
    ensures forall i, j :: 0 <= i < j < |r| ==> le(r[i], r[j]) && r[i] != r[j]
  {
    if s == {} then [] else
      LeastExists(s, le);
      var x :| x in s && forall y | y in s :: le(x, y);
      [x] + Ascending(s - {x}, le)
  }

  /** Lexicographic order of sequences whose elements compare by an integer key. */
  predicate LexLe<T(==)>(key: T -> int, a: seq<T>, b: seq<T>) {
    a == [] || (b != [] && (key(a[0]) < key(b[0]) || (a[0] == b[0] && LexLe(key, a[1..], b[1..]))))
  }

  lemma {:induction false} LexTotal<T>(key: T -> int, a: seq<T>, b: seq<T>)
    requires forall x: T, y: T :: key(x) == key(y) ==> x == y
    ensures LexLe(key, a, b) || LexLe(key, b, a)
    ensures LexLe(key, a, b) && LexLe(key, b, a) ==> a == b
  {
    if a != [] && b != [] {
      LexTotal(key, a[1..], b[1..]);
      assert a == [a[0]] + a[1..] && b == [b[0]] + b[1..];
    }
  }

  lemma {:induction false} LexTransitive<T>(key: T -> int, a: seq<T>, b: seq<T>, c: seq<T>)
    requires LexLe(key, a, b) && LexLe(key, b, c)
    ensures LexLe(key, a, c)
  {
    if a != [] && b != [] && c != [] && a[0] == b[0] == c[0] {
      LexTransitive(key, a[1..], b[1..], c[1..]);
    }
  }

  /** Code-point order, which is also the byte order of the UTF-8 encodings. */
  predicate StringLe(a: string, b: string) {
    LexLe((c: char) => c as int, a, b)
  }

  lemma StringOrder()
    ensures TotalOrder(StringLe)
  {
    var key := (c: char) => c as int;
    forall a: string, b: string
      ensures (StringLe(a, b) || StringLe(b, a)) && (StringLe(a, b) && StringLe(b, a) ==> a == b)
    {
      LexTotal(key, a, b);
    }
    forall a: string, b: string, c: string | StringLe(a, b) && StringLe(b, c) ensures StringLe(a, c) {
      LexTransitive(key, a, b, c);
    }
  }

  function AscendingStrings(s: set<string>): (r: seq<string>)
    ensures forall x :: x in r <==> x in s
    ensures forall i, j :: 0 <= i < j < |r| ==> StringLe(r[i], r[j]) && r[i] != r[j]
  {
    StringOrder();
    Ascending(s, StringLe)
  }
}
