/** Option and Result, and the total order on text that every `sorted(...)` in the server uses. */
module Basics {

  datatype Option<+T> = None | Some(value: T)

  datatype Result<+T, +E> = Ok(value: T) | Err(error: E)

  function Max(a: int, b: int): int {
    if a < b then b else a
  }

  function Min(a: int, b: int): int {
    if a < b then a else b
  }

  // The list with one element taken out.
  function Without<T>(q: seq<T>, i: nat): seq<T>
    requires i < |q|
  {
    q[..i] + q[i + 1..]
  }

  // The decimal text of a number.
  function Digits(n: nat): string {
    if n < 10 then [('0' as int + n) as char] else Digits(n / 10) + [('0' as int + n % 10) as char]
  }

  // Text is ordered by code point, the shorter of two texts first when one begins the other.
  predicate TextLeq(a: string, b: string) {
    a == [] || (b != [] && (a[0] < b[0] || (a[0] == b[0] && TextLeq(a[1..], b[1..]))))
  }

  lemma {:induction false} TextLeqTotal(a: string, b: string)
    ensures TextLeq(a, b) || TextLeq(b, a)
    ensures TextLeq(a, a)
    ensures TextLeq(a, b) && TextLeq(b, a) ==> a == b
  {
    if a != [] {
      TextLeqTotal(a[1..], a[1..]);
    }
    if a != [] && b != [] {
      TextLeqTotal(a[1..], b[1..]);
      assert a == [a[0]] + a[1..] && b == [b[0]] + b[1..];
    }
  }

  lemma {:induction false} TextLeqTransitive(a: string, b: string, c: string)
    requires TextLeq(a, b) && TextLeq(b, c)
    ensures TextLeq(a, c)
  {
    if a != [] && a[0] == b[0] == c[0] {
      TextLeqTransitive(a[1..], b[1..], c[1..]);
    }
  }

  lemma {:induction false} LeastTextExists(s: set<string>) returns (least: string)
    requires s != {}
    ensures least in s && forall y :: y in s ==> TextLeq(least, y)
  {
    var x :| x in s;
    TextLeqTotal(x, x);
    if s == {x} {
      least := x;
    } else {
      var rest := s - {x};
      var candidate := LeastTextExists(rest);
      TextLeqTotal(x, candidate);
      least := if TextLeq(x, candidate) then x else candidate;
      forall y | y in s ensures TextLeq(least, y) {
        if y != x && least == x {
          TextLeqTransitive(x, candidate, y);
        }
      }
    }
  }

  // sorted(s): the elements of s, each once, in text order.
  function SortedTexts(s: set<string>): (q: seq<string>)
    ensures forall x :: x in q <==> x in s
    ensures forall i, j :: 0 <= i < j < |q| ==> q[i] != q[j]
    decreases |s|
  {
    if s == {} then []
    else
      assert exists x :: x in s && forall y :: y in s ==> TextLeq(x, y) by {
        var least := LeastTextExists(s);
      }
      assert forall x, y :: x in s && y in s && TextLeq(x, y) && TextLeq(y, x) ==> x == y by {
        forall x, y | x in s && y in s && TextLeq(x, y) && TextLeq(y, x) ensures x == y {
          TextLeqTotal(x, y);
        }
      }
      var x :| x in s && forall y :: y in s ==> TextLeq(x, y);
      [x] + SortedTexts(s - {x})
  }
}
