/** Sequences without repetition, and sequences that hold the same elements. */
module Sequences {

  predicate Distinct<T(==)>(s: seq<T>)
  {
    forall i, j | 0 <= i < j < |s| :: s[i] != s[j]
  }

  lemma {:induction false} AtMostOnce<T>(s: seq<T>, x: T)
    requires Distinct(s)
    ensures multiset(s)[x] <= 1
  {
    if s != [] {
      AtMostOnce(s[1..], x);
      assert s == [s[0]] + s[1..];
      if s[0] == x {
        assert x !in s[1..];
      }
    }
  }

  /** A permutation of a sequence without repetition has none either. */
  lemma {:induction false} PermutedDistinct<T>(a: seq<T>, b: seq<T>)
    requires multiset(a) == multiset(b) && Distinct(a)
    ensures Distinct(b)
  {
    forall i, j | 0 <= i < j < |b| ensures b[i] != b[j] {
      if b[i] == b[j] {
        assert b == b[..i] + [b[i]] + b[i + 1..j] + [b[j]] + b[j + 1..];
        assert multiset(b)[b[i]] >= 2;
        AtMostOnce(a, b[i]);
      }
    }
  }

  /** As many elements, all of them found, and no repetition on one side: the other side is a permutation. */
  lemma {:induction false} Pigeonhole<T>(wanted: seq<T>, got: seq<T>)
    requires |wanted| == |got| && Distinct(wanted) && forall x | x in wanted :: x in got
    ensures multiset(wanted) == multiset(got)
  {
    if wanted != [] {
      var n := wanted[0];
      assert n in got;
      var i :| 0 <= i < |got| && got[i] == n;
      var rest := got[..i] + got[i + 1..];
      forall m | m in wanted[1..] ensures m in rest {
        assert m in got && m != n;
      }
      Pigeonhole(wanted[1..], rest);
      assert wanted == [n] + wanted[1..];
      assert got == got[..i] + [n] + got[i + 1..];
    }
  }

  function Reversed<T>(s: seq<T>): (r: seq<T>)
    ensures |r| == |s|
  {
    seq(|s|, i requires 0 <= i < |s| => s[|s| - 1 - i])
  }

  // ----- Orders of iteration -----

  function Elements<T>(order: seq<T>): set<T>
  {
    set x | x in order
  }

  predicate OrderOf<T(==)>(order: seq<T>, s: set<T>)
  {
    Distinct(order) && Elements(order) == s
  }

  lemma OrderMore<T>(order: seq<T>, s: set<T>, x: T)
    requires OrderOf(order, s) && x !in s
    ensures OrderOf(order + [x], s + {x})
  {
    assert forall i | 0 <= i < |order| :: order[i] in Elements(order);
  }

  lemma {:induction false} SomeOrder<T>(s: set<T>) returns (order: seq<T>)
    ensures OrderOf(order, s)
    decreases s
  {
    order := [];
    if s != {} {
      var x :| x in s;
      var rest := SomeOrder(s - {x});
      OrderMore(rest, s - {x}, x);
      order := rest + [x];
      assert s - {x} + {x} == s;
    }
  }

  lemma {:induction false} OrderFrom<T>(s: set<T>, first: T) returns (rest: seq<T>)
    requires first in s
    ensures OrderOf([first] + rest, s)
  {
    rest := SomeOrder(s - {first});
    assert forall i | 0 <= i < |rest| :: rest[i] in Elements(rest);
    assert Elements([first] + rest) == {first} + Elements(rest);
  }

  /** An order, begun with `order`, of all elements. */
  lemma {:induction false} Completed<T>(order: seq<T>, done: set<T>, todo: set<T>) returns (rest: seq<T>)
    requires OrderOf(order, done) && done !! todo
    ensures OrderOf(order + rest, done + todo)
    decreases todo
  {
    if todo == {} {
      rest := [];
      assert order + rest == order && done + todo == done;
    } else {
      var x :| x in todo;
      OrderMore(order, done, x);
      var more := Completed(order + [x], done + {x}, todo - {x});
      rest := [x] + more;
      assert order + rest == order + [x] + more && done + {x} + (todo - {x}) == done + todo;
    }
  }

  // ----- Elementwise images -----

  function Image<T, U>(s: seq<T>, f: T -> U): (r: seq<U>)
    ensures |r| == |s|
  {
    seq(|s|, i requires 0 <= i < |s| => f(s[i]))
  }

  lemma SameMembers<T>(a: seq<T>, b: seq<T>)
    requires multiset(a) == multiset(b)
    ensures forall x :: x in a <==> x in b
  {
    assert forall x :: x in a <==> x in multiset(a);
    assert forall x :: x in b <==> x in multiset(b);
  }

  lemma WithoutOne<T, U>(s: seq<T>, f: T -> U, i: nat, rest: seq<T>)
    requires i < |s| && rest == s[..i] + s[i + 1..]
    ensures multiset(s) == multiset{s[i]} + multiset(rest)
    ensures multiset(Image(s, f)) == multiset{f(s[i])} + multiset(Image(rest, f))
  {
    var a, b := s[..i], s[i + 1..];
    assert s == a + ([s[i]] + b);
    assert Image(s, f) == Image(a, f) + ([f(s[i])] + Image(b, f));
    assert Image(rest, f) == Image(a, f) + Image(b, f);
  }

  lemma TakeOff<T>(x: T, a: multiset<T>, b: multiset<T>)
    requires multiset{x} + a == multiset{x} + b
    ensures a == b
  {
    assert a == multiset{x} + a - multiset{x};
    assert b == multiset{x} + b - multiset{x};
  }

  /** The image of a permutation is a permutation of the image. */
  lemma {:induction false} ImagePermuted<T, U>(a: seq<T>, b: seq<T>, f: T -> U)
    requires multiset(a) == multiset(b)
    ensures multiset(Image(a, f)) == multiset(Image(b, f))
    decreases |a|
  {
    SameMembers(a, b);
    if a == [] {
      assert |multiset(b)| == 0;
    } else {
      assert a[0] in b;
      var i :| 0 <= i < |b| && b[i] == a[0];
      var rest := b[..i] + b[i + 1..];
      assert a[..0] + a[1..] == a[1..];
      WithoutOne(a, f, 0, a[1..]);
      WithoutOne(b, f, i, rest);
      TakeOff(a[0], multiset(a[1..]), multiset(rest));
      ImagePermuted(a[1..], rest, f);
    }
  }

  /** Every permutation of an image is the image of a permutation. */
  lemma {:induction false} PermutationBehind<T, U>(s: seq<T>, f: T -> U, image: seq<U>) returns (r: seq<T>)
    requires multiset(image) == multiset(Image(s, f))
    ensures multiset(r) == multiset(s) && Image(r, f) == image
    decreases |image|
  {
    assert |image| == |multiset(image)| == |multiset(Image(s, f))| == |s|;
    if image == [] {
      r := s;
    } else {
      SameMembers(image, Image(s, f));
      assert image[0] in Image(s, f);
      var i :| 0 <= i < |s| && Image(s, f)[i] == image[0];
      var rest := s[..i] + s[i + 1..];
      WithoutOne(s, f, i, rest);
      assert multiset(image) == multiset{image[0]} + multiset(image[1..]) by {
        assert image == [image[0]] + image[1..];
      }
      TakeOff(image[0], multiset(image[1..]), multiset(Image(rest, f)));
      var behind := PermutationBehind(rest, f, image[1..]);
      r := [s[i]] + behind;
      assert Image(r, f) == [f(s[i])] + Image(behind, f);
    }
  }
}
