/** Order-preserving selections from a sequence. */
module Subsequence {

  /** `a` arises from `b` by leaving elements out. */
  predicate Sub<T(==)>(a: seq<T>, b: seq<T>)
    decreases |b|
  {
    if a == [] then true
    else if b == [] then false
    else
      || (a[|a| - 1] == b[|b| - 1] && Sub(a[..|a| - 1], b[..|b| - 1]))
      || Sub(a, b[..|b| - 1])
  }

  /** What that means position by position: distinct elements of `a` come from distinct positions
      of `b`, in the same order. */
  lemma {:induction false} Positions<T>(a: seq<T>, b: seq<T>) returns (at: seq<nat>)
    requires Sub(a, b)
    ensures |at| == |a|
    ensures forall i | 0 <= i < |a| :: at[i] < |b| && b[at[i]] == a[i]
    ensures forall i, j | 0 <= i < j < |a| :: at[i] < at[j]
    decreases |b|
  {
    if a == [] {
      at := [];
    } else if a[|a| - 1] == b[|b| - 1] && Sub(a[..|a| - 1], b[..|b| - 1]) {
      var front := Positions(a[..|a| - 1], b[..|b| - 1]);
      at := front + [|b| - 1];
    } else {
      at := Positions(a, b[..|b| - 1]);
    }
  }

  lemma {:induction false} SubSnoc<T>(a: seq<T>, b: seq<T>, x: T)
    requires Sub(a, b)
    ensures Sub(a + [x], b + [x]) && Sub(a, b + [x])
  {
    assert (a + [x])[..|a|] == a && (b + [x])[..|b|] == b;
  }

  lemma {:induction false} SubOfExtension<T>(a: seq<T>, b: seq<T>, c: seq<T>)
    requires Sub(a, b) && b <= c
    ensures Sub(a, c)
    decreases |c|
  {
    if b == c {
    } else {
      SubOfExtension(a, b, c[..|c| - 1]);
    }
  }

  lemma {:induction false} SubDrop<T>(front: seq<T>, x: T, back: seq<T>, b: seq<T>)
    requires Sub(front + [x] + back, b)
    ensures Sub(front + back, b)
    decreases |b|
  {
    var a := front + [x] + back;
    if a[|a| - 1] == b[|b| - 1] && Sub(a[..|a| - 1], b[..|b| - 1]) {
      if back == [] {
        assert a[..|a| - 1] == front == front + back;
        SubSnoc(front, b[..|b| - 1], b[|b| - 1]);
        assert b[..|b| - 1] + [b[|b| - 1]] == b;
      } else {
        var back' := back[..|back| - 1];
        assert a[..|a| - 1] == front + [x] + back';
        SubDrop(front, x, back', b[..|b| - 1]);
        assert (front + back)[..|front + back| - 1] == front + back';
      }
    } else {
      SubDrop(front, x, back, b[..|b| - 1]);
    }
  }

  lemma {:induction false} SubFront<T>(front: seq<T>, back: seq<T>, b: seq<T>)
    requires Sub(front + back, b)
    ensures Sub(front, b)
    decreases |back|
  {
    if back == [] {
      assert front + back == front;
    } else {
      var x := back[|back| - 1];
      assert front + back == (front + back[..|back| - 1]) + [x] + [];
      SubDrop(front + back[..|back| - 1], x, [], b);
      assert front + back[..|back| - 1] + [] == front + back[..|back| - 1];
      SubFront(front, back[..|back| - 1], b);
    }
  }

  /** `a` is read off `b` by a position that may stay but never goes back. */
  predicate Forward<T(==)>(a: seq<T>, b: seq<T>)
    decreases |a| + |b|
  {
    if a == [] then true
    else if b == [] then false
    else
      || (a[|a| - 1] == b[|b| - 1] && Forward(a[..|a| - 1], b))
      || Forward(a, b[..|b| - 1])
  }

  lemma {:induction false} ForwardPositions<T>(a: seq<T>, b: seq<T>) returns (at: seq<nat>)
    requires Forward(a, b)
    ensures |at| == |a|
    ensures forall i | 0 <= i < |a| :: at[i] < |b| && b[at[i]] == a[i]
    ensures forall i, j | 0 <= i < j < |a| :: at[i] <= at[j]
    decreases |a| + |b|
  {
    if a == [] {
      at := [];
    } else if a[|a| - 1] == b[|b| - 1] && Forward(a[..|a| - 1], b) {
      var front := ForwardPositions(a[..|a| - 1], b);
      at := front + [|b| - 1];
    } else {
      at := ForwardPositions(a, b[..|b| - 1]);
    }
  }

  lemma {:induction false} ForwardExtension<T>(a: seq<T>, b: seq<T>, c: seq<T>)
    requires Forward(a, b) && b <= c
    ensures Forward(a, c)
    decreases |c|
  {
    if b == c || a == [] {
    } else {
      ForwardExtension(a, b, c[..|c| - 1]);
    }
  }

  lemma {:induction false} ForwardSnoc<T>(a: seq<T>, b: seq<T>)
    requires b != [] && Forward(a, b)
    ensures Forward(a + [b[|b| - 1]], b)
  {
    assert (a + [b[|b| - 1]])[..|a|] == a;
  }
}
