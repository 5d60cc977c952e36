/** Sums of multisets, for counting what a pool of workers holds. */
module MultisetSums {

  function Sum<T>(ms: seq<multiset<T>>): multiset<T> {
    if ms == [] then multiset{} else Sum(ms[..|ms| - 1]) + ms[|ms| - 1]
  }

  lemma SumSnoc<T>(front: seq<multiset<T>>, m: multiset<T>)
    ensures Sum(front + [m]) == Sum(front) + m
  {
    assert (front + [m])[..|front|] == front;
  }

  lemma Exchange<T>(a: multiset<T>, b: multiset<T>, c: multiset<T>, a': multiset<T>, d: multiset<T>)
    requires a' + b == a + d
    ensures (a' + c) + b == (a + c) + d
  {
    assert (a' + c) + b == (a' + b) + c;
    assert (a + d) + c == (a + c) + d;
  }

  /** Replacing one summand changes the sum by the difference. */
  lemma {:induction false} SumUpdate<T>(ms: seq<multiset<T>>, i: nat, m: multiset<T>)
    requires i < |ms|
    ensures Sum(ms[i := m]) + ms[i] == Sum(ms) + m
  {
    hide Sum;
    var front, last := ms[..|ms| - 1], ms[|ms| - 1];
    SumSnoc(front, last);
    assert ms == front + [last];
    if i == |front| {
      SumSnoc(front, m);
      assert ms[i := m] == front + [m];
      assert (Sum(front) + m) + last == (Sum(front) + last) + m;
    } else {
      SumUpdate(front, i, m);
      SumSnoc(front[i := m], last);
      assert ms[i := m] == front[i := m] + [last];
      Exchange(Sum(front), ms[i], last, Sum(front[i := m]), m);
    }
  }

  lemma {:induction false} SumOfEmpty<T>(ms: seq<multiset<T>>)
    requires forall i :: 0 <= i < |ms| ==> ms[i] == multiset{}
    ensures Sum(ms) == multiset{}
  {
    if ms != [] { SumOfEmpty(ms[..|ms| - 1]); }
  }

  // ---- what a pool of workers holds ----

  /** The items in the hands of all workers; hand tells what one has. */
  function Held<W, T>(ws: seq<W>, hand: W -> seq<T>): multiset<T> {
    Sum(seq(|ws|, i requires 0 <= i < |ws| => multiset(hand(ws[i]))))
  }

  /** When one worker changes, what is held changes by what it puts down and takes. */
  lemma HeldUpdate<W, T>(ws: seq<W>, hand: W -> seq<T>, i: nat, w: W)
    requires i < |ws|
    ensures Held(ws[i := w], hand) + multiset(hand(ws[i])) == Held(ws, hand) + multiset(hand(w))
  {
    hide Sum;
    var hands := seq(|ws|, i requires 0 <= i < |ws| => multiset(hand(ws[i])));
    SumUpdate(hands, i, multiset(hand(w)));
    var us := ws[i := w];
    assert seq(|us|, i requires 0 <= i < |us| => multiset(hand(us[i]))) == hands[i := multiset(hand(w))];
  }

  lemma HeldNothing<W, T>(ws: seq<W>, hand: W -> seq<T>)
    requires forall i :: 0 <= i < |ws| ==> hand(ws[i]) == []
    ensures Held(ws, hand) == multiset{}
  {
    SumOfEmpty(seq(|ws|, i requires 0 <= i < |ws| => multiset(hand(ws[i]))));
  }
}
