/** Outcome types and counting facts shared by the component models. */
module Basics {

  datatype Option<+T> = None | Some(value: T)

  datatype Result<+T> = Ok(value: T) | Err

  type Byte = b: int | 0 <= b < 256

  /** `s` holds no value twice. */
  ghost predicate Distinct<T>(s: seq<T>) {
    forall i, j :: 0 <= i < j < |s| ==> s[i] != s[j]
  }

  lemma FirstThenRest<T>(done: seq<T>, s: seq<T>)
    requires s != []
    ensures done + [s[0]] + s[1..] == done + s
  {
  }

  /** The integers from `low` up to but not including `high`. */
  ghost function Interval(low: int, high: int): (all: set<int>)
    ensures forall t :: t in all <==> low <= t < high
    ensures |all| == if low <= high then high - low else 0
    decreases high - low
  {
    if low >= high then {} else Interval(low, high - 1) + {high - 1}
  }

  lemma SomeElement(s: set<int>)
    requires s != {}
    ensures exists x :: x in s
  {
    assert (forall x :: x !in s) ==> s == {};
  }

  /** Keys that point one-to-one below `n` number at most `n`. */
  lemma {:induction false} PigeonHole(m: map<int, int>, n: nat)
    requires forall k :: k in m ==> 0 <= m[k] < n
    requires forall k, l :: k in m && l in m && m[k] == m[l] ==> k == l
    ensures |m| <= n
  {
    if n == 0 {
      forall k | k in m.Keys
        ensures false
      {
      }
      assert |m| == |m.Keys|;
    } else if exists k :: k in m && m[k] == n - 1 {
      var k :| k in m && m[k] == n - 1;
      var rest := m - {k};
      assert rest.Keys == m.Keys - {k};
      PigeonHole(rest, n - 1);
    } else {
      PigeonHole(m, n - 1);
    }
  }
}
