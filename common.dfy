/** Value helpers shared by every component: an optional value (a JavaScript
    `undefined`/`null` or an SQL NULL) and the three array builtins the
    source leans on (`filter`, `map`, and a reversed read-out). */
module Common {

  datatype Option<+T> = None | Some(value: T) {
    /** `x || fallback` for a value whose only falsy form is absence. */
    function GetOr(fallback: T): T {
      match this
      case Some(v) => v
      case None => fallback
    }
  }

  /** `s.filter(keep)`: the elements that satisfy `keep`, in their original order. */
  function Filter<T>(s: seq<T>, keep: T -> bool): (r: seq<T>)
    ensures |r| <= |s|
    ensures forall i :: 0 <= i < |r| ==> r[i] in s && keep(r[i])
    ensures forall i :: 0 <= i < |s| && keep(s[i]) ==> s[i] in r
  {
    if s == [] then []
    else if keep(s[0]) then [s[0]] + Filter(s[1..], keep)
    else Filter(s[1..], keep)
  }

  /** Filtering distributes over concatenation: the kept elements keep their order. */
  lemma {:induction false} FilterConcat<T>(a: seq<T>, b: seq<T>, keep: T -> bool)
    ensures Filter(a + b, keep) == Filter(a, keep) + Filter(b, keep)
  {
    if a == [] {
      assert a + b == b;
    } else {
      assert (a + b)[1..] == a[1..] + b;
      FilterConcat(a[1..], b, keep);
    }
  }

  /** A filter that keeps everything is the identity. */
  lemma {:induction false} FilterKeepsAll<T>(s: seq<T>, keep: T -> bool)
    requires forall i :: 0 <= i < |s| ==> keep(s[i])
    ensures Filter(s, keep) == s
  {
    if s != [] {
      FilterKeepsAll(s[1..], keep);
    }
  }

  /** A filter that keeps nothing yields the empty sequence. */
  lemma {:induction false} FilterKeepsNone<T>(s: seq<T>, keep: T -> bool)
    requires forall i :: 0 <= i < |s| ==> !keep(s[i])
    ensures Filter(s, keep) == []
  {
    if s != [] {
      FilterKeepsNone(s[1..], keep);
    }
  }

  /** Two predicates that agree on every element filter alike. */
  lemma {:induction false} FilterCongruent<T>(s: seq<T>, p: T -> bool, q: T -> bool)
    requires forall i :: 0 <= i < |s| ==> p(s[i]) == q(s[i])
    ensures Filter(s, p) == Filter(s, q)
  {
    if s != [] {
      FilterCongruent(s[1..], p, q);
    }
  }

  /** A relation that holds between every element and each later one still
      holds after filtering: filtering keeps the relative order. */
  lemma {:induction false} FilterPairwise<T>(s: seq<T>, keep: T -> bool, rel: (T, T) -> bool)
    requires forall i, j :: 0 <= i < j < |s| ==> rel(s[i], s[j])
    ensures forall i, j :: 0 <= i < j < |Filter(s, keep)| ==> rel(Filter(s, keep)[i], Filter(s, keep)[j])
  {
    if s != [] {
      var tail := Filter(s[1..], keep);
      assert forall i, j :: 0 <= i < j < |s[1..]| ==> rel(s[1..][i], s[1..][j]) by {
        forall i, j | 0 <= i < j < |s[1..]| ensures rel(s[1..][i], s[1..][j]) {
          assert s[1..][i] == s[i + 1] && s[1..][j] == s[j + 1];
        }
      }
      FilterPairwise(s[1..], keep, rel);
      if keep(s[0]) {
        var r := [s[0]] + tail;
        forall j | 0 <= j < |tail| ensures rel(s[0], tail[j]) {
          var k :| 0 <= k < |s[1..]| && s[1..][k] == tail[j];
          assert s[k + 1] == tail[j];
        }
        forall i, j | 0 <= i < j < |r| ensures rel(r[i], r[j]) {
          if i == 0 {
            assert r[j] == tail[j - 1];
          } else {
            assert r[i] == tail[i - 1] && r[j] == tail[j - 1];
          }
        }
        assert Filter(s, keep) == r;
      }
    }
  }

  /** Appending an element related to every earlier one keeps a sequence pairwise related. */
  lemma AppendPairwise<T>(s: seq<T>, x: T, rel: (T, T) -> bool)
    requires forall i, j :: 0 <= i < j < |s| ==> rel(s[i], s[j])
    requires forall i :: 0 <= i < |s| ==> rel(s[i], x)
    ensures forall i, j :: 0 <= i < j < |s + [x]| ==> rel((s + [x])[i], (s + [x])[j])
  {
    forall i, j | 0 <= i < j < |s + [x]| ensures rel((s + [x])[i], (s + [x])[j]) {
      if j < |s| {
        assert (s + [x])[i] == s[i] && (s + [x])[j] == s[j];
      }
    }
  }

  /** `s.map(f)`. */
  function Map<T, U>(s: seq<T>, f: T -> U): (r: seq<U>)
    ensures |r| == |s|
    ensures forall i :: 0 <= i < |s| ==> r[i] == f(s[i])
  {
    seq(|s|, i requires 0 <= i < |s| => f(s[i]))
  }

  /** The elements of `s`, last first. */
  function Reverse<T>(s: seq<T>): (r: seq<T>)
    ensures |r| == |s|
    ensures forall i :: 0 <= i < |s| ==> r[i] == s[|s| - 1 - i]
  {
    if s == [] then [] else Reverse(s[1..]) + [s[0]]
  }
}
