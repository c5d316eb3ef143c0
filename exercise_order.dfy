/**
 * The order of `order(:language, :slug)`: by language, then by slug, each
 * compared character by character, and an insertion sort that realises it.
 */
module ExerciseOrder {
  import opened Store

  /** Lexicographic order on strings, by character code. */
  predicate StrLe(a: string, b: string)
  {
    a == [] || (b != [] && (a[0] < b[0] || (a[0] == b[0] && StrLe(a[1..], b[1..]))))
  }

  lemma {:induction false} StrLeTotal(a: string, b: string)
    ensures StrLe(a, b) || StrLe(b, a)
  {
    if a != [] && b != [] && a[0] == b[0] {
      StrLeTotal(a[1..], b[1..]);
    }
  }

  lemma {:induction false} StrLeAntisymmetric(a: string, b: string)
    requires StrLe(a, b) && StrLe(b, a)
    ensures a == b
  {
    if a != [] && b != [] {
      StrLeAntisymmetric(a[1..], b[1..]);
      assert a == [a[0]] + a[1..] && b == [b[0]] + b[1..];
    }
  }

  lemma {:induction false} StrLeTransitive(a: string, b: string, c: string)
    requires StrLe(a, b) && StrLe(b, c)
    ensures StrLe(a, c)
  {
    if a != [] && b != [] && c != [] && a[0] == b[0] && b[0] == c[0] {
      StrLeTransitive(a[1..], b[1..], c[1..]);
    }
  }

  /** (language, slug) pairs: the language decides, the slug breaks ties. */
  predicate KeyLe(l1: string, s1: string, l2: string, s2: string)
  {
    (StrLe(l1, l2) && l1 != l2) || (l1 == l2 && StrLe(s1, s2))
  }

  lemma KeyLeTotal(l1: string, s1: string, l2: string, s2: string)
    ensures KeyLe(l1, s1, l2, s2) || KeyLe(l2, s2, l1, s1)
  {
    StrLeTotal(l1, l2);
    StrLeTotal(s1, s2);
  }

  lemma KeyLeTransitive(l1: string, s1: string, l2: string, s2: string, l3: string, s3: string)
    requires KeyLe(l1, s1, l2, s2) && KeyLe(l2, s2, l3, s3)
    ensures KeyLe(l1, s1, l3, s3)
  {
    if l1 != l2 && l2 != l3 {
      StrLeTransitive(l1, l2, l3);
      if l1 == l3 { StrLeAntisymmetric(l1, l2); }
    } else if l1 == l2 && l2 == l3 {
      StrLeTransitive(s1, s2, s3);
    }
  }

  predicate ExerciseLe(a: UserExercise, b: UserExercise)
  {
    KeyLe(a.language, a.slug, b.language, b.slug)
  }

  predicate SubmissionLe(a: Submission, b: Submission)
  {
    KeyLe(a.language, a.slug, b.language, b.slug)
  }

  /** Every exercise precedes every later one. */
  predicate Sorted(xs: seq<UserExercise>)
  {
    forall i, j :: 0 <= i < j < |xs| ==> ExerciseLe(xs[i], xs[j])
  }

  function Insert(x: UserExercise, xs: seq<UserExercise>): (r: seq<UserExercise>)
    ensures multiset(r) == multiset(xs) + multiset{x}
  {
    if xs == [] then [x]
    else if ExerciseLe(x, xs[0]) then [x] + xs
    else
      assert xs == [xs[0]] + xs[1..];
      [xs[0]] + Insert(x, xs[1..])
  }

  /** The rows in (language, slug) order. */
  function Sort(xs: seq<UserExercise>): (r: seq<UserExercise>)
    ensures multiset(r) == multiset(xs)
  {
    if xs == [] then []
    else
      assert xs == [xs[0]] + xs[1..];
      Insert(xs[0], Sort(xs[1..]))
  }

  lemma {:induction false} InsertSorted(x: UserExercise, xs: seq<UserExercise>)
    requires Sorted(xs)
    ensures Sorted(Insert(x, xs))
  {
    if xs != [] {
      if ExerciseLe(x, xs[0]) {
        forall j | 0 < j < |xs| ensures ExerciseLe(x, xs[j]) {
          KeyLeTransitive(x.language, x.slug, xs[0].language, xs[0].slug, xs[j].language, xs[j].slug);
        }
      } else {
        var tail := xs[1..];
        assert Sorted(tail);
        InsertSorted(x, tail);
        var t := Insert(x, tail);
        KeyLeTotal(x.language, x.slug, xs[0].language, xs[0].slug);
        forall j | 0 <= j < |t| ensures ExerciseLe(xs[0], t[j]) {
          assert t[j] in multiset(t);
          if t[j] != x {
            assert t[j] in multiset(tail);
            var k :| 0 <= k < |tail| && tail[k] == t[j];
            assert xs[k + 1] == t[j];
          }
        }
      }
    }
  }

  /** Sort puts the rows in (language, slug) order. */
  lemma {:induction false} SortSorted(xs: seq<UserExercise>)
    ensures Sorted(Sort(xs))
  {
    if xs != [] {
      SortSorted(xs[1..]);
      InsertSorted(xs[0], Sort(xs[1..]));
    }
  }
}
