/** The order in which a new record keeps its faces (App.tsx, the
    `faces.sort((a, b) => b.overallScore - a.overallScore)` call): highest
    overall score first, and, since `Array.prototype.sort` is stable, faces
    with equal scores in the order the scorer returned them. Scores are
    only compared, never combined. */
module Ranking {
  import opened Types

  /** No face is followed by a face with a higher overall score. */
  ghost predicate SortedByScore(faces: seq<FaceAnalysis>) {
    forall i, j :: 0 <= i < j < |faces| ==> faces[i].overallScore >= faces[j].overallScore
  }

  /** The faces whose overall score is `v`, in their order in `faces`. */
  function WithScore(faces: seq<FaceAnalysis>, v: real): seq<FaceAnalysis>
  {
    if faces == [] then []
    else (if faces[0].overallScore == v then [faces[0]] else []) + WithScore(faces[1..], v)
  }

  /** Every face of `faces` scores at most `v`. */
  ghost predicate AtMost(faces: seq<FaceAnalysis>, v: real) {
    forall i :: 0 <= i < |faces| ==> faces[i].overallScore <= v
  }

  /** Places `face` before the first face of `sorted` that does not score
      higher than it. */
  function Insert(face: FaceAnalysis, sorted: seq<FaceAnalysis>): seq<FaceAnalysis>
  {
    if sorted == [] || face.overallScore >= sorted[0].overallScore then [face] + sorted
    else [sorted[0]] + Insert(face, sorted[1..])
  }

  lemma SortedCons(face: FaceAnalysis, sorted: seq<FaceAnalysis>)
    requires SortedByScore(sorted) && AtMost(sorted, face.overallScore)
    ensures SortedByScore([face] + sorted)
  {
    var r := [face] + sorted;
    forall i, j | 0 <= i < j < |r|
      ensures r[i].overallScore >= r[j].overallScore
    {
      assert r[j] == sorted[j - 1];
      if i > 0 {
        assert r[i] == sorted[i - 1];
      }
    }
  }

  /** Inserting a face no higher than `v` among faces no higher than `v`. */
  lemma {:induction false} InsertBounded(face: FaceAnalysis, sorted: seq<FaceAnalysis>, v: real)
    requires AtMost(sorted, v) && face.overallScore <= v
    ensures AtMost(Insert(face, sorted), v)
  {
    if sorted != [] && face.overallScore < sorted[0].overallScore {
      var rest := sorted[1..];
      assert AtMost(rest, v) by {
        forall i | 0 <= i < |rest| ensures rest[i].overallScore <= v {
          assert rest[i] == sorted[i + 1];
        }
      }
      InsertBounded(face, rest, v);
      var r := [sorted[0]] + Insert(face, rest);
      forall i | 0 <= i < |r| ensures r[i].overallScore <= v {
        if i > 0 {
          assert r[i] == Insert(face, rest)[i - 1];
        }
      }
    }
  }

  /** Inserting into a sorted list keeps it sorted. */
  lemma {:induction false} InsertSorted(face: FaceAnalysis, sorted: seq<FaceAnalysis>)
    requires SortedByScore(sorted)
    ensures SortedByScore(Insert(face, sorted))
  {
    if sorted == [] || face.overallScore >= sorted[0].overallScore {
      assert AtMost(sorted, face.overallScore) by {
        forall i | 0 <= i < |sorted| ensures sorted[i].overallScore <= face.overallScore {
          if i > 0 {
            assert sorted[0].overallScore >= sorted[i].overallScore;
          }
        }
      }
      SortedCons(face, sorted);
    } else {
      var rest := sorted[1..];
      assert SortedByScore(rest) by {
        forall i, j | 0 <= i < j < |rest|
          ensures rest[i].overallScore >= rest[j].overallScore
        {
          assert rest[i] == sorted[i + 1] && rest[j] == sorted[j + 1];
        }
      }
      assert AtMost(rest, sorted[0].overallScore) by {
        forall i | 0 <= i < |rest| ensures rest[i].overallScore <= sorted[0].overallScore {
          assert rest[i] == sorted[i + 1];
        }
      }
      InsertSorted(face, rest);
      InsertBounded(face, rest, sorted[0].overallScore);
      SortedCons(sorted[0], Insert(face, rest));
    }
  }

  /** Inserting adds exactly the one face. */
  lemma {:induction false} InsertPermutes(face: FaceAnalysis, sorted: seq<FaceAnalysis>)
    ensures multiset(Insert(face, sorted)) == multiset(sorted) + multiset{face}
  {
    if sorted != [] && face.overallScore < sorted[0].overallScore {
      InsertPermutes(face, sorted[1..]);
      assert sorted == [sorted[0]] + sorted[1..];
    }
  }

  /** The face order after `faces.sort((a, b) => b.overallScore - a.overallScore)`. */
  function SortByScore(faces: seq<FaceAnalysis>): (r: seq<FaceAnalysis>)
    ensures SortedByScore(r)
    ensures multiset(r) == multiset(faces)
  {
    if faces == [] then []
    else
      var rest := SortByScore(faces[1..]);
      InsertSorted(faces[0], rest);
      InsertPermutes(faces[0], rest);
      assert faces == [faces[0]] + faces[1..];
      Insert(faces[0], rest)
  }

  lemma SortByScoreCons(faces: seq<FaceAnalysis>)
    requires faces != []
    ensures SortByScore(faces) == Insert(faces[0], SortByScore(faces[1..]))
  {
  }

  lemma WithScoreCons(face: FaceAnalysis, faces: seq<FaceAnalysis>, v: real)
    ensures WithScore([face] + faces, v)
         == (if face.overallScore == v then [face] else []) + WithScore(faces, v)
  {
    assert ([face] + faces)[1..] == faces;
  }

  /** Inserting a face adds it to the faces of its own score, in front. */
  lemma {:induction false} InsertWithScore(face: FaceAnalysis, sorted: seq<FaceAnalysis>, v: real)
    ensures WithScore(Insert(face, sorted), v)
         == (if face.overallScore == v then [face] else []) + WithScore(sorted, v)
  {
    if sorted == [] || face.overallScore >= sorted[0].overallScore {
      WithScoreCons(face, sorted, v);
    } else {
      var head, tail := sorted[0], sorted[1..];
      var rest := Insert(face, tail);
      assert Insert(face, sorted) == [head] + rest;
      WithScoreCons(head, rest, v);
      InsertWithScore(face, tail, v);
      WithScoreCons(head, tail, v);
      assert sorted == [head] + tail;
      if face.overallScore == v {
        assert head.overallScore != v;
      }
    }
  }

  /** The sort is stable: for every score, the faces with that score come
      out in the order they went in. */
  lemma {:induction false} SortIsStable(faces: seq<FaceAnalysis>, v: real)
    ensures WithScore(SortByScore(faces), v) == WithScore(faces, v)
  {
    if faces != [] {
      SortIsStable(faces[1..], v);
      InsertWithScore(faces[0], SortByScore(faces[1..]), v);
    }
  }

  /** Three faces scored 4.2, 9.1 and 7.0 are kept in the order 9.1, 7.0,
      4.2. The sort moves the faces with whatever rank the scorer gave
      them: ranks 1, 2, 3 in scorer order come out as 2, 3, 1. */
  lemma SortExample(a: FaceAnalysis, b: FaceAnalysis, c: FaceAnalysis)
    requires a.overallScore == 4.2 && b.overallScore == 9.1 && c.overallScore == 7.0
    requires a.rank == Some(1) && b.rank == Some(2) && c.rank == Some(3)
    ensures SortByScore([a, b, c]) == [b, c, a]
    ensures SortByScore([a, b, c])[0].rank == Some(2)
  {
    assert Insert(a, []) == [a];
    assert Insert(a, [c]) == [c, a] by {
      assert [c][1..] == [];
    }
    assert Insert(a, [b, c]) == [b, c, a] by {
      assert [b, c][1..] == [c];
    }
    assert SortByScore([c]) == [c] by {
      SortByScoreCons([c]);
      assert [c][1..] == [];
    }
    assert SortByScore([b, c]) == [b, c] by {
      SortByScoreCons([b, c]);
      assert [b, c][1..] == [c];
    }
    SortByScoreCons([a, b, c]);
    assert [a, b, c][1..] == [b, c];
  }
}
