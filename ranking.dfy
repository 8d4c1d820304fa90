/** The final step of forward chaining: `results.sort((a, b) => b.confidence - a.confidence)`.
    The built-in sort is stable, so it is specified here by a stable insertion sort on
    confidence, highest first. */
module Ranking {
  import opened Types

  /** Confidences never increase along `rs`. */
  predicate Ranked(rs: seq<DiagnosticResult>)
  {
    forall i, j :: 0 <= i < j < |rs| ==> rs[i].confidence >= rs[j].confidence
  }

  /** Inserts `x` into a ranked list after every result whose confidence is at least x's. */
  function Insert(x: DiagnosticResult, rs: seq<DiagnosticResult>): (r: seq<DiagnosticResult>)
    ensures multiset(r) == multiset(rs) + multiset{x}
    ensures |r| == |rs| + 1
  {
    if rs == [] then [x]
    else if rs[0].confidence >= x.confidence then
      assert rs == [rs[0]] + rs[1..];
      [rs[0]] + Insert(x, rs[1..])
    else
      [x] + rs
  }

  /** No confidence in `rs` exceeds `c`. */
  predicate AllAtMost(rs: seq<DiagnosticResult>, c: int)
  {
    forall i :: 0 <= i < |rs| ==> rs[i].confidence <= c
  }

  /** A ranked list stays ranked when a result at least as confident as all of it is put in front. */
  lemma RankedCons(x: DiagnosticResult, rs: seq<DiagnosticResult>)
    requires Ranked(rs) && AllAtMost(rs, x.confidence)
    ensures Ranked([x] + rs)
  {
    var r := [x] + rs;
    forall i, j | 0 <= i < j < |r| ensures r[i].confidence >= r[j].confidence {
      assert r[j] == rs[j - 1];
      if i > 0 {
        assert r[i] == rs[i - 1];
      }
    }
  }

  lemma {:induction false} InsertAtMost(x: DiagnosticResult, rs: seq<DiagnosticResult>, c: int)
    requires AllAtMost(rs, c) && x.confidence <= c
    ensures AllAtMost(Insert(x, rs), c)
  {
    var r := Insert(x, rs);
    if rs == [] {
      assert r == [x];
    } else if rs[0].confidence >= x.confidence {
      var tail := Insert(x, rs[1..]);
      InsertAtMost(x, rs[1..], c) by {
        forall i | 0 <= i < |rs[1..]| ensures rs[1..][i].confidence <= c {
          assert rs[1..][i] == rs[i + 1];
        }
      }
      assert r == [rs[0]] + tail;
      forall i | 0 <= i < |r| ensures r[i].confidence <= c {
        if i > 0 {
          assert r[i] == tail[i - 1];
        }
      }
    } else {
      assert r == [x] + rs;
      forall i | 0 <= i < |r| ensures r[i].confidence <= c {
        if i > 0 {
          assert r[i] == rs[i - 1];
        }
      }
    }
  }

  /** Inserting into a ranked list gives a ranked list. */
  lemma {:induction false} InsertRanked(x: DiagnosticResult, rs: seq<DiagnosticResult>)
    requires Ranked(rs)
    ensures Ranked(Insert(x, rs))
  {
    if rs == [] {
      assert Insert(x, rs) == [x];
    } else {
      assert AllAtMost(rs[1..], rs[0].confidence) by {
        forall i | 0 <= i < |rs[1..]| ensures rs[1..][i].confidence <= rs[0].confidence {
          assert rs[1..][i] == rs[i + 1];
        }
      }
      if rs[0].confidence >= x.confidence {
        assert Ranked(rs[1..]) by {
          forall i, j | 0 <= i < j < |rs[1..]| ensures rs[1..][i].confidence >= rs[1..][j].confidence {
            assert rs[1..][i] == rs[i + 1] && rs[1..][j] == rs[j + 1];
          }
        }
        InsertRanked(x, rs[1..]);
        InsertAtMost(x, rs[1..], rs[0].confidence);
        RankedCons(rs[0], Insert(x, rs[1..]));
      } else {
        assert AllAtMost(rs, x.confidence) by {
          forall i | 0 <= i < |rs| ensures rs[i].confidence <= x.confidence {
            if i > 0 {
              assert rs[1..][i - 1] == rs[i];
            }
          }
        }
        RankedCons(x, rs);
      }
    }
  }

  /** The results sorted by confidence, highest first, ties in their original order. */
  function Rank(rs: seq<DiagnosticResult>): (r: seq<DiagnosticResult>)
    ensures Ranked(r)
    ensures multiset(r) == multiset(rs)
    ensures |r| == |rs|
  {
    if rs == [] then []
    else
      assert rs == rs[..|rs| - 1] + [rs[|rs| - 1]];
      InsertRanked(rs[|rs| - 1], Rank(rs[..|rs| - 1]));
      Insert(rs[|rs| - 1], Rank(rs[..|rs| - 1]))
  }

  /** The results of `rs` whose confidence is `c`, in list order. */
  function WithConfidence(rs: seq<DiagnosticResult>, c: int): seq<DiagnosticResult>
  {
    if rs == [] then []
    else (if rs[0].confidence == c then [rs[0]] else []) + WithConfidence(rs[1..], c)
  }

  lemma {:induction false} WithConfidenceAppend(a: seq<DiagnosticResult>, b: seq<DiagnosticResult>, c: int)
    ensures WithConfidence(a + b, c) == WithConfidence(a, c) + WithConfidence(b, c)
  {
    if a != [] {
      assert (a + b)[1..] == a[1..] + b;
      assert (a + b)[0] == a[0];
      WithConfidenceAppend(a[1..], b, c);
    } else {
      assert a + b == b;
    }
  }

  /** No result of a ranked list whose head is below `c` has confidence `c`. */
  lemma {:induction false} WithConfidenceBelow(rs: seq<DiagnosticResult>, c: int)
    requires Ranked(rs) && rs != [] && rs[0].confidence < c
    ensures WithConfidence(rs, c) == []
  {
    if |rs| > 1 {
      WithConfidenceBelow(rs[1..], c);
    }
  }

  /** Inserting keeps, for every confidence value, the relative order of the results. */
  lemma {:induction false} InsertStable(x: DiagnosticResult, rs: seq<DiagnosticResult>, c: int)
    requires Ranked(rs)
    ensures WithConfidence(Insert(x, rs), c) == WithConfidence(rs, c) + WithConfidence([x], c)
  {
    if rs == [] {
    } else if rs[0].confidence >= x.confidence {
      InsertStable(x, rs[1..], c);
      assert Insert(x, rs)[1..] == Insert(x, rs[1..]);
    } else {
      if x.confidence == c {
        WithConfidenceBelow(rs, c);
      }
      assert WithConfidence([x] + rs, c) == WithConfidence([x], c) + WithConfidence(rs, c) by {
        WithConfidenceAppend([x], rs, c);
      }
    }
  }

  /** The ranking is stable: results of equal confidence keep their original relative order. */
  lemma {:induction false} RankStable(rs: seq<DiagnosticResult>, c: int)
    ensures WithConfidence(Rank(rs), c) == WithConfidence(rs, c)
  {
    if rs != [] {
      var init, last := rs[..|rs| - 1], rs[|rs| - 1];
      assert rs == init + [last];
      assert Rank(rs) == Insert(last, Rank(init));
      RankStable(init, c);
      InsertStable(last, Rank(init), c);
      WithConfidenceAppend(init, [last], c);
    }
  }
}
