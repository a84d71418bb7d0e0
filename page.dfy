/**
  The quiz page: it draws the questions for one attempt by shuffling a copy of the pool and
  taking the first `count`.  The shuffle (an `Array.prototype.sort` with a random comparator)
  is not computed here: its outcome is the argument `shuffled`, any rearrangement of the pool.
 */
module Page {
  import CivicsTest

  const QuestionCount := 10

  /** The end index `Array.prototype.slice(0, end)` uses on a sequence of length `len`. */
  function SliceEnd(len: nat, end: int): (k: nat)
    ensures k <= len
  {
    if end < 0 then (if len + end > 0 then len + end else 0)
    else if end < len then end else len
  }

  /** A prefix never holds an element more often than the whole sequence does. */
  lemma {:induction false} PrefixSubMultiset<T>(s: seq<T>, k: nat)
    requires k <= |s|
    ensures multiset(s[..k]) <= multiset(s)
  {
    assert s == s[..k] + s[k..];
  }

  /** Two positions holding the same element make it appear at least twice. */
  lemma {:induction false} RepeatedElement<T>(s: seq<T>, i: nat, j: nat)
    requires i < j < |s| && s[i] == s[j]
    ensures multiset(s)[s[i]] >= 2
  {
    assert s == s[..j] + s[j..];
    assert s[i] in s[..j];
    assert s[j..][0] == s[j];
  }

  /** `getRandomQuestions(questions, count)`, given the order `[...questions].sort(...)` produced. */
  function GetRandomQuestions<T>(questions: seq<T>, shuffled: seq<T>, count: int): (r: seq<T>)
    requires multiset(shuffled) == multiset(questions)
    ensures count >= 0 ==> |r| == if count < |questions| then count else |questions|
    ensures count < 0 ==> |r| == if |questions| + count > 0 then |questions| + count else 0
    ensures multiset(r) <= multiset(questions)
    ensures forall i :: 0 <= i < |r| ==> r[i] in questions
  {
    assert |shuffled| == |multiset(shuffled)| == |questions|;
    var r := shuffled[..SliceEnd(|shuffled|, count)];
    PrefixSubMultiset(shuffled, |r|);
    assert forall i :: 0 <= i < |r| ==> r[i] in multiset(questions) by {
      forall i | 0 <= i < |r| ensures r[i] in multiset(questions) {
        assert r[i] in multiset(r);
      }
    }
    r
  }

  predicate Distinct<T(==)>(s: seq<T>) {
    forall i, j :: 0 <= i < j < |s| ==> s[i] != s[j]
  }

  /** Drawn from a pool without repeats, the sample has no repeats: questions are drawn without replacement. */
  lemma SampleDistinct<T>(questions: seq<T>, shuffled: seq<T>, count: int)
    requires multiset(shuffled) == multiset(questions)
    requires Distinct(questions)
    ensures Distinct(GetRandomQuestions(questions, shuffled, count))
  {
    var r := GetRandomQuestions(questions, shuffled, count);
    forall i, j | 0 <= i < j < |r| ensures r[i] != r[j] {
      if r[i] == r[j] {
        RepeatedElement(r, i, j);
        var k :| 0 <= k < |questions| && questions[k] == r[i];
        DistinctOnce(questions, k);
        assert false;
      }
    }
  }

  /** In a sequence without repeats every element occurs once. */
  lemma {:induction false} DistinctOnce<T>(s: seq<T>, k: nat)
    requires Distinct(s) && k < |s|
    ensures multiset(s)[s[k]] == 1
  {
    var x := s[k];
    assert s == s[..k] + [x] + s[k + 1..];
    assert x !in s[..k] by {
      forall i | 0 <= i < k ensures s[..k][i] != x { assert s[..k][i] == s[i]; }
    }
    var tail := s[k + 1..];
    assert x !in tail by {
      forall y | y in tail ensures y != x {
        var i :| 0 <= i < |tail| && tail[i] == y;
        assert s[k + 1 + i] == y;
      }
    }
  }

  /** The page's call: ten questions for the quiz component. */
  function PageQuestions(pool: seq<CivicsTest.CivicsQuestion>, shuffled: seq<CivicsTest.CivicsQuestion>)
    : (questions: seq<CivicsTest.CivicsQuestion>)
    requires multiset(shuffled) == multiset(pool)
    ensures |pool| >= QuestionCount ==> |questions| == QuestionCount
    ensures |pool| < QuestionCount ==> |questions| == |pool|
    ensures multiset(questions) <= multiset(pool)
  {
    GetRandomQuestions(pool, shuffled, QuestionCount)
  }
}
