/**
 Fuzzy matching of spoken catalogue words: a single pass with two indices that
 accepts a candidate at most one edit away from the query.
 */
module CloseToken {
  import opened Prelude

  /** Fewest insertions, deletions and substitutions that turn `a` into `b`. */
  ghost function Levenshtein(a: string, b: string): nat
    decreases |a| + |b|
  {
    if a == [] then |b|
    else if b == [] then |a|
    else
      Min(Min(Levenshtein(a[1..], b) + 1, Levenshtein(a, b[1..]) + 1),
          Levenshtein(a[1..], b[1..]) + (if a[0] == b[0] then 0 else 1))
  }

  /** `text.includes(part)`. */
  predicate Contains(text: string, part: string) {
    exists i, j | 0 <= i <= j <= |text| :: text[i..j] == part
  }

  lemma {:induction false} ZeroMeansEqual(a: string, b: string)
    ensures Levenshtein(a, b) == 0 <==> a == b
    decreases |a| + |b|
  {
    if a != [] && b != [] {
      ZeroMeansEqual(a[1..], b[1..]);
      assert a == [a[0]] + a[1..] && b == [b[0]] + b[1..];
    }
  }

  /** Dropping the first character of one side costs at most one edit. */
  lemma {:induction false} DroppingOneCostsOne(a: string, b: string)
    ensures b != [] ==> Levenshtein(a, b[1..]) <= Levenshtein(a, b) + 1
    ensures a != [] ==> Levenshtein(a[1..], b) <= Levenshtein(a, b) + 1
    decreases |a| + |b|
  {
    if a != [] && b != [] {
      DroppingOneCostsOne(a[1..], b);
      DroppingOneCostsOne(a, b[1..]);
    }
  }

  lemma EqualHeadsAreFree(a: string, b: string)
    requires a != [] && b != [] && a[0] == b[0]
    ensures Levenshtein(a, b) == Levenshtein(a[1..], b[1..])
  {
    DroppingOneCostsOne(a[1..], b);
    DroppingOneCostsOne(a, b[1..]);
  }

  /**
   At the first mismatch the lengths alone say which of the three edits can
   still succeed, so skipping greedily loses nothing.
   */
  lemma FirstMismatchDecides(a: string, b: string)
    requires a != [] && b != [] && a[0] != b[0]
    ensures Levenshtein(a, b) <= 1
       <==> (if |a| > |b| then a[1..] == b else if |b| > |a| then a == b[1..] else a[1..] == b[1..])
  {
    ZeroMeansEqual(a[1..], b);
    ZeroMeansEqual(a, b[1..]);
    ZeroMeansEqual(a[1..], b[1..]);
  }

  lemma {:induction false} LengthsDifferAtMostByDistance(a: string, b: string)
    ensures |a| <= |b| + Levenshtein(a, b) && |b| <= |a| + Levenshtein(a, b)
    decreases |a| + |b|
  {
    if a != [] && b != [] {
      LengthsDifferAtMostByDistance(a[1..], b);
      LengthsDifferAtMostByDistance(a, b[1..]);
      LengthsDifferAtMostByDistance(a[1..], b[1..]);
    }
  }

  /** The two-index pass, on its own. */
  method WithinOneEdit(query: string, candidate: string) returns (close: bool)
    requires -1 <= |query| - |candidate| <= 1
    ensures close <==> Levenshtein(query, candidate) <= 1
  {
    var edits, left, right := 0, 0, 0;
    while left < |query| && right < |candidate|
      invariant 0 <= left <= |query| && 0 <= right <= |candidate| && 0 <= edits <= 1
      invariant edits == 0 ==> left == right
      invariant edits == 0 ==> Levenshtein(query, candidate) == Levenshtein(query[left..], candidate[right..])
      invariant edits == 1 ==> |query| - left == |candidate| - right
      invariant edits == 1 ==> (Levenshtein(query, candidate) <= 1 <==> query[left..] == candidate[right..])
      decreases |query| - left + |candidate| - right
    {
      ghost var a, b := query[left..], candidate[right..];
      assert a[1..] == query[left + 1..] && b[1..] == candidate[right + 1..];
      if query[left] == candidate[right] {
        if edits == 0 {
          EqualHeadsAreFree(a, b);
        }
        assert a == [a[0]] + a[1..] && b == [b[0]] + b[1..];
        left := left + 1;
        right := right + 1;
        continue;
      }
      edits := edits + 1;
      if edits > 1 {
        assert a[0] != b[0];
        return false;
      }
      FirstMismatchDecides(a, b);
      if |query| > |candidate| {
        left := left + 1;
      } else if |candidate| > |query| {
        right := right + 1;
      } else {
        left := left + 1;
        right := right + 1;
      }
    }
    return edits + (|query| - left) + (|candidate| - right) <= 1;
  }

  /**
   The whole test.  `related` stands for the fixed synonym table and the
   cross-script comparison, which accept a pair without counting edits.
   */
  method CloseToken(query: string, candidate: string, related: bool) returns (close: bool)
    ensures close <==> || query == candidate || related
                       || (|query| >= 4 && |candidate| >= 4
                           && (Contains(query, candidate) || Contains(candidate, query)))
                       || (|query| >= 4 && Levenshtein(query, candidate) <= 1)
  {
    ZeroMeansEqual(query, candidate);
    if query == candidate || related {
      return true;
    }
    if |query| >= 4 && |candidate| >= 4 {
      if Contains(query, candidate) || Contains(candidate, query) {
        return true;
      }
    }
    if |query| > |candidate| + 1 || |candidate| > |query| + 1 || |query| < 4 {
      LengthsDifferAtMostByDistance(query, candidate);
      return false;
    }
    close := WithinOneEdit(query, candidate);
  }
}
