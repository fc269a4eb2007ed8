/** Finding a free slug for a new organization (apps/core/views.py, _handle_create). */
module OrgSlug {
  import opened Text

  /** The names tried: the base, then the base with 1, 2, ... */
  function Candidate(base: string, n: nat): string {
    if n == 0 then base else base + "-" + Decimal(n)
  }

  /** The n-th further candidate is the base, a hyphen, and the numeral of n. */
  lemma CandidateExactly(base: string, n: nat)
    ensures Candidate(base, 0) == base
    ensures n > 0 ==>
              && |Candidate(base, n)| > |base| + 1 && Candidate(base, n)[..|base|] == base
              && Candidate(base, n)[|base|] == '-' && Value(Candidate(base, n)[|base|+1..]) == n
              && Candidate(base, n)[|base|+1] != '0'
              && forall i | |base| < i < |Candidate(base, n)| :: '0' <= Candidate(base, n)[i] <= '9'
  {
    if n > 0 {
      assert Candidate(base, n)[|base|+1..] == Decimal(n);
      ValueOfDecimal(n);
      DecimalExactly(n);
      forall i | |base| < i < |Candidate(base, n)| ensures '0' <= Candidate(base, n)[i] <= '9' {
        assert Candidate(base, n)[i] == Decimal(n)[i - |base| - 1];
      }
    }
  }

  /** No two candidates are the same name. */
  lemma CandidatesDiffer(base: string, m: nat, n: nat)
    ensures Candidate(base, m) == Candidate(base, n) <==> m == n
  {
    if m > 0 && n > 0 {
      assert Candidate(base, m)[|base|+1..] == Decimal(m);
      assert Candidate(base, n)[|base|+1..] == Decimal(n);
      ValueOfDecimal(m);
      ValueOfDecimal(n);
    } else if m > 0 {
      assert |Candidate(base, m)| > |base|;
    } else if n > 0 {
      assert |Candidate(base, n)| > |base|;
    }
  }

  /** When the first n candidates are all taken, there are at least n slugs. */
  lemma {:induction false} TakenCandidates(base: string, n: nat, existing: set<string>)
    requires forall i | 0 <= i < n :: Candidate(base, i) in existing
    ensures n <= |existing|
  {
    if n > 0 {
      var last := Candidate(base, n - 1);
      forall i | 0 <= i < n - 1 ensures Candidate(base, i) in existing - {last} {
        CandidatesDiffer(base, i, n - 1);
      }
      TakenCandidates(base, n - 1, existing - {last});
    }
  }

  /** The first free candidate, found within one probe more than there are slugs. */
  method UniqueSlug(base: string, existing: set<string>) returns (slug: string, ghost probes: nat)
    ensures slug !in existing
    ensures 1 <= probes <= |existing| + 1 && slug == Candidate(base, probes - 1)
    ensures forall i | 0 <= i < probes - 1 :: Candidate(base, i) in existing
  {
    slug := base;
    var counter := 1;
    while slug in existing
      invariant 1 <= counter <= |existing| + 1 && slug == Candidate(base, counter - 1)
      invariant forall i | 0 <= i < counter - 1 :: Candidate(base, i) in existing
      decreases |existing| + 1 - counter
    {
      TakenCandidates(base, counter, existing);
      slug := base + "-" + Decimal(counter);
      counter := counter + 1;
    }
    probes := counter;
  }
}
