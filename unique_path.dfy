/** The unique-path resolver (`uniquePath`, src/index.ts): probes
    `name_2.ext`, `name_3.ext`, ... until a path is free. The file system is
    the finite set of paths that exist; a path is its parsed
    (directory, name, extension) triple. */
module UniquePaths {

  datatype Path = Path(dir: string, name: string, ext: string)

  function DigitChar(d: nat): (c: char)
    requires d < 10
    ensures '0' <= c <= '9'
  {
    ('0' as int + d) as char
  }

  function DigitValue(c: char): nat
  {
    if '0' <= c <= '9' then c as int - '0' as int else 0
  }

  /** The decimal numeral of `n`, as a template literal prints a number: no
      leading zero unless `n` is 0 itself. */
  function Decimal(n: nat): (r: string)
    ensures r != []
    ensures forall i :: 0 <= i < |r| ==> '0' <= r[i] <= '9'
    ensures r[0] == '0' ==> n == 0
  {
    if n < 10 then [DigitChar(n)] else Decimal(n / 10) + [DigitChar(n % 10)]
  }

  /** Reads a string of decimal digits back as a number. */
  function ParseDecimal(s: string): nat
  {
    if s == [] then 0 else ParseDecimal(s[..|s| - 1]) * 10 + DigitValue(s[|s| - 1])
  }

  lemma {:induction false} DecimalRoundTrip(n: nat)
    ensures ParseDecimal(Decimal(n)) == n
  {
    if n >= 10 {
      DecimalRoundTrip(n / 10);
      var s := Decimal(n / 10) + [DigitChar(n % 10)];
      assert s[..|s| - 1] == Decimal(n / 10);
    }
  }

  /** Different suffix numbers print differently. */
  lemma DecimalInjective(m: nat, n: nat)
    requires Decimal(m) == Decimal(n)
    ensures m == n
  {
    DecimalRoundTrip(m);
    DecimalRoundTrip(n);
  }

  /** `path.join(dir, `${name}_${idx}${ext}`)`. */
  function Candidate(p: Path, k: nat): (q: Path)
    ensures q.dir == p.dir && q.ext == p.ext && q.name == p.name + "_" + Decimal(k)
  {
    Path(p.dir, p.name + "_" + Decimal(k), p.ext)
  }

  /** Each suffix number gives a different probe path. */
  lemma CandidateInjective(p: Path, j: nat, k: nat)
    requires Candidate(p, j) == Candidate(p, k)
    ensures j == k
  {
    var n := |p.name| + 1;
    assert Decimal(j) == Candidate(p, j).name[n..];
    assert Decimal(k) == Candidate(p, k).name[n..];
    DecimalInjective(j, k);
  }

  /** The probe paths with suffixes `2 .. k-1`. */
  function CandidatesBelow(p: Path, k: nat): (r: set<Path>)
    ensures forall j :: 2 <= j < k ==> Candidate(p, j) in r
  {
    if k <= 2 then {} else CandidatesBelow(p, k - 1) + {Candidate(p, k - 1)}
  }

  lemma {:induction false} CandidatesBelowOnly(p: Path, k: nat, j: nat)
    requires k <= j
    ensures Candidate(p, j) !in CandidatesBelow(p, k)
  {
    if k > 2 {
      CandidatesBelowOnly(p, k - 1, j);
      if Candidate(p, k - 1) == Candidate(p, j) {
        CandidateInjective(p, k - 1, j);
      }
    }
  }

  lemma {:induction false} CandidatesBelowSize(p: Path, k: nat)
    requires 2 <= k
    ensures |CandidatesBelow(p, k)| == k - 2
  {
    if k > 2 {
      CandidatesBelowSize(p, k - 1);
      CandidatesBelowOnly(p, k - 1, k - 1);
    }
  }

  /** `k` is the least suffix from 2 on whose probe path is free. */
  ghost predicate IsLeastFree(existing: set<Path>, p: Path, k: nat)
  {
    2 <= k && Candidate(p, k) !in existing
    && forall j :: 2 <= j < k ==> Candidate(p, j) in existing
  }

  /** `uniquePath(basePath)`: the base path when it is free, otherwise the
      probe path with the least free suffix, which is never more than two
      above the number of existing paths. */
  method UniquePath(existing: set<Path>, base: Path) returns (r: Path)
    ensures r !in existing
    ensures base !in existing ==> r == base
    ensures base in existing ==>
      exists k: nat :: k <= |existing| + 2 && IsLeastFree(existing, base, k) && r == Candidate(base, k)
  {
    if base !in existing {
      return base;
    }
    var idx := 2;
    while true
      invariant 2 <= idx <= |existing| + 2
      invariant CandidatesBelow(base, idx) <= existing
      decreases |existing| + 2 - idx
    {
      var candidate := Candidate(base, idx);
      if candidate !in existing {
        assert IsLeastFree(existing, base, idx);
        return candidate;
      }
      CandidatesBelowSize(base, idx + 1);
      SubsetSize(CandidatesBelow(base, idx + 1), existing);
      idx := idx + 1;
    }
  }

  lemma SubsetSize<T>(a: set<T>, b: set<T>)
    requires a <= b
    ensures |a| <= |b|
  {
    assert b == a + (b - a);
  }

  /** Only one suffix is the least free one. */
  lemma LeastFreeUnique(existing: set<Path>, p: Path, j: nat, k: nat)
    requires IsLeastFree(existing, p, j) && IsLeastFree(existing, p, k)
    ensures j == k
  {
  }

  /** Creating the returned path and resolving again moves on to a larger
      suffix, and to exactly the next one when that one is free. */
  lemma NextAfterCreate(existing: set<Path>, p: Path, k: nat, m: nat)
    requires IsLeastFree(existing, p, k)
    requires IsLeastFree(existing + {Candidate(p, k)}, p, m)
    ensures k < m
    ensures Candidate(p, k + 1) !in existing ==> m == k + 1
  {
    if Candidate(p, k + 1) !in existing {
      if Candidate(p, k + 1) == Candidate(p, k) {
        CandidateInjective(p, k + 1, k);
      }
      assert IsLeastFree(existing + {Candidate(p, k)}, p, k + 1);
    }
  }

  /** With only `file.md` present the first probe `file_2.md` is taken; once
      that exists too, `file_3.md` is. */
  lemma SecondAndThird(dir: string)
    ensures var p := Path(dir, "file", ".md");
      && Candidate(p, 2) == Path(dir, "file_2", ".md")
      && Candidate(p, 3) == Path(dir, "file_3", ".md")
      && IsLeastFree({p}, p, 2)
      && IsLeastFree({p, Candidate(p, 2)}, p, 3)
  {
  }
}
