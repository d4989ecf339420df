/** The output file name: derived from the input name, the algorithm and its
    magnification, then disambiguated with a "(k)" counter so that no earlier
    output is overwritten. */
module OutputName {
  import opened Decimal
  import opened Paths

  /** `{stem}_upscaled_{algorithm}{magnification}x.{container}`, where stem is
      the input path without its extension. */
  function OutputName(input: string, algorithm: string, magnification: nat, container: string): string {
    SplitExt(input).0 + "_upscaled_" + algorithm + Digits(magnification) + "x." + container
  }

  /** The k-th alternative to a name split as (stem, ext): `{stem}({k}){ext}`. */
  function Suffixed(stem: string, ext: string, k: nat): string {
    stem + "(" + Digits(k) + ")" + ext
  }

  /** r is the name no_overwrite settles on: not taken, and either the name itself
      when it is free, or its first free alternative `stem(k)ext` with the
      original stem and extension, every earlier alternative being taken. */
  ghost predicate IsFirstFree(name: string, existing: set<string>, r: string) {
    var (stem, ext) := SplitExt(name);
    && r !in existing
    && (name !in existing ==> r == name)
    && (name in existing ==>
          exists k :: k >= 1 && r == Suffixed(stem, ext, k)
                      && forall j :: 1 <= j < k ==> Suffixed(stem, ext, j) in existing)
  }

  /** Tries the name, then `stem(1)ext`, `stem(2)ext`, ... until one does not
      exist; the search ends because the set of existing names is finite. */
  method NoOverwrite(name: string, existing: set<string>) returns (r: string)
    ensures IsFirstFree(name, existing, r)
  {
    var (stem, ext) := SplitExt(name);
    var counter := 1;
    r := name;
    while r in existing
      invariant counter >= 1
      invariant r == if counter == 1 then name else Suffixed(stem, ext, counter - 1)
      invariant counter > 1 ==> name in existing
      invariant forall j :: 1 <= j < counter - 1 ==> Suffixed(stem, ext, j) in existing
      invariant counter - 1 <= |existing|
      decreases |existing| - (counter - 1)
    {
      TakenCount(name, existing, counter);
      r := Suffixed(stem, ext, counter);
      counter := counter + 1;
    }
  }

  /** While the search is still running at counter c, the name and its first
      c - 1 alternatives are all taken, and they are c distinct names. */
  lemma TakenCount(name: string, existing: set<string>, c: nat)
    requires c >= 1
    requires name in existing
    requires forall j :: 1 <= j < c ==> Suffixed(SplitExt(name).0, SplitExt(name).1, j) in existing
    ensures c <= |existing|
  {
    var (stem, ext) := SplitExt(name);
    var tried := set j | 1 <= j < c :: Suffixed(stem, ext, j);
    AlternativesCount(stem, ext, c - 1);
    assert name !in tried by {
      forall j | 1 <= j < c ensures Suffixed(stem, ext, j) != name {
        assert |Suffixed(stem, ext, j)| > |stem + ext|;
      }
    }
    assert tried + {name} <= existing;
    assert |tried + {name}| == c;
    SubsetCard(tried + {name}, existing);
  }

  lemma SubsetCard(a: set<string>, b: set<string>)
    requires a <= b
    ensures |a| <= |b|
  {
    assert b == a + (b - a);
  }

  /** The first n alternatives are n distinct names. */
  lemma {:induction false} AlternativesCount(stem: string, ext: string, n: nat)
    ensures |set j | 1 <= j < n + 1 :: Suffixed(stem, ext, j)| == n
  {
    if n > 0 {
      AlternativesCount(stem, ext, n - 1);
      var earlier := set j | 1 <= j < n :: Suffixed(stem, ext, j);
      assert (set j | 1 <= j < n + 1 :: Suffixed(stem, ext, j)) == earlier + {Suffixed(stem, ext, n)};
      if Suffixed(stem, ext, n) in earlier {
        var j :| 1 <= j < n && Suffixed(stem, ext, j) == Suffixed(stem, ext, n);
        SuffixedInjective(stem, ext, j, n);
      }
    }
  }

  /** Different counters give different names. */
  lemma SuffixedInjective(stem: string, ext: string, j: nat, k: nat)
    ensures Suffixed(stem, ext, j) == Suffixed(stem, ext, k) ==> j == k
  {
    var a := Suffixed(stem, ext, j);
    var b := Suffixed(stem, ext, k);
    if a == b {
      var lo := |stem| + 1;
      assert |Digits(j)| == |Digits(k)|;
      assert a[lo..lo + |Digits(j)|] == Digits(j);
      assert b[lo..lo + |Digits(k)|] == Digits(k);
      DigitsInjective(j, k);
    }
  }

  /** The choice is determined: at most one name satisfies IsFirstFree. */
  lemma FirstFreeUnique(name: string, existing: set<string>, r1: string, r2: string)
    requires IsFirstFree(name, existing, r1) && IsFirstFree(name, existing, r2)
    ensures r1 == r2
  {
  }

  /** Repeated runs against the same input never overwrite: when the name and
      its first m alternatives exist (as after m + 1 earlier runs), the next run
      writes `stem(m+1)ext`; the second run gets "(1)", the third "(2)". */
  lemma {:induction false} RepeatedRuns(name: string, m: nat)
    ensures var (stem, ext) := SplitExt(name);
            IsFirstFree(name, {name} + (set j | 1 <= j <= m :: Suffixed(stem, ext, j)), Suffixed(stem, ext, m + 1))
  {
    var (stem, ext) := SplitExt(name);
    var existing := {name} + (set j | 1 <= j <= m :: Suffixed(stem, ext, j));
    var r := Suffixed(stem, ext, m + 1);
    assert r != name by {
      assert |r| > |stem + ext|;
    }
    if r in existing {
      var j :| 1 <= j <= m && Suffixed(stem, ext, j) == r;
      SuffixedInjective(stem, ext, j, m + 1);
    }
    assert forall j :: 1 <= j < m + 1 ==> Suffixed(stem, ext, j) in existing;
  }

  /** The counter goes right before the container extension:
      `{stem}_upscaled_{algorithm}{magnification}x({k}).{container}`. */
  lemma OutputNameAlternatives(input: string, algorithm: string, magnification: nat, container: string)
    requires '.' !in container && '/' !in container
    ensures var out := OutputName(input, algorithm, magnification, container);
            SplitExt(out) == (SplitExt(input).0 + "_upscaled_" + algorithm + Digits(magnification) + "x", "." + container)
  {
    var prefix := SplitExt(input).0 + "_upscaled_" + algorithm + Digits(magnification) + "x";
    assert OutputName(input, algorithm, magnification, container) == prefix + "." + container;
    SplitExtAtLastDot(prefix, container);
  }
}
