/** The names a transfer uses in the output directory, and when those of different files cannot meet. */
module Names {
  import opened Receiver

  /** The three names a transfer uses are different names. */
  lemma NamesDiffer(path: string)
    ensures Partial(path) != path && FailedMarker(path) != path && Partial(path) != FailedMarker(path)
  {
    assert |Partial(path)| == |path| + 8 && |FailedMarker(path)| == |path| + 7;
  }

  predicate EndsWith(s: string, suffix: string) {
    |s| >= |suffix| && s[|s| - |suffix|..] == suffix
  }

  predicate PlainName(path: string) {
    !EndsWith(path, ".partial") && !EndsWith(path, ".failed")
  }

  lemma OwnNames(path: string)
    ensures EndsWith(Partial(path), ".partial") && EndsWith(FailedMarker(path), ".failed")
  {
  }

  lemma PartialIsNotPlain(path: string, n: string)
    requires PlainName(n)
    ensures n != Partial(path) && n != FailedMarker(path)
  {
    OwnNames(path);
    hide Partial, FailedMarker, EndsWith;
  }

  lemma LastLetter(s: string)
    ensures EndsWith(s, ".partial") ==> |s| > 0 && s[|s| - 1] == 'l'
    ensures EndsWith(s, ".failed") ==> |s| > 0 && s[|s| - 1] == 'd'
  {
    if EndsWith(s, ".partial") {
      assert s[|s| - 1] == s[|s| - 8..][7];
    }
    if EndsWith(s, ".failed") {
      assert s[|s| - 1] == s[|s| - 7..][6];
    }
  }

  lemma SuffixesDiffer(s: string)
    ensures !(EndsWith(s, ".partial") && EndsWith(s, ".failed"))
  {
    LastLetter(s);
    hide EndsWith;
  }

  lemma NamesOfTwoFiles(p: string, q: string)
    requires PlainName(p) && PlainName(q) && p != q
    ensures Partial(p) != Partial(q) && FailedMarker(p) != FailedMarker(q)
    ensures FailedMarker(p) != q && FailedMarker(p) != Partial(q)
    ensures Partial(p) != q && Partial(p) != FailedMarker(q)
    ensures p != Partial(q) && p != FailedMarker(q)
  {
    PartialIsNotPlain(p, q);
    PartialIsNotPlain(q, p);
    OwnNames(p);
    OwnNames(q);
    SuffixesDiffer(FailedMarker(p));
    SuffixesDiffer(FailedMarker(q));
    assert Partial(p)[..|p|] == p && FailedMarker(p)[..|p|] == p;
    assert Partial(q)[..|q|] == q && FailedMarker(q)[..|q|] == q;
    if |p| != |q| {
      assert |Partial(p)| != |Partial(q)| && |FailedMarker(p)| != |FailedMarker(q)|;
    }
  }
}
