/**
 * `Visualiser.drawMostLikelyCandidates`: for every candidate of every slice that has
 * likely candidates, an image of the candidate and an image of its likely candidates,
 * drawn largest first, are saved under names made of the 1-based slice number and the
 * candidate's id.
 *
 * The images are not modelled; an export records the candidate, the two file names
 * and the likely candidates in the order they are drawn.
 */
module LikelyCandidates {
  import opened Wrappers
  import opened Seqs
  import opened Decimal
  import opened SequencePlan

  /** What the export reads of a candidate: its id, size, centre and most likely
      candidates, and for a likely candidate of it the colour and the text of their
      similarity (the double arithmetic that gives those is not modelled). */
  datatype Traits<!C> = Traits(id: C -> int, size: C -> int, centre: C -> Point, likely: C -> seq<C>,
                               shade: (C, C) -> Rgb, similarity: (C, C) -> string)

  /** One candidate written out: each image is the list of its drawing calls, on the
      image's only plane, 1. */
  datatype Export<C> = Export(candidate: C, candidateFile: string, candidateImage: seq<Draw<C>>,
                              similarFile: string, similarImage: seq<Draw<C>>)

  const White := Rgb(255, 255, 255)

  /** The image of the candidate itself (source line 204). */
  function CandidateFile(dir: string, s: int, id: int): string
  {
    dir + "/s" + IntToString(s) + "c" + IntToString(id) + ".tif"
  }

  /** The image of its likely candidates (source line 247). */
  function SimilarFile(dir: string, s: int, id: int): string
  {
    dir + "/s" + IntToString(s) + "c" + IntToString(id) + "-candidates.tif"
  }

  // ---------------------------------------------------------------------------------
  // The size order (source lines 219-231)

  /** The comparator's order: larger first. */
  predicate SortedBySize<C>(xs: seq<C>, size: C -> int)
  {
    forall i, j :: 0 <= i < j < |xs| ==> size(xs[i]) >= size(xs[j])
  }

  /** Insert `x` into a list sorted largest first, after every element at least as large. */
  function Insert<C>(xs: seq<C>, x: C, size: C -> int): seq<C>
    decreases |xs|
  {
    if xs == [] then [x]
    else if size(xs[0]) >= size(x) then [xs[0]] + Insert(xs[1..], x, size)
    else [x] + xs
  }

  /** `Collections.sort` with the size comparator, a stable sort: insertion of each element
      in list order. */
  function SortBySize<C>(xs: seq<C>, size: C -> int): seq<C>
    decreases |xs|
  {
    if xs == [] then [] else Insert(SortBySize(xs[..|xs| - 1], size), xs[|xs| - 1], size)
  }

  function SizeIs<C>(k: int, size: C -> int): C -> bool
  {
    (x: C) => size(x) == k
  }

  lemma {:induction false} InsertKeeps<C>(xs: seq<C>, x: C, size: C -> int)
    ensures multiset(Insert(xs, x, size)) == multiset(xs) + multiset{x}
    decreases |xs|
  {
    if xs != [] && size(xs[0]) >= size(x) {
      InsertKeeps(xs[1..], x, size);
      assert xs == [xs[0]] + xs[1..];
    }
  }

  /** Inserting keeps a bound on the sizes. */
  lemma {:induction false} InsertBound<C>(xs: seq<C>, x: C, size: C -> int, v: int)
    requires forall i :: 0 <= i < |xs| ==> size(xs[i]) <= v
    requires size(x) <= v
    ensures forall i :: 0 <= i < |Insert(xs, x, size)| ==> size(Insert(xs, x, size)[i]) <= v
    decreases |xs|
  {
    if xs != [] && size(xs[0]) >= size(x) {
      InsertBound(xs[1..], x, size, v);
    }
  }

  lemma {:induction false} InsertSorted<C>(xs: seq<C>, x: C, size: C -> int)
    requires SortedBySize(xs, size)
    ensures SortedBySize(Insert(xs, x, size), size)
    decreases |xs|
  {
    if xs != [] && size(xs[0]) >= size(x) {
      InsertSorted(xs[1..], x, size);
      InsertBound(xs[1..], x, size, size(xs[0]));
    }
  }

  /** Inserting `x` puts it after every element of its own size. */
  lemma {:induction false} InsertFilter<C>(xs: seq<C>, x: C, size: C -> int, k: int)
    requires SortedBySize(xs, size)
    ensures Filter(Insert(xs, x, size), SizeIs(k, size))
         == Filter(xs, SizeIs(k, size)) + if size(x) == k then [x] else []
    decreases |xs|
  {
    var p := SizeIs(k, size);
    if xs == [] {
      assert [x] == [] + [x];
    } else if size(xs[0]) >= size(x) {
      InsertFilter(xs[1..], x, size, k);
      FilterConcat([xs[0]], Insert(xs[1..], x, size), p);
      FilterConcat([xs[0]], xs[1..], p);
      assert xs == [xs[0]] + xs[1..];
      AppendAssoc(Filter([xs[0]], p), Filter(xs[1..], p), if size(x) == k then [x] else []);
    } else {
      FilterConcat([x], xs, p);
      if size(x) == k {
        FilterAllFail(xs, p, size, k);
      }
    }
  }

  /** No element of a list sorted largest first, whose head is smaller than `k`, has size `k`. */
  lemma FilterAllFail<C>(xs: seq<C>, p: C -> bool, size: C -> int, k: int)
    requires xs != [] && SortedBySize(xs, size) && size(xs[0]) < k
    requires p == SizeIs(k, size)
    ensures Filter(xs, p) == []
  {
    forall y | y in xs ensures !p(y) {
      var i :| 0 <= i < |xs| && xs[i] == y;
      if i > 0 {
        assert size(xs[0]) >= size(xs[i]);
      }
    }
    FilterNonePass(xs, p);
  }

  /** The sort orders largest first, keeps every element, and keeps elements of equal size
      in their original order: together, exactly what a stable sort with the size
      comparator gives. */
  lemma {:induction false} SortBySizeCorrect<C>(xs: seq<C>, size: C -> int)
    ensures SortedBySize(SortBySize(xs, size), size)
    ensures multiset(SortBySize(xs, size)) == multiset(xs)
    ensures forall k :: Filter(SortBySize(xs, size), SizeIs(k, size)) == Filter(xs, SizeIs(k, size))
    decreases |xs|
  {
    if xs != [] {
      var n := |xs| - 1;
      var front := SortBySize(xs[..n], size);
      SortBySizeCorrect(xs[..n], size);
      InsertSorted(front, xs[n], size);
      InsertKeeps(front, xs[n], size);
      assert xs == xs[..n] + [xs[n]];
      forall k ensures Filter(SortBySize(xs, size), SizeIs(k, size)) == Filter(xs, SizeIs(k, size)) {
        InsertFilter(front, xs[n], size, k);
      }
    }
  }

  // ---------------------------------------------------------------------------------
  // The exports

  /** A likely candidate `y` of `c` in the image of likely candidates: in its shade, with the
      similarity as its annotation (source lines 233-239). */
  function SimilarMarks<C>(c: C, traits: Traits<C>): C -> seq<Draw<C>>
  {
    (y: C) => DrawCandidate(y, 1, traits.shade(c, y), Some(traits.similarity(c, y)), traits.centre)
  }

  /** The image of the likely candidates, drawn largest first. */
  function SimilarImage<C>(c: C, traits: Traits<C>): seq<Draw<C>>
  {
    Concat(SortBySize(traits.likely(c), traits.size), SimilarMarks(c, traits))
  }

  function ExportOf<C>(c: C, s: int, dir: string, traits: Traits<C>): Export<C>
  {
    Export(c, CandidateFile(dir, s, traits.id(c)), DrawCandidate(c, 1, White, None, traits.centre),
           SimilarFile(dir, s, traits.id(c)), SimilarImage(c, traits))
  }

  /** The candidates whose pixels a list of drawing calls draws, in order. */
  function PixelsOrder<C>(ds: seq<Draw<C>>): seq<C>
    decreases |ds|
  {
    if ds == [] then []
    else
      var n := |ds| - 1;
      PixelsOrder(ds[..n]) + if ds[n].Pixels? then [ds[n].candidate] else []
  }

  lemma {:induction false} PixelsOrderConcat<C>(a: seq<Draw<C>>, b: seq<Draw<C>>)
    ensures PixelsOrder(a + b) == PixelsOrder(a) + PixelsOrder(b)
    decreases |b|
  {
    if b == [] {
      assert a + b == a;
    } else {
      var n := |b| - 1;
      assert (a + b)[..|a + b| - 1] == a + b[..n];
      PixelsOrderConcat(a, b[..n]);
    }
  }

  /** Each candidate of `ys` has its pixels drawn once, in the order of `ys`. */
  lemma {:induction false} SimilarPixelsOrder<C>(ys: seq<C>, c: C, traits: Traits<C>)
    ensures PixelsOrder(Concat(ys, SimilarMarks(c, traits))) == ys
    decreases |ys|
  {
    if ys != [] {
      var n := |ys| - 1;
      var marks := SimilarMarks(c, traits)(ys[n]);
      SimilarPixelsOrder(ys[..n], c, traits);
      PixelsOrderConcat(Concat(ys[..n], SimilarMarks(c, traits)), marks);
      assert marks == [Pixels(1, traits.shade(c, ys[n]), ys[n])] + [Text(1, Complement(traits.shade(c, ys[n])), traits.similarity(c, ys[n]), traits.centre(ys[n]))];
      PixelsOrderConcat([marks[0]], [marks[1]]);
      assert [marks[0]][..0] == [];
      assert [marks[1]][..0] == [];
      assert ys == ys[..n] + [ys[n]];
    }
  }

  /** The two calls `drawCandidate` makes for a likely candidate `y`. */
  lemma SimilarMarksMember<C>(c: C, traits: Traits<C>, y: C, d: Draw<C>)
    ensures d in SimilarMarks(c, traits)(y)
        <==> d == Pixels(1, traits.shade(c, y), y)
             || d == Text(1, Complement(traits.shade(c, y)), traits.similarity(c, y), traits.centre(y))
  {
  }

  /** The candidate image is the candidate's pixels in white and nothing else: no
      annotation is passed. */
  lemma CandidateImageBare<C>(c: C, s: int, dir: string, traits: Traits<C>)
    ensures ExportOf(c, s, dir, traits).candidateImage == [Pixels(1, White, c)]
    ensures forall d :: d in ExportOf(c, s, dir, traits).candidateImage ==> !d.Text?
  {
  }

  /** The image of likely candidates draws the pixels of each of them once, largest first
      and equal sizes in list order. */
  lemma SimilarImageOrder<C>(c: C, traits: Traits<C>)
    ensures PixelsOrder(SimilarImage(c, traits)) == SortBySize(traits.likely(c), traits.size)
  {
    SimilarPixelsOrder(SortBySize(traits.likely(c), traits.size), c, traits);
  }

  /** The image of likely candidates draws each of them in its shade and labels it with
      its similarity in the complement of that shade, and draws nothing else. */
  lemma SimilarImageMember<C>(c: C, traits: Traits<C>, d: Draw<C>)
    ensures d in SimilarImage(c, traits)
        <==> exists y :: y in traits.likely(c)
                         && (d == Pixels(1, traits.shade(c, y), y)
                             || d == Text(1, Complement(traits.shade(c, y)), traits.similarity(c, y), traits.centre(y)))
  {
    var sorted := SortBySize(traits.likely(c), traits.size);
    var f := SimilarMarks(c, traits);
    SortBySizeCorrect(traits.likely(c), traits.size);
    ConcatMember(sorted, f, d);
    if d in SimilarImage(c, traits) {
      var y :| y in sorted && d in f(y);
      SimilarMarksMember(c, traits, y, d);
      assert y in multiset(sorted);
    }
    if exists y :: y in traits.likely(c)
                   && (d == Pixels(1, traits.shade(c, y), y)
                       || d == Text(1, Complement(traits.shade(c, y)), traits.similarity(c, y), traits.centre(y))) {
      var y :| y in traits.likely(c)
               && (d == Pixels(1, traits.shade(c, y), y)
                   || d == Text(1, Complement(traits.shade(c, y)), traits.similarity(c, y), traits.centre(y)));
      SimilarMarksMember(c, traits, y, d);
      assert y in multiset(traits.likely(c));
    }
  }

  /** `ExportOf` with the directory and the traits fixed. */
  function Maker<C>(dir: string, traits: Traits<C>): (C, int) -> Export<C>
  {
    (c: C, s: int) => ExportOf(c, s, dir, traits)
  }

  /** The candidates of slice list `s` (1-based) that have likely candidates (source lines
      192-248). */
  function SliceExports<C>(cs: seq<C>, s: int, traits: Traits<C>, make: (C, int) -> Export<C>): seq<Export<C>>
    decreases |cs|
  {
    if cs == [] then []
    else
      var n := |cs| - 1;
      SliceExports(cs[..n], s, traits, make)
      + if traits.likely(cs[n]) == [] then [] else [make(cs[n], s)]
  }

  lemma SliceExportsSnoc<C>(cs: seq<C>, j: nat, s: int, traits: Traits<C>, make: (C, int) -> Export<C>)
    requires j < |cs|
    ensures SliceExports(cs[..j + 1], s, traits, make)
            == SliceExports(cs[..j], s, traits, make) + if traits.likely(cs[j]) == [] then [] else [make(cs[j], s)]
  {
    assert cs[..j + 1][..j] == cs[..j];
  }

  /** All slice lists, the counter `s` counting every list, skipped candidates or not. */
  function Exports<C>(sliceCandidates: seq<seq<C>>, traits: Traits<C>, make: (C, int) -> Export<C>): seq<Export<C>>
    decreases |sliceCandidates|
  {
    if sliceCandidates == [] then []
    else
      var n := |sliceCandidates| - 1;
      Exports(sliceCandidates[..n], traits, make) + SliceExports(sliceCandidates[n], n + 1, traits, make)
  }

  lemma {:induction false} SliceExportsMember<C>(cs: seq<C>, s: int, traits: Traits<C>, make: (C, int) -> Export<C>, e: Export<C>)
    ensures e in SliceExports(cs, s, traits, make)
        <==> exists c :: c in cs && traits.likely(c) != [] && e == make(c, s)
    decreases |cs|
  {
    if cs != [] {
      var n := |cs| - 1;
      SliceExportsMember(cs[..n], s, traits, make, e);
      assert cs == cs[..n] + [cs[n]];
      if exists c :: c in cs && traits.likely(c) != [] && e == make(c, s) {
        var c :| c in cs && traits.likely(c) != [] && e == make(c, s);
        if c != cs[n] {
          assert c in cs[..n];
        }
      }
    }
  }

  lemma {:induction false} ExportsSound<C>(sliceCandidates: seq<seq<C>>, traits: Traits<C>, make: (C, int) -> Export<C>, e: Export<C>)
    returns (m: int, c: C)
    requires e in Exports(sliceCandidates, traits, make)
    ensures 0 <= m < |sliceCandidates| && c in sliceCandidates[m] && traits.likely(c) != [] && e == make(c, m + 1)
    decreases |sliceCandidates|
  {
    var n := |sliceCandidates| - 1;
    var front := sliceCandidates[..n];
    if e in Exports(front, traits, make) {
      m, c := ExportsSound(front, traits, make, e);
      assert front[m] == sliceCandidates[m];
    } else {
      SliceExportsMember(sliceCandidates[n], n + 1, traits, make, e);
      m := n;
      c :| c in sliceCandidates[n] && traits.likely(c) != [] && e == make(c, n + 1);
    }
  }

  lemma {:induction false} ExportsComplete<C>(sliceCandidates: seq<seq<C>>, traits: Traits<C>, make: (C, int) -> Export<C>, m: int, c: C)
    requires 0 <= m < |sliceCandidates| && c in sliceCandidates[m] && traits.likely(c) != []
    ensures make(c, m + 1) in Exports(sliceCandidates, traits, make)
    decreases |sliceCandidates|
  {
    var n := |sliceCandidates| - 1;
    var front := sliceCandidates[..n];
    if m < n {
      assert front[m] == sliceCandidates[m];
      ExportsComplete(front, traits, make, m, c);
    } else {
      SliceExportsMember(sliceCandidates[n], n + 1, traits, make, make(c, m + 1));
    }
  }

  /** A candidate is exported exactly when it has likely candidates, under the number of
      its slice list counted from 1. */
  lemma ExportsMember<C>(sliceCandidates: seq<seq<C>>, traits: Traits<C>, make: (C, int) -> Export<C>, e: Export<C>)
    ensures e in Exports(sliceCandidates, traits, make)
        <==> exists m, c :: 0 <= m < |sliceCandidates| && c in sliceCandidates[m] && traits.likely(c) != []
                            && e == make(c, m + 1)
  {
    if e in Exports(sliceCandidates, traits, make) {
      var m, c := ExportsSound(sliceCandidates, traits, make, e);
    }
    if exists m, c :: 0 <= m < |sliceCandidates| && c in sliceCandidates[m] && traits.likely(c) != []
                      && e == make(c, m + 1) {
      var m, c :| 0 <= m < |sliceCandidates| && c in sliceCandidates[m] && traits.likely(c) != []
                  && e == make(c, m + 1);
      ExportsComplete(sliceCandidates, traits, make, m, c);
    }
  }

  // ---------------------------------------------------------------------------------
  // The file names

  /** Two digit strings followed by the same non-digit and then anything are equal only
      when both parts are. */
  lemma SplitAtNonDigit(a: string, b: string, a': string, b': string, ch: char)
    requires AllDigits(a) && AllDigits(a') && !IsDigit(ch)
    requires a + [ch] + b == a' + [ch] + b'
    ensures a == a' && b == b'
  {
    var x := a + [ch] + b;
    assert forall i :: 0 <= i < |a| ==> x[i] == a[i];
    assert forall i :: 0 <= i < |a'| ==> x[i] == a'[i];
    assert x[|a|] == ch && x[|a'|] == ch;
    assert |a| == |a'|;
    assert a == x[..|a|] == a';
    assert b == x[|a| + 1..] == b';
  }

  lemma StripSuffix(t: string, t': string, suffix: string)
    requires t + suffix == t' + suffix
    ensures t == t'
  {
    assert t == (t + suffix)[..|t|];
    assert t' == (t' + suffix)[..|t'|];
  }

  lemma NameTail(dir: string, s: int, id: int, suffix: string)
    ensures dir + "/s" + IntToString(s) + "c" + IntToString(id) + suffix
         == (dir + "/s") + (IntToString(s) + ['c'] + (IntToString(id) + suffix))
  {
  }

  /** A file name in a directory gives back the slice number and the id. */
  lemma NameParts(dir: string, s: int, id: int, s': int, id': int, suffix: string)
    requires s >= 0 && s' >= 0
    requires dir + "/s" + IntToString(s) + "c" + IntToString(id) + suffix
          == dir + "/s" + IntToString(s') + "c" + IntToString(id') + suffix
    ensures s == s' && id == id'
  {
    NameTail(dir, s, id, suffix);
    NameTail(dir, s', id', suffix);
    var head := dir + "/s";
    var x := IntToString(s) + ['c'] + (IntToString(id) + suffix);
    var x' := IntToString(s') + ['c'] + (IntToString(id') + suffix);
    assert x == (head + x)[|head|..];
    assert x' == (head + x')[|head|..];
    SplitAtNonDigit(IntToString(s), IntToString(id) + suffix, IntToString(s'), IntToString(id') + suffix, 'c');
    IntToStringInjective(s, s');
    StripSuffix(IntToString(id), IntToString(id'), suffix);
    IntToStringInjective(id, id');
  }

  /** The candidate file ends in a digit before ".tif", the similar file in 's'. */
  lemma CandidateNotSimilar(dir: string, s: int, id: int, s': int, id': int)
    ensures CandidateFile(dir, s, id) != SimilarFile(dir, s', id')
  {
    LastDigit(id);
    var t := IntToString(id);
    var p := dir + "/s" + IntToString(s) + "c" + t;
    var q := dir + "/s" + IntToString(s') + "c" + IntToString(id') + "-candidates";
    assert p[|p| - 1] == t[|t| - 1];
    assert CandidateFile(dir, s, id) == p + ".tif";
    assert SimilarFile(dir, s', id') == q + ".tif";
    assert q[|q| - 1] == 's';
    if p + ".tif" == q + ".tif" {
      StripSuffix(p, q, ".tif");
    }
  }

  /** Distinct slice numbers or ids give distinct candidate files, and distinct similar
      files; no candidate file is ever a similar file. */
  lemma FileNamesDistinct(dir: string, s: int, id: int, s': int, id': int)
    requires s >= 0 && s' >= 0
    ensures CandidateFile(dir, s, id) == CandidateFile(dir, s', id') ==> s == s' && id == id'
    ensures SimilarFile(dir, s, id) == SimilarFile(dir, s', id') ==> s == s' && id == id'
    ensures CandidateFile(dir, s, id) != SimilarFile(dir, s', id')
  {
    if CandidateFile(dir, s, id) == CandidateFile(dir, s', id') {
      NameParts(dir, s, id, s', id', ".tif");
    }
    if SimilarFile(dir, s, id) == SimilarFile(dir, s', id') {
      NameParts(dir, s, id, s', id', "-candidates.tif");
    }
    CandidateNotSimilar(dir, s, id, s', id');
  }

  /** The written form of an integer ends in a digit. */
  lemma LastDigit(id: int)
    ensures |IntToString(id)| >= 1 && IsDigit(IntToString(id)[|IntToString(id)| - 1])
  {
    if id < 0 {
      var r := NatToString(-id);
      assert IntToString(id)[|IntToString(id)| - 1] == r[|r| - 1];
    }
  }

  /** Among the files written, no candidate image overwrites an image of likely candidates,
      and two candidate images share a name only for the same slice list (`m1`, `m2`, the
      lists the two exports come from) and the same id. */
  lemma ExportFilesDistinct<C>(sliceCandidates: seq<seq<C>>, dir: string, traits: Traits<C>, e1: Export<C>, e2: Export<C>)
    returns (m1: int, m2: int)
    requires e1 in Exports(sliceCandidates, traits, Maker(dir, traits))
    requires e2 in Exports(sliceCandidates, traits, Maker(dir, traits))
    ensures 0 <= m1 < |sliceCandidates| && e1.candidate in sliceCandidates[m1]
    ensures 0 <= m2 < |sliceCandidates| && e2.candidate in sliceCandidates[m2]
    ensures e1.candidateFile != e2.similarFile
    ensures e1.candidateFile == e2.candidateFile
        ==> m1 == m2 && traits.id(e1.candidate) == traits.id(e2.candidate) && e1.similarFile == e2.similarFile
  {
    var c1, c2;
    m1, c1 := ExportsSound(sliceCandidates, traits, Maker(dir, traits), e1);
    m2, c2 := ExportsSound(sliceCandidates, traits, Maker(dir, traits), e2);
    FileNamesDistinct(dir, m1 + 1, traits.id(c1), m2 + 1, traits.id(c2));
  }

  // ---------------------------------------------------------------------------------
  // The export, as the source runs it

  /** The loop of source lines 233-239 drawing the likely candidates of `c` in the given
      order. */
  method DrawSimilars<C>(c: C, sortedBySize: seq<C>, traits: Traits<C>) returns (similarIp: seq<Draw<C>>)
    ensures similarIp == Concat(sortedBySize, SimilarMarks(c, traits))
  {
    similarIp := [];
    var k := 0;
    while k < |sortedBySize|
      invariant 0 <= k <= |sortedBySize|
      invariant similarIp == Concat(sortedBySize[..k], SimilarMarks(c, traits))
    {
      assert sortedBySize[..k + 1][..k] == sortedBySize[..k];
      var similar := sortedBySize[k];
      similarIp := similarIp + DrawCandidate(similar, 1, traits.shade(c, similar), Some(traits.similarity(c, similar)), traits.centre);
      k := k + 1;
    }
    assert sortedBySize[..k] == sortedBySize;
  }

  /** Source lines 199-247: the two images of one candidate with likely candidates. */
  method ExportCandidate<C>(candidate: C, s: int, dir: string, traits: Traits<C>) returns (item: Export<C>)
    ensures item == Maker(dir, traits)(candidate, s)
  {
    var candidateIp := DrawCandidate(candidate, 1, White, None, traits.centre);
    var candidateFile := CandidateFile(dir, s, traits.id(candidate));
    var sortedBySize := SortBySize(traits.likely(candidate), traits.size);
    var similarIp := DrawSimilars(candidate, sortedBySize, traits);
    var similarFile := SimilarFile(dir, s, traits.id(candidate));
    item := Export(candidate, candidateFile, candidateIp, similarFile, similarIp);
  }

  /** The inner loop of source lines 192-249 over the candidates of slice list `s`. */
  method ExportSlice<C>(candidates: seq<C>, s: int, dir: string, traits: Traits<C>, i0: int)
    returns (exports: seq<Export<C>>, i: int)
    ensures exports == SliceExports(candidates, s, traits, Maker(dir, traits))
    ensures i == i0 + |exports|
  {
    exports := [];
    i := i0;
    var j := 0;
    while j < |candidates|
      invariant 0 <= j <= |candidates|
      invariant exports == SliceExports(candidates[..j], s, traits, Maker(dir, traits))
      invariant i == i0 + |exports|
    {
      SliceExportsSnoc(candidates, j, s, traits, Maker(dir, traits));
      var candidate := candidates[j];
      if traits.likely(candidate) == [] {
        j := j + 1;
        continue;
      }
      var item := ExportCandidate(candidate, s, dir, traits);
      i := i + 1;
      exports := exports + [item];
      j := j + 1;
    }
    assert candidates[..j] == candidates;
  }

  /** Source lines 182-252: the exports in order, the images as drawing calls; `i` counts
      the candidates written. */
  method DrawMostLikelyCandidates<C>(sliceCandidates: seq<seq<C>>, dir: string, traits: Traits<C>)
    returns (exports: seq<Export<C>>)
    ensures exports == Exports(sliceCandidates, traits, Maker(dir, traits))
  {
    exports := [];
    var i := 0;
    var s := 1;
    var m := 0;
    while m < |sliceCandidates|
      invariant 0 <= m <= |sliceCandidates| && s == m + 1
      invariant exports == Exports(sliceCandidates[..m], traits, Maker(dir, traits))
      invariant i == |exports|
    {
      assert sliceCandidates[..m + 1][..m] == sliceCandidates[..m];
      var written;
      written, i := ExportSlice(sliceCandidates[m], s, dir, traits, i);
      exports := exports + written;
      s := s + 1;
      m := m + 1;
    }
    assert sliceCandidates[..m] == sliceCandidates;
  }
}
