/**
 * The file-extension test of test.cpp and the reader choice made from it.
 */
module Extension {

  /**
   * `s.compare(pos, len, t) == 0` of std::string: the part of s that starts
   * at pos and runs for len characters, cut short at the end of s, equals t.
   * pos past the end throws in C++; every call here stays within s.
   */
  predicate SubstringEquals(s: string, pos: nat, len: nat, t: string)
    requires pos <= |s|
  {
    var end := if len <= |s| - pos then pos + len else |s|;
    s[pos..end] == t
  }

  /** `has_extension`: a string at least as long as ext whose last |ext| characters compare equal to it. */
  predicate HasExtension(s: string, ext: string)
  {
    if |s| >= |ext| then SubstringEquals(s, |s| - |ext|, |ext|, ext) else false
  }

  /** Reference definition: the two strings agree from the end, character by character, for all of ext. */
  predicate EndsWith(s: string, ext: string)
  {
    |ext| == 0 || (|s| > 0 && s[|s| - 1] == ext[|ext| - 1] && EndsWith(s[..|s| - 1], ext[..|ext| - 1]))
  }

  /** The readers test.cpp opens for a file. */
  datatype ReaderKind = CvcfReader | M3vcfReader | VcfReader | NoReader

  /** The conversion test's dispatch: the first extension test that holds picks the reader. */
  function PickReader(path: string): ReaderKind
  {
    if HasExtension(path, ".cvcf") then CvcfReader
    else if HasExtension(path, ".m3vcf") then M3vcfReader
    else if HasExtension(path, ".vcf") || HasExtension(path, "vcf.gz") || HasExtension(path, ".bcf") then VcfReader
    else NoReader
  }

  /** The two-way dispatch: anything that is not `.cvcf` is opened as m3vcf. */
  function PickCompressedReader(path: string): ReaderKind
  {
    if HasExtension(path, ".cvcf") then CvcfReader else M3vcfReader
  }

  // ---------------------------------------------------------------------
  // What has_extension means

  /** has_extension is exactly the suffix test. */
  lemma SuffixIff(s: string, ext: string)
    ensures HasExtension(s, ext) <==> |ext| <= |s| && s[|s| - |ext|..] == ext
  {
  }

  /** has_extension agrees with the character-by-character reference. */
  lemma {:induction false} MatchesEndsWith(s: string, ext: string)
    ensures HasExtension(s, ext) <==> EndsWith(s, ext)
  {
    if |ext| > 0 && |s| > 0 {
      var s', e' := s[..|s| - 1], ext[..|ext| - 1];
      MatchesEndsWith(s', e');
      if |s| >= |ext| {
        var k := |s| - |ext|;
        assert s[k..] == s'[k..] + [s[|s| - 1]];
        assert ext == e' + [ext[|ext| - 1]];
        if s[k..] == ext {
          assert s'[k..] == e';
        }
      }
    }
  }

  /** A string shorter than the extension never has it. */
  lemma ShorterNeverMatches(s: string, ext: string)
    requires |s| < |ext|
    ensures !HasExtension(s, ext)
  {
  }

  /** Every string has the empty extension. */
  lemma EmptyAlwaysMatches(s: string)
    ensures HasExtension(s, "")
  {
    assert s[|s|..] == "";
  }

  /** Appending an extension gives a string with that extension, whatever came before. */
  lemma AppendedMatches(stem: string, ext: string)
    ensures HasExtension(stem + ext, ext)
  {
    assert (stem + ext)[|stem|..] == ext;
  }

  /** Two extensions of one string: the shorter is an extension of the longer. */
  lemma BothMatch(s: string, e1: string, e2: string)
    requires HasExtension(s, e1) && HasExtension(s, e2) && |e1| <= |e2|
    ensures HasExtension(e2, e1)
  {
    var k := |s| - |e2|;
    assert s[|s| - |e1|..] == s[k..][|e2| - |e1|..];
  }

  /**
   * No path has two of the five extensions, so the order of the tests in the
   * dispatch does not decide the reader: each reader is chosen exactly when
   * its own extensions match.
   */
  lemma ExtensionsExclusive(path: string)
    ensures PickReader(path) == CvcfReader <==> HasExtension(path, ".cvcf")
    ensures PickReader(path) == M3vcfReader <==> HasExtension(path, ".m3vcf")
    ensures PickReader(path) == VcfReader <==>
              HasExtension(path, ".vcf") || HasExtension(path, "vcf.gz") || HasExtension(path, ".bcf")
  {
    var exts := [".cvcf", ".m3vcf", ".vcf", "vcf.gz", ".bcf"];
    forall i, j | 0 <= i < 5 && 0 <= j < 5 && i != j && HasExtension(path, exts[i]) && HasExtension(path, exts[j])
      ensures false
    {
      if |exts[i]| <= |exts[j]| {
        BothMatch(path, exts[i], exts[j]);
        Distinct(i, j);
      } else {
        BothMatch(path, exts[j], exts[i]);
        Distinct(j, i);
      }
    }
    assert exts[0] == ".cvcf" && exts[1] == ".m3vcf" && exts[2] == ".vcf" && exts[3] == "vcf.gz" && exts[4] == ".bcf";
  }

  /** None of the five extensions ends another. */
  lemma Distinct(i: int, j: int)
    requires 0 <= i < 5 && 0 <= j < 5 && i != j
    ensures !HasExtension([".cvcf", ".m3vcf", ".vcf", "vcf.gz", ".bcf"][j], [".cvcf", ".m3vcf", ".vcf", "vcf.gz", ".bcf"][i])
  {
    var exts := [".cvcf", ".m3vcf", ".vcf", "vcf.gz", ".bcf"];
    var e1, e2 := exts[i], exts[j];
    if |e1| <= |e2| {
      var k := |e2| - |e1|;
      if e2[|e2| - 1] == e1[|e1| - 1] {
        assert e2[k] != e1[0] || e2[k + 1] != e1[1];
        Mismatch(e2, e1, if e2[k] != e1[0] then 0 else 1);
      } else {
        Mismatch(e2, e1, |e1| - 1);
      }
    }
  }

  /** One differing character in the overlap rules the extension out. */
  lemma Mismatch(s: string, ext: string, t: nat)
    requires t < |ext| <= |s| && s[|s| - |ext| + t] != ext[t]
    ensures !HasExtension(s, ext)
  {
  }

  /** The fixture path of the tests opens the cvcf reader under both dispatches. */
  lemma FixtureIsCvcf()
    ensures PickReader("/foobar.cvcf") == CvcfReader
    ensures PickCompressedReader("/foobar.cvcf") == CvcfReader
  {
    AppendedMatches("/foobar", ".cvcf");
    assert "/foobar" + ".cvcf" == "/foobar.cvcf";
  }

  /**
   * The `vcf.gz` test has no leading dot: a name that merely ends in
   * "vcf.gz" opens the vcf reader.
   */
  lemma UndottedGzip()
    ensures PickReader("callsvcf.gz") == VcfReader
  {
    ExtensionsExclusive("callsvcf.gz");
    AppendedMatches("calls", "vcf.gz");
    assert "calls" + "vcf.gz" == "callsvcf.gz";
  }

  /** The two-way dispatch opens everything that is not cvcf as m3vcf, a plain vcf included. */
  lemma CompressedFallsBack(path: string)
    requires !HasExtension(path, ".cvcf")
    ensures PickCompressedReader(path) == M3vcfReader
  {
  }
}
