/**
 * The header lines `export_reader` hands to the writer: the input's headers
 * with the INFO lines that name VCF columns and every FORMAT line removed,
 * the fileDate stamped with today's date, and then one FORMAT line for the
 * chosen format.
 */
module ExportHeaders {
  import opened Wrappers
  import opened ExportArgs

  /** One `##key=value` header line. */
  datatype Header = Header(key: string, value: string)

  /**
   * The erase test of the header loop.  `headerId` is
   * `savvy::parse_header_id`, which is not part of this model.
   */
  predicate Dropped(h: Header, headerId: string -> string)
  {
    (h.key == "INFO" && headerId(h.value) in {"ID", "QUAL", "FILTER"}) || h.key == "FORMAT"
  }

  /**
   * The fileDate rewrite for a kept header; `today` is the formatted local
   * date, None when strftime fails.
   */
  function Stamp(h: Header, today: Option<string>): (r: Header)
    ensures r.key == h.key
    ensures h.key != "fileDate" || today.None? ==> r == h
    ensures h.key == "fileDate" && today.Some? ==> r.value == today.value
  {
    if h.key == "fileDate" && today.Some? then h.(value := today.value) else h
  }

  /** The header loop: erase what is dropped, stamp what stays, in order. */
  function Rewrite(hs: seq<Header>, headerId: string -> string, today: Option<string>): seq<Header>
  {
    if |hs| == 0 then []
    else
      var last := hs[|hs| - 1];
      Rewrite(hs[..|hs| - 1], headerId, today) + (if Dropped(last, headerId) then [] else [Stamp(last, today)])
  }

  /** The FORMAT descriptions export_reader appends. */
  const GenotypeDescription := "<ID=GT,Number=1,Type=String,Description=\"Genotype\">"
  const HaplotypeDosageDescription :=
    "<ID=HDS,Number=2,Type=Float,Description=\"Estimated Haploid Alternate Allele Dosage\">"
  const DosageDescription := "<ID=DS,Number=1,Type=Float,Description=\"Estimated Alternate Allele Dosage\">"

  /** The FORMAT line appended for a format; the genotype-probability one is commented out in export.cpp. */
  function FormatHeader(fmt: Format): (r: Option<Header>)
    ensures r.Some? <==> fmt != GenotypeProbability
    ensures r.Some? ==> r.value.key == "FORMAT"
    ensures fmt == Allele ==> r == Some(Header("FORMAT", GenotypeDescription))
    ensures fmt == HaplotypeDosage ==> r == Some(Header("FORMAT", HaplotypeDosageDescription))
    ensures fmt == Dosage ==> r == Some(Header("FORMAT", DosageDescription))
  {
    match fmt
    case Allele => Some(Header("FORMAT", GenotypeDescription))
    case HaplotypeDosage => Some(Header("FORMAT", HaplotypeDosageDescription))
    case Dosage => Some(Header("FORMAT", DosageDescription))
    case GenotypeProbability => None
  }

  /** The headers passed to the writer. */
  function ExportHeaders(hs: seq<Header>, fmt: Format, headerId: string -> string, today: Option<string>): seq<Header>
  {
    Rewrite(hs, headerId, today) + (if FormatHeader(fmt).Some? then [FormatHeader(fmt).value] else [])
  }

  /** How many headers have the given key. */
  function CountKey(hs: seq<Header>, key: string): (n: nat)
    ensures n <= |hs|
  {
    if |hs| == 0 then 0
    else CountKey(hs[..|hs| - 1], key) + (if hs[|hs| - 1].key == key then 1 else 0)
  }

  // ---------------------------------------------------------------------
  // Properties of the rewrite

  /** The rewrite handles each line on its own: it distributes over concatenation. */
  lemma {:induction false} RewriteAppend(a: seq<Header>, b: seq<Header>, headerId: string -> string, today: Option<string>)
    ensures Rewrite(a + b, headerId, today) == Rewrite(a, headerId, today) + Rewrite(b, headerId, today)
  {
    if |b| == 0 {
      assert a + b == a;
    } else {
      var b' := b[..|b| - 1];
      assert (a + b)[..|a + b| - 1] == a + b';
      assert (a + b)[|a + b| - 1] == b[|b| - 1];
      RewriteAppend(a, b', headerId, today);
    }
  }

  /** A single line is erased when dropped and otherwise kept, stamped. */
  lemma RewriteOne(h: Header, headerId: string -> string, today: Option<string>)
    ensures Rewrite([h], headerId, today) == if Dropped(h, headerId) then [] else [Stamp(h, today)]
  {
    assert [h][..0] == [];
  }

  /** The output holds a header exactly when the input holds one that is kept and stamps to it. */
  lemma {:induction false} RewriteMembers(hs: seq<Header>, headerId: string -> string, today: Option<string>, g: Header)
    ensures g in Rewrite(hs, headerId, today) <==>
              exists i :: 0 <= i < |hs| && !Dropped(hs[i], headerId) && Stamp(hs[i], today) == g
  {
    if |hs| > 0 {
      var n := |hs|;
      var p := hs[..n - 1];
      RewriteMembers(p, headerId, today, g);
      assert forall i :: 0 <= i < n - 1 ==> p[i] == hs[i];
      if !Dropped(hs[n - 1], headerId) && Stamp(hs[n - 1], today) == g {
        assert 0 <= n - 1 < n;
      }
    }
  }

  /** No FORMAT line survives the rewrite, and neither do the column-named INFO lines. */
  lemma NothingDroppedRemains(hs: seq<Header>, headerId: string -> string, today: Option<string>)
    ensures forall g :: g in Rewrite(hs, headerId, today) ==> !Dropped(g, headerId)
  {
    forall g | g in Rewrite(hs, headerId, today)
      ensures !Dropped(g, headerId)
    {
      RewriteMembers(hs, headerId, today, g);
    }
  }

  /** Every kept line is counted once: the output is the input less the dropped lines. */
  lemma {:induction false} RewriteLength(hs: seq<Header>, headerId: string -> string, today: Option<string>)
    ensures |Rewrite(hs, headerId, today)| == |hs| - CountDropped(hs, headerId)
  {
    if |hs| > 0 {
      RewriteLength(hs[..|hs| - 1], headerId, today);
    }
  }

  /** How many lines the header loop erases. */
  function CountDropped(hs: seq<Header>, headerId: string -> string): (n: nat)
    ensures n <= |hs|
  {
    if |hs| == 0 then 0
    else CountDropped(hs[..|hs| - 1], headerId) + (if Dropped(hs[|hs| - 1], headerId) then 1 else 0)
  }

  /** Exporting an exported header set again changes nothing: the rewrite is idempotent. */
  lemma {:induction false} RewriteIdempotent(hs: seq<Header>, headerId: string -> string, today: Option<string>)
    ensures Rewrite(Rewrite(hs, headerId, today), headerId, today) == Rewrite(hs, headerId, today)
  {
    if |hs| > 0 {
      var p := hs[..|hs| - 1];
      var last := hs[|hs| - 1];
      RewriteIdempotent(p, headerId, today);
      var tail := if Dropped(last, headerId) then [] else [Stamp(last, today)];
      RewriteAppend(Rewrite(p, headerId, today), tail, headerId, today);
      if !Dropped(last, headerId) {
        RewriteOne(Stamp(last, today), headerId, today);
      } else {
        assert Rewrite([], headerId, today) == [];
      }
    }
  }

  /** A fileDate line that survives carries today's date when there is one. */
  lemma {:induction false} DatesStamped(hs: seq<Header>, headerId: string -> string, today: Option<string>)
    requires today.Some?
    ensures forall i :: 0 <= i < |Rewrite(hs, headerId, today)| && Rewrite(hs, headerId, today)[i].key == "fileDate"
              ==> Rewrite(hs, headerId, today)[i].value == today.value
  {
    if |hs| > 0 {
      DatesStamped(hs[..|hs| - 1], headerId, today);
    }
  }

  /** Key counting adds up over concatenation. */
  lemma {:induction false} CountKeyAppend(a: seq<Header>, b: seq<Header>, key: string)
    ensures CountKey(a + b, key) == CountKey(a, key) + CountKey(b, key)
  {
    if |b| == 0 {
      assert a + b == a;
    } else {
      var b' := b[..|b| - 1];
      assert (a + b)[..|a + b| - 1] == a + b';
      assert (a + b)[|a + b| - 1] == b[|b| - 1];
      CountKeyAppend(a, b', key);
    }
  }

  /** A sequence with no header of the given key counts none. */
  lemma {:induction false} CountKeyNone(hs: seq<Header>, key: string)
    requires forall g :: g in hs ==> g.key != key
    ensures CountKey(hs, key) == 0
  {
    if |hs| > 0 {
      assert hs[|hs| - 1] in hs;
      assert forall g :: g in hs[..|hs| - 1] ==> g in hs;
      CountKeyNone(hs[..|hs| - 1], key);
    }
  }

  /**
   * The writer sees exactly one FORMAT line, the last one, describing the
   * chosen format, after the rewritten input headers; for genotype
   * probabilities it sees none.
   */
  lemma OneFormatHeader(hs: seq<Header>, fmt: Format, headerId: string -> string, today: Option<string>)
    ensures var out := ExportHeaders(hs, fmt, headerId, today);
            && CountKey(out, "FORMAT") == (if fmt == GenotypeProbability then 0 else 1)
            && (fmt != GenotypeProbability ==>
                  |out| > 0 && Some(out[|out| - 1]) == FormatHeader(fmt)
                  && out[..|out| - 1] == Rewrite(hs, headerId, today))
  {
    var body := Rewrite(hs, headerId, today);
    var tail := if FormatHeader(fmt).Some? then [FormatHeader(fmt).value] else [];
    NothingDroppedRemains(hs, headerId, today);
    CountKeyNone(body, "FORMAT");
    CountKeyAppend(body, tail, "FORMAT");
    if FormatHeader(fmt).Some? {
      assert tail[..0] == [];
      assert (body + tail)[..|body + tail| - 1] == body;
    }
  }
}
