/**
 * The command line of `sav export`: what `export_prog_args::parse` makes of
 * the options getopt_long reports and of the positional arguments left
 * after them.  getopt_long itself, the comma splitters, the sample-file
 * reader and the region parser are not part of this model; they come in as
 * the Helpers record.
 */
module ExportArgs {
  import opened Wrappers

  /** The genotype formats of `savvy::fmt` that the command can name. */
  datatype Format = Allele | GenotypeProbability | Dosage | HaplotypeDosage

  /**
   * One option as getopt_long hands it back: the code it returned and the
   * option argument (the empty string where optarg is null).
   */
  datatype OptionItem = OptionItem(code: int, arg: string)

  /** Why parse returns false. */
  datatype ParseError =
    | InvalidFormat(value: string)
    | UnrecognisedOption(code: int)
    | RegionsWithoutInput
    | TooManyArguments

  /** The fields of `export_prog_args`, generic in the region type. */
  datatype ProgArgs<R> = ProgArgs(
    subsetIds: set<string>,
    regions: seq<R>,
    inputPath: string,
    outputPath: string,
    help: bool,
    format: Format)

  /**
   * The helpers parse calls: split_string_to_vector and split_string_to_set
   * at ',', split_file_to_set, and string_to_region.
   */
  datatype Helpers<R> = Helpers(
    splitList: string -> seq<string>,
    splitSet: string -> set<string>,
    readSetFile: string -> set<string>,
    toRegion: string -> R)

  /** A freshly constructed `export_prog_args`. */
  function Initial<R>(): ProgArgs<R>
  {
    ProgArgs({}, [], "", "", false, Allele)
  }

  /** `char(opt & 0xFF)`: the low byte of the code, as a number in [0, 256). */
  function Letter(code: int): (c: int)
    ensures 0 <= c < 256
    ensures exists k :: code == 256 * k + c
  {
    var c := code % 256;
    assert code == 256 * (code / 256) + c;
    c
  }

  /** The regions one `-r` argument adds, in the order they are written. */
  function RegionsIn<R>(arg: string, h: Helpers<R>): (rs: seq<R>)
    ensures |rs| == |h.splitList(arg)|
    ensures forall i :: 0 <= i < |rs| ==> rs[i] == h.toRegion(h.splitList(arg)[i])
  {
    var parts := h.splitList(arg);
    seq(|parts|, i requires 0 <= i < |parts| => h.toRegion(parts[i]))
  }

  /** The format a `-f` argument names, if it names one that sets the format. */
  function NamedFormat(arg: string): Option<Format>
  {
    if arg == "HDS" then Some(HaplotypeDosage)
    else if arg == "DS" then Some(Dosage)
    else None
  }

  /** An option parse accepts: one of f, h, r, s, S, with a known `-f` value. */
  predicate Accepted(item: OptionItem)
  {
    var c := Letter(item.code);
    if c == 'f' as int then item.arg in {"HDS", "DS", "GT"}
    else c in {'h' as int, 'r' as int, 's' as int, 'S' as int}
  }

  /** The error parse reports for an option it does not accept. */
  function Rejection(item: OptionItem): ParseError
  {
    if Letter(item.code) == 'f' as int then InvalidFormat(item.arg)
    else UnrecognisedOption(item.code)
  }

  /** An `-f` option that changes the format. */
  predicate SetsFormat(item: OptionItem)
  {
    Letter(item.code) == 'f' as int && NamedFormat(item.arg).Some?
  }

  /** An `-s` or `-S` option, which replaces the sample subset. */
  predicate SetsSubset(item: OptionItem)
  {
    Letter(item.code) == 's' as int || Letter(item.code) == 'S' as int
  }

  /** The sample subset an `-s` or `-S` option stands for. */
  function SubsetOf<R>(item: OptionItem, h: Helpers<R>): set<string>
  {
    if Letter(item.code) == 's' as int then h.splitSet(item.arg) else h.readSetFile(item.arg)
  }

  /** One pass of the switch in the getopt loop. */
  function ApplyOption<R>(a: ProgArgs<R>, item: OptionItem, h: Helpers<R>): (r: Result<ProgArgs<R>, ParseError>)
    ensures r.Success? <==> Accepted(item)
    ensures r.Failure? ==> r.error == Rejection(item)
    ensures r.Success? ==>
              && r.value.format == (if SetsFormat(item) then NamedFormat(item.arg).value else a.format)
              && r.value.help == (a.help || Letter(item.code) == 'h' as int)
              && r.value.regions == a.regions + (if Letter(item.code) == 'r' as int then RegionsIn(item.arg, h) else [])
              && r.value.subsetIds == (if SetsSubset(item) then SubsetOf(item, h) else a.subsetIds)
              && r.value.inputPath == a.inputPath && r.value.outputPath == a.outputPath
  {
    var c := Letter(item.code);
    if c == 'f' as int then
      if item.arg == "HDS" then Success(a.(format := HaplotypeDosage))
      else if item.arg == "DS" then Success(a.(format := Dosage))
      else if item.arg != "GT" then Failure(InvalidFormat(item.arg))
      else Success(a)
    else if c == 'h' as int then Success(a.(help := true))
    else if c == 'r' as int then Success(a.(regions := a.regions + RegionsIn(item.arg, h)))
    else if c == 's' as int then Success(a.(subsetIds := h.splitSet(item.arg)))
    else if c == 'S' as int then Success(a.(subsetIds := h.readSetFile(item.arg)))
    else Failure(UnrecognisedOption(item.code))
  }

  /** The getopt loop over the options in order; the first rejected option ends it. */
  function ParseOptions<R>(items: seq<OptionItem>, h: Helpers<R>): Result<ProgArgs<R>, ParseError>
  {
    if |items| == 0 then Success(Initial())
    else
      match ParseOptions(items[..|items| - 1], h)
      case Failure(e) => Failure(e)
      case Success(a) => ApplyOption(a, items[|items| - 1], h)
  }

  /** The input and output paths from the arguments left after the options. */
  function ResolvePaths<R>(a: ProgArgs<R>, positional: seq<string>): (r: Result<ProgArgs<R>, ParseError>)
    ensures r.Success? <==> |positional| <= 2 && !(|positional| == 0 && |a.regions| > 0)
    ensures r.Failure? ==> r.error == (if |positional| > 2 then TooManyArguments else RegionsWithoutInput)
    ensures r.Success? ==>
              && r.value.inputPath == (if |positional| == 0 then "/dev/stdin" else positional[0])
              && r.value.outputPath == (if |positional| == 2 then positional[1] else "/dev/stdout")
              && r.value.(inputPath := a.inputPath, outputPath := a.outputPath) == a
  {
    if |positional| == 0 then
      if |a.regions| > 0 then Failure(RegionsWithoutInput)
      else Success(a.(inputPath := "/dev/stdin", outputPath := "/dev/stdout"))
    else if |positional| == 1 then Success(a.(inputPath := positional[0], outputPath := "/dev/stdout"))
    else if |positional| == 2 then Success(a.(inputPath := positional[0], outputPath := positional[1]))
    else Failure(TooManyArguments)
  }

  /** `export_prog_args::parse`: options first, then the positional arguments. */
  function Parse<R>(items: seq<OptionItem>, positional: seq<string>, h: Helpers<R>): Result<ProgArgs<R>, ParseError>
  {
    match ParseOptions(items, h)
    case Failure(e) => Failure(e)
    case Success(a) => ResolvePaths(a, positional)
  }

  // ---------------------------------------------------------------------
  // What the options add up to

  /** Every region the `-r` options name, concatenated in command-line order. */
  function AllRegions<R>(items: seq<OptionItem>, h: Helpers<R>): seq<R>
  {
    if |items| == 0 then []
    else
      var last := items[|items| - 1];
      AllRegions(items[..|items| - 1], h) + (if Letter(last.code) == 'r' as int then RegionsIn(last.arg, h) else [])
  }

  /** Option parsing succeeds exactly when every option is accepted. */
  lemma {:induction false} OptionsSucceedIff<R>(items: seq<OptionItem>, h: Helpers<R>)
    ensures ParseOptions(items, h).Success? <==> forall i :: 0 <= i < |items| ==> Accepted(items[i])
  {
    if |items| > 0 {
      var n := |items|;
      OptionsSucceedIff(items[..n - 1], h);
      assert forall i :: 0 <= i < n - 1 ==> items[..n - 1][i] == items[i];
    }
  }

  /** On failure the error is the one of the first option not accepted. */
  lemma {:induction false} FirstRejectionWins<R>(items: seq<OptionItem>, h: Helpers<R>, k: nat)
    requires k < |items| && !Accepted(items[k])
    requires forall i :: 0 <= i < k ==> Accepted(items[i])
    ensures ParseOptions(items, h) == Failure(Rejection(items[k]))
  {
    var n := |items|;
    if k == n - 1 {
      OptionsSucceedIff(items[..n - 1], h);
      assert forall i :: 0 <= i < n - 1 ==> items[..n - 1][i] == items[i];
    } else {
      FirstRejectionWins(items[..n - 1], h, k);
    }
  }

  /**
   * On success the format is the one named by the last `-f HDS` or `-f DS`,
   * or the default allele when there is none; `-f GT` changes nothing.
   */
  lemma {:induction false} FormatIsLastNamed<R>(items: seq<OptionItem>, h: Helpers<R>)
    requires ParseOptions(items, h).Success?
    ensures var f := ParseOptions(items, h).value.format;
            || (f == Allele && forall i :: 0 <= i < |items| ==> !SetsFormat(items[i]))
            || exists i :: 0 <= i < |items| && SetsFormat(items[i]) && Some(f) == NamedFormat(items[i].arg)
                            && forall j :: i < j < |items| ==> !SetsFormat(items[j])
  {
    var n := |items|;
    if n > 0 {
      var p := items[..n - 1];
      FormatIsLastNamed(p, h);
      assert forall i :: 0 <= i < n - 1 ==> p[i] == items[i];
      if SetsFormat(items[n - 1]) {
        assert 0 <= n - 1 < n && SetsFormat(items[n - 1]);
      }
    }
  }

  /** Parsing never selects genotype probabilities: export.cpp has that branch commented out. */
  lemma NeverGenotypeProbability<R>(items: seq<OptionItem>, h: Helpers<R>)
    requires ParseOptions(items, h).Success?
    ensures ParseOptions(items, h).value.format != GenotypeProbability
  {
    FormatIsLastNamed(items, h);
  }

  /** On success help is set exactly when some option is `-h`. */
  lemma {:induction false} HelpIff<R>(items: seq<OptionItem>, h: Helpers<R>)
    requires ParseOptions(items, h).Success?
    ensures ParseOptions(items, h).value.help <==> exists i :: 0 <= i < |items| && Letter(items[i].code) == 'h' as int
  {
    var n := |items|;
    if n > 0 {
      var p := items[..n - 1];
      HelpIff(p, h);
      assert forall i :: 0 <= i < n - 1 ==> p[i] == items[i];
      if Letter(items[n - 1].code) == 'h' as int {
        assert 0 <= n - 1 < n && Letter(items[n - 1].code) == 'h' as int;
      }
    }
  }

  /** On success the regions are those of every `-r` option, in order; nothing else adds any. */
  lemma {:induction false} RegionsAccumulate<R>(items: seq<OptionItem>, h: Helpers<R>)
    requires ParseOptions(items, h).Success?
    ensures ParseOptions(items, h).value.regions == AllRegions(items, h)
  {
    if |items| > 0 {
      RegionsAccumulate(items[..|items| - 1], h);
    }
  }

  /**
   * On success the sample subset is the one of the last `-s` / `-S` option,
   * earlier ones being overwritten, or empty when there is none.
   */
  lemma {:induction false} SubsetIsLast<R>(items: seq<OptionItem>, h: Helpers<R>)
    requires ParseOptions(items, h).Success?
    ensures var ids := ParseOptions(items, h).value.subsetIds;
            || (ids == {} && forall i :: 0 <= i < |items| ==> !SetsSubset(items[i]))
            || exists i :: 0 <= i < |items| && SetsSubset(items[i]) && ids == SubsetOf(items[i], h)
                            && forall j :: i < j < |items| ==> !SetsSubset(items[j])
  {
    var n := |items|;
    if n > 0 {
      var p := items[..n - 1];
      SubsetIsLast(p, h);
      assert forall i :: 0 <= i < n - 1 ==> p[i] == items[i];
      if SetsSubset(items[n - 1]) {
        assert 0 <= n - 1 < n && SetsSubset(items[n - 1]);
      }
    }
  }

  /** Options never touch the paths: they keep the empty strings of construction. */
  lemma {:induction false} OptionsLeavePaths<R>(items: seq<OptionItem>, h: Helpers<R>)
    requires ParseOptions(items, h).Success?
    ensures ParseOptions(items, h).value.inputPath == "" && ParseOptions(items, h).value.outputPath == ""
  {
    if |items| > 0 {
      OptionsLeavePaths(items[..|items| - 1], h);
    }
  }

  /**
   * The whole of parse: it succeeds exactly when every option is accepted,
   * at most two positional arguments remain, and regions were not given
   * without an input path.
   */
  lemma ParseSucceedsIff<R>(items: seq<OptionItem>, positional: seq<string>, h: Helpers<R>)
    ensures Parse(items, positional, h).Success? <==>
              && (forall i :: 0 <= i < |items| ==> Accepted(items[i]))
              && |positional| <= 2
              && !(|positional| == 0 && |AllRegions(items, h)| > 0)
  {
    OptionsSucceedIff(items, h);
    if ParseOptions(items, h).Success? {
      RegionsAccumulate(items, h);
    }
  }

  /** `sav export -f DS -f GT in.sav`: GT keeps the dosage format; output goes to stdout. */
  lemma DosageThenGenotype<R>(h: Helpers<R>)
    ensures var r := Parse([OptionItem('f' as int, "DS"), OptionItem('f' as int, "GT")], ["in.sav"], h);
            && r.Success?
            && r.value.format == Dosage
            && r.value.inputPath == "in.sav"
            && r.value.outputPath == "/dev/stdout"
  {
    var items := [OptionItem('f' as int, "DS"), OptionItem('f' as int, "GT")];
    assert Letter('f' as int) == 'f' as int;
    assert "DS" != "HDS" && "GT" != "HDS" && "GT" != "DS";
    assert items[..1] == [OptionItem('f' as int, "DS")];
    assert items[..1][..0] == [];
    assert ParseOptions(items[..1], h) == Success(Initial<R>().(format := Dosage));
    assert ParseOptions(items, h) == Success(Initial<R>().(format := Dosage));
  }

  /** `sav export -f GP`: genotype probabilities are rejected as an invalid format value. */
  lemma GenotypeProbabilityRejected<R>(positional: seq<string>, h: Helpers<R>)
    ensures Parse([OptionItem('f' as int, "GP")], positional, h) == Failure(InvalidFormat("GP"))
  {
    var items := [OptionItem('f' as int, "GP")];
    assert Letter('f' as int) == 'f' as int;
    assert "GP" != "HDS" && "GP" != "DS" && "GP" != "GT";
    assert items[..0] == [];
    assert ParseOptions(items[..0], h) == Success(Initial());
    assert ParseOptions(items, h) == Failure(InvalidFormat("GP"));
  }
}
