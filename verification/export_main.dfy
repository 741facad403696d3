/**
 * `export_main`: what the command does once its arguments are parsed —
 * print usage, or open an indexed or a plain reader and export.
 */
module ExportMain {
  import opened Wrappers
  import opened ExportArgs

  /** The reader export_main constructs. */
  datatype ReaderChoice<R> =
    | IndexedReader(path: string, firstRegion: R, format: Format)
    | PlainReader(path: string, format: Format)

  /** What export_main does. */
  datatype Outcome<R> =
    | UsageFailure                                  // usage on stderr
    | UsageHelp                                     // usage on stdout
    | Export(reader: ReaderChoice<R>, args: ProgArgs<R>)

  const ExitSuccess: int := 0
  const ExitFailure: int := 1

  /** The dispatch of export_main over the result of parse. */
  function Run<R>(items: seq<OptionItem>, positional: seq<string>, h: Helpers<R>): (o: Outcome<R>)
    ensures o.Export? ==> Parse(items, positional, h) == Success(o.args) && !o.args.help
    ensures Parse(items, positional, h).Success? && !Parse(items, positional, h).value.help ==> o.Export?
  {
    match Parse(items, positional, h)
    case Failure(_) => UsageFailure
    case Success(a) =>
      if a.help then UsageHelp
      else if |a.regions| > 0 then Export(IndexedReader(a.inputPath, a.regions[0], a.format), a)
      else Export(PlainReader(a.inputPath, a.format), a)
  }

  /**
   * The exit status: EXIT_FAILURE for a parse failure, EXIT_SUCCESS for
   * help, and for an export the state of the output stream afterwards.
   */
  function ExitStatus<R>(o: Outcome<R>, outputGood: bool): (code: int)
    ensures code == ExitSuccess <==> o.UsageHelp? || (o.Export? && outputGood)
    ensures code == ExitSuccess || code == ExitFailure
  {
    match o
    case UsageFailure => ExitFailure
    case UsageHelp => ExitSuccess
    case Export(_, _) => if outputGood then ExitSuccess else ExitFailure
  }

  /** A command line parse rejects prints usage to stderr and fails. */
  lemma RejectedPrintsUsage<R>(items: seq<OptionItem>, positional: seq<string>, h: Helpers<R>)
    requires Parse(items, positional, h).Failure?
    ensures Run(items, positional, h) == UsageFailure
    ensures forall good: bool :: ExitStatus(Run(items, positional, h), good) == ExitFailure
  {
  }

  /**
   * `-h` stops the command before any reader is opened — but only once parse
   * has succeeded: `-h` with three positional arguments still fails.
   */
  lemma HelpShortCircuits<R>(items: seq<OptionItem>, positional: seq<string>, h: Helpers<R>)
    requires exists i :: 0 <= i < |items| && Letter(items[i].code) == 'h' as int
    ensures Run(items, positional, h) == (if Parse(items, positional, h).Success? then UsageHelp else UsageFailure)
  {
    if Parse(items, positional, h).Success? {
      HelpIff(items, h);
    }
  }

  /**
   * A command line that parses without `-h` exports.  The export uses the
   * indexed reader exactly when regions were given, positioned at the first
   * of them, and reads the input path in the parsed format either way.
   */
  lemma ReaderFollowsRegions<R>(items: seq<OptionItem>, positional: seq<string>, h: Helpers<R>)
    requires Parse(items, positional, h).Success? && !Parse(items, positional, h).value.help
    ensures var o := Run(items, positional, h);
            && o.Export?
            && (o.reader.IndexedReader? <==> |AllRegions(items, h)| > 0)
            && (o.reader.IndexedReader? ==> o.reader.firstRegion == AllRegions(items, h)[0])
            && o.reader.path == (if |positional| == 0 then "/dev/stdin" else positional[0])
            && o.reader.format == o.args.format
  {
    RegionsAccumulate(items, h);
  }

  /** `sav export -h a b c`: too many arguments wins over help. */
  lemma HelpWithTooManyArguments<R>(h: Helpers<R>)
    ensures Run([OptionItem('h' as int, "")], ["a", "b", "c"], h) == UsageFailure
  {
    var items := [OptionItem('h' as int, "")];
    assert Letter('h' as int) == 'h' as int;
    assert items[..0] == [];
    assert ParseOptions(items, h).Success?;
  }
}
