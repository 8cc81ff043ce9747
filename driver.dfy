/**
 * The top-level driver: read the maximum basic leaf, require AMX-TILE in
 * CPUID.07H.00H:EDX[24], require the AMX leaves up to 1EH, then display the
 * AMX features and check OS support.
 */
module Driver {
  import opened CpuidBits
  import opened FeatureTable
  import opened FeatureDecoder
  import opened OsSupport

  /** The highest leaf the AMX decoder reads (the TMUL information leaf). */
  const AMX_LAST_LEAF: uint32 := 0x1E

  /** CPUID.00H:EAX: the maximum input value for basic CPUID information. */
  function MaxLeaf(query: CpuidOracle): uint32
  {
    query(0, 0).eax
  }

  /** CPUID.07H.00H:EDX[24]: the processor supports the tile architecture. */
  predicate AmxTile(query: CpuidOracle)
  {
    IsSet(query(7, 0).edx as bv32, 24)
  }

  /** Where the gates of `main` lead. */
  datatype Verdict = AmxNotSupported | MissingAmxLeaves | ReadAmxLeaves

  /** A verdict together with the CPUID queries made to reach it. */
  datatype Gate = Gate(verdict: Verdict, calls: seq<CpuidQuery>)

  /**
   * The gates of `main`. Leaf 7 is read only when the maximum leaf reaches
   * it; AMX is not supported without leaf 7 and AMX-TILE; with AMX-TILE but
   * a maximum leaf below 1EH the reporting is malformed; otherwise the AMX
   * leaves are read.
   */
  function Classify(query: CpuidOracle): (g: Gate)
    ensures g.calls == if MaxLeaf(query) >= 7 then [CpuidQuery(0, 0), CpuidQuery(7, 0)] else [CpuidQuery(0, 0)]
    ensures g.verdict == AmxNotSupported <==> MaxLeaf(query) < 7 || !AmxTile(query)
    ensures g.verdict == MissingAmxLeaves <==> 7 <= MaxLeaf(query) < AMX_LAST_LEAF && AmxTile(query)
    ensures g.verdict == ReadAmxLeaves <==> AMX_LAST_LEAF <= MaxLeaf(query) && AmxTile(query)
  {
    var maxLeaf := query(0, 0).eax;
    if maxLeaf >= 7 then
      var regs := query(7, 0);
      var calls := [CpuidQuery(0, 0), CpuidQuery(7, 0)];
      if BitCheck(regs.edx as bv32, 24) == 1 then
        if maxLeaf >= 0x1E then Gate(ReadAmxLeaves, calls) else Gate(MissingAmxLeaves, calls)
      else
        Gate(AmxNotSupported, calls)
    else
      Gate(AmxNotSupported, [CpuidQuery(0, 0)])
  }

  /** What the program reports. */
  datatype Outcome =
    | NotSupported
    | InvalidReporting
    | Reported(features: seq<Report>, support: OsSupport)

  /** What the decoder shows for the shipped table. */
  function AmxFeatures(query: CpuidOracle): seq<Report>
  {
    AmxFeatureListWellFormed();
    ShownRows(AmxFeatureList, query, |AmxFeatureList| - 1)
  }

  /** The queries the decoder issues on the shipped table. */
  function AmxQueries(query: CpuidOracle): seq<CpuidQuery>
  {
    AmxFeatureListWellFormed();
    IssuedQueries(AmxFeatureList, query, |AmxFeatureList| - 1)
  }

  /** CPUID queries as oracle calls. */
  function CpuidCalls(qs: seq<CpuidQuery>): (calls: seq<OracleCall>)
    ensures |calls| == |qs|
    ensures forall k :: 0 <= k < |qs| ==> calls[k] == Cpuid(qs[k])
  {
    if qs == [] then [] else CpuidCalls(qs[..|qs| - 1]) + [Cpuid(qs[|qs| - 1])]
  }

  /** Every row of the shipped table reads a leaf no higher than 1EH. */
  lemma AmxFeatureListLeaves()
    ensures forall i :: 0 <= i < |AmxFeatureList| - 1 ==> AmxFeatureList[i].leaf <= AMX_LAST_LEAF as int
  {
    AmxFeatureListRows();
    forall i | 0 <= i < |AmxFeatureList| - 1
      ensures AmxFeatureList[i].leaf <= AMX_LAST_LEAF as int
    {
      assert i in {0, 1, 2, 3, 4, 5, 6, 7, 8, 9, 10, 11, 12, 13, 14, 15, 16, 17, 18, 19, 20, 21};
    }
  }

  /**
   * On the shipped table the decoder queries only leaves up to 1EH, each
   * query at most once, and only supported subleaves; so once the gates let
   * it run, it never asks for a leaf above the maximum leaf.
   */
  lemma AmxDecoderQueries(query: CpuidOracle)
    ensures forall q :: q in AmxQueries(query) ==> q.leaf <= AMX_LAST_LEAF as int && Supported(query, q)
    ensures NoRepeats(AmxQueries(query))
  {
    AmxFeatureListWellFormed();
    var n := |AmxFeatureList| - 1;
    var calls := IssuedQueries(AmxFeatureList, query, n);
    IssuedFromRows(AmxFeatureList, query, n);
    IssuedAreSupported(AmxFeatureList, query, n);
    IssuedOnce(AmxFeatureList, query, n);
    AmxFeatureListLeaves();
    forall q | q in calls
      ensures q.leaf <= AMX_LAST_LEAF as int && Supported(query, q)
    {
      var i :| 0 <= i < |AmxFeatureList| && (i == 0 || i < n) && q == QueryOf(AmxFeatureList[i]);
      var k :| 0 <= k < |calls| && calls[k] == q;
    }
  }

  /**
   * When the maximum basic leaf reaches 1EH, as the gates demand before the
   * decoder runs, the decoder never asks for a leaf above it.
   */
  lemma DecoderStaysBelowMaxLeaf(query: CpuidOracle)
    requires AMX_LAST_LEAF <= MaxLeaf(query)
    ensures forall q :: q in AmxQueries(query) ==> q.leaf <= MaxLeaf(query)
  {
    AmxDecoderQueries(query);
  }

  /**
   * main: run the gates; when they pass, display the features of the shipped
   * table, then check OS support. `calls` is every oracle call, in order.
   */
  method Run(query: CpuidOracle, xgetbv: XgetbvOracle) returns (outcome: Outcome, ghost calls: seq<OracleCall>)
    ensures outcome == NotSupported <==> Classify(query).verdict == AmxNotSupported
    ensures outcome == InvalidReporting <==> Classify(query).verdict == MissingAmxLeaves
    ensures outcome.Reported? <==> Classify(query).verdict == ReadAmxLeaves
    ensures outcome.Reported? ==>
      outcome.features == AmxFeatures(query) && outcome.support == DetectOsSupport(query, xgetbv).support
    // the gates' queries come first; then the decoder's, then the detector's
    ensures calls == CpuidCalls(Classify(query).calls) +
      if outcome.Reported? then CpuidCalls(AmxQueries(query)) + DetectOsSupport(query, xgetbv).calls else []
  {
    var gate := Classify(query);
    calls := CpuidCalls(gate.calls);
    match gate.verdict
    case AmxNotSupported =>
      outcome := NotSupported;
    case MissingAmxLeaves =>
      outcome := InvalidReporting;
    case ReadAmxLeaves =>
      AmxFeatureListWellFormed();
      var reports, decoderCalls := DisplayAmxFeatures(AmxFeatureList, query);
      var detection := DetectOsSupport(query, xgetbv);
      calls := calls + CpuidCalls(decoderCalls) + detection.calls;
      outcome := Reported(reports, detection.support);
  }
}
