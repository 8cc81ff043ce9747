/**
 * The feature decoder: walk the feature table with a cursor over the current
 * (leaf, subleaf), issue a CPUID query only when that pair changes, skip rows
 * whose subleaf is above the leaf's advertised maximum, and report the bit or
 * bit field each remaining row names.
 *
 * The CPUID instruction is an oracle: a deterministic function from
 * (leaf, subleaf) to the four registers. The decoder's use of it is recorded
 * in a ghost trace, so that which queries it issues can be stated.
 */
module FeatureDecoder {
  import opened CpuidBits
  import opened FeatureTable

  /** CPUID as seen by the decoder: (leaf, subleaf) to EAX, EBX, ECX, EDX. */
  type CpuidOracle = (uint32, uint32) -> CpuidRegisters

  /** One displayed line: the query, the register and bit range, the value, the feature. */
  datatype Report = Report(
    leaf: uint32,
    subleaf: uint32,
    register: RegisterName,
    startbit: uint32,
    stopbit: uint32,
    value: bv32,
    name: string)

  /**
   * The value shown for a row: a single bit, the whole register for the range
   * 0..31, or else the right-justified bit field. All three cases agree with
   * the general field extraction.
   */
  function ExtractValue(reg: uint32, row: CpuidFeature): (v: bv32)
    requires row.HasValidRange()
    ensures v == BitFieldCheck(reg as bv32, row.Start(), row.Stop())
    ensures row.startbit == row.stopbit ==> (v == 1 <==> IsSet(reg as bv32, row.Start())) && (v == 0 || v == 1)
    ensures row.startbit == 0 && row.stopbit == 31 ==> v == reg as bv32
  {
    if row.stopbit == row.startbit then
      BitCheck(reg as bv32, row.Start())
    else if row.stopbit == 31 && row.startbit == 0 then
      reg as bv32
    else
      BitFieldCheck(reg as bv32, row.Start(), row.Stop())
  }

  /** The report for a row, given the registers its query returned. */
  function ReportOf(row: CpuidFeature, regs: CpuidRegisters): Report
    requires row.HasValidRange()
  {
    Report(row.leaf, row.subleaf, row.register, row.startbit, row.stopbit,
           ExtractValue(regs.Get(row.register), row), row.name)
  }

  /**
   * A row's subleaf is supported when it is at most the maximum subleaf that
   * subleaf 0 of the row's leaf reports in EAX.
   */
  predicate Supported(query: CpuidOracle, q: CpuidQuery)
  {
    q.subleaf <= query(q.leaf, 0).eax
  }

  /**
   * Reference meaning of the walk over the first `n` rows: every supported
   * row, in table order, reported from the query for that row's own
   * (leaf, subleaf); every other row left out.
   */
  function ShownRows(table: seq<CpuidFeature>, query: CpuidOracle, n: nat): seq<Report>
    requires WellFormed(table) && n <= |table| - 1
  {
    if n == 0 then []
    else
      var row := table[n - 1];
      ShownRows(table, query, n - 1) +
        if Supported(query, QueryOf(row)) then [ReportOf(row, query(row.leaf, row.subleaf))] else []
  }

  /** The number of supported rows among the first `n`. */
  function CountShown(table: seq<CpuidFeature>, query: CpuidOracle, n: nat): nat
    requires n <= |table|
  {
    if n == 0 then 0
    else CountShown(table, query, n - 1) + if Supported(query, QueryOf(table[n - 1])) then 1 else 0
  }

  /**
   * ShownRows holds one report per supported row, and the report of the
   * supported row `i` sits at position CountShown(i), so the reports are in
   * table order.
   */
  lemma {:induction false} ShownRowsAt(table: seq<CpuidFeature>, query: CpuidOracle, n: nat, i: nat)
    requires WellFormed(table) && n <= |table| - 1
    ensures |ShownRows(table, query, n)| == CountShown(table, query, n)
    ensures i < n && Supported(query, QueryOf(table[i])) ==>
      CountShown(table, query, i) < |ShownRows(table, query, n)| &&
      ShownRows(table, query, n)[CountShown(table, query, i)] ==
        ReportOf(table[i], query(table[i].leaf, table[i].subleaf))
  {
    if n > 0 {
      ShownRowsAt(table, query, n - 1, i);
      if i < n - 1 && Supported(query, QueryOf(table[i])) {
        CountShownMonotone(table, query, i + 1, n - 1);
      }
    }
  }

  /** CountShown never decreases along the table. */
  lemma {:induction false} CountShownMonotone(table: seq<CpuidFeature>, query: CpuidOracle, m: nat, n: nat)
    requires m <= n <= |table|
    ensures CountShown(table, query, m) <= CountShown(table, query, n)
    decreases n
  {
    if m < n {
      CountShownMonotone(table, query, m, n - 1);
    }
  }

  /**
   * Reference meaning of the queries issued over the first `n` rows: the
   * query for row 0, issued before the walk, then the query of each row whose
   * (leaf, subleaf) differs from the last query issued and whose subleaf is
   * supported.
   */
  function IssuedQueries(table: seq<CpuidFeature>, query: CpuidOracle, n: nat): (calls: seq<CpuidQuery>)
    requires 0 < |table| && n <= |table| - 1
    ensures 0 < |calls| && calls[0] == QueryOf(table[0])
  {
    if n == 0 then [QueryOf(table[0])]
    else
      var calls := IssuedQueries(table, query, n - 1);
      var q := QueryOf(table[n - 1]);
      if q != calls[|calls| - 1] && Supported(query, q) then calls + [q] else calls
  }

  /** Every query issued is for a supported subleaf (the first one, for row 0, needs WellFormed). */
  lemma {:induction false} IssuedAreSupported(table: seq<CpuidFeature>, query: CpuidOracle, n: nat)
    requires WellFormed(table) && n <= |table| - 1
    ensures forall k :: 0 <= k < |IssuedQueries(table, query, n)| ==> Supported(query, IssuedQueries(table, query, n)[k])
  {
    if n == 0 {
      assert OpensAtSubleafZero(table, 0);
    } else {
      IssuedAreSupported(table, query, n - 1);
    }
  }

  /** Two queries in a row are never the same: a query is issued only when the pair changes. */
  lemma {:induction false} IssuedChangeEachTime(table: seq<CpuidFeature>, query: CpuidOracle, n: nat)
    requires 0 < |table| && n <= |table| - 1
    ensures forall k :: 0 < k < |IssuedQueries(table, query, n)| ==>
      IssuedQueries(table, query, n)[k - 1] != IssuedQueries(table, query, n)[k]
  {
    if n > 0 {
      IssuedChangeEachTime(table, query, n - 1);
    }
  }

  /** The last query issued over the first `n` rows is the query of one of them (row 0 when `n` is 0). */
  lemma {:induction false} LastIssuedRow(table: seq<CpuidFeature>, query: CpuidOracle, n: nat) returns (m: nat)
    requires 0 < |table| && n <= |table| - 1
    ensures m == 0 || m < n
    ensures m < |table| && Last(IssuedQueries(table, query, n)) == QueryOf(table[m])
  {
    if n == 0 {
      m := 0;
    } else {
      var calls := IssuedQueries(table, query, n - 1);
      if calls != IssuedQueries(table, query, n) {
        m := n - 1;
      } else {
        m := LastIssuedRow(table, query, n - 1);
      }
    }
  }

  /** The last element of a non-empty sequence. */
  function Last<T>(s: seq<T>): T
    requires 0 < |s|
  {
    s[|s| - 1]
  }

  /** The query of every supported row among the first `n` has been issued. */
  lemma {:induction false} SupportedRowsIssued(table: seq<CpuidFeature>, query: CpuidOracle, n: nat)
    requires 0 < |table| && n <= |table| - 1
    ensures forall i :: 0 <= i < n && Supported(query, QueryOf(table[i])) ==>
      QueryOf(table[i]) in IssuedQueries(table, query, n)
  {
    if n > 0 {
      SupportedRowsIssued(table, query, n - 1);
      var calls := IssuedQueries(table, query, n - 1);
      forall i | 0 <= i < n && Supported(query, QueryOf(table[i]))
        ensures QueryOf(table[i]) in IssuedQueries(table, query, n)
      {
        if i < n - 1 {
          assert QueryOf(table[i]) in calls;
        } else if QueryOf(table[i]) == calls[|calls| - 1] {
          assert QueryOf(table[i]) in calls;
        }
      }
    }
  }

  /** The query of one of the first `max(n, 1)` rows: the rows that have been reached. */
  predicate ReachedQuery(table: seq<CpuidFeature>, n: nat, q: CpuidQuery)
  {
    exists i :: 0 <= i < |table| && (i == 0 || i < n) && q == QueryOf(table[i])
  }

  /** The walk queries only what the table asks for, and at most once per row after the first query. */
  lemma {:induction false} IssuedFromRows(table: seq<CpuidFeature>, query: CpuidOracle, n: nat)
    requires 0 < |table| && n <= |table| - 1
    ensures |IssuedQueries(table, query, n)| <= n + 1
    ensures forall q :: q in IssuedQueries(table, query, n) ==> ReachedQuery(table, n, q)
  {
    if n == 0 {
      assert ReachedQuery(table, n, QueryOf(table[0]));
    } else {
      IssuedFromRows(table, query, n - 1);
      forall q | q in IssuedQueries(table, query, n)
        ensures ReachedQuery(table, n, q)
      {
        if q in IssuedQueries(table, query, n - 1) {
          var i :| 0 <= i < |table| && (i == 0 || i < n - 1) && q == QueryOf(table[i]);
        } else {
          assert q == QueryOf(table[n - 1]);
        }
      }
    }
  }

  /** Every report shown is for a supported subleaf. */
  lemma {:induction false} ShownAreSupported(table: seq<CpuidFeature>, query: CpuidOracle, n: nat)
    requires WellFormed(table) && n <= |table| - 1
    ensures forall r :: r in ShownRows(table, query, n) ==> Supported(query, CpuidQuery(r.leaf, r.subleaf))
  {
    if n > 0 {
      ShownAreSupported(table, query, n - 1);
    }
  }

  /** Row 0 and the first row of every later leaf read subleaf 0, so they are always shown. */
  lemma LeafStartShown(table: seq<CpuidFeature>, query: CpuidOracle, i: nat)
    requires WellFormed(table) && i < |table| - 1 && StartsLeaf(table, i)
    ensures Supported(query, QueryOf(table[i]))
  {
    assert OpensAtSubleafZero(table, i);
  }

  /** No query in the sequence repeats. */
  predicate NoRepeats(calls: seq<CpuidQuery>)
  {
    forall k, l :: 0 <= k < l < |calls| ==> calls[k] != calls[l]
  }

  /**
   * When rows sharing a query stand together, no query is issued twice, and
   * every query before the last one is finished: no row from `n` on asks for it.
   */
  lemma {:induction false} IssuedOnce(table: seq<CpuidFeature>, query: CpuidOracle, n: nat)
    requires QueriesContiguous(table) && 0 < |table| && n <= |table| - 1
    ensures NoRepeats(IssuedQueries(table, query, n))
    ensures forall k, j :: 0 <= k < |IssuedQueries(table, query, n)| - 1 && n <= j < |table| - 1 ==>
      IssuedQueries(table, query, n)[k] != QueryOf(table[j])
  {
    if n > 0 {
      IssuedOnce(table, query, n - 1);
      var calls := IssuedQueries(table, query, n - 1);
      var q := QueryOf(table[n - 1]);
      if calls != IssuedQueries(table, query, n) {
        var m := LastIssuedRow(table, query, n - 1);
        FinishedQuery(table, m, n - 1, Last(calls));
      }
    }
  }

  /**
   * AmxDetection_DisplayAmxFeatures. `reports` are the lines displayed and
   * `calls` the CPUID queries issued, in order.
   */
  method DisplayAmxFeatures(table: seq<CpuidFeature>, query: CpuidOracle)
    returns (reports: seq<Report>, ghost calls: seq<CpuidQuery>)
    requires WellFormed(table)
    ensures reports == ShownRows(table, query, |table| - 1)
    ensures calls == IssuedQueries(table, query, |table| - 1)
  {
    var index: nat := 0;
    assert OpensAtSubleafZero(table, index);
    var regs := query(table[index].leaf, table[index].subleaf);
    calls := [QueryOf(table[index])];
    var maximumSubleaf: uint32 := regs.eax;
    var currentLeaf: uint32 := table[index].leaf;
    var currentSubleaf: uint32 := table[index].subleaf;
    reports := [];
    var done := false;

    while !done
      invariant index < |table| && (done <==> index == |table| - 1)
      // the cursor: the cached registers answer the current pair, and the
      // maximum subleaf is that of the current leaf
      invariant regs == query(currentLeaf, currentSubleaf)
      invariant maximumSubleaf == query(currentLeaf, 0).eax
      invariant currentSubleaf <= maximumSubleaf
      invariant index > 0 ==> currentLeaf == table[index - 1].leaf
      invariant reports == ShownRows(table, query, index)
      invariant calls == IssuedQueries(table, query, index)
      invariant Last(calls) == CpuidQuery(currentLeaf, currentSubleaf)
      decreases |table| - index
    {
      var row := table[index];
      var displayIsValid := true;
      if currentLeaf != row.leaf {
        // a new leaf: its first row has subleaf 0, whose EAX is the maximum subleaf
        assert OpensAtSubleafZero(table, index);
        regs := query(row.leaf, row.subleaf);
        calls := calls + [QueryOf(row)];
        currentLeaf := row.leaf;
        currentSubleaf := row.subleaf;
        maximumSubleaf := regs.eax;
      } else if currentSubleaf != row.subleaf {
        // a new subleaf of the current leaf: query it only if the leaf supports it
        displayIsValid := false;
        if maximumSubleaf >= row.subleaf {
          regs := query(currentLeaf, row.subleaf);
          calls := calls + [QueryOf(row)];
          currentSubleaf := row.subleaf;
          displayIsValid := true;
        }
      }
      assert displayIsValid <==> Supported(query, QueryOf(row));
      if displayIsValid {
        var value := ExtractValue(regs.Get(row.register), row);
        reports := reports + [Report(currentLeaf, currentSubleaf, row.register, row.startbit, row.stopbit, value, row.name)];
      }
      index := index + 1;
      done := table[index].leaf == INVALID_LEAF;
    }
  }

  /**
   * With contiguous queries, once the walk moves from the query of row `m`
   * to a different query at row `i`, no later row has the query of row `m`.
   */
  lemma FinishedQuery(table: seq<CpuidFeature>, m: nat, i: nat, q: CpuidQuery)
    requires QueriesContiguous(table) && m <= i < |table| - 1
    requires q == QueryOf(table[m]) && q != QueryOf(table[i])
    ensures forall j :: i <= j < |table| - 1 ==> QueryOf(table[j]) != q
  {
    forall j | i <= j < |table| - 1
      ensures QueryOf(table[j]) != q
    {
      if j > i {
        assert QueryKeptBetween(table, m, i, j);
      }
    }
  }
}
