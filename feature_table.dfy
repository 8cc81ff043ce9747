/**
 * The AMX feature table: one row per reported CPUID bit or bit field, in the
 * order the decoder walks them, closed by a sentinel row whose leaf is
 * INVALID_LEAF.
 */
module FeatureTable {
  import opened CpuidBits

  /** The reserved leaf number that marks the end of the table. */
  const INVALID_LEAF: uint32 := 0xFFFF_FFFF

  /** One row: which query, which register, which bits, and the feature's name. */
  datatype CpuidFeature = CpuidFeature(
    leaf: uint32,
    subleaf: uint32,
    register: RegisterName,
    startbit: uint32,
    stopbit: uint32,
    name: string)
  {
    /** The bit range lies inside a 32-bit register and is not empty. */
    predicate HasValidRange()
    {
      startbit <= stopbit <= 31
    }

    /** The first bit, as a bit position. */
    function Start(): (b: BitIndex)
      requires HasValidRange()
      ensures b as int == startbit
    {
      startbit as BitIndex
    }

    /** The last bit, as a bit position. */
    function Stop(): (b: BitIndex)
      requires HasValidRange()
      ensures b as int == stopbit && Start() <= b
    {
      stopbit as BitIndex
    }
  }

  /** The CPUID query a row is answered by. */
  datatype CpuidQuery = CpuidQuery(leaf: uint32, subleaf: uint32)

  function QueryOf(row: CpuidFeature): CpuidQuery
  {
    CpuidQuery(row.leaf, row.subleaf)
  }

  /** Row `i` opens a run of rows of its leaf. */
  predicate StartsLeaf(table: seq<CpuidFeature>, i: nat)
    requires i < |table|
  {
    i == 0 || table[i - 1].leaf != table[i].leaf
  }

  /** A row that opens a run of its leaf reads subleaf 0. */
  predicate OpensAtSubleafZero(table: seq<CpuidFeature>, i: nat)
    requires i < |table|
  {
    StartsLeaf(table, i) ==> table[i].subleaf == 0
  }

  /** Rows `i` and `k` share a query only if row `j`, between them, has it too. */
  predicate QueryKeptBetween(table: seq<CpuidFeature>, i: nat, j: nat, k: nat)
    requires i < j < k < |table|
  {
    QueryOf(table[i]) == QueryOf(table[k]) ==> QueryOf(table[j]) == QueryOf(table[i])
  }

  /** All rows that share a query stand together (the sentinel excluded). */
  predicate QueriesContiguous(table: seq<CpuidFeature>)
  {
    forall i: nat, j: nat, k: nat :: i < j < k < |table| - 1 ==> QueryKeptBetween(table, i, j, k)
  }

  /**
   * What the decoder relies on: the sentinel closes the table and nothing
   * before it is a sentinel, there is at least one real row, every bit range
   * fits a register, and each run of a leaf starts with subleaf 0, whose EAX
   * gives the leaf's maximum subleaf.
   */
  predicate WellFormed(table: seq<CpuidFeature>)
  {
    && |table| >= 2
    && table[|table| - 1].leaf == INVALID_LEAF
    && (forall i :: 0 <= i < |table| - 1 ==> table[i].leaf != INVALID_LEAF)
    && (forall i :: 0 <= i < |table| - 1 ==> table[i].HasValidRange())
    && (forall i: nat :: i < |table| - 1 ==> OpensAtSubleafZero(table, i))
  }

  /** Row order by (leaf, subleaf). */
  predicate RowLe(a: CpuidFeature, b: CpuidFeature)
  {
    a.leaf < b.leaf || (a.leaf == b.leaf && a.subleaf <= b.subleaf)
  }

  /** Row `i` and its successor are in (leaf, subleaf) order. */
  predicate InOrderAt(table: seq<CpuidFeature>, i: nat)
    requires i + 1 < |table|
  {
    RowLe(table[i], table[i + 1])
  }

  /** Neighbouring rows (the sentinel excluded) are in (leaf, subleaf) order. */
  predicate SortedByQuery(table: seq<CpuidFeature>)
  {
    forall i: nat :: i + 2 < |table| ==> InOrderAt(table, i)
  }

  /** Order between neighbours extends to every pair of rows. */
  lemma {:induction false} SortedRowLe(table: seq<CpuidFeature>, i: nat, j: nat)
    requires SortedByQuery(table) && i <= j < |table| - 1
    ensures RowLe(table[i], table[j])
    decreases j - i
  {
    if i < j {
      SortedRowLe(table, i, j - 1);
      assert InOrderAt(table, j - 1);
    }
  }

  /** A table sorted by query keeps the rows of each query together. */
  lemma SortedIsContiguous(table: seq<CpuidFeature>)
    requires SortedByQuery(table)
    ensures QueriesContiguous(table)
  {
    forall i: nat, j: nat, k: nat | i < j < k < |table| - 1
      ensures QueryKeptBetween(table, i, j, k)
    {
      SortedRowLe(table, i, j);
      SortedRowLe(table, j, k);
    }
  }

  /** g_AmxFeatureList: leaves 07H, 1DH and 1EH, then the sentinel. */
  const AmxFeatureList: seq<CpuidFeature> := [
    // CPUID 07H: structured extended feature flags
    CpuidFeature(0x07, 0, RegisterEdx, 22, 22, "AMX-BF16"),
    CpuidFeature(0x07, 0, RegisterEdx, 24, 24, "AMX-TILE"),
    CpuidFeature(0x07, 0, RegisterEdx, 25, 25, "AMX-INT8"),
    CpuidFeature(0x07, 1, RegisterEax, 21, 21, "AMX-FP16"),
    CpuidFeature(0x07, 1, RegisterEdx, 8, 8, "AMX-COMPLEX"),
    // CPUID 1DH: tile information
    CpuidFeature(0x1D, 0, RegisterEax, 0, 31, "max_palette"),
    CpuidFeature(0x1D, 1, RegisterEax, 0, 15, "Total Tile Bytes"),
    CpuidFeature(0x1D, 1, RegisterEax, 16, 31, "Bytes Per Tile"),
    CpuidFeature(0x1D, 1, RegisterEbx, 0, 15, "Bytes Per Row"),
    CpuidFeature(0x1D, 1, RegisterEbx, 16, 31, "Max Names"),
    CpuidFeature(0x1D, 1, RegisterEcx, 0, 15, "Max Rows"),
    // CPUID 1EH: TMUL information
    CpuidFeature(0x1E, 0, RegisterEbx, 0, 7, "tmul_maxk"),
    CpuidFeature(0x1E, 0, RegisterEbx, 8, 23, "tmul_maxn"),
    CpuidFeature(0x1E, 1, RegisterEax, 0, 0, "AMX-INT8"),
    CpuidFeature(0x1E, 1, RegisterEax, 1, 1, "AMX-BF16"),
    CpuidFeature(0x1E, 1, RegisterEax, 2, 2, "AMX-COMPLEX"),
    CpuidFeature(0x1E, 1, RegisterEax, 3, 3, "AMX-FP16"),
    CpuidFeature(0x1E, 1, RegisterEax, 4, 4, "AMX-FP8"),
    CpuidFeature(0x1E, 1, RegisterEax, 5, 5, "AMX-TRANSPOSE"),
    CpuidFeature(0x1E, 1, RegisterEax, 6, 6, "AMX-TF32 (FP19)"),
    CpuidFeature(0x1E, 1, RegisterEax, 7, 7, "AMX-AVX512"),
    CpuidFeature(0x1E, 1, RegisterEax, 8, 8, "AMX-MOVRS"),
    // terminal entry
    CpuidFeature(INVALID_LEAF, 0, RegisterEax, 0, 0, "")
  ]

  /** The shipped table is sorted by query: leaf 07H and leaf 1DH. */
  lemma AmxFeatureListSortedLow()
    ensures forall i: nat :: i <= 10 ==> InOrderAt(AmxFeatureList, i)
  {
    forall i: nat | i <= 10 ensures InOrderAt(AmxFeatureList, i) {
      assert i in {0, 1, 2, 3, 4, 5, 6, 7, 8, 9, 10};
    }
  }

  /** The shipped table is sorted by query: leaf 1EH. */
  lemma AmxFeatureListSortedHigh()
    ensures forall i: nat :: 11 <= i <= 20 ==> InOrderAt(AmxFeatureList, i)
  {
    forall i: nat | 11 <= i <= 20 ensures InOrderAt(AmxFeatureList, i) {
      assert i in {11, 12, 13, 14, 15, 16, 17, 18, 19, 20};
    }
  }

  /** Every row of the shipped table before the sentinel is a real row with a valid range. */
  lemma AmxFeatureListRows()
    ensures |AmxFeatureList| == 23 && AmxFeatureList[22].leaf == INVALID_LEAF
    ensures forall i :: 0 <= i < 22 ==>
      AmxFeatureList[i].leaf != INVALID_LEAF && AmxFeatureList[i].HasValidRange()
    ensures forall i: nat :: i < 22 ==> OpensAtSubleafZero(AmxFeatureList, i)
  {
    var t := AmxFeatureList;
    forall i | 0 <= i < 22
      ensures t[i].leaf != INVALID_LEAF && t[i].HasValidRange()
      ensures OpensAtSubleafZero(t, i)
    {
      assert i in {0, 1, 2, 3, 4, 5, 6, 7, 8, 9, 10, 11, 12, 13, 14, 15, 16, 17, 18, 19, 20, 21};
    }
  }

  /** The shipped table meets every ordering rule the decoder relies on. */
  lemma AmxFeatureListWellFormed()
    ensures WellFormed(AmxFeatureList) && QueriesContiguous(AmxFeatureList)
  {
    AmxFeatureListSortedLow();
    AmxFeatureListSortedHigh();
    AmxFeatureListRows();
    SortedIsContiguous(AmxFeatureList);
  }
}
