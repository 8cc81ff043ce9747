# Intel AMX detection, modelled in Dafny

This project models the core of the Intel AMX detection tool. The tool asks
the processor, through CPUID, whether it has the Advanced Matrix Extensions
(AMX). It then prints the AMX feature bits and tile parameters and checks
whether the operating system has enabled the AMX register state in XCR0.

The model has five modules:

- `CpuidBits` (`cpuid_bits.dfy`): the header's bit helpers
  `BIT_CHECK`, `BIT_FIELD_CHECK` and `CREATE_BITMASK` as `bv32` functions,
  the `REGISTER_NAME` ordinals and the four-slot `CPUID_REGISTERS` layout.
- `FeatureTable` (`feature_table.dfy`):
  - the `CPUID_FEATURE` row and the sentinel leaf `INVALID_LEAF = 0xFFFFFFFF`;
  - the rules the decoder relies on (`WellFormed`);
  - the shipped table `g_AmxFeatureList`, with proofs that it meets those rules.
- `FeatureDecoder` (`feature_decoder.dfy`): `AmxDetection_DisplayAmxFeatures`.
  - It is an imperative method over the table, with the source's cursor
    (`CurrentLeaf`, `CurrentSubleaf`, `MaximumSubleaf`) and cached registers,
    and a ghost trace of the CPUID queries it issues.
  - The method is proved equal to two reference functions: `ShownRows`, the
    reports, and `IssuedQueries`, the queries.
  - Lemmas prove what those functions promise.
- `OsSupport` (`os_support.dfy`): `AmxDetection_DetectOsSupport` as a pure
  function with three gates: XSAVE, OSXSAVE, then XCR0 bits 17 and 18.
- `Driver` (`driver.dfy`): the gating in `main`, as the pure
  classification `Classify`. `Run` then calls the decoder on the shipped
  table, then the detector.

The hardware is modelled as two deterministic oracles that are parameters of
the operations:
- `CpuidOracle` maps (leaf, subleaf) to EAX, EBX, ECX and EDX;
- `XgetbvOracle` maps an XCR number to its 64 bits.

The OS wrappers that execute CPUID and XGETBV (`amx_os_linux.c`,
`amx_os_windows.c`) are not part of this model.

Registers and table fields are C `unsigned int` values: the subset type
`uint32` of `int`. They are converted to `bv32` only where a bit helper
is applied.

The decoder's main characterisation:
- A row is shown exactly when its subleaf is at most the EAX of subleaf 0 of
  its leaf (`Supported`).
- Its value is taken from the query for that row's own (leaf, subleaf).
- The queries are:
  - row 0's query, issued before the walk;
  - then a query for each row whose pair differs from the last query issued
    and whose subleaf is supported.
  So an unsupported subleaf is never queried. When rows sharing a query
  stand together, which holds for the shipped table because it is sorted by
  (leaf, subleaf), no query is issued twice.

On `BIT_CHECK(0x1, 24)`, descriptions of this tool disagree with the code.
Some say it yields 1; the macro as written yields 0, because it keeps only
bit 24 of the value. The model follows the macro: see
`CpuidBits.HelperExamples`.

The decoder needs fewer table rules than the comment at
`amx_detection.c:42-43` suggests. It needs only these:
- a sentinel closes the table;
- every bit range lies in 0..31;
- every run of a leaf starts at subleaf 0.

That rows of one query stand together (`QueriesContiguous`) is only needed
for the "each query once" property, so it is a hypothesis of `IssuedOnce`
rather than part of `WellFormed`. The register ordinal always lies in 0..3
because `RegisterName` has exactly four values.

## Model

| member | source | states |
|---|---|---|
| CpuidBits.RegisterName.Ordinal | amx_detection.h:24-29 | every register name has an ordinal among the four slots 0..3 |
| CpuidBits.CpuidRegisters.Get | amx_detection.h:31-43 | reading slot `Register` of the union gives the matching named field: EAX for RegisterEax through EDX for RegisterEdx |
| CpuidBits.BitCheck | amx_detection.h:20 | BIT_CHECK is 1 when bit `b` of the value is set and 0 otherwise |
| CpuidBits.CreateBitmask | amx_detection.h:22 | CREATE_BITMASK has exactly the bits `start..stop` set, the 32-bit wrap-around of `1<<31` included |
| CpuidBits.BitFieldCheck | amx_detection.h:21 | BIT_FIELD_CHECK fits in `stop-start+1` bits; a one-bit field equals BIT_CHECK; the field 0..31 is the whole value |
| CpuidBits.HelperExamples | amx_detection.h:20-22 | BIT_FIELD_CHECK(0xFFFFFFFF, 4, 7) = 0xF; BIT_CHECK(1, 24) = 0, BIT_CHECK(1, 0) = 1; the masks for 0..31, 31..31 and 8..23 |
| CpuidBits.LowFieldShapes | amx_detection.h:21 | the fields 0..15 and 0..7 used by the table are the value masked with 0xFFFF and 0xFF |
| CpuidBits.ShiftedFieldShapes | amx_detection.h:21 | the field 16..31 is the value shifted right by 16; the field 8..23 is the value shifted right by 8 and masked with 0xFFFF |
| FeatureTable.SortedRowLe | amx_detection.c:42-45 | in a table whose neighbours are in (leaf, subleaf) order, every earlier row is at most every later row |
| FeatureTable.SortedIsContiguous | amx_detection.c:42-45 | a table sorted by (leaf, subleaf) keeps all rows of one query together |
| FeatureTable.AmxFeatureListSortedLow | amx_detection.c:45-69 | the rows of leaves 07H and 1DH of g_AmxFeatureList are in (leaf, subleaf) order |
| FeatureTable.AmxFeatureListSortedHigh | amx_detection.c:65-78 | the rows of leaf 1EH of g_AmxFeatureList are in (leaf, subleaf) order |
| FeatureTable.AmxFeatureListRows | amx_detection.c:36-84 | g_AmxFeatureList has 22 rows and the sentinel; no real row is a sentinel; every range lies in 0..31; each leaf's first row has subleaf 0 |
| FeatureTable.AmxFeatureListWellFormed | amx_detection.c:42-84 | g_AmxFeatureList meets every rule the decoder relies on, and its rows of one query stand together |
| FeatureDecoder.ExtractValue | amx_detection.c:305-320 | the value shown is the bit field `startbit..stopbit` of the register; a one-bit row shows 0 or 1 according to that bit; the range 0..31 shows the whole register |
| FeatureDecoder.ShownRowsAt | amx_detection.c:303-328 | the reports hold one entry per supported row; supported row `i` is reported at position CountShown(i), so reports follow table order, each from `query(row.leaf, row.subleaf)` |
| FeatureDecoder.CountShownMonotone | amx_detection.c:303-327 | the number of reported rows never decreases along the table |
| FeatureDecoder.ShownAreSupported | amx_detection.c:283-303 | every report is for a subleaf at most the leaf's maximum subleaf, so rows of an unsupported subleaf are never shown |
| FeatureDecoder.LeafStartShown | amx_detection.c:257-277 | row 0 and the first row of every new leaf are always shown |
| FeatureDecoder.IssuedQueries | amx_detection.c:248 | the first query issued is the one for row 0 |
| FeatureDecoder.IssuedAreSupported | amx_detection.c:283-296 | no query is issued for a subleaf above the leaf's maximum subleaf |
| FeatureDecoder.IssuedChangeEachTime | amx_detection.c:262-297 | two consecutive queries always differ: a query is issued only when the (leaf, subleaf) pair changes |
| FeatureDecoder.LastIssuedRow | amx_detection.c:262-297 | the cached pair is always the query of a row already reached |
| FeatureDecoder.IssuedFromRows | amx_detection.c:248-297 | at most one query per row after the first, and only for pairs of rows already reached |
| FeatureDecoder.SupportedRowsIssued | amx_detection.c:262-297 | the query of every supported row is issued |
| FeatureDecoder.IssuedOnce | amx_detection.c:42-45 | when rows sharing a query stand together, no query is issued twice |
| FeatureDecoder.FinishedQuery | amx_detection.c:42-45 | with contiguous queries, a query the walk has left is not needed by any later row |
| FeatureDecoder.DisplayAmxFeatures | amx_detection.c:230-329 | the walk up to the sentinel produces exactly ShownRows and issues exactly IssuedQueries; the loop keeps MaximumSubleaf equal to EAX of subleaf 0 of the current leaf and the cached registers equal to the query for the current pair |
| OsSupport.DetectOsSupport | amx_detection.c:170-213 | CPUID(1,0) is always read, XGETBV(0) only when ECX bits 26 and 27 are both set; the verdict is "platform no XSAVE" iff ECX[26] is clear, "OS no XSAVE" iff ECX[26] is set and ECX[27] clear, "AMX state enabled" iff both are set and XCR0 bits 17 and 18 are both set, and "not enabled" otherwise |
| OsSupport.AmxStateMask | amx_detection.c:38-40 | XSAVE_AMX_STATE is 0x60000, and the mask test holds exactly when XCR0 bits 17 and 18 are both set |
| Driver.Classify | amx_detection.c:105-151 | CPUID(0,0) is always read and CPUID(7,0) only when MAX_LEAF >= 7; not supported iff MAX_LEAF < 7 or EDX[24] of leaf 7 is clear; invalid reporting iff EDX[24] is set and 7 <= MAX_LEAF < 1EH; the AMX leaves are read iff EDX[24] is set and MAX_LEAF >= 1EH |
| Driver.AmxFeatureListLeaves | amx_detection.c:45-84 | every row of g_AmxFeatureList asks for a leaf no higher than 1EH |
| Driver.AmxDecoderQueries | amx_detection.c:241-246 | on the shipped table the decoder queries only leaves up to 1EH and only supported subleaves, and never the same query twice |
| Driver.DecoderStaysBelowMaxLeaf | amx_detection.c:133-135 | when MAX_LEAF is at least 1EH, the condition under which `main` runs the decoder, the decoder never asks for a leaf above MAX_LEAF |
| Driver.Run | amx_detection.c:105-154 | the outcome is the gates' verdict; when they pass it carries the decoder's reports and the detector's verdict; the oracle calls are the gates', then the decoder's, then the detector's |

## Left out

- Console output: the `printf` lines of the decoder, the detector and the driver. Reports become `Report` records and verdicts become datatypes. The format strings, and the register name strings used in them, are not modelled.
- The feature descriptions of `g_AmxFeatureList`: they are display text only. The names are kept.
- `Os_Platform_Read_Cpuid` and `Os_Platform_Read_xgetbv`: inline assembly and compiler intrinsics, modelled as the two oracles. `Os_Platform_Permissions_Request_Read_xgetbv` is never called and is not part of this model.
- C's signed `1<<31` in the macros, which is undefined behaviour in C: the helpers are modelled in unsigned 32-bit arithmetic, where it is the bit pattern 0x80000000.
- The process exit code, which is always 0, and `argc`/`argv`, which are unused.
- CpuidBits.BitFieldCheck: states the width bound and the one-bit and 0..31 cases. For arbitrary ranges it does not state that bit `i` of the result is bit `start+i` of the value. That fact is proved only for the four field shapes the shipped table uses (`LowFieldShapes`, `ShiftedFieldShapes`).
- FeatureDecoder.ExtractValue: inherits the BitFieldCheck limitation above for fields other than one bit and 0..31.
