/**
 * The OS-support detector: whether the platform has XSAVE, whether the OS
 * has enabled it, and whether the OS has switched on both AMX state
 * components in XCR0. Each gate ends the check when it fails.
 *
 * XGETBV is an oracle like CPUID: a deterministic function from the XCR
 * number to the 64-bit register value.
 */
module OsSupport {
  import opened CpuidBits
  import opened FeatureTable
  import opened FeatureDecoder

  /** XCR0 bit 17: the tile configuration state (XTILECFG). */
  const XSAVE_TILE_CONFIG_STATE: bv64 := 1 << 17
  /** XCR0 bit 18: the tile data state (XTILEDATA). */
  const XSAVE_TILE_DATA_STATE: bv64 := 1 << 18
  /** Both AMX state components. */
  const XSAVE_AMX_STATE: bv64 := XSAVE_TILE_CONFIG_STATE | XSAVE_TILE_DATA_STATE

  /** XGETBV as seen by the detector: the XCR number to the register's 64 bits. */
  type XgetbvOracle = uint32 -> bv64

  /** One use of the hardware oracles. */
  datatype OracleCall = Cpuid(query: CpuidQuery) | Xgetbv(xcr: uint32)

  /** The four verdicts the detector can reach. */
  datatype OsSupport = PlatformNoXsave | OsNoXsave | AmxStateNotEnabled | AmxStateEnabled

  /** A verdict together with the oracle calls made to reach it. */
  datatype Detection = Detection(support: OsSupport, calls: seq<OracleCall>)

  /** CPUID.01H:ECX[26]: the processor supports XSAVE, XGETBV and XCR0. */
  predicate XsaveSupported(query: CpuidOracle)
  {
    IsSet(query(1, 0).ecx as bv32, 26)
  }

  /** CPUID.01H:ECX[27]: the OS has enabled XGETBV and XSAVE state management. */
  predicate OsXsaveEnabled(query: CpuidOracle)
  {
    IsSet(query(1, 0).ecx as bv32, 27)
  }

  /** Both AMX state components, XCR0 bits 17 and 18, are enabled. */
  predicate AmxStateSet(xcr0: bv64)
  {
    xcr0 & XSAVE_TILE_CONFIG_STATE != 0 && xcr0 & XSAVE_TILE_DATA_STATE != 0
  }

  /**
   * AmxDetection_DetectOsSupport. XGETBV is read only when both XSAVE bits
   * are set, and the verdict is the first gate that fails, or
   * AmxStateEnabled when none does.
   */
  function DetectOsSupport(query: CpuidOracle, xgetbv: XgetbvOracle): (d: Detection)
    ensures d.calls == if XsaveSupported(query) && OsXsaveEnabled(query)
                       then [Cpuid(CpuidQuery(1, 0)), Xgetbv(0)]
                       else [Cpuid(CpuidQuery(1, 0))]
    ensures d.support == PlatformNoXsave <==> !XsaveSupported(query)
    ensures d.support == OsNoXsave <==> XsaveSupported(query) && !OsXsaveEnabled(query)
    ensures d.support == AmxStateNotEnabled <==>
      XsaveSupported(query) && OsXsaveEnabled(query) && !AmxStateSet(xgetbv(0))
    ensures d.support == AmxStateEnabled <==>
      XsaveSupported(query) && OsXsaveEnabled(query) && AmxStateSet(xgetbv(0))
  {
    var ecx := query(1, 0).ecx as bv32;
    if BitCheck(ecx, 26) == 1 then
      if BitCheck(ecx, 27) == 1 then
        var xcr0 := xgetbv(0);
        var calls := [Cpuid(CpuidQuery(1, 0)), Xgetbv(0)];
        AmxStateMask(xcr0);
        if xcr0 & XSAVE_AMX_STATE == XSAVE_AMX_STATE then
          Detection(AmxStateEnabled, calls)
        else
          Detection(AmxStateNotEnabled, calls)
      else
        Detection(OsNoXsave, [Cpuid(CpuidQuery(1, 0))])
    else
      Detection(PlatformNoXsave, [Cpuid(CpuidQuery(1, 0))])
  }

  /** The AMX state mask is exactly bits 17 and 18 of XCR0. */
  lemma AmxStateMask(xcr0: bv64)
    ensures XSAVE_AMX_STATE == 0x6_0000
    ensures xcr0 & XSAVE_AMX_STATE == XSAVE_AMX_STATE <==> AmxStateSet(xcr0)
  {
  }
}
