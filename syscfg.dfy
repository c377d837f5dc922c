/**
 * The SYSCFG register block of the stm32mp1 and the two board routines that
 * program it: the bring-up sequence sysconf_init (interconnect, boot-pin
 * pull-downs, voltage-gated high-speed pads, I/O compensation) and the
 * Ethernet interface selection board_interface_eth_init.
 *
 * The block is a map from byte offset to 32-bit word plus the trace of every
 * write, in order. Hardware facts (PMIC, BSEC and regulator lookups, the OTP
 * word, the supply voltage, the successive CMPCR status reads) are parameters.
 */
module Syscfg {
  import opened Wrappers

  /** A 32-bit register word. */
  type Word = bv32

  /** A byte offset into the block. */
  type Offset = nat

  // Register offsets.
  const BOOTR: Offset := 0x00
  const PMCSETR: Offset := 0x04
  const IOCTRLSETR: Offset := 0x18
  const ICNR: Offset := 0x1C
  const CMPCR: Offset := 0x20
  const CMPENSETR: Offset := 0x24
  const PMCCLRR: Offset := 0x44

  // BOOTR: the boot-pin field and the pull-down field four bits above it.
  const BOOTR_BOOT_MASK: Word := 0x7
  const BOOTR_BOOTPD_MASK: Word := 0x70

  /** ICNR: route the LTDC and GPU masters through AXI port 1 (bit 9). */
  const ICNR_PORT1: Word := 0x200

  /** IOCTRLSETR: HSLVEN for TRACE, QUADSPI, ETH, SDMMC and SPI (bits 0..4). */
  const HSLVEN_ALL: Word := 0x1F

  // CMPCR and CMPENSETR.
  const CMPCR_SW_CTRL: Word := 0x2
  const CMPCR_READY: Word := 0x100
  const CMPENSETR_MPU_EN: Word := 0x1

  // PMCSETR / PMCCLRR Ethernet fields.
  const ETH_CLK_SEL: Word := 0x1_0000
  const ETH_REF_CLK_SEL: Word := 0x2_0000
  const ETH_SELMII: Word := 0x10_0000
  const ETH_SEL_MASK: Word := 0xE0_0000
  const ETH_SEL_GMII_MII: Word := 0
  const ETH_SEL_RGMII: Word := 0x20_0000
  const ETH_SEL_RMII: Word := 0x80_0000
  /** Every Ethernet configuration bit: what PMCCLRR is written with. */
  const ETH_CLEAR_MASK: Word := ETH_SEL_MASK | ETH_SELMII | ETH_REF_CLK_SEL | ETH_CLK_SEL

  /** OTP word 18, bit 13: product_below_2v5. */
  const OTP_PRODUCT_BELOW_2V5: Word := 0x2000

  /** The supply ceiling, in microvolts, below which HSLVEN may be set. */
  const VDD_CEILING_UV: int := 2700000

  const ENODEV: int := 19
  const EINVAL: int := 22

  /** One 32-bit register write. */
  datatype Write = Write(offset: Offset, value: Word)

  /** The register contents after the writes ws, in order. */
  function Apply(regs: map<Offset, Word>, ws: seq<Write>): (r: map<Offset, Word>)
    ensures regs.Keys <= r.Keys
  {
    if ws == [] then regs
    else
      var last := ws[|ws| - 1];
      Apply(regs, ws[..|ws| - 1])[last.offset := last.value]
  }

  lemma ApplySnoc(regs: map<Offset, Word>, ws: seq<Write>, w: Write)
    ensures Apply(regs, ws + [w]) == Apply(regs, ws)[w.offset := w.value]
  {
    assert (ws + [w])[..|ws|] == ws;
  }

  lemma {:induction false} ApplyAppend(regs: map<Offset, Word>, a: seq<Write>, b: seq<Write>)
    ensures Apply(regs, a + b) == Apply(Apply(regs, a), b)
    decreases |b|
  {
    if b == [] {
      assert a + b == a;
    } else {
      var b' := b[..|b| - 1];
      ApplyAppend(regs, a, b');
      assert a + b == (a + b') + [b[|b| - 1]];
      ApplySnoc(regs, a + b', b[|b| - 1]);
      assert b == b' + [b[|b| - 1]];
      ApplySnoc(Apply(regs, a), b', b[|b| - 1]);
    }
  }

  /**
   * After writes ws a register holds the value of the last write to it, or
   * its old value when ws never writes it.
   */
  lemma {:induction false} ApplyLastWriteWins(regs: map<Offset, Word>, ws: seq<Write>, o: Offset)
    requires o in regs
    ensures (forall i :: 0 <= i < |ws| ==> ws[i].offset != o) ==> Apply(regs, ws)[o] == regs[o]
    ensures forall i :: 0 <= i < |ws| && ws[i].offset == o && (forall j :: i < j < |ws| ==> ws[j].offset != o) ==>
      Apply(regs, ws)[o] == ws[i].value
  {
    if ws != [] {
      var init := ws[..|ws| - 1];
      var last := ws[|ws| - 1];
      ApplyLastWriteWins(regs, init, o);
      assert Apply(regs, ws) == Apply(regs, init)[last.offset := last.value];
      if last.offset != o {
        assert Apply(regs, ws)[o] == Apply(regs, init)[o];
        if forall i :: 0 <= i < |ws| ==> ws[i].offset != o {
          assert forall i :: 0 <= i < |init| ==> init[i].offset != o by {
            forall i | 0 <= i < |init| ensures init[i].offset != o {
              assert init[i] == ws[i];
            }
          }
        }
      }
      forall i | 0 <= i < |ws| && ws[i].offset == o && (forall j :: i < j < |ws| ==> ws[j].offset != o)
        ensures Apply(regs, ws)[o] == ws[i].value
      {
        if i < |ws| - 1 {
          assert last.offset != o;
          assert init[i] == ws[i];
          assert forall j :: i < j < |init| ==> init[j].offset != o by {
            forall j | i < j < |init| ensures init[j].offset != o {
              assert init[j] == ws[j];
            }
          }
        }
      }
    }
  }

  /** The register block, with the trace of the writes made to it. */
  class RegisterBlock {
    var regs: map<Offset, Word>
    var writes: seq<Write>

    constructor (initial: map<Offset, Word>)
      ensures regs == initial && writes == []
    {
      regs := initial;
      writes := [];
    }

    /** writel: store value at offset and record the write. */
    method Write32(offset: Offset, value: Word)
      modifies this
      ensures regs == old(regs)[offset := value]
      ensures writes == old(writes) + [Write(offset, value)]
    {
      regs := regs[offset := value];
      writes := writes + [Write(offset, value)];
    }
  }

  /**
   * The BOOTR rewrite: the pull-down field (bits 6..4) takes the value of the
   * boot-pin field (bits 2..0); every other bit is kept.
   */
  function BootrRewrite(bootr: Word): (r: Word)
    ensures (r & BOOTR_BOOTPD_MASK) >> 4 == bootr & BOOTR_BOOT_MASK
    ensures r & !BOOTR_BOOTPD_MASK == bootr & !BOOTR_BOOTPD_MASK
  {
    var cleared := bootr & !(BOOTR_BOOT_MASK << 4);
    cleared | ((cleared & BOOTR_BOOT_MASK) << 4)
  }

  /** The CMPCR update once compensation is ready: SW_CTRL cleared, every other bit kept. */
  function ReleaseSwCtrl(cmpcr: Word): (r: Word)
    ensures r & CMPCR_SW_CTRL == 0
    ensures r & !CMPCR_SW_CTRL == cmpcr & !CMPCR_SW_CTRL
  {
    cmpcr & !CMPCR_SW_CTRL
  }

  predicate Ready(cmpcr: Word) {
    cmpcr & CMPCR_READY != 0
  }

  /** Status reads that reach READY and then supply the read of the final update. */
  predicate PollFeed(status: seq<Word>) {
    exists k :: 0 <= k && k + 1 < |status| && Ready(status[k])
  }

  /** The index of the first CMPCR read with READY set. */
  function FirstReady(status: seq<Word>): (k: nat)
    requires exists k :: 0 <= k < |status| && Ready(status[k])
    ensures k < |status| && Ready(status[k])
    ensures forall j :: 0 <= j < k ==> !Ready(status[j])
  {
    if Ready(status[0]) then 0
    else
      assert exists k :: 0 <= k < |status[1..]| && Ready(status[1..][k]) by {
        var k :| 0 <= k < |status| && Ready(status[k]);
        assert k > 0 && Ready(status[1..][k - 1]);
      }
      1 + FirstReady(status[1..])
  }

  /**
   * The facts sysconf_init consumes: the two build options and the answers
   * of the PMIC, BSEC, OTP and regulator drivers.
   */
  datatype Platform = Platform(
    trusted: bool,      // CONFIG_STM32MP1_TRUSTED: the whole sequence is compiled out
    dmRegulator: bool,  // CONFIG_DM_REGULATOR: the HSLVEN block is compiled in
    pmicFound: bool,    // the stm32mp_pwr_pmic device exists
    bsecFound: bool,    // the stm32mp_bsec device exists
    otpRet: int,        // return value of the OTP word 18 read (> 0 is success)
    otpWord: Word,      // the word that read delivers
    vddFound: bool,     // the PMIC has a vdd-supply regulator
    vddValue: int)      // what reading that regulator returns: microvolts or a negative error

  /** The HSLVEN block runs its BSEC lookup. */
  predicate HslvenProbed(p: Platform) {
    !p.trusted && p.dmRegulator && p.pmicFound
  }

  /** A missing BSEC device ends sysconf_init early. */
  predicate BsecAbort(p: Platform) {
    HslvenProbed(p) && !p.bsecFound
  }

  /** The gate on the high-speed pad write. */
  predicate HslvenEnabled(p: Platform) {
    HslvenProbed(p) && p.bsecFound && p.vddFound && p.vddValue < VDD_CEILING_UV
  }

  /** The OTP product_below_2v5 bit, as sysconf_init sees it. */
  predicate OtpBelow2v5(p: Platform) {
    p.otpRet > 0 && p.otpWord & OTP_PRODUCT_BELOW_2V5 != 0
  }

  /** The compensation steps are reached. */
  predicate CompensationReached(p: Platform) {
    !p.trusted && !BsecAbort(p)
  }

  /** The writes of sysconf_init, from the old BOOTR word and the CMPCR status reads. */
  function SysconfWrites(p: Platform, bootr: Word, status: seq<Word>): seq<Write>
    requires CompensationReached(p) ==> PollFeed(status)
  {
    if p.trusted then []
    else
      [Write(ICNR, ICNR_PORT1), Write(BOOTR, BootrRewrite(bootr))]
      + HslvenWrites(p)
      + (if BsecAbort(p) then [] else CompensationWrites(status))
  }

  /** The diagnostics of sysconf_init. */
  datatype Diag = BsecMissing | HslvenProtectedByHw | HslvenUpdateDestructive | VddUnknown

  function SysconfDiag(p: Platform): Option<Diag> {
    if !HslvenProbed(p) then None
    else if !p.bsecFound then Some(BsecMissing)
    else if !p.vddFound then Some(VddUnknown)
    else if p.vddValue < VDD_CEILING_UV then (if OtpBelow2v5(p) then None else Some(HslvenProtectedByHw))
    else if OtpBelow2v5(p) then Some(HslvenUpdateDestructive)
    else None
  }

  /**
   * With the vdd-supply regulator found, a warning is printed exactly when the
   * OTP product_below_2v5 bit disagrees with the write decision: the pads set
   * while the bit says the product is not low-voltage (protected by hardware),
   * or the pads left alone while the bit says it is (the update would be
   * destructive). Without the regulator the diagnostic is "VDD unknown".
   */
  lemma DiagFlagsOtpMismatch(p: Platform)
    requires HslvenProbed(p) && p.bsecFound
    ensures p.vddFound ==> (SysconfDiag(p).Some? <==> (HslvenEnabled(p) <==> !OtpBelow2v5(p)))
    ensures p.vddFound && HslvenEnabled(p) && !OtpBelow2v5(p) ==> SysconfDiag(p) == Some(HslvenProtectedByHw)
    ensures p.vddFound && !HslvenEnabled(p) && OtpBelow2v5(p) ==> SysconfDiag(p) == Some(HslvenUpdateDestructive)
    ensures !p.vddFound ==> SysconfDiag(p) == Some(VddUnknown)
  {
  }

  /** The BSEC error is printed exactly on the early return, and no diagnostic at all outside the HSLVEN block. */
  lemma DiagOutsideProbe(p: Platform)
    ensures SysconfDiag(p) == Some(BsecMissing) <==> BsecAbort(p)
    ensures !HslvenProbed(p) ==> SysconfDiag(p).None?
  {
  }

  /** The HSLVEN writes: at most the one write to IOCTRLSETR. */
  function HslvenWrites(p: Platform): seq<Write> {
    if HslvenEnabled(p) then [Write(IOCTRLSETR, HSLVEN_ALL)] else []
  }

  /** The compensation writes, once the first READY read is known. */
  function CompensationWrites(status: seq<Word>): seq<Write>
    requires PollFeed(status)
  {
    [Write(CMPENSETR, CMPENSETR_MPU_EN), Write(CMPCR, ReleaseSwCtrl(status[FirstReady(status) + 1]))]
  }

  /**
   * The high-speed pad block of sysconf_init, entered once the PMIC is found:
   * stop when BSEC is missing, else write HSLVEN only below the supply ceiling.
   */
  method HslvenStep(blk: RegisterBlock, p: Platform) returns (diag: Option<Diag>, stop: bool)
    requires HslvenProbed(p)
    modifies blk
    ensures stop <==> BsecAbort(p)
    ensures diag == SysconfDiag(p)
    ensures blk.writes == old(blk.writes) + HslvenWrites(p)
    ensures blk.regs == Apply(old(blk.regs), HslvenWrites(p))
  {
    diag, stop := None, false;
    if !p.bsecFound {
      return Some(BsecMissing), true;
    }
    var otp: Word := 0;
    if p.otpRet > 0 {
      otp := p.otpWord & OTP_PRODUCT_BELOW_2V5;
    }
    if p.vddFound {
      if p.vddValue < VDD_CEILING_UV {
        blk.Write32(IOCTRLSETR, HSLVEN_ALL);
        ApplySnoc(old(blk.regs), [], Write(IOCTRLSETR, HSLVEN_ALL));
        if otp == 0 {
          diag := Some(HslvenProtectedByHw);
        }
      } else if otp != 0 {
        diag := Some(HslvenUpdateDestructive);
      }
    } else {
      diag := Some(VddUnknown);
    }
  }

  /**
   * The busy-poll on CMPCR.READY: it stops at the first read with READY set,
   * and the source has no timeout.
   */
  method PollReady(status: seq<Word>) returns (k: nat)
    requires PollFeed(status)
    ensures k + 1 < |status| && Ready(status[k])
    ensures forall j :: 0 <= j < k ==> !Ready(status[j])
  {
    k := 0;
    while !Ready(status[k])  // readl(CMPCR) & READY
      invariant 0 <= k <= FirstReady(status)
      decreases FirstReady(status) - k
    {
      k := k + 1;
    }
  }

  /**
   * Enable automatic I/O compensation, poll CMPCR until READY, then clear
   * SW_CTRL with a read-modify-write of CMPCR.
   */
  method CompensationStep(blk: RegisterBlock, status: seq<Word>) returns (cmpcrReads: nat)
    requires PollFeed(status)
    modifies blk
    ensures cmpcrReads == FirstReady(status) + 2
    ensures blk.writes == old(blk.writes) + CompensationWrites(status)
    ensures blk.regs == Apply(old(blk.regs), CompensationWrites(status))
  {
    blk.Write32(CMPENSETR, CMPENSETR_MPU_EN);
    var k := PollReady(status);
    var cmpcr := status[k + 1];
    blk.Write32(CMPCR, ReleaseSwCtrl(cmpcr));
    ApplySnoc(old(blk.regs), [], Write(CMPENSETR, CMPENSETR_MPU_EN));
    ApplySnoc(old(blk.regs), [Write(CMPENSETR, CMPENSETR_MPU_EN)], Write(CMPCR, ReleaseSwCtrl(cmpcr)));
    assert [Write(CMPENSETR, CMPENSETR_MPU_EN)] + [Write(CMPCR, ReleaseSwCtrl(cmpcr))] == CompensationWrites(status);
    cmpcrReads := k + 2;
  }

  /** The boot-pin pull-down fix: read-modify-write of BOOTR. */
  method BootPinStep(blk: RegisterBlock)
    requires BOOTR in blk.regs
    modifies blk
    ensures blk.writes == old(blk.writes) + [Write(BOOTR, BootrRewrite(old(blk.regs[BOOTR])))]
    ensures blk.regs == old(blk.regs)[BOOTR := BootrRewrite(old(blk.regs[BOOTR]))]
  {
    var bootr := blk.regs[BOOTR];
    blk.Write32(BOOTR, BootrRewrite(bootr));
  }

  /**
   * sysconf_init on block blk. status holds what successive reads of CMPCR
   * return; the loop polls it until READY, then the final update reads it once more.
   */
  method SysconfInit(blk: RegisterBlock, p: Platform, status: seq<Word>)
    returns (diag: Option<Diag>, cmpcrReads: nat)
    requires BOOTR in blk.regs
    requires CompensationReached(p) ==> PollFeed(status)
    modifies blk
    ensures blk.writes == old(blk.writes) + SysconfWrites(p, old(blk.regs[BOOTR]), status)
    ensures blk.regs == Apply(old(blk.regs), SysconfWrites(p, old(blk.regs[BOOTR]), status))
    ensures diag == SysconfDiag(p)
    ensures cmpcrReads == if CompensationReached(p) then FirstReady(status) + 2 else 0
  {
    diag, cmpcrReads := None, 0;
    if p.trusted {
      return;
    }
    ghost var regs0, writes0 := blk.regs, blk.writes;
    ghost var head := [Write(ICNR, ICNR_PORT1), Write(BOOTR, BootrRewrite(regs0[BOOTR]))];
    blk.Write32(ICNR, ICNR_PORT1);
    BootPinStep(blk);
    ApplySnoc(regs0, [], head[0]);
    ApplySnoc(regs0, [head[0]], head[1]);
    assert [head[0]] + [head[1]] == head;
    assert blk.regs == Apply(regs0, head);
    assert blk.writes == writes0 + head;

    var stop := false;
    if p.dmRegulator && p.pmicFound {
      diag, stop := HslvenStep(blk, p);
    }
    ApplyAppend(regs0, head, HslvenWrites(p));
    assert blk.regs == Apply(regs0, head + HslvenWrites(p));
    assert blk.writes == writes0 + (head + HslvenWrites(p));
    if stop {
      assert SysconfWrites(p, regs0[BOOTR], status) == head + HslvenWrites(p) + [];
      return;
    }
    cmpcrReads := CompensationStep(blk, status);
    ApplyAppend(regs0, head + HslvenWrites(p), CompensationWrites(status));
    assert SysconfWrites(p, regs0[BOOTR], status) == head + HslvenWrites(p) + CompensationWrites(status);
  }

  /** The order of the sequence: ICNR, BOOTR, IOCTRLSETR, CMPENSETR, CMPCR. */
  function Rank(offset: Offset): nat {
    if offset == ICNR then 0
    else if offset == BOOTR then 1
    else if offset == IOCTRLSETR then 2
    else if offset == CMPENSETR then 3
    else if offset == CMPCR then 4
    else 5
  }

  /**
   * The writes of sysconf_init come in the fixed order, each register at most
   * once: interconnect before boot pins, boot pins before high-speed pads,
   * pads before compensation.
   */
  lemma SysconfWriteOrder(p: Platform, bootr: Word, status: seq<Word>)
    requires CompensationReached(p) ==> PollFeed(status)
    ensures var ws := SysconfWrites(p, bootr, status);
      forall i, j :: 0 <= i < j < |ws| ==> Rank(ws[i].offset) < Rank(ws[j].offset)
  {
  }

  /**
   * IOCTRLSETR is written, and then only with the five HSLVEN bits, exactly
   * when the PMIC, BSEC and vdd-supply regulator are found and the supply
   * reads below 2.7 V.
   */
  lemma HslvenGating(p: Platform, bootr: Word, status: seq<Word>)
    requires CompensationReached(p) ==> PollFeed(status)
    ensures var ws := SysconfWrites(p, bootr, status);
      && ((exists i :: 0 <= i < |ws| && ws[i].offset == IOCTRLSETR) <==> HslvenEnabled(p))
      && (forall i :: 0 <= i < |ws| && ws[i].offset == IOCTRLSETR ==> ws[i].value == HSLVEN_ALL)
  {
    var ws := SysconfWrites(p, bootr, status);
    if HslvenEnabled(p) {
      assert ws[2].offset == IOCTRLSETR;
    }
  }

  /** The OTP bit never changes what is written: it only selects the diagnostic. */
  lemma OtpOnlySelectsDiagnostic(p: Platform, otpRet: int, otpWord: Word, bootr: Word, status: seq<Word>)
    requires CompensationReached(p) ==> PollFeed(status)
    ensures SysconfWrites(p.(otpRet := otpRet, otpWord := otpWord), bootr, status) == SysconfWrites(p, bootr, status)
  {
  }

  /**
   * A missing BSEC device returns before the compensation steps: neither
   * CMPENSETR nor CMPCR is written.
   */
  lemma BsecMissingSkipsCompensation(p: Platform, bootr: Word, status: seq<Word>)
    requires BsecAbort(p)
    ensures var ws := SysconfWrites(p, bootr, status);
      forall i :: 0 <= i < |ws| ==> ws[i].offset != CMPENSETR && ws[i].offset != CMPCR
  {
  }

  /**
   * When reached, the compensation handshake enables MPU compensation, waits
   * for the first READY read, and then writes back the next CMPCR read with
   * SW_CTRL cleared and every other bit kept.
   */
  lemma CompensationHandshake(p: Platform, bootr: Word, status: seq<Word>)
    requires CompensationReached(p) && PollFeed(status)
    ensures var ws := SysconfWrites(p, bootr, status);
      var k := FirstReady(status);
      && |ws| >= 4
      && ws[|ws| - 2] == Write(CMPENSETR, CMPENSETR_MPU_EN)
      && ws[|ws| - 1].offset == CMPCR
      && Ready(status[k]) && k + 1 < |status| && (forall j :: 0 <= j < k ==> !Ready(status[j]))
      && ws[|ws| - 1].value & CMPCR_SW_CTRL == 0
      && ws[|ws| - 1].value & !CMPCR_SW_CTRL == status[k + 1] & !CMPCR_SW_CTRL
  {
  }

  /** After sysconf_init BOOTR holds the rewritten word, whenever the sequence runs. */
  lemma SysconfBootr(regs: map<Offset, Word>, p: Platform, status: seq<Word>)
    requires BOOTR in regs && !p.trusted
    requires CompensationReached(p) ==> PollFeed(status)
    ensures Apply(regs, SysconfWrites(p, regs[BOOTR], status))[BOOTR] == BootrRewrite(regs[BOOTR])
  {
    var ws := SysconfWrites(p, regs[BOOTR], status);
    ApplyLastWriteWins(regs, ws, BOOTR);
    assert ws[1] == Write(BOOTR, BootrRewrite(regs[BOOTR]));
    assert forall j :: 1 < j < |ws| ==> ws[j].offset != BOOTR;
  }

  /**
   * The regulator read is compared without an error check: a failing read,
   * which returns a negative code, still enables the high-speed pads.
   */
  lemma FailedVoltageReadEnablesHslven(p: Platform)
    requires HslvenProbed(p) && p.bsecFound && p.vddFound && p.vddValue < 0
    ensures HslvenEnabled(p)
  {
  }

  /** The PHY interface types board_interface_eth_init distinguishes. */
  datatype PhyInterface =
    | Mii | Gmii | Rmii | Rgmii | RgmiiId | RgmiiRxid | RgmiiTxid
    | OtherInterface(code: int)  // every other phy_interface_t value

  predicate IsRgmii(mode: PhyInterface) {
    mode == Rgmii || mode == RgmiiId || mode == RgmiiRxid || mode == RgmiiTxid
  }

  /**
   * The PMCSETR value for an interface type and the st,eth_clk_sel and
   * st,eth_ref_clk_sel properties; None for an interface that is not managed.
   */
  function EthValue(mode: PhyInterface, clkSel: bool, refClkSel: bool): (r: Option<Word>)
    ensures r.None? <==> mode.OtherInterface?
    ensures r.Some? ==> r.value & !ETH_CLEAR_MASK == 0
    ensures r.Some? ==> r.value & ETH_SELMII == 0
    ensures r.Some? ==>
      r.value & ETH_SEL_MASK == (if mode == Rmii then ETH_SEL_RMII else if IsRgmii(mode) then ETH_SEL_RGMII else ETH_SEL_GMII_MII)
    ensures r.Some? ==> (r.value & ETH_CLK_SEL != 0 <==> clkSel && (mode == Gmii || IsRgmii(mode)))
    ensures r.Some? ==> (r.value & ETH_REF_CLK_SEL != 0 <==> mode == Mii || (mode == Rmii && refClkSel))
  {
    match mode
    case Mii => Some(ETH_SEL_GMII_MII | ETH_REF_CLK_SEL)
    case Gmii => Some(if clkSel then ETH_SEL_GMII_MII | ETH_CLK_SEL else ETH_SEL_GMII_MII)
    case Rmii => Some(if refClkSel then ETH_SEL_RMII | ETH_REF_CLK_SEL else ETH_SEL_RMII)
    case OtherInterface(_) => None
    case _ => Some(if clkSel then ETH_SEL_RGMII | ETH_CLK_SEL else ETH_SEL_RGMII)
  }

  /** The writes of board_interface_eth_init on a present block. */
  function EthWrites(mode: PhyInterface, clkSel: bool, refClkSel: bool): seq<Write> {
    match EthValue(mode, clkSel, refClkSel)
    case None => []
    case Some(v) => [Write(PMCCLRR, ETH_CLEAR_MASK), Write(PMCSETR, v)]
  }

  /** The Ethernet bits of the PMC configuration after clearing clearMask and then setting setValue. */
  function ClearThenSet(pmc: Word, clearMask: Word, setValue: Word): Word {
    (pmc & !clearMask) | setValue
  }

  /**
   * Since the set value lies inside the clear mask, the clear-then-set pair
   * leaves the Ethernet field holding exactly that value, whatever it held
   * before, and keeps every bit outside the field.
   */
  lemma EthClearThenSet(pmc: Word, mode: PhyInterface, clkSel: bool, refClkSel: bool)
    requires EthValue(mode, clkSel, refClkSel).Some?
    ensures var v := EthValue(mode, clkSel, refClkSel).value;
      && ClearThenSet(pmc, ETH_CLEAR_MASK, v) & ETH_CLEAR_MASK == v
      && ClearThenSet(pmc, ETH_CLEAR_MASK, v) & !ETH_CLEAR_MASK == pmc & !ETH_CLEAR_MASK
  {
  }

  /**
   * board_interface_eth_init: -ENODEV without the block and -EINVAL for an
   * unmanaged interface, both with no write; otherwise the clear mask to
   * PMCCLRR, then the value to PMCSETR, and 0.
   */
  method BoardInterfaceEthInit(blk: RegisterBlock?, mode: PhyInterface, clkSel: bool, refClkSel: bool)
    returns (ret: int)
    modifies blk
    ensures blk == null ==> ret == -ENODEV
    ensures blk != null ==> (ret == 0 <==> !mode.OtherInterface?) && (ret != 0 ==> ret == -EINVAL)
    ensures blk != null ==> blk.writes == old(blk.writes) + EthWrites(mode, clkSel, refClkSel)
    ensures blk != null ==> blk.regs == Apply(old(blk.regs), EthWrites(mode, clkSel, refClkSel))
  {
    if blk == null {
      return -ENODEV;
    }
    var selected := EthValue(mode, clkSel, refClkSel);
    if selected.None? {
      return -EINVAL;
    }
    var value := selected.value;
    blk.Write32(PMCCLRR, ETH_CLEAR_MASK);
    ApplySnoc(old(blk.regs), [], Write(PMCCLRR, ETH_CLEAR_MASK));
    blk.Write32(PMCSETR, value);
    ApplySnoc(old(blk.regs), [Write(PMCCLRR, ETH_CLEAR_MASK)], Write(PMCSETR, value));
    ret := 0;
  }
}
