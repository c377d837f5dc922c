# STM32MP1 board bring-up, modelled in Dafny

This project models the decision logic of U-Boot's board file for the
STMicroelectronics STM32MP1 evaluation and discovery boards
(`board/st/stm32mp1/stm32mp1.c`). It proves properties of that model. Five
modules cover the logic:

- `UsbPower` (`usb_power.dfy`) models `board_check_usb_power` and `led_error_blink`.
  - The ADC channels listed under `/config` are folded into a `(max_uV, min_uV)` envelope that starts at `(0, 2150000)`.
  - The envelope is classified against the four thresholds (200 mV, 660 mV, 1.23 V, 2.15 V).
  - The error LED blinks and the boot may halt. `nb_blink` is an `Option<U32>`, so the path where it is read before it is assigned becomes a visible outcome, `ReadUnassigned`.
- `Syscfg` (`syscfg.dfy`) models the SYSCFG register block and its two routines.
  - The block is a class holding a map from byte offset to 32-bit word and the trace of every write.
  - `sysconf_init` writes, in order: the interconnect selection, the boot-pin pull-down rewrite, the voltage-gated high-speed pad enable (HSLVEN), and the I/O compensation handshake.
  - `board_interface_eth_init` selects the Ethernet mode with a clear-then-set pair of writes.
- `EnvLocation` (`env_location.dfy`) models the environment resolvers `env_get_location`, `env_ext4_get_intf` and `env_ext4_get_dev_part`. They work on the boot-mode word latched by the ROM code. The `CONFIG_ENV_IS_IN_*` switches are boolean parameters.
- `BoardOtp` (`board_otp.dfy`) models the decode of the board OTP word printed by `checkboard`.
- `Wrappers` (`wrappers.dfy`) holds the `Option` type.

Every driver answer is a parameter of the model. This covers device-tree
lookups, ADC conversions, PMIC/BSEC/regulator lookups, OTP reads, the
supply voltage, the successive reads of CMPCR, and the LED lookup. The halt
is an outcome, not a divergence. Delays and watchdog kicks are left out.

Console output is modelled where it reports a decision:

- the pr_err blocks of the USB classifier (lines 407-451) are `UsbPower.Message` values, in print order;
- the diagnostics of `sysconf_init` (the BSEC error at line 509, the two HSLVEN lines at 532 and 535, and the "VDD unknown" debug line at 538) are `Syscfg.Diag` values;
- the board line of `checkboard` (line 114) is `BoardOtp.BoardLine`: whether it is printed and its arguments, without its printf formatting.

Every other console line is dropped: the mode and compatible lines of
`checkboard` (99, 103-104), the debug and error lines of `board_check_usb_power` (338,
352-353, 362-363, 371-372, 379-380, 389-393) and the debug lines of
`board_interface_eth_init` (734-765).

Three behaviours of the code worth stating:

- `sysconf_init` does not check the SYSCFG base for NULL. Only `board_interface_eth_init` does. The model assumes the block is present (see "Left out").
- The CMPCR poll loop has no watchdog kick and no timeout.
- `regulator_get_value` is compared with 2700000 without an error check. A failing read returns a negative code, so it still enables HSLVEN (`Syscfg.FailedVoltageReadEnablesHslven`).

`nb_blink` is left unassigned on one path. The USB check reaches
`led_error_blink` with it unassigned exactly when no channel converted to
microvolts. The envelope is then the seed: max ≤ 200 mV < min, so none of
the conditions fires. `UsbPower.DefinedBlinkCount` proves that this is the
only such case. Cases that reach this path are zero channels, or every
raw-to-µV conversion failing. On that path the C code passes an
indeterminate value to `led_error_blink`; the model reports
`ReadUnassigned` and, by convention only, 0 toggles (`UsbPower.SignalToggles`).

## Model

| member | source | states |
|---|---|---|
| UsbPower.StoppedPrefixStops | board/st/stm32mp1/stm32mp1.c:358-382 | once a channel has ended the check, the channels after it change nothing |
| UsbPower.ScanStopsAtFirstAbort | board/st/stm32mp1/stm32mp1.c:358-382 | the check stops before classification exactly when some channel's phandle parse, device lookup or single-shot conversion fails; it returns the code of the first such channel (0 for a parse failure) |
| UsbPower.ScanEnvelope | board/st/stm32mp1/stm32mp1.c:384-388 | the envelope bounds every converted reading; max is 0 or a reading, and min is 2150000 or a reading |
| UsbPower.UnconvertedChannelIsSkipped | board/st/stm32mp1/stm32mp1.c:384-394 | a channel whose raw-to-µV conversion fails leaves the envelope and the readings as if it were absent |
| UsbPower.Classify | board/st/stm32mp1/stm32mp1.c:402-449 | six pairwise-exclusive verdicts, each with an if-and-only-if on the thresholds: proceed, not compliant (max > 2.15 V), unattached (max and min on the same side of 200 mV), 500 mA, 1.5 A, and the unassigned case max ≤ 200 mV < min |
| UsbPower.BlinkConditionsAgree | board/st/stm32mp1/stm32mp1.c:415-449 | the four assigning conditions never assign conflicting counts: 500 mA and 1.5 A exclude unattached and each other and have max ≤ 2.15 V; proceed excludes all three |
| UsbPower.DefinedBlinkCount | board/st/stm32mp1/stm32mp1.c:331-454 | with at least one converted reading, min ≤ max and nb_blink is assigned on every path to led_error_blink; no converted reading ⇔ seed envelope ⇔ unassigned verdict |
| UsbPower.BlinkTogglesWrap | board/st/stm32mp1/stm32mp1.c:311 | the toggle count is even; it equals 2·nb_blink below 2^31 and wraps by 2^32 above; U32_MAX gives 0xFFFFFFFE toggles |
| UsbPower.LedErrorBlink | board/st/stm32mp1/stm32mp1.c:295-322 | a zero count does nothing; otherwise the LED toggles (2·nb_blink) mod 2^32 times when it exists; the boot halts iff the count is U32_MAX, whether or not the LED exists |
| UsbPower.ClassifyAndSignal | board/st/stm32mp1/stm32mp1.c:402-454 | the step-by-step overwriting of nb_blink ends with the count of the verdict; no message iff proceed; the banner comes first and the not-compliant or too-low block comes last; each warning block is printed iff its verdict holds, and nothing else is printed |
| UsbPower.CheckUsbPower | board/st/stm32mp1/stm32mp1.c:325-457 | no /config gives -ENOENT; a missing phandle property gives 0; another count error is returned as is; an aborting channel returns its code; otherwise the outcome and toggles of the envelope of all channels, no message iff proceed, the banner first and the not-compliant or too-low block last, each warning block iff its verdict holds, and nothing else |
| Syscfg.RegisterBlock.Write32 | board/st/stm32mp1/stm32mp1.c:479 | writel: the word is stored at the offset and appended to the trace |
| Syscfg.BootrRewrite | board/st/stm32mp1/stm32mp1.c:482-485 | bits 6..4 of the new BOOTR equal bits 2..0 of the old one; every other bit is unchanged |
| Syscfg.BootPinStep | board/st/stm32mp1/stm32mp1.c:481-485 | the read-modify-write of BOOTR writes BootrRewrite of the word read, and nothing else |
| Syscfg.ReleaseSwCtrl | board/st/stm32mp1/stm32mp1.c:550 | clrbits of SW_CTRL: bit 1 cleared, every other bit kept |
| Syscfg.FirstReady | board/st/stm32mp1/stm32mp1.c:548-549 | the index of the first CMPCR read with READY set; every earlier read has READY clear |
| Syscfg.PollReady | board/st/stm32mp1/stm32mp1.c:548-549 | the poll loop exits at the first read with READY set, and only there |
| Syscfg.HslvenStep | board/st/stm32mp1/stm32mp1.c:501-540 | stops iff BSEC is missing; writes IOCTRLSETR only as HslvenWrites says; yields the diagnostic SysconfDiag chooses from the OTP bit and the supply |
| Syscfg.CompensationStep | board/st/stm32mp1/stm32mp1.c:543-550 | writes MPU_EN to CMPENSETR, reads CMPCR up to the first READY and once more, and writes that last read back with SW_CTRL cleared |
| Syscfg.SysconfInit | board/st/stm32mp1/stm32mp1.c:460-552 | the trace and the final registers are exactly SysconfWrites applied to the old block; the diagnostic is SysconfDiag; CMPCR is read FirstReady + 2 times when compensation is reached, else never |
| Syscfg.DiagFlagsOtpMismatch | board/st/stm32mp1/stm32mp1.c:517-539 | with the regulator found, a warning is printed iff the product_below_2v5 bit disagrees with the HSLVEN write decision: "protected by HW" when the pads are set and the bit is 0, "destructive" when they are not and the bit is 1; without the regulator, "VDD unknown" |
| Syscfg.DiagOutsideProbe | board/st/stm32mp1/stm32mp1.c:501-511 | the BSEC error is printed iff the PMIC is found and BSEC is not; without the PMIC lookup succeeding no diagnostic is printed |
| Syscfg.SysconfWriteOrder | board/st/stm32mp1/stm32mp1.c:479-550 | writes come in the order ICNR, BOOTR, IOCTRLSETR, CMPENSETR, CMPCR, each at most once |
| Syscfg.HslvenGating | board/st/stm32mp1/stm32mp1.c:501-540 | IOCTRLSETR is written iff the PMIC, BSEC and vdd-supply regulator are found and the supply reads below 2700000; it is written only with bits 0..4 |
| Syscfg.OtpOnlySelectsDiagnostic | board/st/stm32mp1/stm32mp1.c:513-536 | the OTP read's result and word never change the writes |
| Syscfg.BsecMissingSkipsCompensation | board/st/stm32mp1/stm32mp1.c:505-511 | with the PMIC found and BSEC missing, neither CMPENSETR nor CMPCR is written |
| Syscfg.CompensationHandshake | board/st/stm32mp1/stm32mp1.c:543-550 | when reached, the last two writes are MPU_EN to CMPENSETR and then the read after the first READY, with SW_CTRL cleared and every other bit kept |
| Syscfg.SysconfBootr | board/st/stm32mp1/stm32mp1.c:482-485 | after the whole sequence BOOTR holds the rewritten word: no later write touches it |
| Syscfg.FailedVoltageReadEnablesHslven | board/st/stm32mp1/stm32mp1.c:522-529 | a negative (error) regulator read passes the 2.7 V test and enables HSLVEN |
| Syscfg.EthValue | board/st/stm32mp1/stm32mp1.c:730-768 | None iff the interface is unmanaged; the value lies in the clear mask and never sets SELMII; the SEL field per mode; CLK_SEL iff eth_clk_sel and GMII/RGMII*; REF_CLK_SEL iff MII, or RMII with eth_ref_clk_sel |
| Syscfg.EthClearThenSet | board/st/stm32mp1/stm32mp1.c:770-774 | the clear-then-set pair leaves the Ethernet field holding exactly the value and keeps every other bit |
| Syscfg.BoardInterfaceEthInit | board/st/stm32mp1/stm32mp1.c:710-777 | no block gives -ENODEV; an unmanaged interface gives -EINVAL with no write; otherwise 0 after writing the clear mask to PMCCLRR and then the value to PMCSETR |
| EnvLocation.EnvGetLocation | board/st/stm32mp1/stm32mp1.c:779-803 | a non-zero priority gives Unknown whatever the boot mode; priority 0 gives EXT4 iff SD/eMMC with ext4 enabled, UBI iff NAND with UBI enabled, SPI flash iff NOR with it enabled, else Nowhere |
| EnvLocation.LocationIgnoresInstance | board/st/stm32mp1/stm32mp1.c:786 | only the device field of the boot-mode word matters |
| EnvLocation.FullBuildResolves | board/st/stm32mp1/stm32mp1.c:786-802 | with every backend compiled in, device classes 1 and 2 go to EXT4, 3 to UBI, 4 to SPI flash, and all others to Nowhere |
| EnvLocation.Ext4Intf | board/st/stm32mp1/stm32mp1.c:806-817 | "mmc" iff the boot device is SD or eMMC, else "" |
| EnvLocation.Ext4LocationUsesMmc | board/st/stm32mp1/stm32mp1.c:786-790 | an EXT4 location always comes with the "mmc" interface, and conversely at priority 0 with ext4 enabled |
| EnvLocation.Ext4DevPart | board/st/stm32mp1/stm32mp1.c:819-825 | the entry is defined iff the instance is 1, 2 or 3; it is "N:auto" with N the instance minus one |
| EnvLocation.InstanceZeroIndexOutOfBounds | board/st/stm32mp1/stm32mp1.c:824 | instance 0 makes the u32 index 0xFFFFFFFF, out of bounds for the three-entry table |
| BoardOtp.BoardLine | board/st/stm32mp1/stm32mp1.c:106-119 | the line is printed iff the BSEC lookup succeeds, misc_read returns a positive count and the word is non-zero; its fields are the decode of the word |
| BoardOtp.RevisionLetter | board/st/stm32mp1/stm32mp1.c:117 | field 0 wraps to '@'; fields 1..15 give 'A'..'O' |
| BoardOtp.RevisionRoundTrip | board/st/stm32mp1/stm32mp1.c:117 | the letter determines the field: distinct revisions print distinct letters |
| BoardOtp.LetterRoundTrip | board/st/stm32mp1/stm32mp1.c:117 | every letter '@'..'O' is printed for exactly one field |
| BoardOtp.DecodeEncode | board/st/stm32mp1/stm32mp1.c:113-118 | decoding the packed word of a well-formed label gives the label back |
| BoardOtp.EncodeDecode | board/st/stm32mp1/stm32mp1.c:113-118 | the decode keeps every bit except 7..4: re-encoding it gives the word with those bits cleared |

## Left out

- UsbPower.CheckUsbPower: requires fewer than 256 channels. The loop index is a `u8`, so with 256 or more channels it wraps after channel 255: channels from 256 on are never visited, and the loop ends only if one of channels 0..255 aborts. That behaviour is not modelled.
- Syscfg.SysconfInit: the SYSCFG block is assumed present; the code never checks the base from `syscon_get_first_range` for NULL (line 473), and on a NULL base it would write to absolute addresses 0x1C, 0x00 and so on. That case is not modelled.
- UsbPower.LedErrorBlink: the loop bound is modelled as an unbounded integer reduced modulo 2^32 (`TwiceU32`), not as a `bv32`. The wrap is the same.
- The console lines listed above as dropped, `mdelay(125)` and `WATCHDOG_RESET()` are left out. `hang()` is the outcome `Halted`.
- Syscfg.HslvenStep: when `misc_read` of OTP 18 fails, `otp` is taken to keep its initial 0. The driver's behaviour on failure is not part of this model.
- Syscfg: the SET/CLR registers (IOCTRLSETR, CMPENSETR, PMCSETR, PMCCLRR) are modelled as storing the written word. Their combined effect on the underlying PMC configuration is `Syscfg.ClearThenSet`.
- Syscfg.SysconfInit: requires the CMPCR reads to reach READY and then supply the read of the final `clrbits_le32`. The source polls with no timeout, so other inputs do not terminate.
- EnvLocation: the `op` argument of `env_get_location` is unused by the source and is omitted.
- EnvLocation: `get_bootmode()` is modelled as the boot-mode word parameter.
- EnvLocation: the device and instance masks and the boot-device codes are taken as SD 0x10, eMMC 0x20, NAND 0x30, NOR 0x40, device mask 0xF0 and instance mask 0x0F. They come from the mach-stm32mp `sys_proto.h` header, which is not part of this model.
- EnvLocation.Ext4DevPart: the out-of-bounds read for instances 0 and 4..15 is `None`, not a value.
- BoardOtp: the printf formatting itself is left out. This includes `%04x` for the board, `%d` for the variant and `%02d` for the fab.
- `board_late_init`, `board_init`, `board_key_check`, the STUSB1600 and DFU helpers, the MTD partition and DFU string builders, `dk2_i2c1_fix` and `board_copro_image_process` are left out. They are driver glue or string building, outside the modelled decision logic.
- `include/configs/trimslice.h` is left out: it holds only preprocessor constants.
