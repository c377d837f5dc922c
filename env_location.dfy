/**
 * Where U-Boot keeps its environment on an STM32MP1 board: env_get_location,
 * env_ext4_get_intf and env_ext4_get_dev_part. All three decode the boot-mode
 * word latched by the ROM code into its device class (bits 7..4) and its
 * instance (bits 3..0).
 */
module EnvLocation {
  import opened Wrappers

  type Word = bv32

  // Boot-context fields and boot devices (values from the mach-stm32mp sys_proto.h header).
  const TAMP_BOOT_DEVICE_MASK: Word := 0xF0
  const TAMP_BOOT_INSTANCE_MASK: Word := 0x0F
  const BOOT_FLASH_SD: Word := 0x10
  const BOOT_FLASH_EMMC: Word := 0x20
  const BOOT_FLASH_NAND: Word := 0x30
  const BOOT_FLASH_NOR: Word := 0x40

  /** enum env_location, restricted to the values this board returns. */
  datatype Location = Unknown | Nowhere | Ext4 | Ubi | SpiFlash

  /** The CONFIG_ENV_IS_IN_* switches that compile the cases of the resolver in or out. */
  datatype Backends = Backends(inExt4: bool, inUbi: bool, inSpiFlash: bool)

  /** The device class of a boot-mode word, as a number 0..15. */
  function DeviceClass(bootmode: Word): (d: Word)
    ensures d < 16
  {
    (bootmode >> 4) & 0xF
  }

  /** The boot instance of a boot-mode word, as a number 0..15. */
  function Instance(bootmode: Word): (n: Word)
    ensures n < 16
  {
    bootmode & TAMP_BOOT_INSTANCE_MASK
  }

  /** True when the ROM code booted from an SD card or an eMMC. */
  predicate BootedFromMmc(bootmode: Word) {
    DeviceClass(bootmode) == 1 || DeviceClass(bootmode) == 2
  }

  /**
   * env_get_location: a non-zero priority ends the search; priority 0 picks one
   * backend from the boot device, among those the build enables.
   */
  function EnvGetLocation(cfg: Backends, bootmode: Word, prio: int): (r: Location)
    ensures prio != 0 ==> r == Unknown
    ensures prio == 0 ==> r != Unknown
    ensures r == Ext4 <==> prio == 0 && cfg.inExt4 && BootedFromMmc(bootmode)
    ensures r == Ubi <==> prio == 0 && cfg.inUbi && DeviceClass(bootmode) == 3
    ensures r == SpiFlash <==> prio == 0 && cfg.inSpiFlash && DeviceClass(bootmode) == 4
  {
    if prio != 0 then Unknown
    else
      var device := bootmode & TAMP_BOOT_DEVICE_MASK;
      if cfg.inExt4 && (device == BOOT_FLASH_SD || device == BOOT_FLASH_EMMC) then Ext4
      else if cfg.inUbi && device == BOOT_FLASH_NAND then Ubi
      else if cfg.inSpiFlash && device == BOOT_FLASH_NOR then SpiFlash
      else Nowhere
  }

  /** env_ext4_get_intf: the block interface holding the ext4 environment. */
  function Ext4Intf(bootmode: Word): (s: string)
    ensures s == "mmc" <==> BootedFromMmc(bootmode)
    ensures s != "mmc" ==> s == ""
  {
    var device := bootmode & TAMP_BOOT_DEVICE_MASK;
    if device == BOOT_FLASH_SD || device == BOOT_FLASH_EMMC then "mmc" else ""
  }

  /** The static table dev_part of env_ext4_get_dev_part. */
  const DEV_PART: seq<string> := ["0:auto", "1:auto", "2:auto"]

  /**
   * env_ext4_get_dev_part: the entry instance - 1 of DEV_PART, where the
   * subtraction is u32 arithmetic. None stands for an out-of-bounds read of the table,
   * which the C code does not guard against.
   */
  function Ext4DevPart(bootmode: Word): (r: Option<string>)
    ensures r.Some? <==> 1 <= Instance(bootmode) <= 3
    ensures r.Some? ==> |r.value| == 6 && r.value[1..] == ":auto"
    ensures r.Some? ==> r.value[0] as int - '0' as int == Instance(bootmode) as int - 1
  {
    var index := (bootmode & TAMP_BOOT_INSTANCE_MASK) - 1;
    if index < 3 then Some(DEV_PART[index as int]) else None
  }

  /** Only the device field of the boot-mode word matters to the resolver. */
  lemma LocationIgnoresInstance(cfg: Backends, b1: Word, b2: Word, prio: int)
    requires DeviceClass(b1) == DeviceClass(b2)
    ensures EnvGetLocation(cfg, b1, prio) == EnvGetLocation(cfg, b2, prio)
  {
  }

  /** An ext4 environment is always looked for on the MMC interface. */
  lemma Ext4LocationUsesMmc(cfg: Backends, bootmode: Word, prio: int)
    ensures EnvGetLocation(cfg, bootmode, prio) == Ext4 ==> Ext4Intf(bootmode) == "mmc"
    ensures prio == 0 && cfg.inExt4 && Ext4Intf(bootmode) == "mmc" ==> EnvGetLocation(cfg, bootmode, prio) == Ext4
  {
  }

  /** Instance 0 makes the u32 index wrap to 0xFFFF_FFFF, an out-of-bounds index into the table. */
  lemma InstanceZeroIndexOutOfBounds(bootmode: Word)
    requires Instance(bootmode) == 0
    ensures (bootmode & TAMP_BOOT_INSTANCE_MASK) - 1 == 0xFFFF_FFFF
    ensures Ext4DevPart(bootmode) == None
  {
  }

  /** With every backend enabled, each storage boot device gets a distinct backend and nothing else gets one. */
  lemma FullBuildResolves(bootmode: Word)
    ensures var r := EnvGetLocation(Backends(true, true, true), bootmode, 0);
      match DeviceClass(bootmode)
      case 1 => r == Ext4
      case 2 => r == Ext4
      case 3 => r == Ubi
      case 4 => r == SpiFlash
      case _ => r == Nowhere
  {
  }
}
