/**
 * USB Type-C power check of the stm32mp1 board (DK1/DK2 variants).
 *
 * The check reads every ADC channel listed under the /config node, folds
 * the converted readings into a (max, min) envelope, classifies the
 * envelope against four fixed thresholds and, unless the supply is good,
 * blinks the error LED a number of times, halting the boot for the
 * unattached and non-compliant cases.
 *
 * Every driver answer (device-tree lookups, ADC device lookup, single-shot
 * conversion, raw-to-microvolt conversion, LED lookup) is a parameter.
 */
module UsbPower {
  import opened Wrappers

  // Thresholds in microvolts.
  const LOW_UV: int := 200000
  const WARNING_LOW_UV: int := 660000
  const START_LOW_UV: int := 1230000
  const START_HIGH_UV: int := 2150000

  /** The C type u32: arithmetic on it wraps modulo 2^32, written out where it happens. */
  type U32 = x: int | 0 <= x < 0x1_0000_0000

  const U32_MAX: U32 := 0xFFFF_FFFF
  const ENOENT: int := 2

  /** The running (max_uV, min_uV) pair. */
  datatype Envelope = Envelope(max: int, min: int)

  /** The envelope before any channel is converted. */
  const Seed: Envelope := Envelope(0, START_HIGH_UV)

  /**
   * What the drivers answer for one configured ADC channel: whether parsing
   * its phandle fails, the return codes of the device lookup and of the
   * single-shot conversion (0 is success), and the raw-to-microvolt
   * conversion (None when that conversion fails).
   */
  datatype Channel = Channel(parseFails: bool, deviceRet: int, shotRet: int, uV: Option<int>)

  /** A channel scan either stops early with a return code or yields an envelope. */
  datatype Scan = Stopped(ret: int) | Measured(env: Envelope)

  /** A channel whose answers end the whole check. */
  predicate Aborts(c: Channel) {
    c.parseFails || c.deviceRet != 0 || c.shotRet != 0
  }

  /** The value the check returns when channel c ends it. */
  function AbortCode(c: Channel): int {
    if c.parseFails then 0 else if c.deviceRet != 0 then c.deviceRet else c.shotRet
  }

  /** Widen an envelope by one converted reading. */
  function Absorb(e: Envelope, uV: int): Envelope {
    Envelope(if uV > e.max then uV else e.max, if uV < e.min then uV else e.min)
  }

  /** One iteration of the channel loop. */
  function Step(e: Envelope, c: Channel): Scan {
    if Aborts(c) then Stopped(AbortCode(c))
    else if c.uV.Some? then Measured(Absorb(e, c.uV.value))
    else Measured(e)
  }

  /** The channel loop over cs, in order, from the seed envelope. */
  function ScanChannels(cs: seq<Channel>): Scan {
    if cs == [] then Measured(Seed)
    else match ScanChannels(cs[..|cs| - 1])
      case Stopped(r) => Stopped(r)
      case Measured(e) => Step(e, cs[|cs| - 1])
  }

  /** The converted readings of cs, in order. */
  function Readings(cs: seq<Channel>): seq<int> {
    if cs == [] then []
    else
      var last := cs[|cs| - 1];
      Readings(cs[..|cs| - 1]) + (if last.uV.Some? then [last.uV.value] else [])
  }

  /** Once a prefix of the channels has stopped the scan, later channels change nothing. */
  lemma {:induction false} StoppedPrefixStops(cs: seq<Channel>, k: nat)
    requires k <= |cs|
    requires ScanChannels(cs[..k]).Stopped?
    ensures ScanChannels(cs) == ScanChannels(cs[..k])
    decreases |cs| - k
  {
    if k < |cs| {
      var next := cs[..k + 1];
      assert next[..k] == cs[..k];
      StoppedPrefixStops(cs, k + 1);
    } else {
      assert cs[..k] == cs;
    }
  }

  /**
   * The scan stops exactly when some channel aborts, and then with the code
   * of the first such channel.
   */
  lemma {:induction false} ScanStopsAtFirstAbort(cs: seq<Channel>)
    ensures ScanChannels(cs).Stopped? <==> exists i :: 0 <= i < |cs| && Aborts(cs[i])
    ensures ScanChannels(cs).Stopped? ==>
      exists i :: 0 <= i < |cs| && Aborts(cs[i]) && (forall j :: 0 <= j < i ==> !Aborts(cs[j]))
        && ScanChannels(cs).ret == AbortCode(cs[i])
  {
    if cs != [] {
      var init := cs[..|cs| - 1];
      ScanStopsAtFirstAbort(init);
      assert forall i :: 0 <= i < |init| ==> init[i] == cs[i];
      if ScanChannels(init).Stopped? {
        var i :| 0 <= i < |init| && Aborts(init[i]) && (forall j :: 0 <= j < i ==> !Aborts(init[j]))
          && ScanChannels(init).ret == AbortCode(init[i]);
        assert Aborts(cs[i]);
      } else {
        if Aborts(cs[|cs| - 1]) {
          assert forall j :: 0 <= j < |cs| - 1 ==> !Aborts(cs[j]);
        } else {
          assert forall j :: 0 <= j < |cs| ==> !Aborts(cs[j]) by {
            forall j | 0 <= j < |cs| ensures !Aborts(cs[j]) {
              if j < |cs| - 1 { assert cs[j] == init[j]; }
            }
          }
        }
      }
    }
  }

  /**
   * A measured envelope is exactly the maximum of 0 and the readings and the
   * minimum of START_HIGH_UV and the readings.
   */
  lemma {:induction false} ScanEnvelope(cs: seq<Channel>)
    requires ScanChannels(cs).Measured?
    ensures var e := ScanChannels(cs).env;
      && (forall v :: v in Readings(cs) ==> e.min <= v <= e.max)
      && e.max >= 0 && (e.max == 0 || e.max in Readings(cs))
      && e.min <= START_HIGH_UV && (e.min == START_HIGH_UV || e.min in Readings(cs))
  {
    if cs != [] {
      var init := cs[..|cs| - 1];
      ScanEnvelope(init);
    }
  }

  /** A channel that converts nothing is skipped: removing it changes nothing. */
  lemma {:induction false} UnconvertedChannelIsSkipped(a: seq<Channel>, c: Channel, b: seq<Channel>)
    requires !Aborts(c) && c.uV.None?
    ensures ScanChannels(a + [c] + b) == ScanChannels(a + b)
    ensures Readings(a + [c] + b) == Readings(a + b)
    decreases |b|
  {
    if b == [] {
      assert (a + [c] + b)[..|a|] == a;
      assert a + b == a;
    } else {
      var b' := b[..|b| - 1];
      UnconvertedChannelIsSkipped(a, c, b');
      assert (a + [c] + b)[..|a + [c] + b| - 1] == a + [c] + b';
      assert (a + b)[..|a + b| - 1] == a + b';
      assert (a + [c] + b)[|a + [c] + b| - 1] == b[|b| - 1];
      assert (a + b)[|a + b| - 1] == b[|b| - 1];
    }
  }

  // The four conditions of the classifier, as the source writes them.

  predicate UnattachedCond(e: Envelope) {
    (e.max > LOW_UV && e.min > LOW_UV) || (e.max <= LOW_UV && e.min <= LOW_UV)
  }

  predicate Warn500mACond(e: Envelope) {
    e.max > LOW_UV && e.max <= WARNING_LOW_UV && e.min <= LOW_UV
  }

  predicate Warn1500mACond(e: Envelope) {
    e.max > WARNING_LOW_UV && e.max <= START_LOW_UV && e.min <= LOW_UV
  }

  predicate ProceedCond(e: Envelope) {
    e.max > START_LOW_UV && e.max <= START_HIGH_UV && e.min <= LOW_UV
  }

  /** The power verdicts, and the case the code leaves without a blink count. */
  datatype Verdict = Proceed | Unattached | Warn500mA | Warn1500mA | NotCompliant | Unclassified

  /** The classification of an envelope, as a decision table with disjoint rows. */
  function Classify(e: Envelope): (v: Verdict)
    ensures v == Proceed <==> START_LOW_UV < e.max <= START_HIGH_UV && e.min <= LOW_UV
    ensures v == NotCompliant <==> e.max > START_HIGH_UV
    ensures v == Unattached <==> e.max <= START_HIGH_UV && (e.max > LOW_UV <==> e.min > LOW_UV)
    ensures v == Warn500mA <==> LOW_UV < e.max <= WARNING_LOW_UV && e.min <= LOW_UV
    ensures v == Warn1500mA <==> WARNING_LOW_UV < e.max <= START_LOW_UV && e.min <= LOW_UV
    ensures v == Unclassified <==> e.max <= LOW_UV < e.min
  {
    if ProceedCond(e) then Proceed
    else if e.max > START_HIGH_UV then NotCompliant
    else if UnattachedCond(e) then Unattached
    else if e.min <= LOW_UV && e.max <= WARNING_LOW_UV then Warn500mA
    else if e.min <= LOW_UV then Warn1500mA
    else Unclassified
  }

  /**
   * The blink count each verdict calls for; None where the source never
   * assigns nb_blink before passing it on.
   */
  function BlinkCount(e: Envelope): Option<U32> {
    match Classify(e)
    case Unattached => Some(U32_MAX)
    case NotCompliant => Some(U32_MAX)
    case Warn500mA => Some(2)
    case Warn1500mA => Some(3)
    case Proceed => None
    case Unclassified => None
  }

  /**
   * The conditions that assign nb_blink never assign conflicting values:
   * the only overlap is unattached with a too-high maximum, and both give U32_MAX.
   */
  lemma BlinkConditionsAgree(e: Envelope)
    ensures Warn500mACond(e) ==> !UnattachedCond(e) && !Warn1500mACond(e) && e.max <= START_HIGH_UV
    ensures Warn1500mACond(e) ==> !UnattachedCond(e) && e.max <= START_HIGH_UV
    ensures ProceedCond(e) ==> !UnattachedCond(e) && !Warn500mACond(e) && !Warn1500mACond(e)
  {
  }

  /**
   * When at least one channel converted, the blink count is defined on every
   * path that reaches the blinker; it is undefined exactly when no channel
   * converted, the envelope then being the seed.
   */
  lemma {:induction false} DefinedBlinkCount(cs: seq<Channel>)
    requires ScanChannels(cs).Measured?
    ensures var e := ScanChannels(cs).env;
      && (Readings(cs) != [] ==> e.min <= e.max && (Classify(e) != Proceed ==> BlinkCount(e).Some?))
      && (Readings(cs) == [] <==> e == Seed)
      && (Classify(e) == Unclassified <==> Readings(cs) == [])
  {
    ScanEnvelope(cs);
    var e := ScanChannels(cs).env;
    if Readings(cs) != [] {
      var v := Readings(cs)[0];
      assert v in Readings(cs);
    } else {
      assert e == Seed;
    }
  }

  /** The u32 product 2 * x of the blink loop bound, wrapping modulo 2^32. */
  function TwiceU32(x: U32): U32 {
    (2 * x) % 0x1_0000_0000
  }

  /** The number of LED toggles led_error_blink performs. */
  function BlinkToggles(nb: U32, ledFound: bool): U32 {
    if nb == 0 || !ledFound then 0 else TwiceU32(nb)
  }

  /**
   * The toggle count is even, so the LED ends in the state it started in; it
   * equals 2 * nb_blink below 2^31 and wraps above, U32_MAX giving 2^32 - 2.
   */
  lemma BlinkTogglesWrap(nb: U32)
    ensures BlinkToggles(nb, true) % 2 == 0
    ensures nb < 0x8000_0000 ==> BlinkToggles(nb, true) == 2 * nb
    ensures nb >= 0x8000_0000 ==> BlinkToggles(nb, true) == 2 * nb - 0x1_0000_0000
    ensures BlinkToggles(U32_MAX, true) == 0xFFFF_FFFE
  {
  }

  /**
   * led_error_blink: nothing for a zero count; otherwise toggle the error LED
   * 2 * nb_blink (u32) times when the LED exists, and halt for U32_MAX
   * whether or not it exists.
   */
  method LedErrorBlink(nb: U32, ledFound: bool) returns (toggles: U32, halts: bool)
    ensures toggles == BlinkToggles(nb, ledFound)
    ensures halts <==> nb == U32_MAX
    ensures nb == 0 ==> toggles == 0 && !halts
  {
    toggles, halts := 0, false;
    if nb == 0 {
      return;
    }
    if ledFound {
      var bound := TwiceU32(nb);
      var i: U32 := 0;
      while i < bound
        invariant i <= bound
        invariant toggles == i
      {
        toggles := toggles + 1;  // one LEDST_TOGGLE, a 125 ms delay and a watchdog kick
        i := i + 1;
      }
    }
    halts := nb == U32_MAX;
  }

  /** How the check ends. */
  datatype Outcome =
    | Returned(ret: int)   // the check returned ret
    | Halted               // led_error_blink called hang()
    | ReadUnassigned       // led_error_blink was passed nb_blink before any assignment

  /** The console lines of the classifier, one per message block. */
  datatype Message = Banner | UnattachedMsg | Warn500mAMsg | Warn1500mAMsg | NotCompliantMsg | TooLowMsg

  /** How the classifier ends for envelope e. */
  function Signal(e: Envelope): Outcome {
    if Classify(e) == Proceed then Returned(0)
    else match BlinkCount(e)
      case None => ReadUnassigned
      case Some(nb) => if nb == U32_MAX then Halted else Returned(0)
  }

  /** The number of LED toggles the classifier causes for envelope e. */
  function SignalToggles(e: Envelope, ledFound: bool): U32 {
    match BlinkCount(e)
    case None => 0
    case Some(nb) => BlinkToggles(nb, ledFound)
  }

  /**
   * The classifier and signalling half of board_check_usb_power: it
   * overwrites nb_blink condition by condition, prints, and calls the blinker.
   */
  method ClassifyAndSignal(e: Envelope, ledFound: bool)
    returns (out: Outcome, msgs: seq<Message>, toggles: U32)
    ensures out == Signal(e) && toggles == SignalToggles(e, ledFound)
    ensures msgs == [] <==> Classify(e) == Proceed
    ensures msgs != [] ==>
      msgs[0] == Banner && msgs[|msgs| - 1] == (if e.max > START_HIGH_UV then NotCompliantMsg else TooLowMsg)
    ensures UnattachedMsg in msgs <==> UnattachedCond(e)
    ensures Warn500mAMsg in msgs <==> Classify(e) == Warn500mA
    ensures Warn1500mAMsg in msgs <==> Classify(e) == Warn1500mA
    ensures msgs != [] ==> |msgs| == 2 + (if UnattachedCond(e) || Classify(e) == Warn500mA || Classify(e) == Warn1500mA then 1 else 0)
  {
    if ProceedCond(e) {
      return Returned(0), [], 0;
    }
    msgs := [Banner];
    var nb: Option<U32> := None;
    if UnattachedCond(e) {
      msgs := msgs + [UnattachedMsg];
      nb := Some(U32_MAX);
    }
    if Warn500mACond(e) {
      msgs := msgs + [Warn500mAMsg];
      nb := Some(2);
    }
    if Warn1500mACond(e) {
      msgs := msgs + [Warn1500mAMsg];
      nb := Some(3);
    }
    if e.max > START_HIGH_UV {
      msgs := msgs + [NotCompliantMsg];
      nb := Some(U32_MAX);
    } else {
      msgs := msgs + [TooLowMsg];
    }
    assert nb == BlinkCount(e);
    if nb.None? {
      return ReadUnassigned, msgs, 0;
    }
    var halts;
    toggles, halts := LedErrorBlink(nb.value, ledFound);
    out := if halts then Halted else Returned(0);
  }

  /**
   * board_check_usb_power. configFound: the /config node exists; count: what
   * counting the st,adc_usb_pd phandles returns (a negative error code, or the
   * number of channels); ledFound: the error LED exists.
   */
  method CheckUsbPower(configFound: bool, count: int, channels: seq<Channel>, ledFound: bool)
    returns (out: Outcome, msgs: seq<Message>, toggles: U32)
    requires count >= 0 ==> count == |channels|
    requires count < 256
    ensures !configFound ==> out == Returned(-ENOENT) && msgs == [] && toggles == 0
    ensures configFound && count < 0 ==>
      out == Returned(if count == -ENOENT then 0 else count) && msgs == [] && toggles == 0
    ensures configFound && count >= 0 && ScanChannels(channels).Stopped? ==>
      out == Returned(ScanChannels(channels).ret) && msgs == [] && toggles == 0
    ensures configFound && count >= 0 && ScanChannels(channels).Measured? ==>
      var e := ScanChannels(channels).env;
      && out == Signal(e) && toggles == SignalToggles(e, ledFound)
      && (msgs == [] <==> Classify(e) == Proceed)
      && (msgs != [] ==> msgs[0] == Banner && msgs[|msgs| - 1] == (if e.max > START_HIGH_UV then NotCompliantMsg else TooLowMsg))
      && (UnattachedMsg in msgs <==> UnattachedCond(e))
      && (Warn500mAMsg in msgs <==> Classify(e) == Warn500mA)
      && (Warn1500mAMsg in msgs <==> Classify(e) == Warn1500mA)
      && (msgs != [] ==> |msgs| == 2 + (if UnattachedCond(e) || Classify(e) == Warn500mA || Classify(e) == Warn1500mA then 1 else 0))
  {
    if !configFound {
      return Returned(-ENOENT), [], 0;
    }
    if count < 0 {
      out := if count == -ENOENT then Returned(0) else Returned(count);
      return out, [], 0;
    }
    var env := Seed;
    // The source's index is a u8; count < 256 keeps it from wrapping.
    var i := 0;
    while i < count
      invariant 0 <= i <= count
      invariant ScanChannels(channels[..i]) == Measured(env)
    {
      var c := channels[i];
      assert channels[..i + 1][..i] == channels[..i];
      if Aborts(c) {
        StoppedPrefixStops(channels, i + 1);
        return Returned(AbortCode(c)), [], 0;
      }
      if c.uV.Some? {
        var uV := c.uV.value;
        if uV > env.max {
          env := env.(max := uV);
        }
        if uV < env.min {
          env := env.(min := uV);
        }
      }
      i := i + 1;
    }
    assert channels[..i] == channels;
    out, msgs, toggles := ClassifyAndSignal(env, ledFound);
  }
}
