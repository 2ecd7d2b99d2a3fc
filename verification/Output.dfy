/** The owner of the player's output device: local codec, Bluetooth or USB.

    What the outside world answers (device opens, mixer writes, processes that die) is an arbitrary
    argument of each call; so are requests that other threads make while a call runs. */
module Output {

  datatype Target = Local | Bluetooth | Usb

  datatype Format = S16 | S24

  /** What other threads ask for, under the configuration lock. */
  datatype Requests = Requests(target: Target, usbMode: nat, usbDevice: string, usbRefusedRate: nat)

  /** The format asked for by one call. */
  datatype Want = Want(channels: nat, rate: nat, lowLatency: bool, s24: bool, dop: bool)

  /** Answers from outside during one call, in the order in which they can be needed. */
  datatype World = World(
    supportMixer: bool, bluetoothDied: bool, usbDied: bool,
    closeMixer: bool, closeWrite: bool,
    volume: bool, spawned: bool, deviceParses: bool, usbOpened: bool,
    offMixer: bool, offWrite: bool, firstOpen: bool, secondOpen: bool, onMixer: bool, onWrite: bool,
    meanwhile: bool, later: Requests)

  /** A rejection of 24 bits by the local codec, until the next track. */
  datatype Memo = Clear | Refused(channels: nat, rate: nat)

  class Device {
    /** Whether the card has a DoP switch; one without it is never in DoP mode. */
    const hasSwitch: bool

    var alsa: bool
    var usbDsd: bool
    var bluetoothPipe: bool
    var usbPipe: bool
    var requests: Requests
    var activeTarget: Target
    var activeUsbDevice: string
    var activeUsbMode: nat
    var channels: nat
    var rate: nat
    var activeLowLatency: bool
    var activeFormat: Format
    var activeDop: bool
    var s24Unsupported: Memo
    var dopSwitchWritten: int
    var dopRefusedRate: nat
    var dopSupported: int
    var ownerValid: bool
    var owner: nat

    /** The codec's real mode. */
    ghost var switchOn: bool

    /** Handles opened and closed so far. */
    ghost var opens: nat
    ghost var closes: nat

    constructor (hasSwitch: bool, ghost leftOn: bool)
      requires leftOn ==> hasSwitch
      ensures this.hasSwitch == hasSwitch && switchOn == leftOn && Inv() && !ownerValid && !AnyOpen()
      ensures requests == Requests(Local, 0, "", 0) && s24Unsupported.Clear? && opens == 0
    {
      this.hasSwitch, switchOn := hasSwitch, leftOn;
      alsa, usbDsd, bluetoothPipe, usbPipe := false, false, false, false;
      requests := Requests(Local, 0, "", 0);
      activeTarget, activeUsbDevice, activeUsbMode := Local, "", 0;
      channels, rate, activeLowLatency, activeFormat, activeDop := 0, 0, false, S16, false;
      s24Unsupported := Clear;
      dopSwitchWritten, dopRefusedRate, dopSupported := -1, 0, -1;
      ownerValid, owner := false, 0;
      opens, closes := 0, 0;
    }

    /** What the last value written says about the switch. */
    ghost predicate SwitchKnown()
      reads `dopSwitchWritten, `switchOn
    {
      && -1 <= dopSwitchWritten <= 1
      && (dopSwitchWritten == 1 ==> switchOn) && (dopSwitchWritten == 0 ==> !switchOn)
      && (!hasSwitch ==> !switchOn)
    }

    predicate AnyOpen()
      reads `alsa, `usbDsd, `bluetoothPipe, `usbPipe
    {
      alsa || usbDsd || bluetoothPipe || usbPipe
    }

    /** At most one handle is open, and it belongs to the active target. */
    ghost predicate OneOpen()
      reads `alsa, `usbDsd, `bluetoothPipe, `usbPipe, `activeTarget
    {
      && (alsa ==> activeTarget.Local?) && (bluetoothPipe ==> activeTarget.Bluetooth?)
      && (usbDsd || usbPipe ==> activeTarget.Usb?) && !(usbDsd && usbPipe)
    }

    /** The DoP discipline: an open local stream and the codec agree on what its words mean. */
    ghost predicate Disciplined()
      reads `alsa, `activeDop, `switchOn
    {
      alsa ==> (activeDop <==> switchOn)
    }

    /** No handle is lost: every one opened has been closed or is the open one. */
    ghost predicate Balanced()
      reads `alsa, `usbDsd, `bluetoothPipe, `usbPipe, `opens, `closes
    {
      opens == closes + if AnyOpen() then 1 else 0
    }

    ghost predicate Inv()
      reads `dopSwitchWritten, `switchOn, `alsa, `usbDsd, `bluetoothPipe, `usbPipe, `activeTarget, `activeDop, `dopSupported
      reads `opens, `closes
    {
      && SwitchKnown() && OneOpen() && Disciplined() && Balanced()
      && -1 <= dopSupported <= 1 && (dopSupported == 1 ==> hasSwitch)
    }

    // ---- the switch ----

    /** A failed write leaves the switch as it was. */
    method SetDopSwitch(on: bool, mixer: bool, write: bool) returns (ok: bool)
      requires SwitchKnown()
      modifies `dopSwitchWritten, `switchOn
      ensures SwitchKnown()
      ensures ok ==> switchOn == on && dopSwitchWritten == if on then 1 else 0
      ensures !ok ==> switchOn == old(switchOn) && dopSwitchWritten == old(dopSwitchWritten)
      ensures ok <==> old(dopSwitchWritten) == (if on then 1 else 0) || (mixer && if hasSwitch then write else !on)
    {
      if dopSwitchWritten == (if on then 1 else 0) { return true; }
      if !mixer { return false; }
      if !hasSwitch {
        if on { return false; }
        dopSwitchWritten := 0;
        return true;
      }
      if !write { return false; }
      switchOn := on;
      dopSwitchWritten := if on then 1 else 0;
      return true;
    }

    // ---- closing ----

    method CloseBluetooth()
      modifies `bluetoothPipe, `closes
      ensures !bluetoothPipe && closes == old(closes) + if old(bluetoothPipe) then 1 else 0
    {
      if !bluetoothPipe { return; }
      bluetoothPipe := false;
      closes := closes + 1;
    }

    method CloseUsb()
      modifies `usbDsd, `usbPipe, `closes
      ensures !usbDsd && !usbPipe
      ensures closes == old(closes) + (if old(usbDsd) then 1 else 0) + if old(usbPipe) then 1 else 0
    {
      if usbDsd { closes := closes + 1; }
      usbDsd := false;
      if !usbPipe { return; }
      usbPipe := false;
      closes := closes + 1;
    }

    /** Closes what is open, whatever it is. */
    method CloseHandles()
      requires OneOpen() && Balanced()
      modifies `alsa, `usbDsd, `bluetoothPipe, `usbPipe, `closes
      ensures !AnyOpen() && Balanced()
    {
      var target, pcm := activeTarget, alsa;
      alsa := false;
      if target.Bluetooth? { CloseBluetooth(); }
      if target.Usb? { CloseUsb(); }
      if pcm { closes := closes + 1; }
    }

    method CloseDeviceState(w: World)
      requires Inv()
      modifies `alsa, `usbDsd, `bluetoothPipe, `usbPipe, `closes, `dopSwitchWritten, `switchOn,
               `activeTarget, `activeFormat, `activeDop, `channels, `rate
      ensures Inv() && !AnyOpen() && activeTarget.Local? && activeFormat.S16? && !activeDop && channels == rate == 0
      ensures closes == old(closes) + if old(AnyOpen()) then 1 else 0
      ensures dopSwitchWritten == if old(dopSwitchWritten) == 1 && w.closeMixer && (hasSwitch ==> w.closeWrite) then 0
                                  else old(dopSwitchWritten)
      ensures switchOn == (old(switchOn) && dopSwitchWritten == old(dopSwitchWritten))
    {
      CloseHandles();
      if dopSwitchWritten == 1 { var _ := SetDopSwitch(false, w.closeMixer, w.closeWrite); }
      activeTarget := Local;
      activeFormat := S16;
      activeDop := false;
      channels, rate := 0, 0;
    }

    // ---- opening ----

    /** Answers from outside with which a fresh open succeeds. */
    predicate Works(k: Want, r: Requests, w: World) {
      match r.target
      case Usb => if k.dop then r.usbMode != 0 && w.deviceParses && w.usbOpened else w.spawned
      case Bluetooth => !k.dop && w.volume && w.spawned
      case Local =>
        if k.dop then k.rate <= 384000 && hasSwitch && w.firstOpen && w.onMixer && w.onWrite
        else w.offMixer && w.offWrite && (w.firstOpen || (k.s24 && w.secondOpen))
    }

    lemma WorksAlone(k: Want, r: Requests, w: World)
      ensures r.target.Bluetooth? ==> Works(k, r, w) == (!k.dop && w.volume && w.spawned)
      ensures r.target.Local? ==> Works(k, r, w) == Works(k, Requests(Local, 0, "", 0), w)
    {
    }

    /** Opens the stream of the local codec: 24 bits fall back to 16, and the refusal is remembered. */
    method OpenPcm(k: Want, w: World) returns (ok: bool)
      requires !AnyOpen()
      modifies `alsa, `opens, `activeFormat, `s24Unsupported, `dopRefusedRate
      ensures ok == alsa && opens == old(opens) + if ok then 1 else 0
      ensures ok <==> w.firstOpen || (k.s24 && !k.dop && w.secondOpen)
      ensures ok ==> LocalFormat(k)
      ensures ok && activeFormat.S24? ==> S24Refused(k.channels, k.rate) == old(S24Refused(k.channels, k.rate))
      ensures old(S24Refused(k.channels, k.rate)) ==> S24Refused(k.channels, k.rate)
      ensures ok ==> dopRefusedRate == old(dopRefusedRate)
    {
      activeFormat := if k.s24 || k.dop then S24 else S16;
      alsa := w.firstOpen;
      if !alsa {
        if k.dop { dopRefusedRate := k.rate; }
        if !k.s24 || k.dop { return false; }
        s24Unsupported := Refused(k.channels, k.rate);
        activeFormat := S16;
        alsa := w.secondOpen;
        if !alsa { return false; }
      }
      opens := opens + 1;
      return true;
    }

    /** Switches the codec over for an open DoP stream, or gives the stream up. */
    method Arm(dopRate: nat, w: World) returns (ok: bool)
      requires SwitchKnown() && alsa
      modifies `alsa, `closes, `dopSwitchWritten, `switchOn, `activeFormat, `dopRefusedRate
      ensures SwitchKnown() && ok == alsa && (hasSwitch && w.onMixer && w.onWrite ==> ok)
      ensures ok ==> switchOn && unchanged(`closes, `activeFormat, `dopRefusedRate)
      ensures !ok ==> closes == old(closes) + 1
    {
      ok := SetDopSwitch(true, w.onMixer, w.onWrite);
      if !ok {
        dopRefusedRate := dopRate;
        alsa := false;
        closes := closes + 1;
        activeFormat := S16;
      }
    }

    /** The format a fresh local stream has: the one asked for, or 16 bits with the refusal remembered. */
    predicate LocalFormat(k: Want)
      reads `activeFormat, `s24Unsupported
    {
      activeFormat == (if k.s24 || k.dop then S24 else S16)
      || (activeFormat.S16? && k.s24 && !k.dop && S24Refused(k.channels, k.rate))
    }

    /** Opens a stream whose words the codec is ready to read, or becomes so before the first write. */
    method OpenReady(k: Want, w: World) returns (ok: bool)
      requires Inv() && !AnyOpen() && activeTarget.Local? && (!k.dop ==> !switchOn)
      modifies `alsa, `opens, `closes, `dopSwitchWritten, `switchOn, `activeTarget, `activeFormat, `activeDop,
               `activeLowLatency, `s24Unsupported, `dopRefusedRate
      ensures Inv() && ok == alsa && activeTarget.Local? && opens <= old(opens) + 1
      ensures ok ==> activeDop == k.dop && activeLowLatency == k.lowLatency && LocalFormat(k)
      ensures ok && activeFormat.S24? ==> S24Refused(k.channels, k.rate) == old(S24Refused(k.channels, k.rate))
      ensures old(S24Refused(k.channels, k.rate)) ==> S24Refused(k.channels, k.rate)
      ensures ok ==> dopRefusedRate == old(dopRefusedRate) && opens == old(opens) + 1 && closes == old(closes)
      ensures w.firstOpen && (k.dop ==> hasSwitch && w.onMixer && w.onWrite) ==> ok
      ensures k.s24 && !k.dop && w.secondOpen ==> ok
    {
      hide S24Refused, SwitchKnown, LocalFormat;
      activeLowLatency := k.lowLatency;
      ok := OpenPcm(k, w);
      if !ok { return; }
      if k.dop {
        ok := Arm(k.rate, w);
        if !ok { return; }
      }
      activeTarget := Local;
      activeDop := k.dop;
    }

    /** The local codec.  PCM is opened only behind a cleared switch; DoP sets it before the first write. */
    method OpenLocal(k: Want, w: World) returns (ok: bool)
      requires Inv() && !AnyOpen() && activeTarget.Local?
      modifies `alsa, `opens, `closes, `dopSwitchWritten, `switchOn, `activeTarget, `activeFormat, `activeDop,
               `activeLowLatency, `s24Unsupported, `dopRefusedRate
      ensures Inv() && ok == alsa && activeTarget.Local? && opens <= old(opens) + 1
      ensures ok ==> activeDop == k.dop && activeLowLatency == k.lowLatency && LocalFormat(k)
      ensures ok && activeFormat.S24? ==> S24Refused(k.channels, k.rate) == old(S24Refused(k.channels, k.rate))
      ensures old(S24Refused(k.channels, k.rate)) ==> S24Refused(k.channels, k.rate)
      ensures ok ==> dopRefusedRate == old(dopRefusedRate) && opens == old(opens) + 1 && closes == old(closes)
      ensures ok && k.dop ==> k.rate <= 384000
      ensures Works(k, Requests(Local, 0, "", 0), w) ==> ok
    {
      hide S24Refused, LocalFormat;
      if k.dop && k.rate > 384000 { return false; }
      if !k.dop {
        ok := SetDopSwitch(false, w.offMixer, w.offWrite);
        if !ok { return; }
      }
      ok := OpenReady(k, w);
    }

    /** 24 bits are known not to work for these channels and this rate. */
    predicate S24Refused(channels: nat, rate: nat)
      reads `s24Unsupported
    {
      s24Unsupported == Refused(channels, rate)
    }

    /** A USB device has been opened: as a stream of its own, or as a pipe. */
    method TakeUsb(direct: bool, dop: bool)
      requires Inv() && !AnyOpen()
      modifies `usbDsd, `usbPipe, `opens, `activeDop, `activeTarget
      ensures Inv() && AnyOpen() && usbDsd == direct && usbPipe == !direct && opens == old(opens) + 1
      ensures activeTarget.Usb? && activeDop == dop
    {
      hide SwitchKnown;
      usbPipe, usbDsd := !direct, direct;
      opens := opens + 1;
      activeDop, activeTarget := dop, Usb;
    }

    method OpenUsb(k: Want, r: Requests, w: World) returns (ok: bool)
      requires Inv() && !AnyOpen() && !activeDop
      modifies `usbDsd, `usbPipe, `opens, `requests, `activeUsbMode, `activeUsbDevice, `activeDop, `activeTarget, `activeFormat
      ensures Inv() && ok == AnyOpen() && !alsa && opens <= old(opens) + 1
      ensures ok ==> activeTarget.Usb? && activeUsbMode == r.usbMode && activeUsbDevice == r.usbDevice && activeDop == k.dop
      ensures ok ==> activeFormat == (if k.s24 then S24 else S16) && opens == old(opens) + 1 && requests == old(requests)
      ensures ok && k.dop ==> r.usbMode != 0
      ensures r.target.Usb? ==> ok == Works(k, r, w)
    {
      hide Inv;
      var direct := false;
      if k.dop {
        if r.usbMode == 0 || !w.deviceParses { return false; }
        direct := w.usbOpened;
        if !direct {
          if requests.target.Usb? && requests.usbMode == r.usbMode && requests.usbDevice == r.usbDevice {
            requests := requests.(usbRefusedRate := k.rate);
          }
          return false;
        }
      } else if !w.spawned {
        return false;
      }
      TakeUsb(direct, k.dop);
      activeUsbMode, activeUsbDevice := r.usbMode, r.usbDevice;
      activeFormat := if k.s24 then S24 else S16;
      return true;
    }

    method OpenBluetooth(k: Want, w: World) returns (ok: bool)
      requires Inv() && !AnyOpen()
      modifies `bluetoothPipe, `opens, `activeTarget, `activeFormat
      ensures Inv() && ok == AnyOpen() && !alsa && opens <= old(opens) + 1
      ensures ok ==> !k.dop && activeTarget.Bluetooth? && activeFormat.S24? && opens == old(opens) + 1
      ensures ok <==> !k.dop && w.volume && w.spawned
    {
      if k.dop || !w.volume || !w.spawned { return false; }
      bluetoothPipe := true;
      opens := opens + 1;
      activeTarget, activeFormat := Bluetooth, S24;
      return true;
    }

    // ---- deciding whether to reopen ----

    /** The format really asked for: refused 24 bits are not tried again, DoP needs them. */
    function Normal(k: Want, r: Requests): Want
      reads `s24Unsupported
    {
      if k.dop then k.(s24 := true, lowLatency := false)
      else if r.target.Local? && k.s24 && S24Refused(k.channels, k.rate) then k.(s24 := false)
      else k
    }

    /** The open device serves the wanted format on the requested target. */
    predicate Fits(k: Want, r: Requests)
      reads `alsa, `usbDsd, `bluetoothPipe, `usbPipe, `activeTarget, `activeUsbDevice, `activeUsbMode
      reads `activeFormat, `activeLowLatency, `activeDop, `channels, `rate
    {
      && AnyOpen() && activeTarget == r.target
      && (r.target.Usb? ==> activeUsbDevice == r.usbDevice && (k.dop ==> activeUsbMode == r.usbMode))
      && activeFormat == (if r.target.Bluetooth? || k.s24 then S24 else S16)
      && (r.target.Local? ==> activeLowLatency == k.lowLatency)
      && activeDop == k.dop && channels == k.channels && rate == k.rate
    }

    /** Pass-through of DSD is possible for the requested target, as far as is known without the mixer. */
    predicate Allowed(dopRate: nat, r: Requests)
      reads `dopRefusedRate, `dopSupported
    {
      if r.target.Usb? then r.usbMode != 0 && dopRate != r.usbRefusedRate
      else r.target.Local? && dopRate <= 384000 && dopRate != dopRefusedRate && dopSupported == 1
    }

    /** A call that asks for this again finds nothing to do. */
    predicate Settled(k: Want, r: Requests)
      reads `alsa, `usbDsd, `bluetoothPipe, `usbPipe, `activeTarget, `activeUsbDevice, `activeUsbMode
      reads `activeFormat, `activeLowLatency, `activeDop, `channels, `rate
      reads `s24Unsupported, `dopRefusedRate, `dopSupported
    {
      Fits(Normal(k, r), r) && (k.dop ==> Allowed(k.rate, r))
    }

    /** Pass-through of DSD can be had for the requested target; a card not looked at yet is asked through
        the mixer. */
    predicate Passable(dopRate: nat, mixer: bool)
      reads `requests, `dopRefusedRate, `dopSupported
    {
      if requests.target.Usb? then requests.usbMode != 0 && dopRate != requests.usbRefusedRate
      else
        && requests.target.Local? && dopRate <= 384000 && dopRate != dopRefusedRate
        && (dopSupported == 1 || (dopSupported < 0 && mixer && hasSwitch))
    }

    method PassthroughRequested(dopRate: nat, mixer: bool) returns (yes: bool)
      requires Inv()
      modifies `dopSupported
      ensures Inv() && yes == Allowed(dopRate, requests) && yes == old(Passable(dopRate, mixer))
      ensures old(dopSupported) != -1 ==> dopSupported == old(dopSupported)
    {
      if requests.target.Usb? { return requests.usbMode != 0 && dopRate != requests.usbRefusedRate; }
      if !requests.target.Local? || dopRate > 384000 || dopRate == dopRefusedRate { return false; }
      if dopSupported < 0 {
        if !mixer { return false; }
        dopSupported := if hasSwitch then 1 else 0;
      }
      return dopSupported == 1;
    }

    /** The process behind the open pipe has died. */
    predicate Died(w: World)
      reads `bluetoothPipe, `usbPipe, `activeTarget
    {
      || (activeTarget.Bluetooth? && bluetoothPipe && w.bluetoothDied)
      || (activeTarget.Usb? && usbPipe && w.usbDied)
    }

    /** Pipes whose process has died no longer count as open. */
    method ReapPipes(w: World)
      requires Inv()
      modifies `bluetoothPipe, `usbPipe, `closes
      ensures Inv() && (if old(Died(w)) then !AnyOpen() else unchanged(`bluetoothPipe, `usbPipe, `closes))
    {
      if activeTarget.Bluetooth? && bluetoothPipe && w.bluetoothDied {
        bluetoothPipe := false;
        closes := closes + 1;
      }
      if activeTarget.Usb? && usbPipe && w.usbDied {
        usbPipe := false;
        closes := closes + 1;
      }
    }

    method OpenDevice(k: Want, r: Requests, w: World) returns (ok: bool)
      requires Inv() && !AnyOpen() && activeTarget.Local? && !activeDop
      requires k.dop ==> k.s24 && !k.lowLatency && Allowed(k.rate, r)
      requires k.s24 && r.target.Local? && !k.dop ==> !S24Refused(k.channels, k.rate)
      modifies this
      ensures Inv() && ok == AnyOpen() && opens <= old(opens) + 1
      ensures ok ==> Settled(k, r) && requests == old(requests) && opens == old(opens) + 1
      ensures ok && old(S24Refused(k.channels, k.rate)) ==> S24Refused(k.channels, k.rate)
      ensures Works(k, r, w) ==> ok
      ensures ownerValid == old(ownerValid) && owner == old(owner)
    {
      hide Inv, Works;
      WorksAlone(k, r, w);
      match r.target {
        case Usb => ok := OpenUsb(k, r, w);
        case Bluetooth => ok := OpenBluetooth(k, w);
        case Local => ok := OpenLocal(k, w);
      }
      if ok { channels, rate := k.channels, k.rate; }
    }

    /** Refuses pass-through that cannot work, then claims the output for the calling thread. */
    method Claim(k: Want, me: nat, w: World) returns (claimed: bool)
      requires Inv()
      modifies `dopSupported, `owner, `ownerValid
      ensures Inv() && (claimed ==> ownerValid && owner == me && (k.dop ==> Allowed(k.rate, requests)))
      ensures !claimed ==> unchanged(`owner, `ownerValid)
      ensures claimed <==> old((!ownerValid || owner == me) && (k.dop ==> Passable(k.rate, w.supportMixer)))
    {
      hide Inv, Passable, Allowed;
      if k.dop {
        var yes := PassthroughRequested(k.rate, w.supportMixer);
        if !yes { return false; }
      }
      if ownerValid {
        if owner != me { return false; }
      } else {
        owner, ownerValid := me, true;
      }
      return true;
    }

    /** What is open serves the wanted format on the requested target, and is alive. */
    predicate Serves(k: Want, r: Requests, w: World)
      reads `alsa, `usbDsd, `bluetoothPipe, `usbPipe, `activeTarget, `activeUsbDevice, `activeUsbMode
      reads `activeFormat, `activeLowLatency, `activeDop, `channels, `rate, `s24Unsupported
    {
      Fits(Normal(k, r), r) && !Died(w)
    }

    /** The owner opens or reopens the device when, and only when, what is open does not serve the wanted
        format on the requested target.  A call that fails ends ownership, except one that asks for a
        pass-through that cannot be had: it is turned away before and leaves everything as it was. */
    method Ensure(k: Want, me: nat, w: World) returns (ok: bool, ghost claimed: bool)
      requires Inv()
      modifies this
      ensures Inv() && opens <= old(opens) + 1
      ensures claimed <==> old((!ownerValid || owner == me) && (k.dop ==> Passable(k.rate, w.supportMixer)))
      ensures !claimed ==> !ok && unchanged(`alsa, `usbDsd, `bluetoothPipe, `usbPipe, `opens, `closes, `requests)
                           && unchanged(`ownerValid, `owner, `activeDop, `activeFormat, `activeTarget, `channels, `rate)
      ensures claimed && Works(old(Normal(k, requests)), old(requests), w) ==> ok
      ensures claimed && !ok ==> !ownerValid && !AnyOpen()
      ensures old(ownerValid && owner == me) && !ok ==>
        ((ownerValid && owner == me) <==> (k.dop && !old(Passable(k.rate, w.supportMixer))))
      ensures ok ==> ownerValid && owner == me && AnyOpen() && Settled(k, old(requests))
      ensures ok ==> channels == k.channels && rate == k.rate && activeDop == k.dop && activeTarget == old(requests.target)
      ensures ok && old(requests.target.Usb?) ==>
        activeUsbDevice == old(requests.usbDevice) && (k.dop ==> activeUsbMode == old(requests.usbMode))
      ensures ok && old(requests.target.Local?) ==> activeLowLatency == (k.lowLatency && !k.dop)
      ensures ok ==> var q := old(requests);
        activeFormat.S24? == (k.dop || q.target.Bluetooth? || (k.s24 && !(q.target.Local? && s24Unsupported == Refused(k.channels, k.rate))))
      ensures ok && !w.meanwhile ==> requests == old(requests)
      ensures ok ==> opens == old(opens) + if old(Serves(k, requests, w)) then 0 else 1
      ensures claimed && old(Serves(k, requests, w)) ==>
        ok && unchanged(`alsa, `usbDsd, `bluetoothPipe, `usbPipe, `opens, `closes)
    {
      hide Inv, Fits, Normal, Allowed, AnyOpen, Works;
      var mine := Claim(k, me, w);
      claimed := mine;
      if !mine { return false, false; }
      var r := requests;
      if w.meanwhile { requests := w.later; }
      ok := Serve(k, r, w);
      if ok { SettledMeans(k, r); } else { ownerValid := false; }
    }

    /** What a device that serves a request is, field by field. */
    lemma SettledMeans(k: Want, r: Requests)
      requires Settled(k, r)
      ensures channels == k.channels && rate == k.rate && activeDop == k.dop && activeTarget == r.target
      ensures r.target.Usb? ==> activeUsbDevice == r.usbDevice && (k.dop ==> activeUsbMode == r.usbMode)
      ensures r.target.Local? ==> activeLowLatency == (k.lowLatency && !k.dop)
      ensures activeFormat.S24? ==
        (k.dop || r.target.Bluetooth? || (k.s24 && !(r.target.Local? && s24Unsupported == Refused(k.channels, k.rate))))
    {
      hide Allowed;
    }

    /** Keeps what serves, reopens otherwise. */
    method Serve(k: Want, r: Requests, w: World) returns (ok: bool)
      requires Inv() && (k.dop ==> Allowed(k.rate, r))
      modifies this
      ensures Inv() && ok == AnyOpen() && opens <= old(opens) + 1 && (ok ==> Settled(k, r) && requests == old(requests))
      ensures ownerValid == old(ownerValid) && owner == old(owner)
      ensures Works(old(Normal(k, r)), r, w) ==> ok
      ensures old(Serves(k, r, w)) ==> ok && unchanged(`alsa, `usbDsd, `bluetoothPipe, `usbPipe, `opens, `closes)
      ensures ok && !old(Serves(k, r, w)) ==> opens == old(opens) + 1
    {
      hide Inv, Fits, Normal, Allowed, AnyOpen, Works;
      ReapPipes(w);
      if Fits(Normal(k, r), r) {
        FitsIsOpen(Normal(k, r), r);
        return true;
      }
      ok := Reopen(k, r, w);
    }

    lemma FitsIsOpen(k: Want, r: Requests)
      requires Fits(k, r)
      ensures AnyOpen()
    {
    }

    method Reopen(k: Want, r: Requests, w: World) returns (ok: bool)
      requires Inv() && (k.dop ==> Allowed(k.rate, r))
      modifies this
      ensures Inv() && ok == AnyOpen() && opens <= old(opens) + 1 && (ok ==> Settled(k, r) && requests == old(requests))
      ensures ownerValid == old(ownerValid) && owner == old(owner) && (ok ==> opens == old(opens) + 1)
      ensures Works(old(Normal(k, r)), r, w) ==> ok
    {
      hide Inv, Fits, Allowed, Works;
      var k' := Normal(k, r);
      NormalAgain(k, r);
      CloseDeviceState(w);
      ok := OpenDevice(k', r, w);
      if ok { SettledAs(k, k', r); }
    }

    lemma SettledAs(k: Want, k': Want, r: Requests)
      requires Settled(k', r) && k'.dop == k.dop && k'.channels == k.channels && k'.rate == k.rate
      requires k' == (if k.dop then k.(s24 := true, lowLatency := false) else k)
               || (!k.dop && r.target.Local? && k.s24 && k' == k.(s24 := false) && S24Refused(k.channels, k.rate))
      ensures Settled(k, r)
    {
      hide Fits, Allowed;
    }

    /** Normalizing twice is normalizing once. */
    lemma NormalAgain(k: Want, r: Requests)
      ensures var k' := Normal(k, r);
              && k'.dop == k.dop && k'.channels == k.channels && k'.rate == k.rate
              && (k.dop ==> k'.s24 && !k'.lowLatency)
              && (k'.s24 && r.target.Local? && !k'.dop ==> !S24Refused(k.channels, k.rate))
              && (k' == (if k.dop then k.(s24 := true, lowLatency := false) else k)
                  || (!k.dop && r.target.Local? && k.s24 && k' == k.(s24 := false) && S24Refused(k.channels, k.rate)))
    {
    }

    // ---- the other calls ----

    /** Only the owner closes, and gives the output up with it. */
    method Close(me: nat, w: World)
      requires Inv()
      modifies this
      ensures Inv()
      ensures old(ownerValid) && old(owner) == me ==> !AnyOpen() && !ownerValid
      ensures !(old(ownerValid) && old(owner) == me) ==> unchanged(this)
    {
      if !ownerValid || owner != me { return; }
      CloseDeviceState(w);
      ownerValid := false;
    }

    /** A pipe that stops taking data is closed; the codec's stream stays open. */
    method WriteFailed(me: nat)
      requires Inv()
      modifies `bluetoothPipe, `usbPipe, `usbDsd, `closes
      ensures Inv()
      ensures !(ownerValid && owner == me) ==> unchanged(`bluetoothPipe, `usbPipe, `usbDsd)
      ensures ownerValid && owner == me ==> !bluetoothPipe && !usbPipe && !usbDsd
    {
      if !ownerValid || owner != me { return; }
      if activeTarget.Bluetooth? { CloseBluetooth(); }
      else if activeTarget.Usb? { CloseUsb(); }
    }

    /** Another thread changes what is asked for. */
    method Request(later: Requests)
      requires Inv()
      modifies `requests
      ensures Inv() && requests == later
    {
      requests := later;
    }

    /** A new track gives 24 bits another try. */
    method ResetS24Probe()
      requires Inv()
      modifies `s24Unsupported
      ensures Inv() && s24Unsupported.Clear?
    {
      s24Unsupported := Clear;
    }

  }

  // ---- runs ----

  datatype Call = EnsureCall(k: Want, me: nat, w: World)
                | CloseCall(me: nat, closing: World)
                | WriteFailedCall(me: nat)
                | RequestCall(later: Requests)
                | NewTrackCall

  /** In every run of calls, whatever fails: an open local PCM stream implies that the codec's DoP switch is
      off, an open local DoP stream that it is on, and no two handles are open at once. */
  method RunCalls(d: Device, calls: seq<Call>)
    requires d.Inv()
    modifies d
    ensures d.Inv()
    ensures d.alsa && !d.activeDop ==> !d.switchOn
    ensures d.alsa && d.activeDop ==> d.switchOn
    ensures d.alsa ==> !d.bluetoothPipe && !d.usbPipe && !d.usbDsd
  {
    var i := 0;
    while i < |calls|
      invariant 0 <= i <= |calls| && d.Inv()
    {
      match calls[i] {
        case EnsureCall(k, me, w) => var _, _ := d.Ensure(k, me, w);
        case CloseCall(me, w) => d.Close(me, w);
        case WriteFailedCall(me) => d.WriteFailed(me);
        case RequestCall(later) => d.Request(later);
        case NewTrackCall => d.ResetS24Probe();
      }
      i := i + 1;
    }
  }

  /** The repeat: once a call has succeeded, the same call succeeds again and neither closes nor opens
      anything while the requests stay and the processes live, a fall-back from 24 to 16 bits included: both
      calls together open one handle, or none when the device served from the start. */
  method EnsureTwice(d: Device, k: Want, me: nat, w: World, w': World) returns (first: bool, second: bool)
    requires d.Inv() && !w.meanwhile && !w'.bluetoothDied && !w'.usbDied
    modifies d
    ensures first ==> second && d.AnyOpen()
    ensures first ==> d.opens == old(d.opens) + if old(d.Serves(k, d.requests, w)) then 0 else 1
    ensures first ==> d.closes == old(d.closes) + if old(d.AnyOpen() && !d.Serves(k, d.requests, w)) then 1 else 0
  {
    hide Device.Serves;
    ghost var claimed;
    first, claimed := d.Ensure(k, me, w);
    if first { SettledServes(d, k, w'); }
    second, claimed := d.Ensure(k, me, w');
  }

  lemma SettledServes(d: Device, k: Want, w: World)
    requires d.Settled(k, d.requests) && !w.bluetoothDied && !w.usbDied
    ensures d.Serves(k, d.requests, w) && (k.dop ==> d.Passable(k.rate, w.supportMixer))
  {
  }

  /** A refused pass-through keeps the owner: thread 1 plays PCM on the codec, the target becomes Bluetooth,
      and asking for DoP then fails without releasing the output. */
  method RefusalKeepsOwner(good: World) returns (first: bool, second: bool, owned: bool, open: bool)
    requires good.offMixer && good.offWrite && good.firstOpen && !good.meanwhile
    ensures first && !second && owned && open
  {
    var d := new Device(true, false);
    var k := Want(2, 44100, false, false, false);
    ghost var claimed;
    first, claimed := d.Ensure(k, 1, good);
    d.Request(Requests(Bluetooth, 0, "", 0));
    second, claimed := d.Ensure(k.(dop := true, rate := 176400), 1, good);
    owned, open := d.ownerValid && d.owner == 1, d.alsa;
  }
}
