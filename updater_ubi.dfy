/** The UBI helpers of the updater's built-ins (updater/install.c):
    `UbiAttach` attaches an MTD partition and names its first volume,
    `UbiDetach` removes the UBI device behind a device node, and `UbiFormat`
    rebuilds one volume filling a partition.  Each is a reference function
    giving the result, the events and the attached map afterwards, and a
    method over the `Kernel` proved equal to it. */
module UpdaterUbi {
  import opened Common
  import opened Platform
  import opened DispatchSpec

  // ------------------------------------------------------------ node names

  /** `"/dev/ubi%d_0"`: the first volume of a UBI device. */
  function AttachNode(devNum: int): string {
    "/dev/ubi" + IntToString(devNum) + "_0"
  }

  /** `"/dev/ubi%d"`: the UBI device itself. */
  function DeviceNode(devNum: int): string {
    "/dev/ubi" + IntToString(devNum)
  }

  /** A 32-bit `int` prints in at most 11 characters (sign included). */
  lemma IntToStringInt32(n: int)
    requires INT32_MIN <= n <= INT32_MAX
    ensures |IntToString(n)| <= 11
  {
    assert Pow10(10) == 10_000_000_000;
    if n < 0 {
      NatToStringLength(-n, 10);
    } else {
      NatToStringLength(n, 10);
    }
  }

  /** Both node names fit, with their NUL, in the 32-byte buffers they are
      printed into. */
  lemma NodesFit(devNum: int)
    requires INT32_MIN <= devNum <= INT32_MAX
    ensures SprintfInto(32, AttachNode(devNum)) == Some(AttachNode(devNum))
    ensures SprintfInto(32, DeviceNode(devNum)) == Some(DeviceNode(devNum))
  {
    IntToStringInt32(devNum);
  }

  /** Different devices get different node names: the number can be read
      back from the name. */
  lemma AttachNodeInjective(a: nat, b: nat)
    requires AttachNode(a) == AttachNode(b)
    ensures a == b
  {
    var na, nb := NatToString(a), NatToString(b);
    assert AttachNode(a) == "/dev/ubi" + na + "_0";
    assert |na| == |nb|;
    assert na == AttachNode(a)[8..8 + |na|];
    assert nb == AttachNode(b)[8..8 + |nb|];
    NatToStringValue(a);
    NatToStringValue(b);
  }

  /** The path `UbiDetach` probes: names that are not absolute are taken
      relative to /dev, and the result is cut to the 63 characters that fit
      before the terminating NUL of `devpath[64]`. */
  function DevPath(device: string): (p: string)
    ensures |p| <= 63
    ensures |device| > 0 && device[0] == '/' && |device| <= 63 ==> p == device
    ensures !(|device| > 0 && device[0] == '/') && |device| <= 58 ==> p == "/dev/" + device
    ensures |p| > 0 && p[0] == '/'
  {
    Truncate(if |device| > 0 && device[0] == '/' then device else "/dev/" + device, 63)
  }

  // --------------------------------------------------------------- attach

  /** What `UbiAttach` returns and leaves: the node is written only when
      the attach succeeds (the caller's buffer stays empty otherwise). */
  datatype AttachOutcome = AttachOutcome(r: int, node: string, events: seq<Event>, attached: map<int, int>)

  /** `UbiAttach`: no detach first; attach; name the first volume. */
  function UbiAttachOutcome(o: Oracles, att0: map<int, int>, location: string): AttachOutcome {
    var m := o.mtdIndex(location);
    if !UbiUsable(o, m) then AttachOutcome(-1, "", [], att0)
    else if !AttachSucceeds(o, att0, m) then AttachOutcome(-1, "", [Event.UbiAttach(m, false)], att0)
    else
      var dev := o.ubiAttachDev(m).value;
      AttachOutcome(0, AttachNode(dev), [Event.UbiAttach(m, true)], att0[m := dev])
  }

  /** `UbiAttach` succeeds exactly when the partition is known, libubi works
      and the partition is not attached yet (there is no detach before the
      attach); on success the partition is attached to the device the node
      names, on failure nothing changes. */
  lemma UbiAttachProperties(o: Oracles, att0: map<int, int>, location: string)
    ensures var a := UbiAttachOutcome(o, att0, location);
            var m := o.mtdIndex(location);
            (a.r == 0 || a.r == -1) &&
            (a.r == 0 <==> UbiUsable(o, m) && m !in att0 && o.ubiAttachDev(m).Some?) &&
            (a.r == 0 ==> m in a.attached && a.node == AttachNode(a.attached[m]) &&
                          a.attached == att0[m := a.attached[m]] && a.events == [Event.UbiAttach(m, true)]) &&
            (a.r != 0 ==> a.attached == att0 && a.node == "" && (a.events == [] || a.events == [Event.UbiAttach(m, false)])) &&
            (forall i :: 0 <= i < |a.events| ==> !a.events[i].UbiDetachMtd?)
  {
  }

  method UbiAttach(k: Kernel, location: string) returns (r: int, node: string)
    modifies k`trace, k`attached, k`handles
    ensures var a := UbiAttachOutcome(k.o, old(k.attached), location);
            r == a.r && node == a.node && k.trace == old(k.trace) + a.events && k.attached == a.attached
    ensures k.handles == old(k.handles)
  {
    node := "";
    var m := k.o.mtdIndex(location);
    if m < 0 {
      return -1, node;
    }
    var isOpen := k.LibubiOpen();
    if !isOpen {
      return -1, node;
    }
    if k.o.ubiInfoErr != 0 || k.o.ubiCtrlMajor == -1 {
      k.LibubiClose();
      return -1, node;
    }
    var err, dev := k.UbiAttach(m);
    if err != 0 {
      k.LibubiClose();
      return -1, node;
    }
    node := AttachNode(dev);
    k.LibubiClose();
    return 0, node;
  }

  // --------------------------------------------------------------- detach

  /** The UBI device number behind a node, as `ubi_probe_node` and then
      `ubi_get_dev_info` (a device node) or `ubi_get_vol_info` (a volume
      node) find it; None when probing or the lookup fails. */
  function DeviceNumberOf(o: Oracles, path: string): Option<int> {
    var probe := o.ubiProbe(path);
    if probe == -1 then None
    else if probe == 1 then o.ubiDevNumOfDev(path)
    else o.ubiDevNumOfVol(path)
  }

  /** `UbiDetach`: remove the UBI device behind `device` (NULL fails). */
  function UbiDetachOutcome(o: Oracles, att0: map<int, int>, device: Option<string>): Outcome {
    if device.None? || !o.ubiOpen || o.ubiInfoErr != 0 || o.ubiCtrlMajor == -1 then Outcome(-1, [], att0, None)
    else
      match DeviceNumberOf(o, DevPath(device.value))
      case None => Outcome(-1, [], att0, None)
      case Some(devn) =>
        if devn < 0 then Outcome(-1, [], att0, None)
        else if o.ubiRemoveOk(devn) then Outcome(0, [Event.UbiRemoveDev(devn)], WithoutDevice(att0, devn), None)
        else Outcome(-1, [Event.UbiRemoveDev(devn)], att0, None)
  }

  /** `UbiDetach` fails with no effect on a NULL device; it removes at most
      one device, attaches nothing, and on success no partition is left
      bound to the removed device. */
  lemma UbiDetachProperties(o: Oracles, att0: map<int, int>, device: Option<string>)
    ensures var d := UbiDetachOutcome(o, att0, device);
            (d.r == 0 || d.r == -1) &&
            (device.None? ==> d.r == -1 && d.events == [] && d.attached == att0) &&
            |d.events| <= 1 && OnlyDetached(att0, d.attached) && NonDestructive(d.events) &&
            (d.r == 0 <==> d.events != [] && o.ubiRemoveOk(d.events[0].devNum)) &&
            (d.r == 0 ==> d.events[0].UbiRemoveDev? &&
                          forall m :: m in d.attached ==> d.attached[m] != d.events[0].devNum) &&
            (d.r != 0 ==> d.attached == att0)
  {
  }

  method UbiDetach(k: Kernel, device: Option<string>) returns (r: int)
    modifies k`trace, k`attached, k`handles
    ensures var d := UbiDetachOutcome(k.o, old(k.attached), device);
            r == d.r && k.trace == old(k.trace) + d.events && k.attached == d.attached
    ensures k.handles == old(k.handles)
  {
    if device.None? {
      return -1;
    }
    var isOpen := k.LibubiOpen();
    if !isOpen {
      return -1;
    }
    if k.o.ubiInfoErr != 0 || k.o.ubiCtrlMajor == -1 {
      k.LibubiClose();
      return -1;
    }
    var devpath := DevPath(device.value);
    var devn: int;
    var probe := k.o.ubiProbe(devpath);
    if probe == -1 {
      k.LibubiClose();
      return -1;
    } else if probe == 1 {
      var found := k.o.ubiDevNumOfDev(devpath);
      if found.None? {
        k.LibubiClose();
        return -1;
      }
      devn := found.value;
    } else {
      var found := k.o.ubiDevNumOfVol(devpath);
      if found.None? {
        k.LibubiClose();
        return -1;
      }
      devn := found.value;
    }
    if devn < 0 {
      k.LibubiClose();
      return -1;
    }
    var err := k.UbiRemoveDev(devn);
    k.LibubiClose();
    r := if err != 0 then -1 else 0;
  }

  // --------------------------------------------------------------- format

  /** `UbiFormat`: detach first, attach, create one volume of type
      `volType` over the device's available bytes, and detach again on
      every path after the attach. */
  function UbiFormatOutcome(o: Oracles, att0: map<int, int>, volType: int, location: string): Outcome {
    var m := o.mtdIndex(location);
    if !UbiUsable(o, m) then Outcome(-1, [], att0, None)
    else
      var att := AfterDetach(o, att0, m);
      if !AttachSucceeds(o, att, m) then
        Outcome(-1, [Event.UbiDetachMtd(m), Event.UbiAttach(m, false)], att, None)
      else
        var dev := o.ubiAttachDev(m).value;
        match o.ubiDevInfo(dev)
        case None =>
          Outcome(-1, [Event.UbiDetachMtd(m), Event.UbiAttach(m, true), Event.UbiDetachMtd(m)],
                  AfterDetach(o, att[m := dev], m), None)
        case Some(info) =>
          var mkvol := Event.UbiMkvol(DeviceNode(info.devNum), info.availBytes, location, volType);
          var err := o.ubiMkvol(DeviceNode(info.devNum), info.availBytes, location, volType);
          Outcome(if err < 0 then -1 else 0,
                  [Event.UbiDetachMtd(m), Event.UbiAttach(m, true), mkvol, Event.UbiDetachMtd(m)],
                  AfterDetach(o, att[m := dev], m), None)
  }

  /** `UbiFormat` never leaves an attach behind: every attach is followed by
      a detach of the same partition; it starts with a detach; the only
      destructive step is one volume creation on the device node, sized to
      the device's available bytes, and it comes after the attach; when
      detaching works the partition ends detached. */
  lemma UbiFormatCleanup(o: Oracles, att0: map<int, int>, volType: int, location: string)
    ensures var f := UbiFormatOutcome(o, att0, volType, location);
            var m := o.mtdIndex(location);
            (f.r == 0 || f.r == -1) &&
            ReleasesAttaches(f.events) && SameExcept(att0, f.attached, m) &&
            (f.events != [] ==> f.events[0] == Event.UbiDetachMtd(m)) &&
            (o.ubiDetachOk(m) && f.events != [] ==> m !in f.attached) &&
            (forall i :: 0 <= i < |f.events| && IsDestructive(f.events[i]) ==>
               i == 2 && f.events[1] == Event.UbiAttach(m, true) && f.events[2].UbiMkvol?) &&
            (f.r == 0 ==>
               var info := o.ubiDevInfo(o.ubiAttachDev(m).value).value;
               |f.events| == 4 &&
               f.events[2] == Event.UbiMkvol(DeviceNode(info.devNum), info.availBytes, location, volType))
  {
    var f := UbiFormatOutcome(o, att0, volType, location);
    var m := o.mtdIndex(location);
    if !UbiUsable(o, m) {
      assert f == Outcome(-1, [], att0, None);
    } else if !AttachSucceeds(o, AfterDetach(o, att0, m), m) {
      assert f == Outcome(-1, [Event.UbiDetachMtd(m), Event.UbiAttach(m, false)], AfterDetach(o, att0, m), None);
    } else {
      var dev := o.ubiAttachDev(m).value;
      match o.ubiDevInfo(dev)
      case None =>
        UbiFormatNoInfo(o, att0, volType, location, m, dev);
      case Some(info) =>
        UbiFormatMkvol(o, att0, volType, location, m, dev, info);
    }
  }

  /** The attach worked but the device has no info: detach again. */
  lemma UbiFormatNoInfo(o: Oracles, att0: map<int, int>, volType: int, location: string, m: int, dev: int)
    requires m == o.mtdIndex(location) && UbiUsable(o, m) && AttachSucceeds(o, AfterDetach(o, att0, m), m)
    requires dev == o.ubiAttachDev(m).value && o.ubiDevInfo(dev).None?
    ensures var f := UbiFormatOutcome(o, att0, volType, location);
            f.r == -1 && f.events == [Event.UbiDetachMtd(m), Event.UbiAttach(m, true), Event.UbiDetachMtd(m)] &&
            ReleasesAttaches(f.events) && f.attached == AfterDetach(o, AfterDetach(o, att0, m)[m := dev], m)
  {
    var f := UbiFormatOutcome(o, att0, volType, location);
    ReleasedByFinalDetach([Event.UbiDetachMtd(m)], m, []);
    assert f.events == [Event.UbiDetachMtd(m)] + [Event.UbiAttach(m, true)] + [] + [Event.UbiDetachMtd(m)];
  }

  /** The attach worked and the device has info: one volume is created over
      its available bytes, then the partition is detached. */
  lemma UbiFormatMkvol(o: Oracles, att0: map<int, int>, volType: int, location: string, m: int, dev: int, info: DevInfo)
    requires m == o.mtdIndex(location) && UbiUsable(o, m) && AttachSucceeds(o, AfterDetach(o, att0, m), m)
    requires dev == o.ubiAttachDev(m).value && o.ubiDevInfo(dev) == Some(info)
    ensures var f := UbiFormatOutcome(o, att0, volType, location);
            var mkvol := Event.UbiMkvol(DeviceNode(info.devNum), info.availBytes, location, volType);
            f.events == [Event.UbiDetachMtd(m), Event.UbiAttach(m, true), mkvol, Event.UbiDetachMtd(m)] &&
            ReleasesAttaches(f.events) && f.attached == AfterDetach(o, AfterDetach(o, att0, m)[m := dev], m) &&
            (f.r == 0 <==> o.ubiMkvol(DeviceNode(info.devNum), info.availBytes, location, volType) >= 0) &&
            (f.r != 0 ==> f.r == -1)
  {
    var f := UbiFormatOutcome(o, att0, volType, location);
    var mkvol := Event.UbiMkvol(DeviceNode(info.devNum), info.availBytes, location, volType);
    ReleasedByFinalDetach([Event.UbiDetachMtd(m)], m, [mkvol]);
    assert f.events == [Event.UbiDetachMtd(m)] + [Event.UbiAttach(m, true)] + [mkvol] + [Event.UbiDetachMtd(m)];
  }

  method UbiFormat(k: Kernel, volType: int, location: string) returns (r: int)
    modifies k`trace, k`attached, k`handles
    ensures var f := UbiFormatOutcome(k.o, old(k.attached), volType, location);
            r == f.r && k.trace == old(k.trace) + f.events && k.attached == f.attached
    ensures k.handles == old(k.handles)
  {
    var m := k.o.mtdIndex(location);
    if m < 0 {
      return -1;
    }
    var isOpen := k.LibubiOpen();
    if !isOpen {
      return -1;
    }
    if k.o.ubiInfoErr != 0 || k.o.ubiCtrlMajor == -1 {
      k.LibubiClose();
      return -1;
    }
    r := UbiRebuild(k, m, volType, location);
    k.LibubiClose();
  }

  /** The part of `UbiFormat` that runs with the libubi handle open: detach,
      attach, create the volume and detach again.  Closing the handle on
      each of its exits is left to the caller; it involves neither the
      trace nor the attach state. */
  method UbiRebuild(k: Kernel, m: int, volType: int, location: string) returns (r: int)
    requires m == k.o.mtdIndex(location) && UbiUsable(k.o, m)
    modifies k`trace, k`attached
    ensures var f := UbiFormatOutcome(k.o, old(k.attached), volType, location);
            r == f.r && k.trace == old(k.trace) + f.events && k.attached == f.attached
  {
    ghost var att := AfterDetach(k.o, old(k.attached), m);
    var ignored := k.UbiDetachMtd(m);
    assert k.attached == att;
    var err, dev := k.UbiAttach(m);
    if err != 0 {
      return -1;
    }
    var info := k.o.ubiDevInfo(dev);
    if info.None? {
      ignored := k.UbiDetachMtd(m);
      UbiFormatNoInfo(k.o, old(k.attached), volType, location, m, dev);
      return -1;
    }
    var node := DeviceNode(info.value.devNum);
    err := k.UbiMkvol(node, info.value.availBytes, location, volType);
    ignored := k.UbiDetachMtd(m);
    UbiFormatMkvol(k.o, old(k.attached), volType, location, m, dev, info.value);
    r := if err < 0 then -1 else 0;
  }
}
