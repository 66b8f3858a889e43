/** The mount, unmount and format dispatchers of roots.c as methods over the
    volume table (`Roots`), the snapshot of mounted file systems
    (`MountsState`) and the kernel (`Kernel`).  Each is proved to return,
    record and leave exactly what its reference function in `DispatchSpec`
    says; what those functions guarantee is proved there. */
module Dispatch {
  import opened Common
  import opened Platform
  import opened MountsParse
  import opened Mounts
  import opened Volumes
  import opened DispatchSpec

  /** `try_mount`: one mount attempt, through mount(2) without options and
      through the mount binary with them. */
  method TryMount(k: Kernel, device: Option<string>, mountPoint: Option<string>, fsType: Option<string>,
                  options: Option<string>) returns (r: int)
    modifies k`trace
    ensures var out := TryMountOutcome(k.o, k.attached, device, mountPoint, fsType, options);
            r == out.r && k.trace == old(k.trace) + out.events
  {
    if device.None? || mountPoint.None? || fsType.None? {
      return -1;
    }
    if options.None? {
      r := k.Mount(device.value, mountPoint.value, fsType.value);
    } else {
      r := k.System(MountCommand(fsType.value, options.value, device.value, mountPoint.value));
    }
  }

  /** The ext4/ext3/rfs/vfat branch: primary type, then the second type on
      the same device, then the second type on the second device. */
  method MountBlock(k: Kernel, v: Volume, mp: string) returns (r: int)
    modifies k`trace
    ensures var out := BlockMountOutcome(k.o, k.attached, v, mp);
            r == out.r && k.trace == old(k.trace) + out.events
  {
    ghost var t0 := k.trace;
    r := TryMount(k, Some(v.blkDevice), Some(mp), Some(v.fsType), v.fsOptions);
    if r == 0 {
      return;
    }
    ghost var t1 := k.trace;
    r := TryMount(k, Some(v.blkDevice), Some(mp), v.fsType2, v.fsOptions2);
    if r == 0 {
      assert k.trace == t0 + (t1[|t0|..] + k.trace[|t1|..]);
      return;
    }
    ghost var t2 := k.trace;
    r := TryMount(k, v.blkDevice2, Some(mp), v.fsType2, v.fsOptions2);
    assert k.trace == t0 + (t1[|t0|..] + t2[|t1|..] + k.trace[|t2|..]);
  }

  /** The ubifs branch of `ensure_path_mounted_at_mount_point`. */
  method MountUbifs(k: Kernel, v: Volume) returns (r: int)
    modifies k`trace, k`attached, k`handles
    ensures var out := UbiMountOutcome(k.o, old(k.attached), v);
            r == out.r && k.trace == old(k.trace) + out.events && k.attached == out.attached
    ensures k.handles == old(k.handles)
  {
    var m := k.o.mtdIndex(v.blkDevice);
    if m < 0 {
      return -1;
    }
    var isOpen := k.LibubiOpen();
    if !isOpen {
      return -1;
    }
    if k.o.ubiInfoErr != 0 || k.o.ubiCtrlMajor == -1 {
      k.LibubiClose();
      return -1;
    }
    r := UbiAttachAndMount(k, m, v);
    k.LibubiClose();
  }

  /** The part of the ubifs branch that runs with the libubi handle open:
      detach, attach, mount, and detach again on a failure after the
      attach.  Closing the handle on each exit is left to the caller; it
      involves neither the trace nor the attach state. */
  method UbiAttachAndMount(k: Kernel, m: int, v: Volume) returns (r: int)
    requires m == k.o.mtdIndex(v.blkDevice) && UbiUsable(k.o, m)
    modifies k`trace, k`attached
    ensures var out := UbiMountOutcome(k.o, old(k.attached), v);
            r == out.r && k.trace == old(k.trace) + out.events && k.attached == out.attached
  {
    ghost var att := AfterDetach(k.o, old(k.attached), m);
    var ignored := k.UbiDetachMtd(m);
    assert k.attached == att;
    var err, dev := k.UbiAttach(m);
    if err != 0 {
      return -1;
    }
    if k.o.ubiDevInfo(dev).None? {
      ignored := k.UbiDetachMtd(m);
      return -1;
    }
    err := k.Mount(UBI_USERDATA_NODE, v.mountPoint, v.fsType);
    if err != 0 {
      ignored := k.UbiDetachMtd(m);
      return -1;
    }
    return 0;
  }

  /** The dispatch on the volume's kind after the `mkdir` of the target. */
  method MountByKind(k: Kernel, v: Volume, mp: string) returns (r: int)
    modifies k`trace, k`attached, k`handles
    ensures var out := MountByKindOutcome(k.o, old(k.attached), v, mp);
            r == out.r && k.trace == old(k.trace) + out.events && k.attached == out.attached
    ensures k.handles == old(k.handles)
  {
    if v.voldManaged {
      var ok := k.VoldMount(mp);
      r := if ok then 0 else -1;
    } else if v.fsType == "yaffs2" {
      if !k.o.mtdPartition(v.blkDevice) {
        return -1;
      }
      r := k.MtdMountPartition(v.blkDevice, mp, v.fsType);
    } else if v.fsType == "ext4" || v.fsType == "ext3" || v.fsType == "rfs" || v.fsType == "vfat" {
      r := MountBlock(k, v, mp);
    } else if v.fsType == "ubifs" {
      r := MountUbifs(k, v);
    } else {
      r := k.System("mount " + mp);
    }
  }

  /** A target not in the snapshot: create it, then mount by kind. */
  method MountUnlisted(k: Kernel, v: Volume, mp: string) returns (r: int)
    modifies k`trace, k`attached, k`handles
    ensures var d := MountByKindOutcome(k.o, old(k.attached), v, mp);
            r == d.r && k.trace == old(k.trace) + ([Event.Mkdir(mp)] + d.events) && k.attached == d.attached
    ensures k.handles == old(k.handles)
  {
    ghost var t0 := k.trace;
    k.Mkdir(mp);
    ghost var t1 := k.trace;
    r := MountByKind(k, v, mp);
    ConcatAssoc(t0, [Event.Mkdir(mp)], k.trace[|t1|..]);
  }

  /** `ensure_path_mounted_at_mount_point` after the data-media check. */
  method MountPath(rts: Roots, ms: MountsState, k: Kernel, path: string, mountPoint: Option<string>)
    returns (r: int)
    requires ms.Valid()
    modifies ms, ms.volumes, k`trace, k`attached, k`handles
    ensures ms.Valid()
    ensures var out := MountOutcome(rts, k.o, old(ms.volumes) != null, old(k.trace), old(k.attached),
                                    path, mountPoint);
            r == out.r && k.trace == old(k.trace) + out.events && k.attached == out.attached &&
            (out.scanned.None? ==> ms.volumes == old(ms.volumes) && ms.Table() == old(ms.Table())) &&
            (out.scanned.Some? ==> ms.Table() == out.scanned.value)
    ensures k.handles == old(k.handles)
  {
    ghost var snap := Snapshot(ms.volumes != null, k.o, k.trace);
    var found := rts.VolumeForPath(path);
    if found.None? {
      return -1;
    }
    var v := found.value;
    if v.fsType == "ramdisk" {
      return 0;
    }
    var scanned := ms.ScanMountedVolumes(k);
    if scanned < 0 {
      return -1;
    }
    assert snap == Some(ms.Table());
    var mp := if mountPoint.Some? then mountPoint.value else v.mountPoint;
    var mounted := ms.FindMountedVolumeByMountPoint(mp);
    if mounted.Some? {
      return 0;
    }
    r := MountUnlisted(k, v, mp);
  }

  /** `ensure_path_mounted_at_mount_point` (and `ensure_path_mounted` with no
      mount point): a data-media path mounts /data by the same routine and
      then sets up /data/media. */
  method EnsurePathMountedAtMountPoint(rts: Roots, ms: MountsState, k: Kernel, path: string,
                                        mountPoint: Option<string>) returns (r: int)
    requires ms.Valid() && DataResolves(rts, path)
    modifies ms, ms.volumes, k`trace, k`attached, k`handles
    ensures ms.Valid()
    ensures var out := EnsureMountedOutcome(rts, k.o, old(ms.volumes) != null, old(k.trace), old(k.attached),
                                            path, mountPoint);
            r == out.r && k.trace == old(k.trace) + out.events && k.attached == out.attached &&
            (out.scanned.None? ==> ms.volumes == old(ms.volumes) && ms.Table() == old(ms.Table())) &&
            (out.scanned.Some? ==> ms.Table() == out.scanned.value)
    ensures k.handles == old(k.handles)
    decreases if rts.IsDataMediaVolumePath(path) then 1 else 0
  {
    if rts.IsDataMediaVolumePath(path) {
      r := EnsurePathMountedAtMountPoint(rts, ms, k, "/data", None);
      if r != 0 {
        return;
      }
      k.SetupDataMedia();
      return 0;
    }
    r := MountPath(rts, ms, k, path, mountPoint);
  }

  /** The ubifs tail of `ensure_path_unmounted`: detach the partition. */
  method UnmountUbifs(k: Kernel, blkDevice: string) returns (r: int)
    modifies k`trace, k`attached, k`handles
    ensures var out := UbiUnmountOutcome(k.o, old(k.attached), blkDevice);
            r == out.r && k.trace == old(k.trace) + out.events && k.attached == out.attached
    ensures k.handles == old(k.handles)
  {
    var m := k.o.mtdIndex(blkDevice);
    if m < 0 {
      return -1;
    }
    var isOpen := k.LibubiOpen();
    if !isOpen {
      return -1;
    }
    if k.o.ubiInfoErr != 0 || k.o.ubiCtrlMajor == -1 {
      k.LibubiClose();
      return -1;
    }
    var err := k.UbiDetachMtd(m);
    k.LibubiClose();
    r := if err != 0 then -1 else 0;
  }

  /** `ensure_path_unmounted` from the table lookup on. */
  method UnmountPath(rts: Roots, ms: MountsState, k: Kernel, path: string) returns (r: int)
    requires ms.Valid()
    modifies ms, ms.volumes, k`trace, k`attached, k`handles
    ensures ms.Valid()
    ensures var out := UnmountOutcome(rts, k.o, old(ms.volumes) != null, old(k.trace), old(k.attached), path);
            r == out.r && k.trace == old(k.trace) + out.events && k.attached == out.attached &&
            (out.scanned.None? ==> ms.volumes == old(ms.volumes) && ms.Table() == old(ms.Table())) &&
            (out.scanned.Some? ==> ms.Table() == out.scanned.value)
    ensures k.handles == old(k.handles)
  {
    var found := rts.VolumeForPath(path);
    if found.None? {
      return -1;
    }
    var v := found.value;
    if v.fsType == "ramdisk" {
      return -1;
    }
    var scanned := ms.ScanMountedVolumes(k);
    if scanned < 0 {
      return -1;
    }
    var mounted := ms.FindMountedVolumeByMountPoint(v.mountPoint);
    if mounted.None? {
      return 0;
    }
    r := UnmountMatched(ms, k, v, mounted.value);
  }

  /** The unmount of the record found in slot `idx`, then for ubifs the detach. */
  method UnmountMatched(ms: MountsState, k: Kernel, v: Volume, idx: nat) returns (r: int)
    requires ms.Valid() && idx < |ms.Table()| && MountPointOf(ms.Table()[idx]) == Some(v.mountPoint)
    modifies ms.volumes, k`trace, k`attached, k`handles
    ensures ms.Valid()
    ensures var out := UnmountMatchedOutcome(k.o, old(k.attached), v, old(ms.Table()), idx);
            r == out.r && k.trace == old(k.trace) + out.events && k.attached == out.attached &&
            ms.Table() == out.scanned.value
    ensures k.handles == old(k.handles)
  {
    if v.fsType != "ubifs" {
      r := ms.UnmountMountedVolume(idx, k);
      return;
    }
    var ignored := ms.UnmountMountedVolume(idx, k);
    r := UnmountUbifs(k, v.blkDevice);
  }

  /** `ensure_path_unmounted`: a data-media path unmounts /data by the same
      routine, and /data stays mounted while data media is preserved. */
  method EnsurePathUnmounted(rts: Roots, ms: MountsState, k: Kernel, path: string) returns (r: int)
    requires ms.Valid() && DataResolves(rts, path)
    modifies ms, ms.volumes, k`trace, k`attached, k`handles
    ensures ms.Valid()
    ensures var out := EnsureUnmountedOutcome(rts, k.o, old(ms.volumes) != null, old(k.trace), old(k.attached), path);
            r == out.r && k.trace == old(k.trace) + out.events && k.attached == out.attached &&
            (out.scanned.None? ==> ms.volumes == old(ms.volumes) && ms.Table() == old(ms.Table())) &&
            (out.scanned.Some? ==> ms.Table() == out.scanned.value)
    ensures k.handles == old(k.handles)
    decreases if rts.IsDataMediaVolumePath(path) then 1 else 0
  {
    if rts.IsDataMediaVolumePath(path) {
      r := EnsurePathUnmounted(rts, ms, k, "/data");
      return;
    }
    if StartsWith(path, "/data") && rts.IsDataMedia() && rts.IsDataMediaPreserved() {
      return 0;
    }
    r := UnmountPath(rts, ms, k, path);
  }

  /** `format_ubifs_volume`. */
  method FormatUbifsVolume(k: Kernel, location: string) returns (r: int)
    modifies k`trace, k`attached, k`handles
    ensures var out := FormatUbifsOutcome(k.o, old(k.attached), location);
            r == out.r && k.trace == old(k.trace) + out.events && k.attached == out.attached
    ensures k.handles == old(k.handles)
  {
    var m := k.o.mtdIndex(location);
    if m < 0 {
      return -1;
    }
    var isOpen := k.LibubiOpen();
    if !isOpen {
      return -1;
    }
    if k.o.ubiInfoErr != 0 || k.o.ubiCtrlMajor == -1 {
      k.LibubiClose();
      return -1;
    }
    var err, dev := k.UbiAttach(m);
    if err != 0 {
      k.LibubiClose();
      return -1;
    }
    var info := k.o.ubiDevInfo(dev);
    if info.None? {
      var ignored := k.UbiDetachMtd(m);
      k.LibubiClose();
      return -1;
    }
    var bytes := UbiVolumeBytes(info.value.availLebs, info.value.lebSize);
    err := k.UbiMkvol(UbiMkvolNode(), bytes, location, UBI_DYNAMIC_VOLUME);
    var ignored := k.UbiDetachMtd(m);
    k.LibubiClose();
    r := if err < 0 then -1 else 0;
  }

  /** The yaffs2/mtd/ubifs branch of `format_volume`: erase the partition,
      then rebuild UBI on it for ubifs. */
  method FormatMtd(k: Kernel, v: Volume) returns (r: int)
    modifies k`trace, k`attached, k`handles
    ensures var out := MtdFormatOutcome(k.o, old(k.attached), v);
            r == out.r && k.trace == old(k.trace) + out.events && k.attached == out.attached
    ensures k.handles == old(k.handles)
  {
    if !k.o.mtdPartition(v.blkDevice) || !k.o.mtdWriteOpen(v.blkDevice) {
      return -1;
    }
    var erased := k.MtdEraseBlocks(v.blkDevice);
    if !erased || k.o.mtdClose(v.blkDevice) != 0 {
      return -1;
    }
    if v.fsType == "ubifs" {
      ghost var t1 := k.trace;
      r := FormatUbifsVolume(k, v.blkDevice);
      assert k.trace == old(k.trace) + ([Event.MtdErase(v.blkDevice)] + k.trace[|t1|..]);
      return;
    }
    return 0;
  }

  /** The file-system specific tail of `format_volume`. */
  method FormatFs(k: Kernel, v: Volume, volume: string, useF2fs: bool) returns (r: int)
    modifies k`trace, k`attached, k`handles
    ensures var out := FormatFsOutcome(k.o, old(k.attached), v, volume, useF2fs);
            r == out.r && k.trace == old(k.trace) + out.events && k.attached == out.attached
    ensures k.handles == old(k.handles)
  {
    if v.fsType == "yaffs2" || v.fsType == "mtd" || v.fsType == "ubifs" {
      r := FormatMtd(k, v);
    } else if v.fsType == "ext4" {
      var made := k.MakeExt4(v.blkDevice, v.length, volume);
      r := if made != 0 then -1 else 0;
    } else if useF2fs && v.fsType == "f2fs" {
      var made := k.MakeF2fs(v.blkDevice);
      r := if made != 0 then -1 else 0;
    } else {
      r := k.FormatUnknownDevice(Some(v.blkDevice), volume, Some(v.fsType));
    }
  }

  /** Format a vold volume through vold after unmounting it. */
  method FormatVold(rts: Roots, ms: MountsState, k: Kernel, v: Volume) returns (r: int)
    requires ms.Valid() && DataResolves(rts, v.mountPoint)
    modifies ms, ms.volumes, k`trace, k`attached, k`handles
    ensures ms.Valid()
    ensures var out := VoldFormatOutcome(rts, k.o, old(ms.volumes) != null, old(k.trace), old(k.attached), v);
            r == out.r && k.trace == old(k.trace) + out.events && k.attached == out.attached &&
            (out.scanned.None? ==> ms.volumes == old(ms.volumes) && ms.Table() == old(ms.Table())) &&
            (out.scanned.Some? ==> ms.Table() == out.scanned.value)
    ensures k.handles == old(k.handles)
  {
    ghost var hadSlots, t0, att0 := ms.volumes != null, k.trace, k.attached;
    ghost var u := EnsureUnmountedOutcome(rts, k.o, hadSlots, t0, att0, v.mountPoint);
    // the unmount result is only logged
    var unmounted := EnsurePathUnmounted(rts, ms, k, v.mountPoint);
    var ok := RequestVoldFormat(k, v);
    ConcatAssoc(t0, u.events, [VoldRequest(v)]);
    return if ok then 0 else -1;
  }

  /** vold's format request, plain for the type "auto". */
  method RequestVoldFormat(k: Kernel, v: Volume) returns (ok: bool)
    modifies k`trace
    ensures ok == VoldAccepts(k.o, v) && k.trace == old(k.trace) + [VoldRequest(v)]
  {
    if v.fsType == "auto" {
      ok := k.VoldFormat(v.mountPoint);
    } else {
      ok := k.VoldCustomFormat(v.mountPoint, v.fsType);
    }
  }

  /** Unmount a volume, then format its device by its file-system type. */
  method UnmountThenFormat(rts: Roots, ms: MountsState, k: Kernel, useF2fs: bool, v: Volume) returns (r: int)
    requires ms.Valid() && DataResolves(rts, v.mountPoint)
    modifies ms, ms.volumes, k`trace, k`attached, k`handles
    ensures ms.Valid()
    ensures var out := UnmountThenFormatOutcome(rts, k.o, old(ms.volumes) != null, old(k.trace), old(k.attached),
                                                useF2fs, v);
            r == out.r && k.trace == old(k.trace) + out.events && k.attached == out.attached &&
            (out.scanned.None? ==> ms.volumes == old(ms.volumes) && ms.Table() == old(ms.Table())) &&
            (out.scanned.Some? ==> ms.Table() == out.scanned.value)
    ensures k.handles == old(k.handles)
  {
    ghost var hadSlots, t0, att0 := ms.volumes != null, k.trace, k.attached;
    ghost var u := EnsureUnmountedOutcome(rts, k.o, hadSlots, t0, att0, v.mountPoint);
    var unmounted := EnsurePathUnmounted(rts, ms, k, v.mountPoint);
    if unmounted != 0 {
      return -1;
    }
    ghost var f := FormatFsOutcome(k.o, u.attached, v, v.mountPoint, useF2fs);
    assert UnmountThenFormatOutcome(rts, k.o, hadSlots, t0, att0, useF2fs, v)
        == Outcome(f.r, u.events + f.events, f.attached, u.scanned);
    ghost var t1 := k.trace;
    assert t1 == t0 + u.events;
    r := FormatFs(k, v, v.mountPoint, useF2fs);
    assert k.trace == t1 + f.events;
    ConcatAssoc(t0, u.events, f.events);
  }

  /** `format_volume`; `useF2fs` is the USE_F2FS build switch. */
  method FormatVolume(rts: Roots, ms: MountsState, k: Kernel, useF2fs: bool, volume: string) returns (r: int)
    requires ms.Valid() && rts.fstab.Some?
    modifies ms, ms.volumes, k`trace, k`attached, k`handles
    ensures ms.Valid()
    ensures var out := FormatOutcome(rts, k.o, old(ms.volumes) != null, old(k.trace), old(k.attached), useF2fs, volume);
            r == out.r && k.trace == old(k.trace) + out.events && k.attached == out.attached &&
            (out.scanned.None? ==> ms.volumes == old(ms.volumes) && ms.Table() == old(ms.Table())) &&
            (out.scanned.Some? ==> ms.Table() == out.scanned.value)
    ensures k.handles == old(k.handles)
  {
    if rts.IsDataMediaVolumePath(volume) || KeptForDataMedia(rts, volume) {
      r := k.FormatUnknownDevice(None, volume, None);
      return;
    }
    var found := rts.VolumeForPath(volume);
    if found.None? {
      return -1;
    }
    var v := found.value;
    if volume == "/sd-ext" && !k.o.pathExists(v.blkDevice) {
      return -1;
    }
    if v.voldManaged && volume == v.mountPoint {
      r := FormatVold(rts, ms, k, v);
      return;
    }
    if v.fsType == "ramdisk" {
      return -1;
    }
    if v.mountPoint != volume {
      r := k.FormatUnknownDevice(Some(v.blkDevice), volume, None);
      return;
    }
    r := UnmountThenFormat(rts, ms, k, useF2fs, v);
  }
}
