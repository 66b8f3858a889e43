/** Reference model of the mount, unmount and format dispatchers of roots.c.
    Each dispatcher is a function from the state before the call (volume
    table, oracle answers, whether the snapshot slots were allocated, the
    events so far and the attached-UBI map) to an `Outcome`: the value
    returned, the events caused in order, the attached-UBI map afterwards and
    the snapshot table afterwards.  The methods of `Dispatch` are proved equal
    to these functions; the lemmas here state what the dispatch guarantees. */
module DispatchSpec {
  import opened Common
  import opened Platform
  import opened MountsParse
  import opened Mounts
  import opened Volumes

  /** `scanned` is None when the call never scanned /proc/mounts (the
      snapshot is untouched), else the snapshot table the call leaves. */
  datatype Outcome = Outcome(r: int, events: seq<Event>, attached: map<int, int>, scanned: Option<seq<Slot>>)

  /** What `scan_mounted_volumes` stores at this point of the trace, or None
      when it fails (the table is then empty). */
  function Snapshot(hadSlots: bool, o: Oracles, t: seq<Event>): Option<seq<Slot>> {
    if (hadSlots || o.mallocOk) && o.procMounts(t).Some? then Some(ScanResult(o.procMounts(t).value))
    else None
  }

  /** Every libubi step before attach or detach succeeds: a valid MTD index,
      an open handle, UBI information, and attach/detach support. */
  predicate UbiUsable(o: Oracles, mtd: int) {
    mtd >= 0 && o.ubiOpen && o.ubiInfoErr == 0 && o.ubiCtrlMajor != -1
  }

  /** The attached map after `ubi_detach_mtd` on `m`. */
  function AfterDetach(o: Oracles, att: map<int, int>, m: int): map<int, int> {
    if m in att && o.ubiDetachOk(m) then att - {m} else att
  }

  predicate AttachSucceeds(o: Oracles, att: map<int, int>, m: int) {
    m !in att && o.ubiAttachDev(m).Some?
  }

  /** `a` and `b` agree on every partition other than `m`. */
  ghost predicate SameExcept(a: map<int, int>, b: map<int, int>, m: int) {
    forall x :: x != m ==> (x in a <==> x in b) && (x in a ==> a[x] == b[x])
  }

  /** No partition becomes attached, and none changes its device number. */
  predicate OnlyDetached(a: map<int, int>, b: map<int, int>) {
    forall x :: x in b ==> x in a && a[x] == b[x]
  }

  /** The UBI node both roots.c helpers use, whatever number the kernel gave. */
  const UBI_USERDATA_NODE := "/dev/ubi0_userdata"

  // ---------------------------------------------------------------- mount

  function MountCommand(fsType: string, options: string, device: string, mountPoint: string): string {
    "mount -t " + fsType + " -o" + options + " " + device + " " + mountPoint
  }

  /** `try_mount`. */
  function TryMountOutcome(o: Oracles, att: map<int, int>, device: Option<string>, mountPoint: Option<string>,
                           fsType: Option<string>, options: Option<string>): Outcome
  {
    if device.None? || mountPoint.None? || fsType.None? then Outcome(-1, [], att, None)
    else if options.None? then
      Outcome(o.mount(device.value, mountPoint.value, fsType.value),
              [Event.Mount(device.value, mountPoint.value, fsType.value)], att, None)
    else
      var cmd := MountCommand(fsType.value, options.value, device.value, mountPoint.value);
      Outcome(o.shell(cmd), [Event.Shell(cmd)], att, None)
  }

  /** The ext4/ext3/rfs/vfat branch: three `try_mount` attempts, stopping at
      the first that returns 0. */
  function BlockMountOutcome(o: Oracles, att: map<int, int>, v: Volume, mp: string): Outcome {
    var a1 := TryMountOutcome(o, att, Some(v.blkDevice), Some(mp), Some(v.fsType), v.fsOptions);
    var a2 := TryMountOutcome(o, att, Some(v.blkDevice), Some(mp), v.fsType2, v.fsOptions2);
    var a3 := TryMountOutcome(o, att, v.blkDevice2, Some(mp), v.fsType2, v.fsOptions2);
    if a1.r == 0 then a1
    else if a2.r == 0 then Outcome(0, a1.events + a2.events, att, None)
    else Outcome(a3.r, a1.events + a2.events + a3.events, att, None)
  }

  /** The ubifs branch of `ensure_path_mounted_at_mount_point`: detach first,
      attach, read the device information, mount the fixed node at the
      volume's own mount point; detach again on a failure after the attach. */
  function UbiMountOutcome(o: Oracles, att0: map<int, int>, v: Volume): Outcome {
    var m := o.mtdIndex(v.blkDevice);
    if !UbiUsable(o, m) then Outcome(-1, [], att0, None)
    else
      var att := AfterDetach(o, att0, m);
      if !AttachSucceeds(o, att, m) then
        Outcome(-1, [Event.UbiDetachMtd(m), Event.UbiAttach(m, false)], att, None)
      else
        var dev := o.ubiAttachDev(m).value;
        var mnt := Event.Mount(UBI_USERDATA_NODE, v.mountPoint, v.fsType);
        if o.ubiDevInfo(dev).None? then
          Outcome(-1, [Event.UbiDetachMtd(m), Event.UbiAttach(m, true), Event.UbiDetachMtd(m)],
                  AfterDetach(o, att[m := dev], m), None)
        else if o.mount(UBI_USERDATA_NODE, v.mountPoint, v.fsType) != 0 then
          Outcome(-1, [Event.UbiDetachMtd(m), Event.UbiAttach(m, true), mnt, Event.UbiDetachMtd(m)],
                  AfterDetach(o, att[m := dev], m), None)
        else
          Outcome(0, [Event.UbiDetachMtd(m), Event.UbiAttach(m, true), mnt], att[m := dev], None)
  }

  datatype MountKind = ByVold | ByMtd | ByBlock | ByUbi | ByShell

  /** Which branch of the mount dispatcher handles a volume. */
  function MountKindOf(v: Volume): MountKind {
    if v.voldManaged then ByVold
    else if v.fsType == "yaffs2" then ByMtd
    else if v.fsType == "ext4" || v.fsType == "ext3" || v.fsType == "rfs" || v.fsType == "vfat" then ByBlock
    else if v.fsType == "ubifs" then ByUbi
    else ByShell
  }

  /** What happens after the `mkdir` of the target. */
  function MountByKindOutcome(o: Oracles, att0: map<int, int>, v: Volume, mp: string): Outcome {
    match MountKindOf(v)
    case ByVold => Outcome(if o.voldMount(mp) then 0 else -1, [Event.VoldMount(mp)], att0, None)
    case ByMtd =>
      if !o.mtdPartition(v.blkDevice) then Outcome(-1, [], att0, None)
      else Outcome(o.mtdMount(v.blkDevice, mp, v.fsType), [Event.MtdMount(v.blkDevice, mp, v.fsType)], att0, None)
    case ByBlock => BlockMountOutcome(o, att0, v, mp)
    case ByUbi => UbiMountOutcome(o, att0, v)
    case ByShell => Outcome(o.shell("mount " + mp), [Event.Shell("mount " + mp)], att0, None)
  }

  /** `ensure_path_mounted_at_mount_point` for a path that is not data media. */
  function MountOutcome(rts: Roots, o: Oracles, hadSlots: bool, t0: seq<Event>, att0: map<int, int>,
                        path: string, mountPoint: Option<string>): Outcome
    reads rts
  {
    match rts.VolumeForPath(path)
    case None => Outcome(-1, [], att0, None)
    case Some(v) =>
      if v.fsType == "ramdisk" then Outcome(0, [], att0, None)
      else
        match Snapshot(hadSlots, o, t0)
        case None => Outcome(-1, [], att0, Some([]))
        case Some(snap) =>
          var mp := if mountPoint.Some? then mountPoint.value else v.mountPoint;
          if FirstMatch(snap, ByMountPoint, mp).Some? then Outcome(0, [], att0, Some(snap))
          else
            var d := MountByKindOutcome(o, att0, v, mp);
            Outcome(d.r, [Event.Mkdir(mp)] + d.events, d.attached, Some(snap))
  }

  /** The table is loaded, and the recursion `ensure_path_unmounted` and
      `ensure_path_mounted` make on "/data" for a data-media `path` ends:
      "/data" itself is not a data-media path. */
  predicate DataResolves(rts: Roots, path: string)
    reads rts
  {
    rts.fstab.Some? && (rts.IsDataMediaVolumePath(path) ==> !rts.IsDataMediaVolumePath("/data"))
  }

  /** `ensure_path_mounted_at_mount_point`: a data-media path mounts /data
      and then sets up /data/media. */
  function EnsureMountedOutcome(rts: Roots, o: Oracles, hadSlots: bool, t0: seq<Event>, att0: map<int, int>,
                                path: string, mountPoint: Option<string>): Outcome
    reads rts
    requires DataResolves(rts, path)
  {
    if rts.IsDataMediaVolumePath(path) then
      var d := MountOutcome(rts, o, hadSlots, t0, att0, "/data", None);
      if d.r != 0 then d else d.(events := d.events + [Event.SetupDataMedia])
    else MountOutcome(rts, o, hadSlots, t0, att0, path, mountPoint)
  }

  // -------------------------------------------------------------- unmount

  /** The ubifs tail of `ensure_path_unmounted`: detach the partition. */
  function UbiUnmountOutcome(o: Oracles, att0: map<int, int>, blkDevice: string): Outcome {
    var m := o.mtdIndex(blkDevice);
    if !UbiUsable(o, m) then Outcome(-1, [], att0, None)
    else Outcome(if m in att0 && o.ubiDetachOk(m) then 0 else -1, [Event.UbiDetachMtd(m)],
                 AfterDetach(o, att0, m), None)
  }

  /** `ensure_path_unmounted` from the table lookup on. */
  function UnmountOutcome(rts: Roots, o: Oracles, hadSlots: bool, t0: seq<Event>, att0: map<int, int>,
                          path: string): Outcome
    reads rts
  {
    match rts.VolumeForPath(path)
    case None => Outcome(-1, [], att0, None)
    case Some(v) =>
      if v.fsType == "ramdisk" then Outcome(-1, [], att0, None)
      else
        match Snapshot(hadSlots, o, t0)
        case None => Outcome(-1, [], att0, Some([]))
        case Some(snap) =>
          match FirstMatch(snap, ByMountPoint, v.mountPoint)
          case None => Outcome(0, [], att0, Some(snap))
          case Some(idx) => UnmountMatchedOutcome(o, att0, v, snap, idx)
  }

  /** `ensure_path_unmounted` once the snapshot has the volume's mount point
      at slot `idx`: unmount it, vacate the slot when that works, and for
      ubifs detach the partition whatever the unmount gave. */
  function UnmountMatchedOutcome(o: Oracles, att0: map<int, int>, v: Volume, snap: seq<Slot>, idx: nat): Outcome
    requires idx < |snap|
  {
    var u := o.umount(v.mountPoint);
    var table := if u == 0 then snap[idx := Vacant] else snap;
    var umount := Event.Umount(Some(v.mountPoint));
    if v.fsType != "ubifs" then Outcome(u, [umount], att0, Some(table))
    else
      var d := UbiUnmountOutcome(o, att0, v.blkDevice);
      Outcome(d.r, [umount] + d.events, d.attached, Some(table))
  }

  /** The path `ensure_path_unmounted` ends up working on. */
  function UnmountTarget(rts: Roots, path: string): string
    reads rts
    requires rts.fstab.Some?
  {
    if rts.IsDataMediaVolumePath(path) then "/data" else path
  }

  /** /data is kept mounted while the device uses data media that is preserved. */
  predicate KeptForDataMedia(rts: Roots, path: string)
    reads rts
    requires rts.fstab.Some?
  {
    StartsWith(path, "/data") && rts.IsDataMedia() && rts.IsDataMediaPreserved()
  }

  function EnsureUnmountedOutcome(rts: Roots, o: Oracles, hadSlots: bool, t0: seq<Event>, att0: map<int, int>,
                                  path: string): Outcome
    reads rts
    requires DataResolves(rts, path)
  {
    var p := UnmountTarget(rts, path);
    if KeptForDataMedia(rts, p) then Outcome(0, [], att0, None)
    else UnmountOutcome(rts, o, hadSlots, t0, att0, p)
  }

  // --------------------------------------------------------------- format

  /** `sprintf` of `text` into a `size`-byte buffer; None when the text and
      its NUL do not fit (a buffer overflow). */
  function SprintfInto(size: nat, text: string): (r: Option<string>)
    ensures r.Some? <==> |text| + 1 <= size
    ensures r.Some? ==> r.value == text
  {
    if |text| + 1 <= size then Some(text) else None
  }

  const UBINODE_SIZE_AS_WRITTEN: nat := 16
  const UBINODE_SIZE: nat := 32

  /** As written, `format_ubifs_volume` prints the node name into 16 bytes. */
  lemma UbiNodeOverflowsAsWritten()
    ensures SprintfInto(UBINODE_SIZE_AS_WRITTEN, UBI_USERDATA_NODE).None?
  {
  }

  /** The node name format_ubifs_volume hands to ubi_mkvol, printed into a
      buffer as large as the one the mount branch uses. */
  function UbiMkvolNode(): (node: string)
    ensures SprintfInto(UBINODE_SIZE, node) == Some(node)
    ensures node == UBI_USERDATA_NODE
  {
    UBI_USERDATA_NODE
  }

  const INT32_MIN: int := -0x8000_0000
  const INT32_MAX: int := 0x7fff_ffff

  /** A C `int` result: two's complement wrap-around to 32 bits. */
  function Int32(x: int): (r: int)
    ensures INT32_MIN <= r <= INT32_MAX
    ensures INT32_MIN <= x <= INT32_MAX ==> r == x
  {
    (x - INT32_MIN) % 0x1_0000_0000 + INT32_MIN
  }

  /** As written: `dev_info.avail_lebs*dev_info.leb_size` is an `int`
      product, widened only after it has wrapped. */
  function UbiVolumeBytesAsWritten(availLebs: int, lebSize: int): int {
    Int32(availLebs * lebSize)
  }

  /** A 2 GiB device (16384 blocks of 128 KiB) asks for a negative size. */
  lemma UbiVolumeBytesWrapsAsWritten()
    ensures UbiVolumeBytesAsWritten(16384, 131072) < 0
  {
  }

  /** The size of the whole device, computed in 64 bits as `req2.bytes` is. */
  function UbiVolumeBytes(availLebs: int, lebSize: int): (bytes: int)
    ensures 0 <= availLebs && 0 <= lebSize ==> bytes >= 0
    ensures INT32_MIN <= availLebs * lebSize <= INT32_MAX ==> bytes == UbiVolumeBytesAsWritten(availLebs, lebSize)
  {
    availLebs * lebSize
  }

  /** `format_ubifs_volume`: attach (without detaching first), create one
      dynamic volume filling the device, and detach afterwards on every path. */
  function FormatUbifsOutcome(o: Oracles, att0: map<int, int>, location: string): Outcome {
    var m := o.mtdIndex(location);
    if !UbiUsable(o, m) then Outcome(-1, [], att0, None)
    else if !AttachSucceeds(o, att0, m) then Outcome(-1, [Event.UbiAttach(m, false)], att0, None)
    else
      var dev := o.ubiAttachDev(m).value;
      var att := att0[m := dev];
      match o.ubiDevInfo(dev)
      case None => Outcome(-1, [Event.UbiAttach(m, true), Event.UbiDetachMtd(m)], AfterDetach(o, att, m), None)
      case Some(info) =>
        var bytes := UbiVolumeBytes(info.availLebs, info.lebSize);
        var mkvol := Event.UbiMkvol(UbiMkvolNode(), bytes, location, UBI_DYNAMIC_VOLUME);
        var err := o.ubiMkvol(UbiMkvolNode(), bytes, location, UBI_DYNAMIC_VOLUME);
        Outcome(if err < 0 then -1 else 0, [Event.UbiAttach(m, true), mkvol, Event.UbiDetachMtd(m)],
                AfterDetach(o, att, m), None)
  }

  /** Erase an MTD partition (and rebuild UBI on it for ubifs). */
  function MtdFormatOutcome(o: Oracles, att0: map<int, int>, v: Volume): Outcome {
    var blk := v.blkDevice;
    if !o.mtdPartition(blk) || !o.mtdWriteOpen(blk) then Outcome(-1, [], att0, None)
    else if !o.mtdErase(blk) || o.mtdClose(blk) != 0 then Outcome(-1, [Event.MtdErase(blk)], att0, None)
    else if v.fsType == "ubifs" then
      var u := FormatUbifsOutcome(o, att0, blk);
      u.(events := [Event.MtdErase(blk)] + u.events)
    else Outcome(0, [Event.MtdErase(blk)], att0, None)
  }

  /** The file-system specific tail of `format_volume`. */
  function FormatFsOutcome(o: Oracles, att0: map<int, int>, v: Volume, volume: string, useF2fs: bool): Outcome {
    if v.fsType == "yaffs2" || v.fsType == "mtd" || v.fsType == "ubifs" then MtdFormatOutcome(o, att0, v)
    else if v.fsType == "ext4" then
      Outcome(if o.makeExt4(v.blkDevice, v.length, volume) != 0 then -1 else 0,
              [Event.MakeExt4(v.blkDevice, v.length, volume)], att0, None)
    else if useF2fs && v.fsType == "f2fs" then
      Outcome(if o.makeF2fs(v.blkDevice) != 0 then -1 else 0, [Event.MakeF2fs(v.blkDevice)], att0, None)
    else
      Outcome(o.formatUnknown(Some(v.blkDevice), volume, Some(v.fsType)),
              [Event.FormatUnknown(Some(v.blkDevice), volume, Some(v.fsType))], att0, None)
  }

  function FormatUnknownOutcome(o: Oracles, att0: map<int, int>, device: Option<string>, volume: string,
                                fsType: Option<string>): Outcome {
    Outcome(o.formatUnknown(device, volume, fsType), [Event.FormatUnknown(device, volume, fsType)], att0, None)
  }

  /** `format_volume`; `useF2fs` is the USE_F2FS build switch. */
  function FormatOutcome(rts: Roots, o: Oracles, hadSlots: bool, t0: seq<Event>, att0: map<int, int>,
                         useF2fs: bool, volume: string): Outcome
    reads rts
    requires rts.fstab.Some?
  {
    if rts.IsDataMediaVolumePath(volume) || KeptForDataMedia(rts, volume) then
      FormatUnknownOutcome(o, att0, None, volume, None)
    else
      match rts.VolumeForPath(volume)
      case None => Outcome(-1, [], att0, None)
      case Some(v) =>
        if volume == "/sd-ext" && !o.pathExists(v.blkDevice) then Outcome(-1, [], att0, None)
        else if v.voldManaged && volume == v.mountPoint then VoldFormatOutcome(rts, o, hadSlots, t0, att0, v)
        else if v.fsType == "ramdisk" then Outcome(-1, [], att0, None)
        else if v.mountPoint != volume then FormatUnknownOutcome(o, att0, Some(v.blkDevice), volume, None)
        else UnmountThenFormatOutcome(rts, o, hadSlots, t0, att0, useF2fs, v)
  }

  /** A vold volume named by its exact mount point: unmount (the result is
      only logged), then let vold format it. */
  function VoldFormatOutcome(rts: Roots, o: Oracles, hadSlots: bool, t0: seq<Event>, att0: map<int, int>,
                             v: Volume): Outcome
    reads rts
    requires DataResolves(rts, v.mountPoint)
  {
    var u := EnsureUnmountedOutcome(rts, o, hadSlots, t0, att0, v.mountPoint);
    Outcome(if VoldAccepts(o, v) then 0 else -1, u.events + [VoldRequest(v)], u.attached, u.scanned)
  }

  /** The request sent to vold: a plain format for the type "auto", a
      format to the volume's own type otherwise. */
  function VoldRequest(v: Volume): Event {
    if v.fsType == "auto" then Event.VoldFormat(v.mountPoint) else Event.VoldCustomFormat(v.mountPoint, v.fsType)
  }

  predicate VoldAccepts(o: Oracles, v: Volume) {
    if v.fsType == "auto" then o.voldFormat(v.mountPoint) else o.voldCustomFormat(v.mountPoint, v.fsType)
  }

  /** Any other volume named by its mount point: unmount, and format only
      when that succeeded. */
  function UnmountThenFormatOutcome(rts: Roots, o: Oracles, hadSlots: bool, t0: seq<Event>, att0: map<int, int>,
                                    useF2fs: bool, v: Volume): Outcome
    reads rts
    requires DataResolves(rts, v.mountPoint)
  {
    var u := EnsureUnmountedOutcome(rts, o, hadSlots, t0, att0, v.mountPoint);
    if u.r != 0 then Outcome(-1, u.events, u.attached, u.scanned)
    else
      var f := FormatFsOutcome(o, u.attached, v, v.mountPoint, useF2fs);
      Outcome(f.r, u.events + f.events, f.attached, u.scanned)
  }

  // ----------------------------------------------------------- properties

  predicate NoAttach(ev: seq<Event>) {
    forall i :: 0 <= i < |ev| ==> !ev[i].UbiAttach?
  }

  /** Events a mount may cause: directory creation, mount attempts and the
      UBI attach/detach around them. */
  predicate IsMountStep(e: Event) {
    e.Mkdir? || IsMountEvent(e) || e.UbiDetachMtd? || e.UbiAttach?
  }

  predicate OnlyMountSteps(ev: seq<Event>) {
    forall i :: 0 <= i < |ev| ==> IsMountStep(ev[i])
  }

  lemma OnlyMountStepsConcat(a: seq<Event>, b: seq<Event>)
    requires OnlyMountSteps(a) && OnlyMountSteps(b)
    ensures OnlyMountSteps(a + b)
  {
    var ab := a + b;
    forall i | 0 <= i < |ab|
      ensures IsMountStep(ab[i])
    {
      if i < |a| {
        assert a[i] == ab[i];
      } else {
        assert b[i - |a|] == ab[i];
      }
    }
  }

  /** An attach followed, after attach-free events, by a detach of the same
      partition releases it. */
  lemma ReleasedByFinalDetach(pre: seq<Event>, m: int, mid: seq<Event>)
    requires NoAttach(pre) && NoAttach(mid)
    ensures ReleasesAttaches(pre + [Event.UbiAttach(m, true)] + mid + [Event.UbiDetachMtd(m)])
  {
    var ev := pre + [Event.UbiAttach(m, true)] + mid + [Event.UbiDetachMtd(m)];
    forall i | 0 <= i < |ev| && ev[i].UbiAttach? && ev[i].ok
      ensures exists j :: i < j < |ev| && ev[j] == Event.UbiDetachMtd(ev[i].mtd)
    {
      assert i == |pre| by {
        assert forall k :: 0 <= k < |pre| ==> ev[k] == pre[k];
        assert forall k :: |pre| < k < |ev| - 1 ==> ev[k] == mid[k - |pre| - 1];
      }
      assert ev[|ev| - 1] == Event.UbiDetachMtd(m);
    }
  }

  /** A single `try_mount` attempt neither destroys data nor touches UBI. */
  lemma TryMountHarmless(o: Oracles, att: map<int, int>, device: Option<string>, mountPoint: Option<string>,
                         fsType: Option<string>, options: Option<string>)
    ensures var a := TryMountOutcome(o, att, device, mountPoint, fsType, options);
            OnlyMountSteps(a.events) && NoAttach(a.events) && a.attached == att && |a.events| <= 1
    ensures device.None? || mountPoint.None? || fsType.None? ==>
            TryMountOutcome(o, att, device, mountPoint, fsType, options) == Outcome(-1, [], att, None)
  {
  }

  /** Without a second file-system type only the first attempt mounts
      anything, and its failure code is replaced by -1. */
  lemma BlockMountSingleType(o: Oracles, att: map<int, int>, v: Volume, mp: string)
    requires v.fsType2.None?
    ensures var a1 := TryMountOutcome(o, att, Some(v.blkDevice), Some(mp), Some(v.fsType), v.fsOptions);
            var out := BlockMountOutcome(o, att, v, mp);
            out.events == a1.events && out.r == (if a1.r == 0 then 0 else -1)
  {
    var a1 := TryMountOutcome(o, att, Some(v.blkDevice), Some(mp), Some(v.fsType), v.fsOptions);
    assert a1.events + [] + [] == a1.events;
  }

  /** The block fallback tries (primary device, primary type), then (primary
      device, second type), then (second device, second type), stops at the
      first success, and otherwise answers with the last attempt's result. */
  lemma BlockMountFallback(o: Oracles, att: map<int, int>, v: Volume, mp: string)
    ensures var a1 := TryMountOutcome(o, att, Some(v.blkDevice), Some(mp), Some(v.fsType), v.fsOptions);
            var a2 := TryMountOutcome(o, att, Some(v.blkDevice), Some(mp), v.fsType2, v.fsOptions2);
            var a3 := TryMountOutcome(o, att, v.blkDevice2, Some(mp), v.fsType2, v.fsOptions2);
            var out := BlockMountOutcome(o, att, v, mp);
            (out.r == 0 <==> a1.r == 0 || a2.r == 0 || a3.r == 0) &&
            (out.r != 0 ==> out.r == a3.r) &&
            (a1.r == 0 ==> out.events == a1.events) &&
            (a1.r != 0 && a2.r == 0 ==> out.events == a1.events + a2.events) &&
            (a1.r != 0 && a2.r != 0 ==> out.events == a1.events + a2.events + a3.events) &&
            |out.events| <= 3 && OnlyMountSteps(out.events) && NoAttach(out.events) && out.attached == att
  {
    var a1 := TryMountOutcome(o, att, Some(v.blkDevice), Some(mp), Some(v.fsType), v.fsOptions);
    var a2 := TryMountOutcome(o, att, Some(v.blkDevice), Some(mp), v.fsType2, v.fsOptions2);
    var a3 := TryMountOutcome(o, att, v.blkDevice2, Some(mp), v.fsType2, v.fsOptions2);
    TryMountHarmless(o, att, Some(v.blkDevice), Some(mp), Some(v.fsType), v.fsOptions);
    TryMountHarmless(o, att, Some(v.blkDevice), Some(mp), v.fsType2, v.fsOptions2);
    TryMountHarmless(o, att, v.blkDevice2, Some(mp), v.fsType2, v.fsOptions2);
    OnlyMountStepsConcat(a1.events, a2.events);
    OnlyMountStepsConcat(a1.events + a2.events, a3.events);
  }

  /** The UBI mount: the partition is detached first; the call leaves it
      attached exactly when it succeeds, and only then is the last event the
      mount of the fixed node at the volume's own mount point. */
  lemma UbiMountCleanup(o: Oracles, att0: map<int, int>, v: Volume)
    ensures var out := UbiMountOutcome(o, att0, v);
            var m := o.mtdIndex(v.blkDevice);
            (out.r == 0 || out.r == -1) &&
            (ReleasesAttaches(out.events) <==> out.r != 0) &&
            (out.events != [] ==> out.events[0] == Event.UbiDetachMtd(m)) &&
            (out.r == 0 ==> m in out.attached &&
                            out.events[|out.events| - 1] == Event.Mount(UBI_USERDATA_NODE, v.mountPoint, v.fsType))
  {
    var out := UbiMountOutcome(o, att0, v);
    var m := o.mtdIndex(v.blkDevice);
    if UbiUsable(o, m) && AttachSucceeds(o, AfterDetach(o, att0, m), m) {
      var dev := o.ubiAttachDev(m).value;
      var mnt := Event.Mount(UBI_USERDATA_NODE, v.mountPoint, v.fsType);
      if o.ubiDevInfo(dev).None? {
        ReleasedByFinalDetach([Event.UbiDetachMtd(m)], m, []);
        assert out.events == [Event.UbiDetachMtd(m)] + [Event.UbiAttach(m, true)] + [] + [Event.UbiDetachMtd(m)];
      } else if o.mount(UBI_USERDATA_NODE, v.mountPoint, v.fsType) != 0 {
        ReleasedByFinalDetach([Event.UbiDetachMtd(m)], m, [mnt]);
        assert out.events == [Event.UbiDetachMtd(m)] + [Event.UbiAttach(m, true)] + [mnt] + [Event.UbiDetachMtd(m)];
      } else {
        assert out.events == [Event.UbiDetachMtd(m), Event.UbiAttach(m, true), mnt];
        assert out.events[1].UbiAttach? && out.events[1].ok;
      }
    }
  }

  /** The UBI mount changes no partition but the volume's own, destroys no
      data, and after a failed attach detaches nothing; when detaching works,
      a failure leaves the partition detached. */
  lemma UbiMountLocal(o: Oracles, att0: map<int, int>, v: Volume)
    ensures var out := UbiMountOutcome(o, att0, v);
            var m := o.mtdIndex(v.blkDevice);
            SameExcept(att0, out.attached, m) &&
            OnlyMountSteps(out.events) &&
            (out.r != 0 && UbiUsable(o, m) && o.ubiDetachOk(m) ==> m !in out.attached) &&
            (forall i :: 0 <= i < |out.events| && out.events[i] == Event.UbiAttach(m, false) ==> i == |out.events| - 1)
  {
  }

  lemma MountStepsNonDestructive(ev: seq<Event>)
    requires OnlyMountSteps(ev)
    ensures NonDestructive(ev)
  {
    forall i | 0 <= i < |ev|
      ensures !IsDestructive(ev[i])
    {
      assert IsMountStep(ev[i]);
    }
  }

  /** Every branch after the `mkdir`: mount steps only, no attach left
      behind on failure, no partition touched but the volume's own. */
  lemma MountByKindProperties(o: Oracles, att0: map<int, int>, v: Volume, mp: string)
    ensures var d := MountByKindOutcome(o, att0, v, mp);
            OnlyMountSteps(d.events) && (d.r != 0 ==> ReleasesAttaches(d.events)) &&
            SameExcept(att0, d.attached, o.mtdIndex(v.blkDevice))
  {
    match MountKindOf(v)
    case ByVold =>
    case ByMtd =>
    case ByBlock => BlockMountFallback(o, att0, v, mp);
    case ByUbi => UbiMountCleanup(o, att0, v); UbiMountLocal(o, att0, v);
    case ByShell =>
  }

  /** Mounting causes mount steps only (so it never destroys data) and never
      leaves behind an attach it made when it fails; it changes the attach
      state of the volume's own partition at most; a target already in the
      snapshot, the RAM disk and an unknown path cause no event at all; a
      failed scan gives -1 with no event; every event comes after the `mkdir`
      of the target. */
  lemma MountOutcomeProperties(rts: Roots, o: Oracles, hadSlots: bool, t0: seq<Event>, att0: map<int, int>,
                               path: string, mountPoint: Option<string>)
    ensures var out := MountOutcome(rts, o, hadSlots, t0, att0, path, mountPoint);
            OnlyMountSteps(out.events) &&
            (out.r != 0 ==> ReleasesAttaches(out.events)) &&
            (rts.VolumeForPath(path).None? ==> out.r == -1 && out.events == [] && out.scanned.None?) &&
            (rts.VolumeForPath(path).Some? ==>
               var v := rts.VolumeForPath(path).value;
               var mp := if mountPoint.Some? then mountPoint.value else v.mountPoint;
               SameExcept(att0, out.attached, o.mtdIndex(v.blkDevice)) &&
               (v.fsType == "ramdisk" ==> out == Outcome(0, [], att0, None)) &&
               (v.fsType != "ramdisk" && Snapshot(hadSlots, o, t0).None? ==> out.r == -1 && out.events == []) &&
               (out.scanned.Some? && FirstMatch(out.scanned.value, ByMountPoint, mp).Some? ==>
                  out.r == 0 && out.events == []) &&
               (out.events != [] ==> out.events[0] == Event.Mkdir(mp)))
  {
    match rts.VolumeForPath(path)
    case None =>
    case Some(v) =>
      var mp := if mountPoint.Some? then mountPoint.value else v.mountPoint;
      if v.fsType != "ramdisk" && Snapshot(hadSlots, o, t0).Some? {
        var snap := Snapshot(hadSlots, o, t0).value;
        if FirstMatch(snap, ByMountPoint, mp).None? {
          var d := MountByKindOutcome(o, att0, v, mp);
          MountByKindProperties(o, att0, v, mp);
          OnlyMountStepsConcat([Event.Mkdir(mp)], d.events);
          if d.r != 0 {
            ReleasesAttachesConcat([Event.Mkdir(mp)], d.events);
          }
        }
      }
  }

  /** A data-media path mounts /data and, only when that succeeds, sets up
      /data/media as its last step. */
  lemma EnsureMountedProperties(rts: Roots, o: Oracles, hadSlots: bool, t0: seq<Event>, att0: map<int, int>,
                                path: string, mountPoint: Option<string>)
    requires DataResolves(rts, path)
    ensures var out := EnsureMountedOutcome(rts, o, hadSlots, t0, att0, path, mountPoint);
            NonDestructive(out.events) &&
            (out.r != 0 ==> ReleasesAttaches(out.events)) &&
            (rts.IsDataMediaVolumePath(path) ==>
               var d := MountOutcome(rts, o, hadSlots, t0, att0, "/data", None);
               (out.r == 0 <==> d.r == 0) &&
               (out.r == 0 ==> out.events == d.events + [Event.SetupDataMedia]) &&
               (out.r != 0 ==> out.events == d.events && Event.SetupDataMedia !in out.events))
  {
    var out := EnsureMountedOutcome(rts, o, hadSlots, t0, att0, path, mountPoint);
    if rts.IsDataMediaVolumePath(path) {
      var d := MountOutcome(rts, o, hadSlots, t0, att0, "/data", None);
      MountOutcomeSafe(rts, o, hadSlots, t0, att0, "/data", None);
      MountStepsNonDestructive(d.events);
      if d.r == 0 {
        assert out == d.(events := d.events + [Event.SetupDataMedia]);
        NonDestructiveConcat(d.events, [Event.SetupDataMedia]);
      } else {
        assert out == d;
        assert Event.SetupDataMedia !in d.events by {
          assert forall i :: 0 <= i < |d.events| ==> IsMountStep(d.events[i]);
        }
      }
    } else {
      assert out == MountOutcome(rts, o, hadSlots, t0, att0, path, mountPoint);
      MountOutcomeSafe(rts, o, hadSlots, t0, att0, path, mountPoint);
      MountStepsNonDestructive(out.events);
    }
  }

  /** The safety half of `MountOutcomeProperties`: mount steps only, and no
      attach left behind on failure. */
  lemma MountOutcomeSafe(rts: Roots, o: Oracles, hadSlots: bool, t0: seq<Event>, att0: map<int, int>,
                         path: string, mountPoint: Option<string>)
    ensures var out := MountOutcome(rts, o, hadSlots, t0, att0, path, mountPoint);
            OnlyMountSteps(out.events) && (out.r != 0 ==> ReleasesAttaches(out.events))
  {
    MountOutcomeProperties(rts, o, hadSlots, t0, att0, path, mountPoint);
  }

  /** Events an unmount may cause: the unmount itself and the UBI detach. */
  predicate IsUnmountStep(e: Event) {
    e.Umount? || e.UbiDetachMtd?
  }

  predicate OnlyUnmountSteps(ev: seq<Event>) {
    forall i :: 0 <= i < |ev| ==> IsUnmountStep(ev[i])
  }

  lemma UnmountStepsSafe(ev: seq<Event>)
    requires OnlyUnmountSteps(ev)
    ensures NonDestructive(ev) && NoAttach(ev) && ReleasesAttaches(ev)
  {
    forall i | 0 <= i < |ev|
      ensures !IsDestructive(ev[i]) && !ev[i].UbiAttach?
    {
      assert IsUnmountStep(ev[i]);
    }
  }

  /** The UBI tail of an unmount: one detach of the volume's partition at
      most; success means the partition is no longer attached. */
  lemma UbiUnmountProperties(o: Oracles, att0: map<int, int>, blkDevice: string)
    ensures var out := UbiUnmountOutcome(o, att0, blkDevice);
            var m := o.mtdIndex(blkDevice);
            OnlyUnmountSteps(out.events) && |out.events| <= 1 &&
            OnlyDetached(att0, out.attached) && SameExcept(att0, out.attached, m) &&
            (out.r == 0 <==> UbiUsable(o, m) && m in att0 && o.ubiDetachOk(m)) &&
            (out.r == 0 ==> m !in out.attached) &&
            (out.r != 0 ==> out.attached == att0)
  {
  }

  /** Unmounting causes unmount steps only, attaches nothing, and detaches
      at most the volume's own partition; a failed scan gives -1 with no
      event; a volume absent from the snapshot is already unmounted; the unmount result decides the outcome of a
      volume other than ubifs, whereas for ubifs only the detach does; the
      snapshot entry is dropped exactly when the unmount succeeds, so a
      second lookup moves on to a later entry for the same mount point. */
  lemma UnmountOutcomeProperties(rts: Roots, o: Oracles, hadSlots: bool, t0: seq<Event>, att0: map<int, int>,
                                 path: string)
    ensures var out := UnmountOutcome(rts, o, hadSlots, t0, att0, path);
            OnlyUnmountSteps(out.events) && OnlyDetached(att0, out.attached) &&
            (rts.VolumeForPath(path).None? ==> out.r == -1 && out.events == []) &&
            (rts.VolumeForPath(path).Some? ==>
               var v := rts.VolumeForPath(path).value;
               SameExcept(att0, out.attached, o.mtdIndex(v.blkDevice)) &&
               (v.fsType == "ramdisk" ==> out.r == -1 && out.events == []) &&
               (v.fsType != "ramdisk" && Snapshot(hadSlots, o, t0).None? ==> out.r == -1 && out.events == []) &&
               (v.fsType != "ramdisk" && Snapshot(hadSlots, o, t0).Some? ==>
                  var snap := Snapshot(hadSlots, o, t0).value;
                  out.scanned.Some? &&
                  (FirstMatch(snap, ByMountPoint, v.mountPoint).None? <==> out.events == []) &&
                  (FirstMatch(snap, ByMountPoint, v.mountPoint).None? ==> out.r == 0) &&
                  (FirstMatch(snap, ByMountPoint, v.mountPoint).Some? ==>
                     out.events[0] == Event.Umount(Some(v.mountPoint)) &&
                     (v.fsType != "ubifs" ==> out.r == o.umount(v.mountPoint)) &&
                     (v.fsType == "ubifs" ==> out.r == UbiUnmountOutcome(o, att0, v.blkDevice).r) &&
                     FirstMatch(out.scanned.value, ByMountPoint, v.mountPoint) ==
                       (if o.umount(v.mountPoint) == 0
                        then FirstMatchFrom(snap, ByMountPoint, v.mountPoint,
                                            FirstMatch(snap, ByMountPoint, v.mountPoint).value + 1)
                        else FirstMatch(snap, ByMountPoint, v.mountPoint)))))
  {
    var out := UnmountOutcome(rts, o, hadSlots, t0, att0, path);
    match rts.VolumeForPath(path)
    case None =>
      assert out == Outcome(-1, [], att0, None);
    case Some(v) =>
      if v.fsType == "ramdisk" {
        assert out == Outcome(-1, [], att0, None);
      } else if Snapshot(hadSlots, o, t0).None? {
        assert out == Outcome(-1, [], att0, Some([]));
      } else {
        var snap := Snapshot(hadSlots, o, t0).value;
        match FirstMatch(snap, ByMountPoint, v.mountPoint)
        case None =>
          assert out == Outcome(0, [], att0, Some(snap));
        case Some(idx) =>
          UnmountMatchedProperties(rts, o, hadSlots, t0, att0, path, v, snap, idx);
      }
  }

  /** `UnmountOutcomeProperties` once the snapshot holds an entry for the
      volume's mount point. */
  lemma UnmountMatchedProperties(rts: Roots, o: Oracles, hadSlots: bool, t0: seq<Event>, att0: map<int, int>,
                                 path: string, v: Volume, snap: seq<Slot>, idx: nat)
    requires rts.VolumeForPath(path) == Some(v) && v.fsType != "ramdisk"
    requires Snapshot(hadSlots, o, t0) == Some(snap)
    requires FirstMatch(snap, ByMountPoint, v.mountPoint) == Some(idx)
    ensures var out := UnmountOutcome(rts, o, hadSlots, t0, att0, path);
            OnlyUnmountSteps(out.events) && OnlyDetached(att0, out.attached) &&
            SameExcept(att0, out.attached, o.mtdIndex(v.blkDevice)) &&
            out.scanned.Some? && out.events != [] &&
            out.events[0] == Event.Umount(Some(v.mountPoint)) &&
            (v.fsType != "ubifs" ==> out.r == o.umount(v.mountPoint)) &&
            (v.fsType == "ubifs" ==> out.r == UbiUnmountOutcome(o, att0, v.blkDevice).r) &&
            FirstMatch(out.scanned.value, ByMountPoint, v.mountPoint) ==
              (if o.umount(v.mountPoint) == 0
               then FirstMatchFrom(snap, ByMountPoint, v.mountPoint, idx + 1)
               else Some(idx))
  {
    var umount := Event.Umount(Some(v.mountPoint));
    if v.fsType == "ubifs" {
      var d := UbiUnmountOutcome(o, att0, v.blkDevice);
      UbiUnmountProperties(o, att0, v.blkDevice);
      assert OnlyUnmountSteps([umount] + d.events) by {
        assert forall i :: 1 <= i < |[umount] + d.events| ==> ([umount] + d.events)[i] == d.events[i - 1];
      }
    }
    FirstMatchAfterVacate(snap, idx, ByMountPoint, v.mountPoint, 0);
  }

  /** A data-media path unmounts /data instead, /data itself stays mounted
      while data media is preserved, and nothing but the target's volume is
      unmounted. */
  lemma EnsureUnmountedProperties(rts: Roots, o: Oracles, hadSlots: bool, t0: seq<Event>, att0: map<int, int>,
                                  path: string)
    requires DataResolves(rts, path)
    ensures var out := EnsureUnmountedOutcome(rts, o, hadSlots, t0, att0, path);
            var p := UnmountTarget(rts, path);
            OnlyUnmountSteps(out.events) && OnlyDetached(att0, out.attached) &&
            (rts.IsDataMediaVolumePath(path) ==> out == EnsureUnmountedOutcome(rts, o, hadSlots, t0, att0, "/data")) &&
            (KeptForDataMedia(rts, p) ==> out == Outcome(0, [], att0, None)) &&
            (out.events != [] ==>
               rts.VolumeForPath(p).Some? &&
               out.events[0] == Event.Umount(Some(rts.VolumeForPath(p).value.mountPoint)))
  {
    var p := UnmountTarget(rts, path);
    if !KeptForDataMedia(rts, p) {
      UnmountOutcomeProperties(rts, o, hadSlots, t0, att0, p);
    }
  }

  /** Rebuilding UBI: the attach is the first step (no detach before it), so
      a partition still attached cannot be formatted; every attach made is
      released; the only destructive step is the creation of one dynamic
      volume named after the partition on the fixed node, sized to the whole
      device; the partition ends detached whenever detaching works. */
  lemma FormatUbifsCleanup(o: Oracles, att0: map<int, int>, location: string)
    ensures var out := FormatUbifsOutcome(o, att0, location);
            var m := o.mtdIndex(location);
            (out.r == 0 || out.r == -1) &&
            ReleasesAttaches(out.events) && SameExcept(att0, out.attached, m) &&
            (out.events != [] ==> out.events[0].UbiAttach? && out.events[0].mtd == m) &&
            (m in att0 ==> out.r == -1 && out.attached == att0) &&
            (o.ubiDetachOk(m) && m !in att0 ==> out.attached == att0) &&
            (forall i :: 0 <= i < |out.events| && IsDestructive(out.events[i]) ==> i == 1 && out.events[i].UbiMkvol?) &&
            (out.r == 0 ==>
               var info := o.ubiDevInfo(o.ubiAttachDev(m).value).value;
               |out.events| == 3 &&
               out.events[1] == Event.UbiMkvol(UBI_USERDATA_NODE, info.availLebs * info.lebSize, location,
                                               UBI_DYNAMIC_VOLUME))
  {
    var out := FormatUbifsOutcome(o, att0, location);
    var m := o.mtdIndex(location);
    if UbiUsable(o, m) && AttachSucceeds(o, att0, m) {
      var dev := o.ubiAttachDev(m).value;
      match o.ubiDevInfo(dev)
      case None =>
        ReleasedByFinalDetach([], m, []);
        assert out.events == [] + [Event.UbiAttach(m, true)] + [] + [Event.UbiDetachMtd(m)];
      case Some(info) =>
        var bytes := UbiVolumeBytes(info.availLebs, info.lebSize);
        var mkvol := Event.UbiMkvol(UbiMkvolNode(), bytes, location, UBI_DYNAMIC_VOLUME);
        ReleasedByFinalDetach([], m, [mkvol]);
        assert out.events == [] + [Event.UbiAttach(m, true)] + [mkvol] + [Event.UbiDetachMtd(m)];
    }
  }

  /** Erasing and reformatting: an MTD-family volume is erased before
      anything else, and a failed lookup, open, erase or close fails the
      format; after a good erase a ubifs volume is rebuilt by
      `format_ubifs_volume`; every attach is released, and no partition but
      the volume's own changes its attach state. */
  lemma FormatFsProperties(o: Oracles, att0: map<int, int>, v: Volume, volume: string, useF2fs: bool)
    ensures var f := FormatFsOutcome(o, att0, v, volume, useF2fs);
            ReleasesAttaches(f.events) && SameExcept(att0, f.attached, o.mtdIndex(v.blkDevice)) &&
            (v.fsType == "yaffs2" || v.fsType == "mtd" || v.fsType == "ubifs" ==>
               (f.events != [] ==> f.events[0] == Event.MtdErase(v.blkDevice)) &&
               (f.r == 0 && v.fsType != "ubifs" ==> f.events == [Event.MtdErase(v.blkDevice)])) &&
            (v.fsType == "yaffs2" || v.fsType == "mtd" || v.fsType == "ubifs" ==>
               (!o.mtdPartition(v.blkDevice) || !o.mtdWriteOpen(v.blkDevice) ==> f.r == -1 && f.events == []) &&
               (o.mtdPartition(v.blkDevice) && o.mtdWriteOpen(v.blkDevice) &&
                (!o.mtdErase(v.blkDevice) || o.mtdClose(v.blkDevice) != 0) ==>
                  f.r == -1 && f.events == [Event.MtdErase(v.blkDevice)])) &&
            (v.fsType == "ubifs" && o.mtdPartition(v.blkDevice) && o.mtdWriteOpen(v.blkDevice) &&
             o.mtdErase(v.blkDevice) && o.mtdClose(v.blkDevice) == 0 ==>
               var u := FormatUbifsOutcome(o, att0, v.blkDevice);
               f.r == u.r && f.events == [Event.MtdErase(v.blkDevice)] + u.events && f.attached == u.attached) &&
            (v.fsType == "ext4" ==> f.events == [Event.MakeExt4(v.blkDevice, v.length, volume)])
  {
    if v.fsType == "ubifs" && o.mtdPartition(v.blkDevice) && o.mtdWriteOpen(v.blkDevice)
       && o.mtdErase(v.blkDevice) && o.mtdClose(v.blkDevice) == 0 {
      var u := FormatUbifsOutcome(o, att0, v.blkDevice);
      FormatUbifsCleanup(o, att0, v.blkDevice);
      ReleasesAttachesConcat([Event.MtdErase(v.blkDevice)], u.events);
    }
  }

  /** The canonical, non-vold branch of `format_volume`: nothing is
      destroyed unless the unmount succeeded first, and a failed unmount
      fails the format. */
  lemma FormatCanonicalProperties(rts: Roots, o: Oracles, hadSlots: bool, t0: seq<Event>, att0: map<int, int>,
                                  useF2fs: bool, volume: string, v: Volume)
    requires rts.fstab.Some?
    requires !rts.IsDataMediaVolumePath(volume) && !KeptForDataMedia(rts, volume)
    requires rts.VolumeForPath(volume) == Some(v) && !(volume == "/sd-ext" && !o.pathExists(v.blkDevice))
    requires !(v.voldManaged && volume == v.mountPoint) && v.fsType != "ramdisk" && v.mountPoint == volume
    ensures var out := FormatOutcome(rts, o, hadSlots, t0, att0, useF2fs, volume);
            var u := EnsureUnmountedOutcome(rts, o, hadSlots, t0, att0, volume);
            ReleasesAttaches(out.events) &&
            (u.r != 0 ==> out.r == -1 && NonDestructive(out.events)) &&
            (!NonDestructive(out.events) ==> u.r == 0)
  {
    var u := EnsureUnmountedOutcome(rts, o, hadSlots, t0, att0, volume);
    EnsureUnmountedProperties(rts, o, hadSlots, t0, att0, volume);
    UnmountStepsSafe(u.events);
    if u.r == 0 {
      var f := FormatFsOutcome(o, u.attached, v, volume, useF2fs);
      FormatFsProperties(o, u.attached, v, volume, useF2fs);
      ReleasesAttachesConcat(u.events, f.events);
    }
  }

  /** `format_volume`: every attach is released on every path; data media
      and a preserved /data are formatted through the generic formatter
      without any device; an unknown path, a missing sd-ext and the RAM disk
      fail with no effect; a path inside a volume formats the volume's device
      without unmounting it; a vold volume is formatted by vold whatever its
      unmount returned. */
  lemma FormatOutcomeProperties(rts: Roots, o: Oracles, hadSlots: bool, t0: seq<Event>, att0: map<int, int>,
                                useF2fs: bool, volume: string)
    requires rts.fstab.Some?
    ensures var out := FormatOutcome(rts, o, hadSlots, t0, att0, useF2fs, volume);
            ReleasesAttaches(out.events) &&
            (rts.IsDataMediaVolumePath(volume) || KeptForDataMedia(rts, volume) ==>
               out.events == [Event.FormatUnknown(None, volume, None)]) &&
            (!rts.IsDataMediaVolumePath(volume) && !KeptForDataMedia(rts, volume) ==>
               (rts.VolumeForPath(volume).None? ==> out.r == -1 && out.events == []) &&
               (rts.VolumeForPath(volume).Some? ==>
                  var v := rts.VolumeForPath(volume).value;
                  (volume == "/sd-ext" && !o.pathExists(v.blkDevice) ==> out.r == -1 && out.events == []) &&
                  (!(volume == "/sd-ext" && !o.pathExists(v.blkDevice)) ==>
                     (v.voldManaged && volume == v.mountPoint ==>
                        out.events[|out.events| - 1] == VoldRequest(v)) &&
                     (!(v.voldManaged && volume == v.mountPoint) ==>
                        (v.fsType == "ramdisk" ==> out.r == -1 && out.events == []) &&
                        (v.fsType != "ramdisk" && v.mountPoint != volume ==>
                           out.events == [Event.FormatUnknown(Some(v.blkDevice), volume, None)])))))
  {
    if !rts.IsDataMediaVolumePath(volume) && !KeptForDataMedia(rts, volume) && rts.VolumeForPath(volume).Some? {
      var v := rts.VolumeForPath(volume).value;
      if !(volume == "/sd-ext" && !o.pathExists(v.blkDevice)) {
        if v.voldManaged && volume == v.mountPoint {
          VoldFormatProperties(rts, o, hadSlots, t0, att0, v);
        } else if v.fsType != "ramdisk" && v.mountPoint == volume {
          FormatCanonicalProperties(rts, o, hadSlots, t0, att0, useF2fs, volume, v);
        }
      }
    }
  }

  /** A vold format unmounts first, whatever that returns, and ends with
      the request to vold. */
  lemma VoldFormatProperties(rts: Roots, o: Oracles, hadSlots: bool, t0: seq<Event>, att0: map<int, int>, v: Volume)
    requires DataResolves(rts, v.mountPoint)
    ensures var out := VoldFormatOutcome(rts, o, hadSlots, t0, att0, v);
            ReleasesAttaches(out.events) && out.events != [] &&
            out.events[|out.events| - 1] == VoldRequest(v)
  {
    var u := EnsureUnmountedOutcome(rts, o, hadSlots, t0, att0, v.mountPoint);
    EnsureUnmountedProperties(rts, o, hadSlots, t0, att0, v.mountPoint);
    UnmountStepsSafe(u.events);
    ReleasesAttachesConcat(u.events, [VoldRequest(v)]);
  }
}
