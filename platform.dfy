/** The world outside the dispatch layer: the Linux kernel (mount, umount,
    /proc/mounts, the UBI control device), the MTD utilities, the vold daemon,
    the external formatters and the shell.  None of their internals is
    modelled: every answer they give comes from an `Oracles` value fixed when
    the `Kernel` object is built, and every side effect they perform is
    appended to `trace`, so that contracts can say which calls were made, with
    which arguments and in which order.  The only kernel state tracked
    explicitly is which MTD partitions carry an attached UBI device, and how
    many libubi handles are open. */
module Platform {
  import opened Common

  /** `ubi_dev_info` fields the dispatch code reads. */
  datatype DevInfo = DevInfo(devNum: int, availBytes: int, availLebs: int, lebSize: int)

  /** The answers of every collaborator, as total functions of their arguments. */
  datatype Oracles = Oracles(
    procMounts: seq<Event> -> Option<string>,     // /proc/mounts after these events; None: open or read fails
    mallocOk: bool,                               // the snapshot's 32-slot allocation succeeds
    mount: (string, string, string) -> int,      // mount(2) on (source, target, fstype)
    umount: string -> int,                        // umount(2) on a non-NULL target
    shell: string -> int,                         // exit status of __system(cmd)
    mtdPartition: string -> bool,                 // mtd_find_partition_by_name is non-NULL
    mtdIndex: string -> int,                      // mtd_get_index_by_name
    mtdMount: (string, string, string) -> int,   // mtd_mount_partition(partition, target, fstype)
    mtdWriteOpen: string -> bool,                 // mtd_write_partition is non-NULL
    mtdErase: string -> bool,                     // mtd_erase_blocks(ctx, -1) != -1
    mtdClose: string -> int,                      // mtd_write_close
    ubiOpen: bool,                                // libubi_open is non-NULL
    ubiInfoErr: int,                              // ubi_get_info's return value
    ubiCtrlMajor: int,                            // ubi_info.ctrl_major
    ubiAttachDev: int -> Option<nat>,             // device number ubi_attach assigns, None: it fails
    ubiDetachOk: int -> bool,                     // ubi_detach_mtd succeeds on an attached partition
    ubiDevInfo: int -> Option<DevInfo>,           // ubi_get_dev_info1(dev_num)
    ubiMkvol: (string, int, string, int) -> int,  // ubi_mkvol(node, bytes, name, type)
    ubiProbe: string -> int,                      // ubi_probe_node(path)
    ubiDevNumOfDev: string -> Option<int>,        // ubi_get_dev_info(path).dev_num
    ubiDevNumOfVol: string -> Option<int>,        // ubi_get_vol_info(path).dev_num
    ubiRemoveOk: int -> bool,                     // ubi_remove_dev(dev_num) == 0
    voldMount: string -> bool,                    // vold_mount_volume(mp, 1) == CommandOkay
    voldUnmount: string -> bool,
    voldFormat: string -> bool,                   // vold_format_volume
    voldCustomFormat: (string, string) -> bool,   // vold_custom_format_volume(mp, fstype)
    voldAvailable: string -> bool,                // vold_is_volume_available
    makeExt4: (string, int, string) -> int,      // make_ext4fs(device, length, mount point)
    makeF2fs: string -> int,                      // make_f2fs_main on a device
    formatUnknown: (Option<string>, string, Option<string>) -> int,  // format_unknown_device
    pathExists: string -> bool                    // stat(path) == 0
  )

  /** The side effects the dispatch layer can cause, in the order it causes them. */
  datatype Event =
    | Mkdir(path: string)
    | Mount(source: string, target: string, fsType: string)   // with MS_NOATIME|MS_NODEV|MS_NODIRATIME
    | Shell(cmd: string)
    | Umount(umountTarget: Option<string>)
    | MtdMount(partition: string, target: string, fsType: string)
    | MtdErase(partition: string)
    | UbiDetachMtd(mtd: int)
    | UbiAttach(mtd: int, ok: bool)
    | UbiMkvol(node: string, bytes: int, name: string, volType: int)
    | UbiRemoveDev(devNum: int)
    | VoldMount(mountPoint: string)
    | VoldUnmount(mountPoint: string)
    | VoldFormat(mountPoint: string)
    | VoldCustomFormat(mountPoint: string, fsType: string)
    | MakeExt4(device: string, length: int, mountPoint: string)
    | MakeF2fs(device: string)
    | FormatUnknown(deviceHint: Option<string>, path: string, fsTypeHint: Option<string>)
    | SetupDataMedia

  /** Events that are part of the UBI attach/create/detach lifecycle. */
  predicate IsUbiEvent(e: Event) {
    e.UbiDetachMtd? || e.UbiAttach? || e.UbiMkvol? || e.UbiRemoveDev?
  }

  /** The UBI lifecycle events of a trace, in order. */
  function UbiEvents(t: seq<Event>): (r: seq<Event>)
    ensures |r| <= |t|
    ensures forall k :: 0 <= k < |r| ==> IsUbiEvent(r[k])
  {
    if t == [] then []
    else (if IsUbiEvent(t[0]) then [t[0]] else []) + UbiEvents(t[1..])
  }

  lemma {:induction false} UbiEventsAppend(a: seq<Event>, b: seq<Event>)
    ensures UbiEvents(a + b) == UbiEvents(a) + UbiEvents(b)
    decreases |a|
  {
    if a == [] {
      assert a + b == b;
    } else {
      assert (a + b)[1..] == a[1..] + b;
      UbiEventsAppend(a[1..], b);
    }
  }

  /** Events that change what is mounted. */
  predicate IsMountEvent(e: Event) {
    e.Mount? || e.Shell? || e.MtdMount? || e.VoldMount?
  }

  /** Events that destroy the contents of a storage device. */
  predicate IsDestructive(e: Event) {
    e.MtdErase? || e.UbiMkvol? || e.VoldFormat? || e.VoldCustomFormat? ||
    e.MakeExt4? || e.MakeF2fs? || e.FormatUnknown?
  }

  const UBI_DYNAMIC_VOLUME := 3

  /** `t` is `t0` followed by further events. */
  predicate Extends(t: seq<Event>, t0: seq<Event>) {
    |t0| <= |t| && t[..|t0|] == t0
  }

  /** The events appended to `t0` to give `t`. */
  function Since(t: seq<Event>, t0: seq<Event>): seq<Event>
    requires |t0| <= |t|
  {
    t[|t0|..]
  }

  /** Every successful attach in `ev` is followed, later in `ev`, by a detach
      of the same partition: nothing attached here is left attached. */
  predicate ReleasesAttaches(ev: seq<Event>) {
    forall i :: 0 <= i < |ev| && ev[i].UbiAttach? && ev[i].ok ==>
      exists j :: i < j < |ev| && ev[j] == Event.UbiDetachMtd(ev[i].mtd)
  }

  lemma ReleasesAttachesConcat(a: seq<Event>, b: seq<Event>)
    requires ReleasesAttaches(a) && ReleasesAttaches(b)
    ensures ReleasesAttaches(a + b)
  {
    var ab := a + b;
    forall i | 0 <= i < |ab| && ab[i].UbiAttach? && ab[i].ok
      ensures exists j :: i < j < |ab| && ab[j] == Event.UbiDetachMtd(ab[i].mtd)
    {
      if i < |a| {
        assert a[i] == ab[i];
        var j :| i < j < |a| && a[j] == Event.UbiDetachMtd(a[i].mtd);
        assert ab[j] == a[j];
      } else {
        assert b[i - |a|] == ab[i];
        var j :| i - |a| < j < |b| && b[j] == Event.UbiDetachMtd(b[i - |a|].mtd);
        assert ab[j + |a|] == b[j];
      }
    }
  }

  lemma NonDestructiveConcat(a: seq<Event>, b: seq<Event>)
    requires NonDestructive(a) && NonDestructive(b)
    ensures NonDestructive(a + b)
  {
    var ab := a + b;
    forall i | 0 <= i < |ab|
      ensures !IsDestructive(ab[i])
    {
      if i < |a| {
        assert a[i] == ab[i];
      } else {
        assert b[i - |a|] == ab[i];
      }
    }
  }

  /** No event of `ev` destroys data. */
  predicate NonDestructive(ev: seq<Event>) {
    forall i :: 0 <= i < |ev| ==> !IsDestructive(ev[i])
  }

  /** The attached map once UBI device `devNum` is removed: every partition
      bound to it is detached, and no other. */
  function WithoutDevice(attached: map<int, int>, devNum: int): (r: map<int, int>)
    ensures forall m :: m in r <==> m in attached && attached[m] != devNum
    ensures forall m :: m in r ==> r[m] == attached[m]
  {
    map m | m in attached && attached[m] != devNum :: attached[m]
  }

  /** The kernel and the collaborators, seen from the dispatch layer. */
  class Kernel {
    const o: Oracles
    var attached: map<int, int>   // MTD index -> UBI device number, for every attached partition
    var handles: int              // libubi handles currently open
    var trace: seq<Event>

    constructor (o: Oracles, attached: map<int, int>)
      ensures this.o == o && this.attached == attached && handles == 0 && trace == []
    {
      this.o := o;
      this.attached := attached;
      handles := 0;
      trace := [];
    }

    method Mkdir(path: string)
      modifies this`trace
      ensures trace == old(trace) + [Event.Mkdir(path)]
    {
      trace := trace + [Event.Mkdir(path)];
    }

    /** mount(2) with the conservative flags MS_NOATIME | MS_NODEV | MS_NODIRATIME. */
    method Mount(source: string, target: string, fsType: string) returns (r: int)
      modifies this`trace
      ensures r == o.mount(source, target, fsType)
      ensures trace == old(trace) + [Event.Mount(source, target, fsType)]
    {
      r := o.mount(source, target, fsType);
      trace := trace + [Event.Mount(source, target, fsType)];
    }

    /** umount(2).  A NULL target is refused by the kernel (EFAULT). */
    method Umount(target: Option<string>) returns (r: int)
      modifies this`trace
      ensures r == (if target.Some? then o.umount(target.value) else -1)
      ensures trace == old(trace) + [Event.Umount(target)]
    {
      r := if target.Some? then o.umount(target.value) else -1;
      trace := trace + [Event.Umount(target)];
    }

    method System(cmd: string) returns (r: int)
      modifies this`trace
      ensures r == o.shell(cmd)
      ensures trace == old(trace) + [Event.Shell(cmd)]
    {
      r := o.shell(cmd);
      trace := trace + [Event.Shell(cmd)];
    }

    method MtdMountPartition(partition: string, target: string, fsType: string) returns (r: int)
      modifies this`trace
      ensures r == o.mtdMount(partition, target, fsType)
      ensures trace == old(trace) + [Event.MtdMount(partition, target, fsType)]
    {
      r := o.mtdMount(partition, target, fsType);
      trace := trace + [Event.MtdMount(partition, target, fsType)];
    }

    method MtdEraseBlocks(partition: string) returns (ok: bool)
      modifies this`trace
      ensures ok == o.mtdErase(partition)
      ensures trace == old(trace) + [Event.MtdErase(partition)]
    {
      ok := o.mtdErase(partition);
      trace := trace + [Event.MtdErase(partition)];
    }

    method LibubiOpen() returns (ok: bool)
      modifies this`handles
      ensures ok == o.ubiOpen
      ensures handles == old(handles) + (if ok then 1 else 0)
    {
      ok := o.ubiOpen;
      if ok {
        handles := handles + 1;
      }
    }

    method LibubiClose()
      modifies this`handles
      ensures handles == old(handles) - 1
    {
      handles := handles - 1;
    }

    /** ubi_detach_mtd: fails on a partition that is not attached. */
    method UbiDetachMtd(mtd: int) returns (err: int)
      modifies this`trace, this`attached
      ensures trace == old(trace) + [Event.UbiDetachMtd(mtd)]
      ensures err == 0 <==> mtd in old(attached) && o.ubiDetachOk(mtd)
      ensures attached == if err == 0 then old(attached) - {mtd} else old(attached)
    {
      trace := trace + [Event.UbiDetachMtd(mtd)];
      if mtd in attached && o.ubiDetachOk(mtd) {
        attached := attached - {mtd};
        err := 0;
      } else {
        err := -1;
      }
    }

    /** ubi_attach with UBI_DEV_NUM_AUTO: fails on a partition that is
        already attached (EEXIST); on success returns the assigned number. */
    method UbiAttach(mtd: int) returns (err: int, devNum: nat)
      modifies this`trace, this`attached
      ensures err == 0 <==> mtd !in old(attached) && o.ubiAttachDev(mtd).Some?
      ensures trace == old(trace) + [Event.UbiAttach(mtd, err == 0)]
      ensures err == 0 ==> devNum == o.ubiAttachDev(mtd).value && attached == old(attached)[mtd := devNum]
      ensures err != 0 ==> attached == old(attached)
    {
      if mtd !in attached && o.ubiAttachDev(mtd).Some? {
        err, devNum := 0, o.ubiAttachDev(mtd).value;
        attached := attached[mtd := devNum];
      } else {
        err, devNum := -1, 0;
      }
      trace := trace + [Event.UbiAttach(mtd, err == 0)];
    }

    method UbiMkvol(node: string, bytes: int, name: string, volType: int) returns (err: int)
      modifies this`trace
      ensures err == o.ubiMkvol(node, bytes, name, volType)
      ensures trace == old(trace) + [Event.UbiMkvol(node, bytes, name, volType)]
    {
      err := o.ubiMkvol(node, bytes, name, volType);
      trace := trace + [Event.UbiMkvol(node, bytes, name, volType)];
    }

    /** ubi_remove_dev: detaches every partition bound to that device number. */
    method UbiRemoveDev(devNum: int) returns (err: int)
      modifies this`trace, this`attached
      ensures trace == old(trace) + [Event.UbiRemoveDev(devNum)]
      ensures err == 0 <==> o.ubiRemoveOk(devNum)
      ensures attached == if err == 0 then WithoutDevice(old(attached), devNum) else old(attached)
    {
      trace := trace + [Event.UbiRemoveDev(devNum)];
      if o.ubiRemoveOk(devNum) {
        attached := WithoutDevice(attached, devNum);
        err := 0;
      } else {
        err := -1;
      }
    }

    method VoldMount(mountPoint: string) returns (ok: bool)
      modifies this`trace
      ensures ok == o.voldMount(mountPoint)
      ensures trace == old(trace) + [Event.VoldMount(mountPoint)]
    {
      ok := o.voldMount(mountPoint);
      trace := trace + [Event.VoldMount(mountPoint)];
    }

    method VoldUnmount(mountPoint: string) returns (ok: bool)
      modifies this`trace
      ensures ok == o.voldUnmount(mountPoint)
      ensures trace == old(trace) + [Event.VoldUnmount(mountPoint)]
    {
      ok := o.voldUnmount(mountPoint);
      trace := trace + [Event.VoldUnmount(mountPoint)];
    }

    method VoldFormat(mountPoint: string) returns (ok: bool)
      modifies this`trace
      ensures ok == o.voldFormat(mountPoint)
      ensures trace == old(trace) + [Event.VoldFormat(mountPoint)]
    {
      ok := o.voldFormat(mountPoint);
      trace := trace + [Event.VoldFormat(mountPoint)];
    }

    method VoldCustomFormat(mountPoint: string, fsType: string) returns (ok: bool)
      modifies this`trace
      ensures ok == o.voldCustomFormat(mountPoint, fsType)
      ensures trace == old(trace) + [Event.VoldCustomFormat(mountPoint, fsType)]
    {
      ok := o.voldCustomFormat(mountPoint, fsType);
      trace := trace + [Event.VoldCustomFormat(mountPoint, fsType)];
    }

    method MakeExt4(device: string, length: int, mountPoint: string) returns (r: int)
      modifies this`trace
      ensures r == o.makeExt4(device, length, mountPoint)
      ensures trace == old(trace) + [Event.MakeExt4(device, length, mountPoint)]
    {
      r := o.makeExt4(device, length, mountPoint);
      trace := trace + [Event.MakeExt4(device, length, mountPoint)];
    }

    method MakeF2fs(device: string) returns (r: int)
      modifies this`trace
      ensures r == o.makeF2fs(device)
      ensures trace == old(trace) + [Event.MakeF2fs(device)]
    {
      r := o.makeF2fs(device);
      trace := trace + [Event.MakeF2fs(device)];
    }

    method FormatUnknownDevice(device: Option<string>, path: string, fsType: Option<string>) returns (r: int)
      modifies this`trace
      ensures r == o.formatUnknown(device, path, fsType)
      ensures trace == old(trace) + [Event.FormatUnknown(device, path, fsType)]
    {
      r := o.formatUnknown(device, path, fsType);
      trace := trace + [Event.FormatUnknown(device, path, fsType)];
    }

    method SetupDataMedia()
      modifies this`trace
      ensures trace == old(trace) + [Event.SetupDataMedia]
    {
      trace := trace + [Event.SetupDataMedia];
    }
  }
}
