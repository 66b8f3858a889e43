/** The edify built-ins of the updater that mount, unmount and format
    (updater/install.c): `mount`, `is_mounted`, `unmount` and `format`.
    Each takes its arguments already evaluated, dispatches on the partition
    type and answers with a string value; every built-in is a reference
    function giving the value, the events and the state afterwards, and a
    method over the `Kernel` (and the mount snapshot) proved equal to it. */
module Builtins {
  import opened Common
  import opened Platform
  import opened Mounts
  import opened DispatchSpec
  import opened UpdaterUbi

  /** What a built-in hands back to the interpreter: a string, or NULL.
      `Aborted` is a NULL after the built-in recorded an abort message;
      `Null` is a NULL without one (an argument whose evaluation failed
      already recorded its own, and `format` on an unsupported combination
      records none). */
  datatype Value = Str(s: string) | Null | Aborted

  /** The value, the events caused, the attached map afterwards and, when
      the built-in rescanned /proc/mounts, the snapshot it leaves. */
  datatype Reply = Reply(v: Value, events: seq<Event>, attached: map<int, int>, scanned: Option<seq<Slot>>)

  /** `ReadArgs` succeeds: every argument evaluated to a string. */
  predicate AllEvaluated(args: seq<Option<string>>) {
    forall i :: 0 <= i < |args| ==> args[i].Some?
  }

  /** `atoll`: optional leading whitespace and sign, then the longest run of
      decimal digits; 0 when there is none. */
  function Atoll(s: string): int {
    var i := SkipSpaces(s, 0);
    var start := if i < |s| && (s[i] == '-' || s[i] == '+') then i + 1 else i;
    var j := DigitRun(s, start);
    var v: int := DigitsValue(s[start..j]);
    if i < |s| && s[i] == '-' then -v else v
  }

  /** What `%d` prints, `atoll` reads back. */
  lemma AtollIntToString(n: int)
    ensures Atoll(IntToString(n)) == n
  {
    var s := IntToString(n);
    var digits := if n < 0 then NatToString(-n) else NatToString(n);
    var start := if n < 0 then 1 else 0;
    assert s[start..] == digits;
    assert !IsSpace(s[0]);
    assert SkipSpaces(s, 0) == 0;
    assert forall k :: start <= k < |s| ==> IsDigit(s[k]) by {
      forall k | start <= k < |s|
        ensures IsDigit(s[k])
      {
        assert s[k] == digits[k - start];
      }
    }
    assert DigitRun(s, start) == |s|;
    assert s[start..|s|] == digits;
    NatToStringValue(if n < 0 then -n else n);
  }

  /** What `scan_mounted_volumes` leaves in the table: the fresh snapshot,
      or nothing when the scan fails (the built-ins do not check). */
  function TableAfterScan(hadSlots: bool, o: Oracles, t: seq<Event>): seq<Slot> {
    match Snapshot(hadSlots, o, t)
    case None => []
    case Some(table) => table
  }

  // ---------------------------------------------------------------- mount

  /** `mount(fs_type, partition_type, location, mount_point)`. */
  function MountReply(o: Oracles, att0: map<int, int>, args: seq<Option<string>>): Reply {
    if |args| != 4 then Reply(Aborted, [], att0, None)
    else if !AllEvaluated(args) then Reply(Null, [], att0, None)
    else
      var fsType, partitionType, location, mountPoint := args[0].value, args[1].value, args[2].value, args[3].value;
      if fsType == "" || partitionType == "" || location == "" || mountPoint == "" then Reply(Aborted, [], att0, None)
      else
        var mk := [Event.Mkdir(mountPoint)];
        if partitionType == "MTD" then
          if !o.mtdPartition(location) then Reply(Str(""), mk, att0, None)
          else
            var ok := o.mtdMount(location, mountPoint, fsType) == 0;
            Reply(if ok then Str(mountPoint) else Str(""), mk + [Event.MtdMount(location, mountPoint, fsType)], att0, None)
        else if partitionType == "UBI" then
          var a := UbiAttachOutcome(o, att0, location);
          if a.r != 0 then Reply(Str(""), mk + a.events, a.attached, None)
          else
            var ok := o.mount(a.node, mountPoint, fsType) >= 0;
            Reply(if ok then Str(mountPoint) else Str(""), mk + a.events + [Event.Mount(a.node, mountPoint, fsType)], a.attached, None)
        else
          var ok := o.mount(location, mountPoint, fsType) >= 0;
          Reply(if ok then Str(mountPoint) else Str(""), mk + [Event.Mount(location, mountPoint, fsType)], att0, None)
  }

  /** `mount` aborts with no effect on a wrong argument count or an empty
      argument; otherwise it creates the mount point first and answers the
      mount point exactly when the mount its partition type selects
      succeeds, and "" otherwise.  It never formats anything, and only a
      "UBI" partition can change what is attached. */
  lemma MountFnProperties(o: Oracles, att0: map<int, int>, args: seq<Option<string>>)
    ensures var out := MountReply(o, att0, args);
            NonDestructive(out.events) && out.scanned.None? &&
            (|args| != 4 ==> out == Reply(Aborted, [], att0, None)) &&
            (|args| == 4 && !AllEvaluated(args) ==> out == Reply(Null, [], att0, None)) &&
            (|args| == 4 && AllEvaluated(args) ==>
               var fsType, partitionType, location, mountPoint := args[0].value, args[1].value, args[2].value, args[3].value;
               (fsType == "" || partitionType == "" || location == "" || mountPoint == "" ==> out == Reply(Aborted, [], att0, None)) &&
               (fsType != "" && partitionType != "" && location != "" && mountPoint != "" ==>
                  out.events != [] && out.events[0] == Event.Mkdir(mountPoint) &&
                  (out.v == Str(mountPoint) || out.v == Str("")) &&
                  (partitionType == "MTD" ==>
                     (out.v == Str(mountPoint) <==> o.mtdPartition(location) && o.mtdMount(location, mountPoint, fsType) == 0)) &&
                  (partitionType == "UBI" ==>
                     var a := UbiAttachOutcome(o, att0, location);
                     (out.v == Str(mountPoint) <==> a.r == 0 && o.mount(a.node, mountPoint, fsType) >= 0) &&
                     (a.r == 0 ==> out.events[|out.events| - 1] == Event.Mount(a.node, mountPoint, fsType))) &&
                  (partitionType != "MTD" && partitionType != "UBI" ==>
                     out.events == [Event.Mkdir(mountPoint), Event.Mount(location, mountPoint, fsType)] &&
                     (out.v == Str(mountPoint) <==> o.mount(location, mountPoint, fsType) >= 0)) &&
                  (partitionType != "UBI" ==> out.attached == att0)))
  {
    var out := MountReply(o, att0, args);
    if |args| == 4 && AllEvaluated(args) && args[1].value == "UBI" {
      var a := UbiAttachOutcome(o, att0, args[2].value);
      UbiAttachProperties(o, att0, args[2].value);
    }
  }

  /** `mount` of a "UBI" partition neither detaches before attaching nor
      detaches when the mount of the attached node fails: the partition
      stays attached, so the same call made again fails at the attach and
      makes no mount attempt. */
  lemma MountUbiFailureSticks(o: Oracles, att0: map<int, int>, args: seq<Option<string>>)
    requires |args| == 4 && AllEvaluated(args)
    requires args[0].value != "" && args[2].value != "" && args[3].value != ""
    requires args[1].value == "UBI"
    requires UbiAttachOutcome(o, att0, args[2].value).r == 0
    requires MountReply(o, att0, args).v == Str("")
    ensures var m := o.mtdIndex(args[2].value);
            var first := MountReply(o, att0, args);
            m in first.attached &&
            MountReply(o, first.attached, args) ==
              Reply(Str(""), [Event.Mkdir(args[3].value), Event.UbiAttach(m, false)], first.attached, None)
  {
    UbiAttachProperties(o, att0, args[2].value);
  }

  method MountFn(k: Kernel, args: seq<Option<string>>) returns (v: Value)
    modifies k`trace, k`attached, k`handles
    ensures var out := MountReply(k.o, old(k.attached), args);
            v == out.v && k.trace == old(k.trace) + out.events && k.attached == out.attached
    ensures k.handles == old(k.handles)
  {
    if |args| != 4 {
      return Aborted;
    }
    if !AllEvaluated(args) {
      return Null;
    }
    var fsType, partitionType, location, mountPoint := args[0].value, args[1].value, args[2].value, args[3].value;
    if |fsType| == 0 || |partitionType| == 0 || |location| == 0 || |mountPoint| == 0 {
      return Aborted;
    }
    k.Mkdir(mountPoint);
    if partitionType == "MTD" {
      if !k.o.mtdPartition(location) {
        return Str("");
      }
      var err := k.MtdMountPartition(location, mountPoint, fsType);
      v := if err != 0 then Str("") else Str(mountPoint);
    } else if partitionType == "UBI" {
      ghost var t1 := k.trace;
      var ret, node := UpdaterUbi.UbiAttach(k, location);
      if ret != 0 {
        return Str("");
      }
      ghost var t2 := k.trace;
      var err := k.Mount(node, mountPoint, fsType);
      ConcatAssoc(old(k.trace), [Event.Mkdir(mountPoint)], t2[|t1|..]);
      assert t2 == t1 + t2[|t1|..];
      v := if err < 0 then Str("") else Str(mountPoint);
    } else {
      var err := k.Mount(location, mountPoint, fsType);
      v := if err < 0 then Str("") else Str(mountPoint);
    }
  }

  // ----------------------------------------------------------- is_mounted

  /** `is_mounted(mount_point)`. */
  function IsMountedReply(hadSlots: bool, o: Oracles, t0: seq<Event>, att0: map<int, int>, args: seq<Option<string>>): Reply {
    if |args| != 1 then Reply(Aborted, [], att0, None)
    else if args[0].None? then Reply(Null, [], att0, None)
    else if args[0].value == "" then Reply(Aborted, [], att0, None)
    else
      var mountPoint := args[0].value;
      var table := TableAfterScan(hadSlots, o, t0);
      Reply(if FirstMatch(table, ByMountPoint, mountPoint).Some? then Str(mountPoint) else Str(""), [], att0, Some(table))
  }

  /** `is_mounted` changes nothing but the snapshot, and answers the mount
      point exactly when the fresh snapshot holds a live record mounted
      there ("" otherwise, including when the scan fails). */
  lemma IsMountedProperties(hadSlots: bool, o: Oracles, t0: seq<Event>, att0: map<int, int>, args: seq<Option<string>>)
    ensures var out := IsMountedReply(hadSlots, o, t0, att0, args);
            out.events == [] && out.attached == att0 &&
            (|args| == 1 && args[0].Some? && args[0].value != "" ==>
               var mountPoint := args[0].value;
               var table := TableAfterScan(hadSlots, o, t0);
               out.scanned == Some(table) &&
               (out.v == Str(mountPoint) || out.v == Str("")) &&
               (out.v == Str(mountPoint) <==>
                  exists j :: 0 <= j < |table| && table[j].Used? && table[j].volume.mountPoint == mountPoint) &&
               (Snapshot(hadSlots, o, t0).None? ==> out.v == Str(""))) &&
            (|args| != 1 || args[0] == Some("") ==> out.v == Aborted && out.scanned.None?)
  {
    if |args| == 1 && args[0].Some? && args[0].value != "" {
      var mountPoint := args[0].value;
      var table := TableAfterScan(hadSlots, o, t0);
      var f := FirstMatch(table, ByMountPoint, mountPoint);
      if f.Some? {
        assert KeyOf(table[f.value], ByMountPoint) == Some(mountPoint);
      } else {
        forall j | 0 <= j < |table| && table[j].Used?
          ensures table[j].volume.mountPoint != mountPoint
        {
          assert KeyOf(table[j], ByMountPoint) != Some(mountPoint);
        }
      }
    }
  }

  method IsMountedFn(ms: MountsState, k: Kernel, args: seq<Option<string>>) returns (v: Value)
    requires ms.Valid()
    modifies ms, ms.volumes
    ensures ms.Valid()
    ensures var out := IsMountedReply(old(ms.volumes) != null, k.o, k.trace, k.attached, args);
            v == out.v &&
            (out.scanned.None? ==> ms.volumes == old(ms.volumes) && ms.Table() == old(ms.Table())) &&
            (out.scanned.Some? ==> ms.Table() == out.scanned.value)
  {
    if |args| != 1 {
      return Aborted;
    }
    if args[0].None? {
      return Null;
    }
    var mountPoint := args[0].value;
    if |mountPoint| == 0 {
      return Aborted;
    }
    var ignored := ms.ScanMountedVolumes(k);
    var vol := ms.FindMountedVolumeByMountPoint(mountPoint);
    v := if vol.None? then Str("") else Str(mountPoint);
  }

  // -------------------------------------------------------------- unmount

  /** `unmount(mount_point)`. */
  function UnmountReply(hadSlots: bool, o: Oracles, t0: seq<Event>, att0: map<int, int>, args: seq<Option<string>>): Reply {
    if |args| != 1 then Reply(Aborted, [], att0, None)
    else if args[0].None? then Reply(Null, [], att0, None)
    else if args[0].value == "" then Reply(Aborted, [], att0, None)
    else
      var mountPoint := args[0].value;
      var table := TableAfterScan(hadSlots, o, t0);
      match FirstMatch(table, ByMountPoint, mountPoint)
      case None => Reply(Str(""), [], att0, Some(table))
      case Some(idx) => UnmountRecord(o, att0, table, idx, mountPoint)
  }

  /** `unmount` once the record `table[idx]` mounted at `mountPoint` is
      found: umount it, and for ubifs remove the UBI device of its device. */
  function UnmountRecord(o: Oracles, att0: map<int, int>, table: seq<Slot>, idx: nat, mountPoint: string): Reply
    requires idx < |table| && table[idx].Used?
  {
    var vol := table[idx].volume;
    var u := [Event.Umount(Some(vol.mountPoint))];
    if o.umount(vol.mountPoint) != 0 then Reply(Str(""), u, att0, Some(table))
    else if vol.filesystem == "ubifs" then
      var d := UbiDetachOutcome(o, att0, Some(vol.device));
      Reply(Str(mountPoint), u + d.events, d.attached, Some(table[idx := Vacant]))
    else Reply(Str(mountPoint), u, att0, Some(table[idx := Vacant]))
  }

  /** Unmounting a found record answers the mount point exactly when its
      umount succeeds; it then drops that record and, for ubifs only,
      removes the UBI device of the device the record names, whatever that
      removal answers.  A failed umount changes nothing. */
  lemma UnmountRecordProperties(o: Oracles, att0: map<int, int>, table: seq<Slot>, idx: nat, mountPoint: string)
    requires idx < |table| && table[idx].Used? && table[idx].volume.mountPoint == mountPoint && mountPoint != ""
    ensures var out := UnmountRecord(o, att0, table, idx, mountPoint);
            var vol := table[idx].volume;
            NonDestructive(out.events) && NoAttach(out.events) && OnlyDetached(att0, out.attached) &&
            1 <= |out.events| <= 2 && out.events[0] == Event.Umount(Some(mountPoint)) &&
            (out.v == Str(mountPoint) <==> o.umount(mountPoint) == 0) &&
            (out.v != Str(mountPoint) ==> out == Reply(Str(""), [Event.Umount(Some(mountPoint))], att0, Some(table))) &&
            (out.v == Str(mountPoint) ==> out.scanned == Some(table[idx := Vacant])) &&
            (|out.events| == 2 <==>
               out.v == Str(mountPoint) && vol.filesystem == "ubifs" &&
               UbiDetachOutcome(o, att0, Some(vol.device)).events != []) &&
            (|out.events| == 2 ==> out.events[1].UbiRemoveDev?)
  {
    UbiDetachProperties(o, att0, Some(table[idx].volume.device));
  }

  /** `unmount` answers the mount point exactly when a live record is
      mounted there and its umount succeeds, "" otherwise; it never formats
      and never attaches, and at most removes one UBI device. */
  lemma UnmountFnProperties(hadSlots: bool, o: Oracles, t0: seq<Event>, att0: map<int, int>, args: seq<Option<string>>)
    ensures var out := UnmountReply(hadSlots, o, t0, att0, args);
            NonDestructive(out.events) && NoAttach(out.events) && OnlyDetached(att0, out.attached) &&
            |out.events| <= 2 &&
            (|args| != 1 || args[0] == Some("") ==> out == Reply(Aborted, [], att0, None)) &&
            (|args| == 1 && args[0].Some? && args[0].value != "" ==>
               var mountPoint := args[0].value;
               var table := TableAfterScan(hadSlots, o, t0);
               var found := FirstMatch(table, ByMountPoint, mountPoint);
               (found.None? ==> out == Reply(Str(""), [], att0, Some(table))) &&
               (found.Some? ==> table[found.value].Used? && table[found.value].volume.mountPoint == mountPoint &&
                                out == UnmountRecord(o, att0, table, found.value, mountPoint)) &&
               (out.v == Str(mountPoint) <==> found.Some? && o.umount(mountPoint) == 0) &&
               (out.v != Str(mountPoint) ==> out.v == Str("") && out.attached == att0 && out.scanned == Some(table)))
  {
    if |args| == 1 && args[0].Some? && args[0].value != "" {
      var mountPoint := args[0].value;
      var table := TableAfterScan(hadSlots, o, t0);
      var found := FirstMatch(table, ByMountPoint, mountPoint);
      if found.Some? {
        assert KeyOf(table[found.value], ByMountPoint) == Some(mountPoint);
        UnmountRecordProperties(o, att0, table, found.value, mountPoint);
        assert UnmountReply(hadSlots, o, t0, att0, args) == UnmountRecord(o, att0, table, found.value, mountPoint);
      } else {
        assert UnmountReply(hadSlots, o, t0, att0, args) == Reply(Str(""), [], att0, Some(table));
      }
    }
  }

  method UnmountFn(ms: MountsState, k: Kernel, args: seq<Option<string>>) returns (v: Value)
    requires ms.Valid()
    modifies ms, ms.volumes, k`trace, k`attached, k`handles
    ensures ms.Valid()
    ensures var out := UnmountReply(old(ms.volumes) != null, k.o, old(k.trace), old(k.attached), args);
            v == out.v && k.trace == old(k.trace) + out.events && k.attached == out.attached &&
            (out.scanned.None? ==> ms.volumes == old(ms.volumes) && ms.Table() == old(ms.Table())) &&
            (out.scanned.Some? ==> ms.Table() == out.scanned.value)
    ensures k.handles == old(k.handles)
  {
    if |args| != 1 {
      return Aborted;
    }
    if args[0].None? {
      return Null;
    }
    var mountPoint := args[0].value;
    if |mountPoint| == 0 {
      return Aborted;
    }
    var ignored := ms.ScanMountedVolumes(k);
    var vol := ms.FindMountedVolumeByMountPoint(mountPoint);
    if vol.None? {
      return Str("");
    }
    assert KeyOf(ms.Table()[vol.value], ByMountPoint) == Some(mountPoint);
    v := UnmountFound(ms, k, vol.value, mountPoint);
  }

  /** The part of `unmount` after the lookup found record `idx`. */
  method UnmountFound(ms: MountsState, k: Kernel, idx: nat, mountPoint: string) returns (v: Value)
    requires ms.Valid() && idx < ms.volumeCount && ms.Table()[idx].Used?
    modifies ms.volumes, k`trace, k`attached, k`handles
    ensures ms.Valid()
    ensures var out := UnmountRecord(k.o, old(k.attached), old(ms.Table()), idx, mountPoint);
            v == out.v && k.trace == old(k.trace) + out.events && k.attached == out.attached &&
            out.scanned.Some? && ms.Table() == out.scanned.value
    ensures k.handles == old(k.handles)
  {
    var isUbifs := false;
    var device: Option<string> := None;
    var fsType := ms.GetFilesystemByMountedVolume(Some(idx));
    if fsType.Some? && fsType.value == "ubifs" {
      isUbifs := true;
      device := ms.GetDeviceByMountedVolume(Some(idx));
    }
    var err := ms.UnmountMountedVolume(idx, k);
    if err != 0 {
      return Str("");
    }
    v := Str(mountPoint);
    if isUbifs && device.Some? {
      var detached := UbiDetach(k, device);
    }
  }

  // --------------------------------------------------------------- format

  /** `format(fs_type, partition_type, location, fs_size, mount_point)`;
      `useExt4` says whether the updater was built with ext4 support. */
  function FormatReply(o: Oracles, att0: map<int, int>, useExt4: bool, args: seq<Option<string>>): Reply {
    if |args| != 5 then Reply(Aborted, [], att0, None)
    else if !AllEvaluated(args) then Reply(Null, [], att0, None)
    else
      var fsType, partitionType, location, fsSize, mountPoint :=
        args[0].value, args[1].value, args[2].value, args[3].value, args[4].value;
      if fsType == "" || partitionType == "" || location == "" || mountPoint == "" then Reply(Aborted, [], att0, None)
      else if partitionType == "MTD" || partitionType == "UBI" then FormatMtdReply(o, att0, partitionType, location)
      else if useExt4 && fsType == "ext4" then
        var length := Atoll(fsSize);
        var ok := o.makeExt4(location, length, mountPoint) == 0;
        Reply(if ok then Str(location) else Str(""), [Event.MakeExt4(location, length, mountPoint)], att0, None)
      else Reply(Null, [], att0, None)
  }

  /** The "MTD" and "UBI" branch of `format`: erase the partition, and for
      "UBI" recreate one dynamic volume on it. */
  function FormatMtdReply(o: Oracles, att0: map<int, int>, partitionType: string, location: string): Reply {
    if !o.mtdPartition(location) || !o.mtdWriteOpen(location) then Reply(Str(""), [], att0, None)
    else
      var erase := [Event.MtdErase(location)];
      if !o.mtdErase(location) || o.mtdClose(location) != 0 then Reply(Str(""), erase, att0, None)
      else if partitionType == "UBI" then
        var f := UbiFormatOutcome(o, att0, UBI_DYNAMIC_VOLUME, location);
        Reply(if f.r == 0 then Str(location) else Str(""), erase + f.events, f.attached, None)
      else Reply(Str(location), erase, att0, None)
  }

  /** `format` aborts with no effect on a wrong argument count or an empty
      fs_type, partition_type, location or mount_point (an empty fs_size is
      accepted).  "MTD" and "UBI" erase the partition first and answer the
      location exactly when every step succeeds; "UBI" then recreates one
      dynamic volume and leaves no attach behind.  ext4 formats over the
      length fs_size reads as; anything else is a NULL without a message and
      no effect. */
  lemma FormatFnProperties(o: Oracles, att0: map<int, int>, useExt4: bool, args: seq<Option<string>>)
    ensures var out := FormatReply(o, att0, useExt4, args);
            ReleasesAttaches(out.events) && out.scanned.None? &&
            (|args| != 5 ==> out == Reply(Aborted, [], att0, None)) &&
            (|args| == 5 && AllEvaluated(args) ==>
               var fsType, partitionType, location, fsSize, mountPoint :=
                 args[0].value, args[1].value, args[2].value, args[3].value, args[4].value;
               (fsType == "" || partitionType == "" || location == "" || mountPoint == "" ==>
                  out == Reply(Aborted, [], att0, None)) &&
               (fsType != "" && partitionType != "" && location != "" && mountPoint != "" ==>
                  (partitionType == "MTD" || partitionType == "UBI" ==>
                     FormatMtdHolds(o, att0, partitionType, location, out)) &&
                  (partitionType != "MTD" && partitionType != "UBI" && useExt4 && fsType == "ext4" ==>
                     out.events == [Event.MakeExt4(location, Atoll(fsSize), mountPoint)] &&
                     (out.v == Str(location) <==> o.makeExt4(location, Atoll(fsSize), mountPoint) == 0)) &&
                  (partitionType != "MTD" && partitionType != "UBI" && !(useExt4 && fsType == "ext4") ==>
                     out == Reply(Null, [], att0, None))))
  {
    var out := FormatReply(o, att0, useExt4, args);
    if |args| == 5 && AllEvaluated(args) {
      var fsType, partitionType, location, mountPoint := args[0].value, args[1].value, args[2].value, args[4].value;
      if fsType != "" && partitionType != "" && location != "" && mountPoint != "" &&
         (partitionType == "MTD" || partitionType == "UBI") {
        assert out == FormatMtdReply(o, att0, partitionType, location);
        FormatMtdProperties(o, att0, partitionType, location);
      }
    }
  }

  /** What `format` promises for an "MTD" or "UBI" partition: only the
      partition's own attach state changes; the answer is the location or
      ""; the erase comes first and the only later destructive step is the
      volume creation; the location is answered exactly when every step
      succeeds. */
  ghost predicate FormatMtdHolds(o: Oracles, att0: map<int, int>, partitionType: string, location: string, out: Reply) {
    SameExcept(att0, out.attached, o.mtdIndex(location)) &&
    (out.v == Str(location) || out.v == Str("")) &&
    (out.events != [] ==> out.events[0] == Event.MtdErase(location)) &&
    (forall i :: 0 < i < |out.events| && IsDestructive(out.events[i]) ==> out.events[i].UbiMkvol?) &&
    (partitionType == "MTD" ==>
       (out.v == Str(location) <==>
          o.mtdPartition(location) && o.mtdWriteOpen(location) && o.mtdErase(location) && o.mtdClose(location) == 0)) &&
    (partitionType == "UBI" ==>
       (out.v == Str(location) <==>
          o.mtdPartition(location) && o.mtdWriteOpen(location) && o.mtdErase(location) && o.mtdClose(location) == 0 &&
          UbiFormatOutcome(o, att0, UBI_DYNAMIC_VOLUME, location).r == 0))
  }

  lemma FormatMtdProperties(o: Oracles, att0: map<int, int>, partitionType: string, location: string)
    requires partitionType == "MTD" || partitionType == "UBI"
    requires location != ""
    ensures var out := FormatMtdReply(o, att0, partitionType, location);
            ReleasesAttaches(out.events) && out.scanned.None? && FormatMtdHolds(o, att0, partitionType, location, out)
  {
    var out := FormatMtdReply(o, att0, partitionType, location);
    var erase := [Event.MtdErase(location)];
    if !o.mtdPartition(location) || !o.mtdWriteOpen(location) {
      assert out == Reply(Str(""), [], att0, None);
    } else if !o.mtdErase(location) || o.mtdClose(location) != 0 {
      assert out == Reply(Str(""), erase, att0, None);
    } else if partitionType == "UBI" {
      var f := UbiFormatOutcome(o, att0, UBI_DYNAMIC_VOLUME, location);
      assert out == Reply(if f.r == 0 then Str(location) else Str(""), erase + f.events, f.attached, None);
      UbiFormatCleanup(o, att0, UBI_DYNAMIC_VOLUME, location);
      ReleasesAttachesConcat(erase, f.events);
      assert forall i :: 0 < i < |out.events| ==> out.events[i] == f.events[i - 1];
    } else {
      assert out == Reply(Str(location), erase, att0, None);
    }
  }

  method FormatFn(k: Kernel, useExt4: bool, args: seq<Option<string>>) returns (v: Value)
    modifies k`trace, k`attached, k`handles
    ensures var out := FormatReply(k.o, old(k.attached), useExt4, args);
            v == out.v && k.trace == old(k.trace) + out.events && k.attached == out.attached
    ensures k.handles == old(k.handles)
  {
    if |args| != 5 {
      return Aborted;
    }
    if !AllEvaluated(args) {
      return Null;
    }
    var fsType, partitionType, location, fsSize, mountPoint :=
      args[0].value, args[1].value, args[2].value, args[3].value, args[4].value;
    if |fsType| == 0 || |partitionType| == 0 || |location| == 0 || |mountPoint| == 0 {
      return Aborted;
    }
    if partitionType == "MTD" || partitionType == "UBI" {
      v := FormatMtd(k, partitionType, location);
    } else if useExt4 && fsType == "ext4" {
      var status := k.MakeExt4(location, Atoll(fsSize), mountPoint);
      v := if status != 0 then Str("") else Str(location);
    } else {
      v := Null;
    }
  }

  /** The "MTD" and "UBI" branch of `format`. */
  method FormatMtd(k: Kernel, partitionType: string, location: string) returns (v: Value)
    modifies k`trace, k`attached, k`handles
    ensures var out := FormatMtdReply(k.o, old(k.attached), partitionType, location);
            v == out.v && k.trace == old(k.trace) + out.events && k.attached == out.attached
    ensures k.handles == old(k.handles)
  {
    if !k.o.mtdPartition(location) || !k.o.mtdWriteOpen(location) {
      return Str("");
    }
    var erased := k.MtdEraseBlocks(location);
    if !erased || k.o.mtdClose(location) != 0 {
      return Str("");
    }
    v := Str(location);
    if partitionType == "UBI" {
      var ret := UbiFormat(k, UBI_DYNAMIC_VOLUME, location);
      v := if ret == 0 then Str(location) else Str("");
    }
  }
}
