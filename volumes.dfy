/** The recovery volume table of roots.c -- the entries read from
    /etc/recovery.fstab plus a RAM-disk entry for /tmp -- and the two pieces
    of process-wide state kept beside it: the memoised primary storage path
    and the "data media preserved" flag.  How fs_mgr parses the fstab and how
    it maps a path to an entry are not modelled: the parsed entries are an
    input of `LoadVolumeTable`, and the lookup is an arbitrary function fixed
    when the `Roots` object is built.  No property below depends on the
    lookup's matching rule. */
module Volumes {
  import opened Common

  const PATH_MAX: nat := 4096

  /** One fstab entry (`struct fstab_rec`).  Optional columns that fs_mgr
      leaves NULL are `None`; an absent label is the empty string. */
  datatype Volume = Volume(
    mountPoint: string,
    fsType: string,
    blkDevice: string,
    blkDevice2: Option<string>,
    fsType2: Option<string>,
    fsOptions: Option<string>,
    fsOptions2: Option<string>,
    length: int,
    volLabel: string,
    voldManaged: bool)

  /** The entry `fs_mgr_add_entry(fstab, "/tmp", "ramdisk", "ramdisk", 0)` appends. */
  const TMP_VOLUME := Volume("/tmp", "ramdisk", "ramdisk", None, None, None, None, 0, "", false)

  /** A vold-managed entry whose mount point vold chooses. */
  predicate IsAutoVolume(v: Volume) {
    v.voldManaged && v.mountPoint == "auto"
  }

  /** `snprintf(mount, PATH_MAX, "/storage/%s", label)`. */
  function StoragePath(name: string): (p: string)
    ensures StartsWith(p, "/storage/")
    ensures |name| <= PATH_MAX - 1 - |"/storage/"| ==> p == "/storage/" + name
    ensures |p| <= PATH_MAX - 1
  {
    Truncate("/storage/" + name, PATH_MAX - 1)
  }

  function Relocated(v: Volume): Volume {
    if IsAutoVolume(v) then v.(mountPoint := StoragePath(v.volLabel)) else v
  }

  function RelocateAll(t: seq<Volume>): (r: seq<Volume>)
    ensures |r| == |t|
  {
    seq(|t|, k requires 0 <= k < |t| => Relocated(t[k]))
  }

  /** The table `load_volume_table` leaves behind, given the entries read. */
  function LoadedTable(read: seq<Volume>): seq<Volume> {
    RelocateAll(read + [TMP_VOLUME])
  }

  /** The loaded table is the entries read, in order, followed by /tmp; every
      "auto" entry now names /storage/<label>, every other entry is unchanged,
      and no "auto" entry is left. */
  lemma LoadedTableShape(read: seq<Volume>)
    ensures |LoadedTable(read)| == |read| + 1
    ensures LoadedTable(read)[|read|] == TMP_VOLUME
    ensures forall k :: 0 <= k < |read| && !IsAutoVolume(read[k]) ==> LoadedTable(read)[k] == read[k]
    ensures forall k :: 0 <= k < |read| && IsAutoVolume(read[k]) ==>
              LoadedTable(read)[k] == read[k].(mountPoint := StoragePath(read[k].volLabel))
    ensures forall k :: 0 <= k < |LoadedTable(read)| ==> !IsAutoVolume(LoadedTable(read)[k])
  {
    var t := read + [TMP_VOLUME];
    forall k | 0 <= k < |t|
      ensures !IsAutoVolume(LoadedTable(read)[k])
    {
      if IsAutoVolume(t[k]) {
        var p := StoragePath(t[k].volLabel);
        assert p[0] == '/';
      }
    }
  }

  /** The mount point `get_primary_storage_path` settles on, given what the
      table resolves "/storage/sdcard0" to. */
  function PrimaryPathFor(resolved: Option<Volume>): (p: string)
    ensures p == "/storage/sdcard0" <==> resolved.Some?
    ensures p == "/sdcard" <==> resolved.None?
  {
    if resolved.Some? then "/storage/sdcard0" else "/sdcard"
  }

  /** The condition both `get_num_extra_volumes` and `get_extra_storage_paths`
      apply to an entry. */
  predicate IsExtraVolume(v: Volume, primary: string, available: string -> bool) {
    v.mountPoint == "/external_sd" ||
    (v.mountPoint != primary && v.voldManaged && available(v.mountPoint))
  }

  /** Mount points of the extra volumes, in table order. */
  function ExtraStoragePaths(t: seq<Volume>, primary: string, available: string -> bool): (r: seq<string>)
    ensures |r| <= |t|
    decreases |t|
  {
    if t == [] then []
    else
      var last := t[|t| - 1];
      ExtraStoragePaths(t[..|t| - 1], primary, available) +
      (if IsExtraVolume(last, primary, available) then [last.mountPoint] else [])
  }

  /** A path is listed exactly when some extra volume is mounted there. */
  lemma {:induction false} ExtraStoragePathsMembers(t: seq<Volume>, primary: string, available: string -> bool, p: string)
    ensures p in ExtraStoragePaths(t, primary, available) <==>
            exists k :: 0 <= k < |t| && IsExtraVolume(t[k], primary, available) && t[k].mountPoint == p
    decreases |t|
  {
    if t != [] {
      var init := t[..|t| - 1];
      ExtraStoragePathsMembers(init, primary, available, p);
      if p in ExtraStoragePaths(t, primary, available) {
        if p !in ExtraStoragePaths(init, primary, available) {
          assert IsExtraVolume(t[|t| - 1], primary, available) && t[|t| - 1].mountPoint == p;
        } else {
          var k :| 0 <= k < |init| && IsExtraVolume(init[k], primary, available) && init[k].mountPoint == p;
          assert t[k] == init[k];
        }
      } else {
        forall k | 0 <= k < |t| && IsExtraVolume(t[k], primary, available)
          ensures t[k].mountPoint != p
        {
          if k < |init| {
            assert init[k] == t[k];
          }
        }
      }
    }
  }

  /** An entry that makes the recovery use /data/media as its sdcard. */
  predicate IsSdcardVolume(v: Volume) {
    v.mountPoint == "/sdcard" || (v.voldManaged && v.mountPoint == "/storage/sdcard0")
  }

  /** The loop of `is_data_media`: stop at the first "datamedia" entry,
      otherwise remember whether an sdcard entry was seen. */
  function DataMediaScan(t: seq<Volume>, hasSdcard: bool): bool
    decreases |t|
  {
    if t == [] then !hasSdcard
    else if t[0].fsType == "datamedia" then true
    else DataMediaScan(t[1..], hasSdcard || IsSdcardVolume(t[0]))
  }

  predicate HasDataMediaVolume(t: seq<Volume>) {
    exists k :: 0 <= k < |t| && t[k].fsType == "datamedia"
  }

  predicate HasSdcardVolume(t: seq<Volume>) {
    exists k :: 0 <= k < |t| && IsSdcardVolume(t[k])
  }

  /** The scan answers: some entry is "datamedia", or no sdcard was seen,
      neither before the scan nor in the table. */
  lemma {:induction false} DataMediaScanSpec(t: seq<Volume>, hasSdcard: bool)
    ensures DataMediaScan(t, hasSdcard) <==>
            HasDataMediaVolume(t) || (!hasSdcard && !HasSdcardVolume(t))
    decreases |t|
  {
    if t != [] && t[0].fsType != "datamedia" {
      var tail := t[1..];
      DataMediaScanSpec(tail, hasSdcard || IsSdcardVolume(t[0]));
      if HasDataMediaVolume(t) {
        var k :| 0 <= k < |t| && t[k].fsType == "datamedia";
        assert tail[k - 1] == t[k];
      }
      if HasDataMediaVolume(tail) {
        var k :| 0 <= k < |tail| && tail[k].fsType == "datamedia";
        assert t[k + 1] == tail[k];
      }
      if HasSdcardVolume(t) && !IsSdcardVolume(t[0]) {
        var k :| 0 <= k < |t| && IsSdcardVolume(t[k]);
        assert tail[k - 1] == t[k];
      }
      if HasSdcardVolume(tail) {
        var k :| 0 <= k < |tail| && IsSdcardVolume(tail[k]);
        assert t[k + 1] == tail[k];
      }
    }
  }

  /** The static state of roots.c. */
  class Roots {
    var fstab: Option<seq<Volume>>          // NULL before loading or after a failed load
    var primaryStoragePath: Option<string>  // NULL until first asked for
    var dataMediaPreserved: int
    /** `fs_mgr_get_entry_for_mount_point`, whose matching rule is not modelled. */
    const lookup: (seq<Volume>, string) -> Option<Volume>

    constructor (lookup: (seq<Volume>, string) -> Option<Volume>)
      ensures this.lookup == lookup
      ensures fstab == None && primaryStoragePath == None && dataMediaPreserved == 1
    {
      this.lookup := lookup;
      fstab := None;
      primaryStoragePath := None;
      dataMediaPreserved := 1;
    }

    /** `load_volume_table`: `read` is what fs_mgr parsed (None: the file could
        not be read) and `addOk` whether appending the /tmp entry succeeded. */
    method LoadVolumeTable(read: Option<seq<Volume>>, addOk: bool)
      modifies this`fstab
      ensures fstab == if read.Some? && addOk then Some(LoadedTable(read.value)) else None
    {
      fstab := read;
      if read.None? {
        return;
      }
      if !addOk {
        fstab := None;
        return;
      }
      var t := read.value + [TMP_VOLUME];
      fstab := Some(t);
      var i := 0;
      while i < |fstab.value|
        invariant fstab.Some? && |fstab.value| == |t|
        invariant 0 <= i <= |t|
        invariant forall k :: 0 <= k < i ==> fstab.value[k] == Relocated(t[k])
        invariant forall k :: i <= k < |t| ==> fstab.value[k] == t[k]
      {
        var v := fstab.value[i];
        if v.voldManaged && v.mountPoint == "auto" {
          fstab := Some(fstab.value[i := v.(mountPoint := StoragePath(v.volLabel))]);
        }
        i := i + 1;
      }
      assert fstab.value == LoadedTable(read.value);
    }

    /** `volume_for_path`; a missing table resolves nothing. */
    function VolumeForPath(path: string): Option<Volume>
      reads this
    {
      if fstab.None? then None else lookup(fstab.value, path)
    }

    /** What `get_primary_storage_path` answers in the current state. */
    function PrimaryStoragePath(): string
      reads this
    {
      if primaryStoragePath.Some? then primaryStoragePath.value
      else PrimaryPathFor(VolumeForPath("/storage/sdcard0"))
    }

    /** `get_primary_storage_path`: decided once, then memoised.  The answer
        never changes afterwards, whatever becomes of the table. */
    method GetPrimaryStoragePath() returns (p: string)
      modifies this`primaryStoragePath
      ensures p == old(PrimaryStoragePath())
      ensures old(primaryStoragePath).Some? ==> p == old(primaryStoragePath).value
      ensures old(primaryStoragePath).None? ==> p == PrimaryPathFor(VolumeForPath("/storage/sdcard0"))
      ensures primaryStoragePath == Some(p) && PrimaryStoragePath() == p
    {
      if primaryStoragePath.None? {
        if VolumeForPath("/storage/sdcard0").Some? {
          primaryStoragePath := Some("/storage/sdcard0");
        } else {
          primaryStoragePath := Some("/sdcard");
        }
      }
      p := primaryStoragePath.value;
    }

    /** `get_num_extra_volumes`.  The primary path is asked for only for
        entries other than /external_sd, as the short-circuit `||` does. */
    method GetNumExtraVolumes(available: string -> bool) returns (n: int)
      requires fstab.Some?
      modifies this`primaryStoragePath
      ensures n == |ExtraStoragePaths(fstab.value, old(PrimaryStoragePath()), available)|
      ensures PrimaryStoragePath() == old(PrimaryStoragePath())
      ensures primaryStoragePath == old(primaryStoragePath) || primaryStoragePath == Some(old(PrimaryStoragePath()))
    {
      ghost var primary := PrimaryStoragePath();
      var t := fstab.value;
      n := 0;
      var i := 0;
      while i < |t|
        invariant 0 <= i <= |t|
        invariant fstab == old(fstab) && PrimaryStoragePath() == primary
        invariant primaryStoragePath == old(primaryStoragePath) || primaryStoragePath == Some(primary)
        invariant n == |ExtraStoragePaths(t[..i], primary, available)|
      {
        var extra := IsExtraEntry(t[i], available);
        if extra {
          n := n + 1;
        }
        assert t[..i + 1][..i] == t[..i];
        i := i + 1;
      }
      assert t[..i] == t;
    }

    /** `get_extra_storage_paths`: NULL when there is none, else the listed
        mount points in table order. */
    method GetExtraStoragePaths(available: string -> bool) returns (r: Option<seq<string>>)
      requires fstab.Some?
      modifies this`primaryStoragePath
      ensures var paths := ExtraStoragePaths(fstab.value, old(PrimaryStoragePath()), available);
              r == if paths == [] then None else Some(paths)
      ensures PrimaryStoragePath() == old(PrimaryStoragePath())
    {
      ghost var primary := PrimaryStoragePath();
      var count := GetNumExtraVolumes(available);
      if count == 0 {
        return None;
      }
      var t := fstab.value;
      var paths: seq<string> := [];
      var i := 0;
      while i < |t|
        invariant 0 <= i <= |t|
        invariant fstab == old(fstab) && PrimaryStoragePath() == primary
        invariant paths == ExtraStoragePaths(t[..i], primary, available)
      {
        var extra := IsExtraEntry(t[i], available);
        if extra {
          paths := paths + [t[i].mountPoint];
        }
        assert t[..i + 1][..i] == t[..i];
        i := i + 1;
      }
      assert t[..i] == t;
      return Some(paths);
    }

    /** One test of the two loops above. */
    method IsExtraEntry(v: Volume, available: string -> bool) returns (extra: bool)
      modifies this`primaryStoragePath
      ensures extra == IsExtraVolume(v, old(PrimaryStoragePath()), available)
      ensures PrimaryStoragePath() == old(PrimaryStoragePath())
      ensures primaryStoragePath == old(primaryStoragePath) || primaryStoragePath == Some(old(PrimaryStoragePath()))
    {
      if v.mountPoint == "/external_sd" {
        return true;
      }
      var primary := GetPrimaryStoragePath();
      extra := primary != v.mountPoint && v.voldManaged && available(v.mountPoint);
    }

    /** `is_data_media`. */
    function IsDataMedia(): bool
      reads this
      requires fstab.Some?
    {
      DataMediaScan(fstab.value, false)
    }

    /** `is_data_media_volume_path`: a path the table resolves is data media
        when its entry's type is "datamedia"; an unresolved path is when the
        device uses data media and the path is /sdcard or below it. */
    function IsDataMediaVolumePath(path: string): bool
      reads this
      requires fstab.Some?
    {
      match VolumeForPath(path)
      case Some(v) => v.fsType == "datamedia"
      case None => IsDataMedia() && (path == "/sdcard" || StartsWith(path, "/sdcard/"))
    }

    /** `preserve_data_media`. */
    method PreserveDataMedia(val: int)
      modifies this`dataMediaPreserved
      ensures dataMediaPreserved == val
    {
      dataMediaPreserved := val;
    }

    /** `is_data_media_preserved`. */
    function IsDataMediaPreserved(): bool
      reads this
    {
      dataMediaPreserved != 0
    }
  }

  /** `is_data_media` in terms of the table: a "datamedia" entry, or no
      sdcard entry at all. */
  lemma IsDataMediaSpec(rts: Roots)
    requires rts.fstab.Some?
    ensures rts.IsDataMedia() <==>
            HasDataMediaVolume(rts.fstab.value) || !HasSdcardVolume(rts.fstab.value)
  {
    DataMediaScanSpec(rts.fstab.value, false);
  }

  /** An unresolved path is data media exactly when it lies at or under
      /sdcard and the table has a "datamedia" entry or no sdcard entry; a
      resolved path is data media exactly when its own entry says so. */
  lemma IsDataMediaVolumePathSpec(rts: Roots, path: string)
    requires rts.fstab.Some?
    ensures rts.VolumeForPath(path).Some? ==>
              (rts.IsDataMediaVolumePath(path) <==> rts.VolumeForPath(path).value.fsType == "datamedia")
    ensures rts.VolumeForPath(path).None? ==>
              (rts.IsDataMediaVolumePath(path) <==>
                 (HasDataMediaVolume(rts.fstab.value) || !HasSdcardVolume(rts.fstab.value)) &&
                 (path == "/sdcard" || StartsWith(path, "/sdcard/")))
  {
    IsDataMediaSpec(rts);
  }
}
