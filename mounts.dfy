/** The live mount snapshot of mounts.c: a process-wide table of up to 32
    records, refilled from /proc/mounts by each scan, searched by device or
    by mount point, and updated in place when a record is unmounted. */
module Mounts {
  import opened Common
  import opened Platform
  import opened MountsParse

  /** Slots allocated by the first scan (`numv`). */
  const NUM_SLOTS: nat := 32

  /** A slot of the table: a record, or the zeroed record that an unmount
      leaves behind (all four fields NULL until the next scan). */
  datatype Slot = Vacant | Used(volume: MountedVolume)

  /** The field a lookup compares. */
  datatype Key = ByDevice | ByMountPoint

  function KeyOf(s: Slot, field: Key): Option<string> {
    if s.Vacant? then None
    else if field == ByDevice then Some(s.volume.device)
    else Some(s.volume.mountPoint)
  }

  function MountPointOf(s: Slot): Option<string> {
    KeyOf(s, ByMountPoint)
  }

  function AsSlots(vs: seq<MountedVolume>): (r: seq<Slot>)
    ensures |r| == |vs| && forall k :: 0 <= k < |vs| ==> r[k] == Used(vs[k])
  {
    seq(|vs|, k requires 0 <= k < |vs| => Used(vs[k]))
  }

  /** The first 32 records, as slots. */
  function Capped(recs: seq<MountedVolume>): (r: seq<Slot>)
    ensures |r| == Min(|recs|, NUM_SLOTS)
  {
    AsSlots(recs[..Min(|recs|, NUM_SLOTS)])
  }

  /** A further record is stored only while there is a free slot. */
  lemma CappedSnoc(recs: seq<MountedVolume>, v: MountedVolume)
    ensures Capped(recs + [v]) == if |recs| < NUM_SLOTS then Capped(recs) + [Used(v)] else Capped(recs)
  {
    if |recs| < NUM_SLOTS {
      assert (recs + [v])[..|recs| + 1] == recs + [v];
      assert recs[..|recs|] == recs;
    } else {
      assert (recs + [v])[..NUM_SLOTS] == recs[..NUM_SLOTS];
    }
  }

  /** The table a successful scan of the file contents `text` leaves: the
      records of the first 2047 bytes, in file order, at most 32 of them. */
  function ScanResult(text: string): (r: seq<Slot>)
    ensures |r| <= NUM_SLOTS
  {
    Capped(ParseMounts(ReadPrefix(text)))
  }

  /** A scanned table holds only records, each well formed, and all of the
      file's records when they fit in 32 slots. */
  lemma ScanResultContents(text: string)
    ensures forall k :: 0 <= k < |ScanResult(text)| ==>
      ScanResult(text)[k].Used? && WellFormed(ScanResult(text)[k].volume)
    ensures |ScanResult(text)| == Min(|ParseMounts(ReadPrefix(text))|, NUM_SLOTS)
  {
    RecordsWellFormed(Lines(ReadPrefix(text)));
  }

  /** Index of the first slot at or after `i` whose field `field` equals `key`. */
  function FirstMatchFrom(t: seq<Slot>, field: Key, key: string, i: nat): (r: Option<nat>)
    requires i <= |t|
    ensures r.Some? ==> i <= r.value < |t| && KeyOf(t[r.value], field) == Some(key)
    ensures r.Some? ==> forall j :: i <= j < r.value ==> KeyOf(t[j], field) != Some(key)
    ensures r.None? ==> forall j :: i <= j < |t| ==> KeyOf(t[j], field) != Some(key)
    decreases |t| - i
  {
    if i == |t| then None
    else if KeyOf(t[i], field) == Some(key) then Some(i)
    else FirstMatchFrom(t, field, key, i + 1)
  }

  /** The slot a lookup returns: the first one whose field matches; vacant
      slots never match. */
  function FirstMatch(t: seq<Slot>, field: Key, key: string): Option<nat> {
    FirstMatchFrom(t, field, key, 0)
  }

  /** After an unmount vacates slot `idx`, lookups skip it and find the next
      match instead; a match before it is still found. */
  lemma {:induction false} FirstMatchAfterVacate(t: seq<Slot>, idx: nat, field: Key, key: string, i: nat)
    requires i <= idx < |t|
    ensures FirstMatchFrom(t[idx := Vacant], field, key, i)
         == if FirstMatchFrom(t, field, key, i) == Some(idx) then FirstMatchFrom(t, field, key, idx + 1)
            else FirstMatchFrom(t, field, key, i)
    decreases |t| - i
  {
    var t' := t[idx := Vacant];
    if i < idx {
      FirstMatchAfterVacate(t, idx, field, key, i + 1);
    } else {
      FirstMatchFromSame(t, t', field, key, idx + 1);
    }
  }

  lemma {:induction false} FirstMatchFromSame(t: seq<Slot>, t': seq<Slot>, field: Key, key: string, i: nat)
    requires i <= |t| == |t'|
    requires forall j :: i <= j < |t| ==> t[j] == t'[j]
    ensures FirstMatchFrom(t, field, key, i) == FirstMatchFrom(t', field, key, i)
    decreases |t| - i
  {
    if i < |t| {
      FirstMatchFromSame(t, t', field, key, i + 1);
    }
  }

  /** The "eat the line" loop: skip to just past the next newline, or to
      the end of the buffer. */
  method EatLine(buf: string, i: nat) returns (j: nat)
    requires i < |buf|
    ensures i < j <= |buf| && buf[j..] == RestAfterLine(buf[i..])
  {
    j := i;
    while j < |buf| && buf[j] != '\n'
      invariant i <= j <= |buf|
      invariant forall k :: i <= k < j ==> buf[k] != '\n'
    {
      j := j + 1;
    }
    LineLengthUnique(buf[i..], j - i);
    if j < |buf| {
      j := j + 1;
    }
  }

  /** One turn of the parse loop: the records so far, then the current
      line's, then those of the lines after it. */
  lemma ScanStep(buf: string, i: nat, j: nat, done: seq<MountedVolume>)
    requires i < |buf| && j <= |buf| && buf[j..] == RestAfterLine(buf[i..])
    requires ParseMounts(buf) == done + ParseMounts(buf[i..])
    ensures ParseMounts(buf) == (done + OptionToSeq(ScanMountLine(buf[i..]))) + ParseMounts(buf[j..])
  {
    ParseMountsStep(buf[i..]);
    ConcatAssoc(done, OptionToSeq(ScanMountLine(buf[i..])), ParseMounts(buf[j..]));
  }

  /** `g_mounts_state`. */
  class MountsState {
    var volumes: array?<Slot>   // NULL until the first successful allocation
    var volumeCount: int

    ghost predicate Valid()
      reads this
    {
      0 <= volumeCount &&
      (volumes == null ==> volumeCount == 0) &&
      (volumes != null ==> volumes.Length == NUM_SLOTS && volumeCount <= NUM_SLOTS)
    }

    /** The records the lookups see. */
    ghost function Table(): (t: seq<Slot>)
      requires Valid()
      reads this, volumes
      ensures |t| == volumeCount
    {
      if volumes == null then [] else volumes[..volumeCount]
    }

    constructor ()
      ensures Valid() && volumes == null && Table() == []
    {
      volumes := null;
      volumeCount := 0;
    }

    /** `scan_mounted_volumes`: allocate the slots on first use (or give up),
        clear the previous records, read /proc/mounts once and store one
        record per line with four fields.  A failed open or read leaves an
        empty table. */
    method ScanMountedVolumes(k: Kernel) returns (r: int)
      requires Valid()
      modifies this, volumes
      ensures Valid()
      ensures old(volumes) != null ==> volumes == old(volumes)
      ensures old(volumes) == null && volumes != null ==> fresh(volumes)
      ensures volumes == null <==> old(volumes) == null && !k.o.mallocOk
      ensures r == 0 || r == -1
      ensures r == 0 <==> volumes != null && k.o.procMounts(k.trace).Some?
      ensures r == 0 ==> Table() == ScanResult(k.o.procMounts(k.trace).value)
      ensures r == -1 ==> Table() == []
    {
      if volumes == null {
        if !k.o.mallocOk {
          return -1;
        }
        volumes := new Slot[NUM_SLOTS](_ => Vacant);
      } else {
        var i := 0;
        while i < volumeCount
          invariant 0 <= i <= volumeCount
          invariant volumes != null && volumes == old(volumes) && Valid()
        {
          volumes[i] := Vacant;
          i := i + 1;
        }
      }
      volumeCount := 0;
      var text := k.o.procMounts(k.trace);
      if text.None? {
        return -1;
      }
      StoreRecords(ReadPrefix(text.value));
      return 0;
    }

    /** The parse loop of `scan_mounted_volumes` over the bytes read. */
    method StoreRecords(buf: string)
      requires Valid() && volumes != null && volumeCount == 0
      modifies this`volumeCount, volumes
      ensures Valid() && Table() == Capped(ParseMounts(buf))
    {
      var i := 0;
      ghost var done: seq<MountedVolume> := [];
      assert buf[0..] == buf;
      while i < |buf|
        invariant 0 <= i <= |buf| && Valid() && volumes != null
        invariant ParseMounts(buf) == done + ParseMounts(buf[i..])
        invariant Table() == Capped(done)
        decreases |buf| - i
      {
        var rec := ScanMountLine(buf[i..]);
        if rec.Some? {
          AppendVolume(rec.value);
          CappedSnoc(done, rec.value);
        }
        ghost var i0 := i;
        i := EatLine(buf, i);
        ScanStep(buf, i0, i, done);
        done := done + OptionToSeq(rec);
      }
      assert done + [] == done;
    }

    /** Store one record in the next free slot.  The C code does this with
        no bound check (see Findings); here a full table is left as it is. */
    method AppendVolume(v: MountedVolume)
      requires Valid() && volumes != null
      modifies this`volumeCount, volumes
      ensures Valid()
      ensures Table() == if old(volumeCount) < NUM_SLOTS then old(Table()) + [Used(v)] else old(Table())
    {
      if volumeCount < volumes.Length {
        volumes[volumeCount] := Used(v);
        volumeCount := volumeCount + 1;
      }
    }

    /** The lookup loop shared by the two `find_mounted_volume_by_*`
        functions: the first slot whose field `field` is `key`. */
    method Find(field: Key, key: string) returns (r: Option<nat>)
      requires Valid()
      ensures r == FirstMatch(Table(), field, key)
    {
      if volumes == null {
        return None;
      }
      var i := 0;
      while i < volumeCount
        invariant 0 <= i <= volumeCount
        invariant FirstMatch(Table(), field, key) == FirstMatchFrom(Table(), field, key, i)
      {
        if KeyOf(volumes[i], field) == Some(key) {
          return Some(i);
        }
        i := i + 1;
      }
      return None;
    }

    method FindMountedVolumeByDevice(device: string) returns (r: Option<nat>)
      requires Valid()
      ensures r == FirstMatch(Table(), ByDevice, device)
    {
      r := Find(ByDevice, device);
    }

    method FindMountedVolumeByMountPoint(mountPoint: string) returns (r: Option<nat>)
      requires Valid()
      ensures r == FirstMatch(Table(), ByMountPoint, mountPoint)
    {
      r := Find(ByMountPoint, mountPoint);
    }

    /** `get_filesystem_by_mounted_volume`: NULL for no record, and NULL
        for a vacated slot, whose strings were freed and zeroed. */
    method GetFilesystemByMountedVolume(found: Option<nat>) returns (r: Option<string>)
      requires Valid() && (found.Some? ==> found.value < volumeCount)
      ensures r.Some? <==> found.Some? && Table()[found.value].Used?
      ensures r.Some? ==> r.value == Table()[found.value].volume.filesystem
    {
      if found.Some? && volumes[found.value].Used? {
        r := Some(volumes[found.value].volume.filesystem);
      } else {
        r := None;
      }
    }

    /** `get_device_by_mounted_volume`, in the same way. */
    method GetDeviceByMountedVolume(found: Option<nat>) returns (r: Option<string>)
      requires Valid() && (found.Some? ==> found.value < volumeCount)
      ensures r.Some? <==> found.Some? && Table()[found.value].Used?
      ensures r.Some? ==> r.value == Table()[found.value].volume.device
    {
      if found.Some? && volumes[found.value].Used? {
        r := Some(volumes[found.value].volume.device);
      } else {
        r := None;
      }
    }

    /** `free_volume_internals(v, 1)`: the slot becomes vacant. */
    method FreeVolumeInternals(idx: nat)
      requires Valid() && idx < volumeCount
      modifies volumes
      ensures Valid() && Table() == old(Table())[idx := Vacant]
    {
      volumes[idx] := Vacant;
    }

    /** `unmount_mounted_volume`: umount the record's mount point (NULL for a
        vacated slot, which the kernel refuses) and vacate the slot when the
        kernel agrees. */
    method UnmountMountedVolume(idx: nat, k: Kernel) returns (r: int)
      requires Valid() && idx < volumeCount
      modifies volumes, k`trace
      ensures Valid()
      ensures k.trace == old(k.trace) + [Event.Umount(MountPointOf(old(Table())[idx]))]
      ensures r == (if old(Table())[idx].Used? then k.o.umount(old(Table())[idx].volume.mountPoint) else -1)
      ensures Table() == if r == 0 then old(Table())[idx := Vacant] else old(Table())
    {
      r := k.Umount(MountPointOf(volumes[idx]));
      if r == 0 {
        FreeVolumeInternals(idx);
        return 0;
      }
    }
  }
}
