# Recovery mount and format dispatch, modelled in Dafny

This project models the storage layer of an Android recovery image that
supports MTD flash with UBI and UBIFS as well as ordinary block devices. It
covers three C files.

- **mounts.c** keeps a process-wide snapshot of the kernel's mount table.
  - The snapshot is an array of 32 `(device, mount point, filesystem, flags)` records.
  - Each scan refills it from one read of `/proc/mounts`.
  - It is searched by device or by mount point.
  - Unmounting a record zeroes it in place, so later lookups skip it.
- **roots.c** holds the recovery volume table (`/etc/recovery.fstab`, plus
  a RAM disk for `/tmp`), the memoised primary storage path, the
  "data media" rules, and the three dispatchers:
  - `ensure_path_mounted_at_mount_point`;
  - `ensure_path_unmounted`;
  - `format_volume`, with its helper `format_ubifs_volume`.

  These are chains of guarded early returns and ordered fallbacks. The
  UBIFS branches follow an attach → mount or create-volume → detach
  discipline.
- **updater/install.c** holds the edify built-ins of the updater:
  - `mount`, `is_mounted`, `unmount` and `format`;
  - their UBI helpers `UbiAttach`, `UbiDetach` and `UbiFormat`;
  - the key/value parser `ParsePermArgs` of `set_metadata`;
  - the line parser inside `file_getprop`;
  - `PrintSha1`, which renders a digest as lower-case hex.

## How it is modelled

- **The world outside the recovery** is the `Platform.Kernel` class. This
  covers mount(2), umount(2), libubi, the MTD utilities, vold,
  `make_ext4fs`, `make_f2fs`, `format_unknown_device` and the shell.
  - Every answer comes from an `Oracles` value of total functions.
  - Every side effect is appended to an event `trace`.
  - The UBI attach state is a map `attached` from MTD index to UBI device
    number.
  - The kernel refuses to attach a partition that is already attached and
    to detach one that is not. `ubi_remove_dev` releases every partition
    bound to the removed device.
- **Mount snapshot.** `Mounts.MountsState` is a class whose `volumes`
  field is an `array?<Slot>`:
  - `null` until the first allocation;
  - otherwise 32 slots, where a slot is `Used(record)` or `Vacant`
    (a zeroed record).

  Its methods follow the C code step by step, with two exceptions:
  `StoreRecords` reads each line with the corrected, line-bounded parse,
  and `AppendVolume` stops once the 32 slots are full (see Findings).
  Each method is proved against `Table()`, the prefix the lookups see.
- **Parsing `/proc/mounts`.** `MountsParse` models the text side:
  - at most 2047 bytes are read;
  - `sscanf("%63s %63s %63s %127s")` is modelled field by field;
  - the "eat the line" loop moves to the next line.
- **Volume table.** `Volumes.Roots` holds the loaded table, the memoised
  primary storage path and the preserved-data-media flag. fs_mgr's
  `fs_mgr_get_entry_for_mount_point` is an arbitrary lookup function fixed
  when a `Roots` is built. No property depends on its matching rule.
- **Dispatchers.** Each dispatcher has two forms:
  - a reference function in `DispatchSpec` (`MountOutcome`,
    `UnmountOutcome`, `FormatOutcome`, …) that gives the return value, the
    events, the attached map afterwards and the snapshot afterwards;
  - a method in `Dispatch` over the `Kernel` and the snapshot, proved
    equal to that function.

  The properties are lemmas about the reference functions.
- **Updater built-ins.** They are built the same way: a `Reply` function
  and a method in `Builtins` and `UpdaterUbi`.
- **Updater parsers.**
  - `Perms.PermParser.ParsePermArgs` and `GetProp.FindProp` walk their
    input with loops, as the C code does.
  - `Sha1Hex.PrintSha1` fills an array.
  - Each is proved equal to a reference function. Lemmas about that
    function give the promised behaviour.

## Model

| member | source | states |
|---|---|---|
| Mounts.MountsState.constructor | mounts.c:44-48 | the snapshot starts unallocated and empty |
| Mounts.MountsState.ScanMountedVolumes | mounts.c:64-166 | allocates 32 slots on first use, and fails with -1 and no table when that fails; otherwise keeps the same array; answers 0 exactly when the read of /proc/mounts works; the table is then the records of that read, and is empty on -1, so no earlier record survives |
| Mounts.MountsState.StoreRecords | mounts.c:119-158 | the parse loop leaves the table equal to the records of the buffer's lines, in file order, capped at 32 |
| Mounts.MountsState.AppendVolume | mounts.c:138-143 | a record goes to the next free slot; a full table is left unchanged (the corrected append, see Findings) |
| Mounts.MountsState.Find | mounts.c:168-204 | the lookup loop returns the first slot, in table order, whose field equals the key; vacant slots and an unallocated table match nothing |
| Mounts.MountsState.FindMountedVolumeByDevice | mounts.c:168-185 | the first live record whose device equals the query, or none |
| Mounts.MountsState.FindMountedVolumeByMountPoint | mounts.c:187-204 | the first live record whose mount point equals the query, or none |
| Mounts.MountsState.GetFilesystemByMountedVolume | mounts.c:206-212 | NULL exactly for no record or a vacated one; otherwise that record's filesystem |
| Mounts.MountsState.GetDeviceByMountedVolume | mounts.c:214-220 | NULL exactly for no record or a vacated one; otherwise that record's device |
| Mounts.MountsState.FreeVolumeInternals | mounts.c:50-60 | the slot becomes vacant and every other slot is unchanged |
| Mounts.MountsState.UnmountMountedVolume | mounts.c:222-235 | calls umount on the record's mount point (NULL for a vacated slot, which fails); returns umount's result; vacates the slot exactly when that result is 0, and otherwise leaves the table unchanged |
| Mounts.ScanResultContents | mounts.c:129-143 | every stored slot is a record with non-empty, whitespace-free fields of at most 63 characters (127 for the flags), and all of the file's records are stored when they fit in 32 slots |
| Mounts.FirstMatchAfterVacate | mounts.c:175-181 | after an unmount vacates slot i, a lookup that found slot i finds the next match instead, and every other lookup is unchanged |
| Mounts.CappedSnoc | mounts.c:138-139 | a further record is stored exactly when fewer than 32 are stored |
| Mounts.EatLine | mounts.c:148-158 | the "eat the line" loop advances strictly and stops just past the first newline, or at the end of the buffer |
| Mounts.ScanStep | mounts.c:120-158 | one turn of the parse loop adds the current line's record, if any, and continues at the next line |
| MountsParse.ReadPrefix | mounts.c:98-103 | the buffer holds the first min(size, 2047) bytes of the file |
| MountsParse.ScanField | mounts.c:129-130 | a `%Ns` conversion yields a non-empty, whitespace-free word of at most N characters, or fails when only whitespace is left |
| MountsParse.Sscanf4WellFormed | mounts.c:129-136 | every record sscanf stores has fields within the declared widths and without whitespace |
| MountsParse.Sscanf4Render | mounts.c:129-130 | a well-formed record written as a line is read back exactly |
| MountsParse.Sscanf4Fields | mounts.c:129-130 | four well-formed fields separated by any single whitespace characters are read back exactly |
| MountsParse.TwoFieldsNoRecord | mounts.c:132-146 | a line with only two fields yields no record |
| MountsParse.ParseMountsLine | mounts.c:129-158 | each line contributes its own record or nothing, and the rest of the buffer is parsed independently |
| MountsParse.MalformedLineSkipped | mounts.c:129-146 | a line with fewer than four fields adds no record and does not stop the scan |
| MountsParse.RecordsWellFormed | mounts.c:129-136 | every parsed record is well formed |
| MountsParse.ParseMountsStep | mounts.c:148-158 | the parse of a buffer is the first line's record followed by the parse of everything after its newline |
| MountsParse.ShortLineBorrowsNextLine | mounts.c:129-130 | as written, a two-field line followed by any well-formed line yields a record made from the next line's first two fields, and then the next line again |
| MountsParse.ShortLineSkipped | mounts.c:129-146 | the line-bounded scan of the same buffer yields only the well-formed line |
| MountsParse.RepeatCountAsWritten | mounts.c:119-143 | as written, where each scan runs from a line start to the end of the buffer, n copies of a well-formed line yield exactly n records |
| MountsParse.UncheckedAppendOverflows | mounts.c:73-139 | more than 32 copies of a well-formed line fit in one read, and as written they yield more records than the 32 slots allocated, each stored by `volumes[volume_count++]` |
| Volumes.StoragePath | roots.c:79-84 | the rewritten mount point starts with "/storage/", is "/storage/" + label when that fits, and is cut off at PATH_MAX - 1 characters otherwise |
| Volumes.LoadedTableShape | roots.c:67-86 | the loaded table is the entries read, in order, followed by the /tmp RAM-disk entry; every vold-managed "auto" entry is rewritten to /storage/<label>; every other entry is unchanged; no "auto" entry is left |
| Volumes.Roots.constructor | roots.c:44-44 | no table, no memoised primary path, data media preserved |
| Volumes.Roots.LoadVolumeTable | roots.c:57-100 | no table when fs_mgr cannot read the file or cannot append /tmp; otherwise the loaded table |
| Volumes.PrimaryPathFor | roots.c:113-121 | "/storage/sdcard0" exactly when a volume resolves for it, and "/sdcard" exactly when none does |
| Volumes.Roots.GetPrimaryStoragePath | roots.c:112-121 | the first call decides and memoises the answer; every later call returns that same answer |
| Volumes.ExtraStoragePathsMembers | roots.c:123-156 | a path is listed exactly when some entry is mounted there and is /external_sd, or is vold-managed, available and not the primary path |
| Volumes.Roots.GetNumExtraVolumes | roots.c:123-134 | the count is the number of listed extra volumes |
| Volumes.Roots.GetExtraStoragePaths | roots.c:136-156 | NULL when there is no extra volume; otherwise their mount points in table order |
| Volumes.Roots.IsExtraEntry | roots.c:128-130 | the test of one entry in the two loops, with the primary path asked only when the short-circuit reaches it |
| Volumes.DataMediaScanSpec | roots.c:186-200 | the scan answers true exactly when some entry is "datamedia", or no /sdcard entry and no vold-managed /storage/sdcard0 entry exists |
| Volumes.IsDataMediaSpec | roots.c:186-200 | `is_data_media` holds exactly when the table has a "datamedia" entry or no sdcard entry |
| Volumes.IsDataMediaVolumePathSpec | roots.c:219-229 | a resolved path is data media exactly when its entry's type is "datamedia"; an unresolved path is data media exactly when `is_data_media` holds and the path is "/sdcard" or starts with "/sdcard/" |
| Volumes.Roots.PreserveDataMedia | roots.c:692-699 | the flag takes the given value |
| DispatchSpec.TryMountHarmless | roots.c:167-184 | one `try_mount` attempt destroys nothing and touches no UBI state; a NULL device, mount point or type fails with -1 and no event |
| DispatchSpec.BlockMountFallback | roots.c:294-304 | the attempts are (blk_device, fs_type, fs_options), then (blk_device, fs_type2, fs_options2), then (blk_device2, fs_type2, fs_options2), in that order; the first success ends the chain with no further request; it succeeds exactly when one attempt does, and otherwise returns the third attempt's result; it makes at most three requests, all of them mount steps, and changes no attach state |
| DispatchSpec.BlockMountSingleType | roots.c:298-304 | without a second type only the first attempt can mount, and a failure then returns -1 |
| DispatchSpec.UbiMountCleanup | roots.c:342-386 | the result is 0 or -1; the first event detaches the partition; every attach is released exactly when the mount fails; on success the partition is attached and the last event mounts /dev/ubi0_userdata at the volume's own mount point |
| DispatchSpec.UbiMountLocal | roots.c:342-386 | the UBIFS mount changes no partition but the volume's own and makes mount steps only; a failed attach is always the last event; with UBI usable and detach working, a failure leaves the partition detached |
| DispatchSpec.MountByKindProperties | roots.c:280-392 | every branch after the mkdir causes mount steps only, leaves no attach behind on failure, and touches only the volume's own partition |
| DispatchSpec.MountOutcomeProperties | roots.c:251-392 | mount steps only; a failure leaves no attach behind; unknown path → -1 with no event and no scan; RAM disk → 0 with no event and no scan; failed scan → -1 with no event (no mkdir, no mount); target already in the fresh snapshot → 0 with no event; otherwise the first event is the mkdir of the mount point; only the volume's own partition can change its attach state |
| DispatchSpec.MountOutcomeSafe | roots.c:251-392 | mounting never destroys data and never leaves behind an attach it made when it fails |
| DispatchSpec.EnsureMountedProperties | roots.c:241-250 | nothing is destroyed and a failure leaves no attach behind; a data-media path succeeds exactly when mounting /data does, and /data/media is set up as the last step exactly on success |
| DispatchSpec.UbiUnmountProperties | roots.c:444-485 | the UBIFS tail of an unmount detaches at most the volume's own partition; success means it is no longer attached |
| DispatchSpec.UnmountOutcomeProperties | roots.c:413-491 | unmount steps only, nothing attached afterwards; unknown path and RAM disk → -1 with no event; failed scan → -1 with no event (no umount, no detach); with a snapshot: no event exactly when the mount point is absent from it, and then 0; otherwise the umount comes first, its result decides a non-UBIFS volume and only the detach decides UBIFS; the next lookup moves past the slot exactly when umount succeeded |
| DispatchSpec.UnmountMatchedProperties | roots.c:438-486 | once the snapshot holds the mount point, the same as above for the matched slot |
| DispatchSpec.EnsureUnmountedProperties | roots.c:405-411 | a data-media path behaves exactly as unmounting /data; a /data path while data media is preserved → 0 with no event; any unmount is of the target volume's own mount point; unmount steps only, nothing attached afterwards |
| DispatchSpec.UbiMkvolNode | roots.c:672-674 | the corrected node buffer holds "/dev/ubi0_userdata" with its NUL |
| DispatchSpec.UbiNodeOverflowsAsWritten | roots.c:618-672 | as written, "/dev/ubi0_userdata" does not fit, with its NUL, in `ubinode[16]` |
| DispatchSpec.UbiVolumeBytes | roots.c:668-668 | the corrected size is never negative and agrees with the 32-bit product whenever that does not wrap |
| DispatchSpec.UbiVolumeBytesWrapsAsWritten | roots.c:668-668 | as written, a 2 GiB device of 16384 128 KiB blocks asks for a negative size |
| DispatchSpec.FormatUbifsCleanup | roots.c:612-690 | `format_ubifs_volume` attaches first with no detach before it; every attach it makes is released; its only destructive step is one dynamic volume named after the partition, on the fixed node, sized to the whole device; when detaching works the partition ends detached |
| DispatchSpec.FormatFsProperties | roots.c:558-609 | every attach is released; no partition but the volume's own changes its attach state; an MTD-family format starts with the erase; a failed lookup or open gives -1 with no event, and a failed erase or close gives -1 after the erase; a successful non-UBIFS one is the erase alone; after a good erase a UBIFS volume answers, and adds the events, of `format_ubifs_volume`; ext4 is exactly one make_ext4fs request with the volume's device and length |
| DispatchSpec.FormatCanonicalProperties | roots.c:540-609 | for the exact mount point of a volume that is neither vold-managed nor a RAM disk: every attach is released; a failed unmount gives -1 with nothing destroyed; anything destructive happens only after the unmount succeeded |
| DispatchSpec.FormatOutcomeProperties | roots.c:494-610 | every attach is released on every path; data media and a preserved /data go to the generic formatter alone, without a device; an unknown path, a missing sd-ext and the RAM disk give -1 with no event; an exact vold volume ends with its vold request; a path inside a volume goes to the generic formatter alone with the volume's device |
| DispatchSpec.VoldFormatProperties | roots.c:527-538 | every attach is released; the events end with the vold format request for the volume, after the unmount |
| DispatchSpec.SprintfInto | roots.c:672-672 | printing into an n-byte buffer succeeds exactly when the text and its NUL fit |
| Dispatch.TryMount | roots.c:167-184 | equals `TryMountOutcome`: mount(2) without options, the mount binary with them |
| Dispatch.MountBlock | roots.c:294-304 | equals the three-attempt fallback of `BlockMountOutcome` |
| Dispatch.MountUbifs | roots.c:305-386 | equals `UbiMountOutcome`, and the libubi handle is closed on every exit |
| Dispatch.UbiAttachAndMount | roots.c:342-383 | with libubi usable, equals the detach/attach/mount/detach-on-failure part of `UbiMountOutcome` |
| Dispatch.MountByKind | roots.c:280-392 | equals `MountByKindOutcome`: vold, MTD, block, UBIFS or the shell, chosen by the volume's kind |
| Dispatch.MountUnlisted | roots.c:278-392 | mkdir of the target, then `MountByKindOutcome` |
| Dispatch.MountPath | roots.c:251-392 | equals `MountOutcome`, including the snapshot the scan leaves |
| Dispatch.EnsurePathMountedAtMountPoint | roots.c:235-396 | equals `EnsureMountedOutcome` |
| Dispatch.UnmountUbifs | roots.c:446-485 | equals `UbiUnmountOutcome`, and the libubi handle is closed on every exit |
| Dispatch.UnmountPath | roots.c:413-486 | equals `UnmountOutcome`, including the snapshot left behind |
| Dispatch.UnmountMatched | roots.c:438-486 | equals `UnmountMatchedOutcome` for the matched slot |
| Dispatch.EnsurePathUnmounted | roots.c:398-492 | equals `EnsureUnmountedOutcome` |
| Dispatch.FormatUbifsVolume | roots.c:612-690 | equals `FormatUbifsOutcome`, and the libubi handle is closed on every exit |
| Dispatch.FormatMtd | roots.c:558-583 | equals `MtdFormatOutcome`: erase, then rebuild UBI for UBIFS |
| Dispatch.FormatFs | roots.c:558-609 | equals `FormatFsOutcome` |
| Dispatch.FormatVold | roots.c:527-538 | equals `VoldFormatOutcome` |
| Dispatch.RequestVoldFormat | roots.c:531-537 | sends `VoldRequest(v)`, and answers whether vold accepts it |
| Dispatch.UnmountThenFormat | roots.c:540-609 | equals `UnmountThenFormatOutcome` |
| Dispatch.FormatVolume | roots.c:494-610 | equals `FormatOutcome` |
| Builtins.MountFnProperties | updater/install.c:71-168 | aborts with no effect on a wrong argument count or an empty argument; otherwise creates the mount point first; "MTD" mounts the named partition, "UBI" attaches and mounts the node, anything else mounts the location; answers the mount point exactly when that mount succeeds and "" otherwise; never destructive; only "UBI" changes the attach state |
| Builtins.MountUbiFailureSticks | updater/install.c:134-150 | a "UBI" mount whose attach worked but whose mount failed leaves the partition attached, so the same call made again fails at the attach without a mount attempt |
| Builtins.MountFn | updater/install.c:71-168 | equals `MountReply` |
| Builtins.IsMountedProperties | updater/install.c:172-197 | no event; answers the mount point exactly when the fresh snapshot has a live record mounted there, "" otherwise (also when the scan fails); an empty argument aborts |
| Builtins.IsMountedFn | updater/install.c:172-197 | equals `IsMountedReply`, and the snapshot is the fresh scan |
| Builtins.UnmountRecordProperties | updater/install.c:219-244 | for a found record: answers the mount point exactly when umount succeeds; then vacates the slot and, for UBIFS only, removes the UBI device of the device copied before the unmount; a failed umount changes nothing |
| Builtins.UnmountFnProperties | updater/install.c:200-249 | an absent mount point answers ""; otherwise as for a found record; never attaches or destroys; at most one UBI device removed |
| Builtins.UnmountFn | updater/install.c:200-249 | equals `UnmountReply` |
| Builtins.UnmountFound | updater/install.c:219-244 | equals `UnmountRecord` for the found slot |
| Builtins.FormatFnProperties | updater/install.c:260-349 | aborts with no effect on a wrong count or an empty fs_type, partition_type, location or mount_point; "MTD"/"UBI" as below; ext4 formats over the length fs_size reads as and answers the location exactly when that works; anything else is NULL with no effect |
| Builtins.FormatMtdProperties | updater/install.c:294-327 | "MTD"/"UBI" erase the partition before anything else; they answer "" on a lookup, open, erase or close failure; "UBI" then rebuilds one dynamic volume, and no attach is left behind; the location is the answer exactly when every step succeeds |
| Builtins.FormatFn | updater/install.c:260-349 | equals `FormatReply` |
| Builtins.FormatMtd | updater/install.c:294-327 | equals `FormatMtdReply` |
| Builtins.AtollIntToString | updater/install.c:330-330 | `atoll` reads back every number `%d` prints |
| UpdaterUbi.UbiAttachProperties | updater/install.c:386-439 | succeeds exactly when the partition is known, libubi works and the partition is not yet attached (there is no detach first); on success the partition is attached to the device the node "/dev/ubi<n>_0" names; on failure nothing changes |
| UpdaterUbi.UbiAttach | updater/install.c:386-439 | equals `UbiAttachOutcome` |
| UpdaterUbi.NodesFit | updater/install.c:429-431 | both node names fit, with their NUL, in 32-byte buffers for every 32-bit device number |
| UpdaterUbi.AttachNodeInjective | updater/install.c:429-431 | different device numbers give different attach node names |
| UpdaterUbi.DevPath | updater/install.c:470-476 | the result is at most 63 characters and starts with '/'; an absolute name of at most 63 characters is kept; any other name of at most 58 characters becomes "/dev/" followed by the name |
| UpdaterUbi.UbiDetachProperties | updater/install.c:441-517 | a NULL device fails with no effect; otherwise removes at most one UBI device, attaches nothing, and on success leaves no partition bound to it |
| UpdaterUbi.UbiDetach | updater/install.c:441-517 | equals `UbiDetachOutcome` |
| UpdaterUbi.UbiFormatCleanup | updater/install.c:519-601 | starts with a detach; every attach is followed by a detach of the same partition; the only destructive step is one volume of the given type on /dev/ubi<n>, sized to the available bytes, after the attach; with detach working the partition ends detached |
| UpdaterUbi.UbiFormatNoInfo | updater/install.c:569-574 | an attach without device information is undone and fails |
| UpdaterUbi.UbiFormatMkvol | updater/install.c:576-592 | with device information, one volume is created over the available bytes and the partition is detached again |
| UpdaterUbi.UbiFormat | updater/install.c:519-601 | equals `UbiFormatOutcome`, and the libubi handle is closed on every exit |
| UpdaterUbi.UbiRebuild | updater/install.c:555-595 | with libubi usable, equals the detach/attach/mkvol/detach part of `UbiFormatOutcome` |
| Perms.PermParser.constructor | updater/install.c:945-945 | the warning budget starts at 20 |
| Perms.PermParser.ParsePermArgs | updater/install.c:941-1035 | the struct returned is the pairs folded left to right, and the warning budget falls by one per unknown key while any is left |
| Perms.ParsedFromSettings | updater/install.c:947-1033 | each field holds the value of the last pair for its key whose value reads, and is unset when there is none |
| Perms.FoldIsLastSetting | updater/install.c:949-1033 | the fold leaves in each field the last setting the pairs make for it, or the earlier value |
| Perms.LastSettingIsLast | updater/install.c:949-1033 | a field is set exactly when some pair sets it, and then to the last such value |
| Perms.EffectOf | updater/install.c:950-1025 | a pair has an effect exactly when its key is one of the seven and its value reads; a label is never empty |
| Perms.UnknownPairIgnored | updater/install.c:1026-1032 | an unknown key anywhere in the list changes nothing in the result |
| Perms.WarningsCountDown | updater/install.c:1026-1032 | the budget after the pairs is the budget minus the unknown keys, stopping at zero |
| Perms.ReadValue | updater/install.c:950-1025 | uid, gid and the modes are 32-bit, capabilities 64-bit, and only selabel gives a label |
| Perms.ScanDecimalIntToString | updater/install.c:952-952 | `%lld` reads back every printed number |
| Perms.ScanIntegerNatToString | updater/install.c:974-974 | `%i` reads back every printed non-negative number |
| Perms.ScanOctalMode | updater/install.c:974-974 | "0755" reads as octal 493 |
| Perms.ScanHexMode | updater/install.c:1007-1007 | "0x1ff" reads as hexadecimal 511 |
| Perms.ScanIntegerEdges | updater/install.c:974-974 | "0x" reads as 0; an empty string and " x1" do not read |
| GetProp.TokensOfLines | updater/install.c:1259-1294 | `strtok` on "\n" gives back the non-empty lines of the buffer |
| GetProp.ClassifyLineTrimmed | updater/install.c:1261-1289 | keys and values have no surrounding whitespace; a key holds no '=' and does not start with '#' |
| GetProp.ClassifySkipped | updater/install.c:1261-1265 | a blank or comment line, whatever whitespace leads it, is skipped |
| GetProp.ClassifyMalformed | updater/install.c:1267-1272 | a line without '=' is reported as malformed from its first non-space character on |
| GetProp.ClassifyEntryRoundTrip | updater/install.c:1261-1289 | a `key = value` line is read back as that entry, whatever whitespace surrounds the key, the '=' and the value |
| GetProp.ClassifyEntryShape | updater/install.c:1261-1289 | conversely, every entry read comes from a line of that shape |
| GetProp.ParseLine | updater/install.c:1261-1289 | the character-by-character walk over one line equals `ClassifyLine` |
| GetProp.SkipWhitespace | updater/install.c:1262-1262 | stops at the first non-space character |
| GetProp.FindEquals | updater/install.c:1267-1267 | stops at the first '=' or the end |
| GetProp.BackOverWhitespace | updater/install.c:1275-1288 | the backward trim loop ends one before `TrimEnd`, and never tests the first character |
| GetProp.LookupFound | updater/install.c:1259-1296 | the lookup finds v exactly when some line is the entry key=v and every line before it is skipped or holds another key (the first match wins) |
| GetProp.LookupAbsent | updater/install.c:1259-1296 | the key is absent exactly when every line is skipped or holds another key |
| GetProp.LookupMalformed | updater/install.c:1267-1272 | a malformed line stops the scan only when every line before it is skipped or holds another key |
| GetProp.FindProp | updater/install.c:1259-1296 | the line-by-line walk equals `LookupIn` |
| GetProp.EmptyFileAsWritten | updater/install.c:1259-1262 | as written, an empty or all-newline file dereferences NULL; the corrected lookup answers "no such key" |
| GetProp.AsWrittenAgreesOnLines | updater/install.c:1259-1294 | on every file with at least one line the two agree |
| GetProp.FileGetPropProperties | updater/install.c:1212-1303 | an unreadable file or one over 64 KiB aborts; otherwise the answer is the value of the first entry for the key, "" when no line holds it, and an abort when a malformed line comes first |
| GetProp.FileGetPropFn | updater/install.c:1212-1303 | equals `FileGetPropReply` |
| Sha1Hex.PrintSha1 | updater/install.c:1961-1971 | the fresh buffer is the hex text of the digest followed by NUL |
| Sha1Hex.HexOfAt | updater/install.c:1965-1968 | character 2i is the digit of byte i's high nibble and 2i+1 that of its low nibble |
| Sha1Hex.HexOfLowerHex | updater/install.c:1964-1968 | every character is a lower-case hex digit |
| Sha1Hex.FromHexOf | updater/install.c:1965-1968 | reading the hex text back gives the digest, so the encoding loses nothing |
| Sha1Hex.HexOfInjective | updater/install.c:1965-1968 | different digests print differently |
| Sha1Hex.PrintedLength | updater/install.c:1962-1969 | exactly 40 lower-case hex digits, then NUL |

## Left out

- `remount_read_only`, `find_mounted_volume_by_real_node` and `mtk_p_size`: `find_mounted_volume_by_real_node` depends on `readlink`, and `mtk_p_size` on `/proc/dumchar_info`.
- The `BOARD_NATIVE_DUALBOOT_SINGLEDATA` hooks: device-specific code compiled in only on some boards.
- `setup_data_media` and `setup_legacy_storage_paths`: file-system effects only. The first is one `SetupDataMedia` event; the second is not modelled.
- The internals of fs_mgr, mount(2), libubi, the MTD utilities, vold, `make_ext4fs`, `make_f2fs_main`, `format_unknown_device` and `__system`. They are oracle answers and trace events. An answer depends only on its arguments, and the /proc/mounts text only on the events so far.
- The mount flags (`MS_NOATIME | MS_NODEV | MS_NODIRATIME`), SELinux labels (`selabel_lookup`, `setfscreatecon`) and log and `printf` output. `ParsePermArgs` keeps only its warning budget.
- Failures of `malloc` and `strdup`, except the first allocation of the mount snapshot. The 32-slot `malloc` in `scan_mounted_volumes` is an oracle answer.
- Dispatch.EnsurePathMountedAtMountPoint, Dispatch.EnsurePathUnmounted, Dispatch.FormatVold and Dispatch.UnmountThenFormat require `DataResolves` of the path they work on: a loaded table and, only when that path is a data-media path, "/data" not being one too. Without the table the C code dereferences NULL; for a data-media path in a table where "/data" is one too it recurses forever. Ordinary paths in such a table are not excluded.
- Dispatch.FormatVolume requires only a loaded table: it hands data-media paths to the generic formatter before any recursion.
- Volumes.Roots.GetExtraStoragePaths returns a fresh sequence of any length. The C code writes the paths and the closing NULL into one `static char* paths[MAX_NUM_MANAGED_VOLUMES]` (roots.c:138-153). The model does not capture that fixed size: in the C code the NULL written at `paths[j]` overruns the array once there are MAX_NUM_MANAGED_VOLUMES or more extra volumes. The header that defines MAX_NUM_MANAGED_VOLUMES is not part of this model. Nor does the model capture that every call reuses and overwrites that array, so a result kept from an earlier call changes under its holder.
- Volumes.Roots.GetNumExtraVolumes, Volumes.Roots.GetExtraStoragePaths, Volumes.IsDataMediaSpec and Volumes.IsDataMediaVolumePathSpec require a loaded table, because `get_num_volumes` dereferences the table without checking it.
- The `vold_unmount_volume` branch at roots.c:488-491 follows an if/else that always returns, so it cannot be reached. The model has no such branch.
- Overflow of the `PATH_MAX` command buffers in `try_mount` and the shell branch: command strings are unbounded.
- Overflow in `sscanf` and `atoll`: values are unbounded integers. Perms.ReadValue reduces uid and gid modulo 2^32 and capabilities modulo 2^64, and treats `mode_t` as 32-bit unsigned.
- GetProp.ParseLine reads the key and the value as slices of the line. The C code writes NULs into the buffer, and trims the value only once the key matches; neither changes the answer.
- GetProp.FileGetPropFn and GetProp.FileGetPropReply require at least two arguments. `ReadArgs` reads the first two without checking `argc`, so fewer is undefined behaviour in the C code; further arguments are ignored, as in the C code.
- Perms.PermParser.ParsePermArgs requires an odd argument count, which its caller checks (updater/install.c:1151-1154).
- Builtins.FormatMtdProperties requires a non-empty location, which `FormatFn` checks before this branch.
- Dispatch.UbiAttachAndMount and UpdaterUbi.UbiRebuild leave closing the libubi handle to their caller. The close involves neither the trace nor the attach state.
- The edify interpreter (expr.c) is not part of this model. Arguments are given already evaluated, `None` for an argument that failed to evaluate. Edify strings contain no NUL.
- Sha1Hex.PrintSha1 does not model a failing `malloc`. The SHA-1 computation and `Sha1CheckFn` are not modelled; the digest is an input.
- `GetPropFn`, `SetMetadataFn` and `ApplyParsedPerms`, and the zip, applypatch, raw-image, progress and bootloader built-ins of updater/install.c are not modelled.

## Findings

| source | as written | input that shows it | evidently intended | confidence | as-written member | corrected member |
|---|---|---|---|---|---|---|
| mounts.c:139 | each record is stored at `volumes[volume_count++]` with no check against the 32 slots allocated at mounts.c:73 | 33 lines "a b c d\n" (264 bytes, within one read) write slot 32 of a 32-slot array | stop storing once the 32 slots are full | not executed | MountsParse.UncheckedAppendOverflows | Mounts.MountsState.AppendVolume |
| mounts.c:129 | `sscanf` runs on the rest of the buffer, and `%s` skips newlines, so a line with fewer than four fields takes fields from the following lines | "x y\nrootfs / rootfs rw 0 0\n" yields (x, y, rootfs, /) as well as (rootfs, /, rootfs, rw) | a short line yields no record | not executed | MountsParse.ShortLineBorrowsNextLine | MountsParse.ShortLineSkipped |
| updater/install.c:1259-1262 | the `do … while` loop dereferences the first `strtok` token without checking it | an empty file, or one holding only "\n\n": `strtok` returns NULL and `*line` dereferences it | a file with no line answers "" like any file without the key | not executed | GetProp.EmptyFileAsWritten | GetProp.FindProp |
| roots.c:618 | `ubinode[16]` receives "/dev/ubi0_userdata" (18 characters and a NUL) at roots.c:672 | any call of `format_ubifs_volume` that reaches the `sprintf` | a buffer as large as the 32 bytes of the mount branch | not executed | DispatchSpec.UbiNodeOverflowsAsWritten | DispatchSpec.UbiMkvolNode |
| roots.c:668 | `avail_lebs*leb_size` is an `int` product, widened to 64 bits only after it has wrapped | 16384 blocks of 131072 bytes (a 2 GiB device) request -2147483648 bytes | the 64-bit size of the whole device | not executed | DispatchSpec.UbiVolumeBytesWrapsAsWritten | DispatchSpec.UbiVolumeBytes |
