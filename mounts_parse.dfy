/** The text side of the live mount snapshot (mounts.c): how one read of
    /proc/mounts is cut into lines and each line into the four fields
    `device mount_point filesystem flags` that `sscanf` extracts. */
module MountsParse {
  import opened Common

  /** One record of the snapshot, four strings copied from a mount-table line. */
  datatype MountedVolume = MountedVolume(device: string, mountPoint: string, filesystem: string, flags: string)

  /** `char buf[2048]`: one read fills at most `sizeof(buf) - 1` bytes. */
  const BUF_SIZE: nat := 2048
  /** The widths in "%63s %63s %63s %127s". */
  const NAME_WIDTH: nat := 63
  const FLAGS_WIDTH: nat := 127

  /** What `read(fd, buf, sizeof(buf) - 1)` leaves in the buffer. */
  function ReadPrefix(text: string): (buf: string)
    ensures |buf| == Min(|text|, BUF_SIZE - 1) && buf == text[..|buf|]
  {
    Truncate(text, BUF_SIZE - 1)
  }

  predicate IsToken(s: string, width: nat) {
    0 < |s| <= width && forall k :: 0 <= k < |s| ==> !IsSpace(s[k])
  }

  /** The fields a record can hold: non-empty, no whitespace, within the widths. */
  predicate WellFormed(v: MountedVolume) {
    IsToken(v.device, NAME_WIDTH) && IsToken(v.mountPoint, NAME_WIDTH) &&
    IsToken(v.filesystem, NAME_WIDTH) && IsToken(v.flags, FLAGS_WIDTH)
  }

  /** The word at the front of `s`: at most `width` non-space characters,
      and what follows them. */
  function TakeWord(s: string, width: nat): (r: (string, string))
    ensures |r.0| <= width && |r.0| + |r.1| == |s|
    ensures forall k :: 0 <= k < |r.0| ==> !IsSpace(r.0[k])
    ensures s != [] && !IsSpace(s[0]) && width > 0 ==> |r.0| > 0
  {
    if width == 0 || s == [] || IsSpace(s[0]) then ([], s)
    else
      var (w, rest) := TakeWord(s[1..], width - 1);
      ([s[0]] + w, rest)
  }

  /** One `%<width>s` conversion on the C string `s`: skip whitespace
      (newlines included), then take at most `width` non-space characters.
      Gives the field and what is left after it, or None when only
      whitespace is left (the conversion fails). */
  function ScanField(s: string, width: nat): (r: Option<(string, string)>)
    requires width > 0
    ensures r.Some? ==> IsToken(r.value.0, width) && |r.value.1| < |s|
  {
    if s == [] then None
    else if IsSpace(s[0]) then ScanField(s[1..], width)
    else Some(TakeWord(s, width))
  }

  /** `sscanf(s, "%63s %63s %63s %127s", ...)` when it returns 4; None for
      any smaller count. */
  function Sscanf4(s: string): Option<MountedVolume> {
    match ScanField(s, NAME_WIDTH)
    case None => None
    case Some((device, rest1)) =>
      match ScanField(rest1, NAME_WIDTH)
      case None => None
      case Some((mountPoint, rest2)) =>
        match ScanField(rest2, NAME_WIDTH)
        case None => None
        case Some((filesystem, rest3)) =>
          match ScanField(rest3, FLAGS_WIDTH)
          case None => None
          case Some((flags, _)) => Some(MountedVolume(device, mountPoint, filesystem, flags))
  }

  lemma {:induction false} TakeWordOf(w: string, tail: string, width: nat)
    requires |w| <= width
    requires forall k :: 0 <= k < |w| ==> !IsSpace(w[k])
    requires tail == [] || IsSpace(tail[0])
    ensures TakeWord(w + tail, width) == (w, tail)
    decreases |w|
  {
    if w != [] {
      assert (w + tail)[1..] == w[1..] + tail;
      TakeWordOf(w[1..], tail, width - 1);
      assert [w[0]] + w[1..] == w;
    } else {
      assert w + tail == tail;
    }
  }

  /** What `sscanf` stores fits the declared widths and holds no whitespace. */
  lemma Sscanf4WellFormed(s: string)
    ensures Sscanf4(s).Some? ==> WellFormed(Sscanf4(s).value)
  {
  }

  /** `%s` reads back a field exactly: after the whitespace `sp`, the word
      `w` that ends at a space or at the end of the string. */
  lemma {:induction false} ScanFieldWord(sp: string, w: string, tail: string, width: nat)
    requires width > 0 && IsToken(w, width)
    requires forall k :: 0 <= k < |sp| ==> IsSpace(sp[k])
    requires tail == [] || IsSpace(tail[0])
    ensures ScanField(sp + (w + tail), width) == Some((w, tail))
    decreases |sp|
  {
    if sp == [] {
      assert sp + (w + tail) == w + tail;
      TakeWordOf(w, tail, width);
    } else {
      assert (sp + (w + tail))[1..] == sp[1..] + (w + tail);
      ScanFieldWord(sp[1..], w, tail, width);
    }
  }

  /** Four fields separated by single whitespace characters are read back
      exactly, whatever follows a further separator. */
  lemma Sscanf4Fields(v: MountedVolume, sep1: char, sep2: char, sep3: char, tail: string)
    requires WellFormed(v) && IsSpace(sep1) && IsSpace(sep2) && IsSpace(sep3)
    requires tail == [] || IsSpace(tail[0])
    ensures Sscanf4(v.device + ([sep1] + (v.mountPoint + ([sep2] + (v.filesystem + ([sep3] + (v.flags + tail))))))) == Some(v)
  {
    var x4 := v.flags + tail;
    var x3 := [sep3] + x4;
    var x2 := [sep2] + (v.filesystem + x3);
    var x1 := [sep1] + (v.mountPoint + x2);
    ScanFieldWord([], v.device, x1, NAME_WIDTH);
    assert [] + (v.device + x1) == v.device + x1;
    ScanFieldWord([sep1], v.mountPoint, x2, NAME_WIDTH);
    ScanFieldWord([sep2], v.filesystem, x3, NAME_WIDTH);
    ScanFieldWord([sep3], v.flags, tail, FLAGS_WIDTH);
  }

  /** A record written back as a mount-table line, fields separated by one space. */
  function Render(v: MountedVolume): string {
    v.device + ([' '] + (v.mountPoint + ([' '] + (v.filesystem + ([' '] + v.flags)))))
  }

  lemma RenderNoNewline(v: MountedVolume)
    requires WellFormed(v)
    ensures '\n' !in Render(v)
  {
    assert !IsSpace('\n') ==> false;
    assert '\n' !in v.device && '\n' !in v.mountPoint && '\n' !in v.filesystem && '\n' !in v.flags;
  }

  /** Reading a rendered record gives it back, whatever follows a separator. */
  lemma Sscanf4Render(v: MountedVolume, tail: string)
    requires WellFormed(v) && (tail == [] || IsSpace(tail[0]))
    ensures Sscanf4(Render(v) + tail) == Some(v)
  {
    assert Render(v) + tail == v.device + ([' '] + (v.mountPoint + ([' '] + (v.filesystem + ([' '] + (v.flags + tail))))));
    Sscanf4Fields(v, ' ', ' ', ' ', tail);
  }

  function OptionToSeq<T>(o: Option<T>): seq<T> {
    if o.Some? then [o.value] else []
  }

  /** Number of characters before the first newline of `s` (or `|s|`). */
  function LineLength(s: string): (n: nat)
    ensures n <= |s|
  {
    if s == [] || s[0] == '\n' then 0 else 1 + LineLength(s[1..])
  }

  /** The line ends at the first newline. */
  lemma {:induction false} LineLengthSpec(s: string)
    ensures forall k :: 0 <= k < LineLength(s) ==> s[k] != '\n'
    ensures LineLength(s) < |s| ==> s[LineLength(s)] == '\n'
    decreases |s|
  {
    if s != [] && s[0] != '\n' {
      LineLengthSpec(s[1..]);
    }
  }

  /** A position before which there is no newline and at which there is a
      newline (or the end) is the line length. */
  lemma LineLengthUnique(s: string, n: nat)
    requires n <= |s| && (forall k :: 0 <= k < n ==> s[k] != '\n') && (n == |s| || s[n] == '\n')
    ensures LineLength(s) == n
  {
    LineLengthSpec(s);
  }

  /** What is left after the "eat the line" loop: everything after the first
      newline, or nothing. */
  function RestAfterLine(s: string): (r: string)
    ensures |r| < |s| || s == []
  {
    if LineLength(s) < |s| then s[LineLength(s) + 1..] else []
  }

  /** The buffer cut at its newlines, as the "eat the line" loop walks it:
      one entry per line, without the newline. */
  function Lines(s: string): seq<string>
    decreases |s|
  {
    if s == [] then [] else [s[..LineLength(s)]] + Lines(RestAfterLine(s))
  }

  /** The records `sscanf` yields for a sequence of inputs, one per input
      that holds four fields, in order. */
  function Records(inputs: seq<string>): (r: seq<MountedVolume>)
    ensures |r| <= |inputs|
  {
    if inputs == [] then [] else OptionToSeq(Sscanf4(CString(inputs[0]))) + Records(inputs[1..])
  }

  /** The fields of the line `s` starts with, read by a `sscanf` that stops at
      the end of that line (the corrected reading, see Findings). */
  function ScanMountLine(s: string): Option<MountedVolume> {
    Sscanf4(CString(s[..LineLength(s)]))
  }

  /** The records a scan of the buffer `s` yields: one per line that holds
      four fields, in order. */
  function ParseMounts(s: string): seq<MountedVolume> {
    Records(Lines(s))
  }

  lemma RecordsCons(input: string, rest: seq<string>)
    ensures Records([input] + rest) == OptionToSeq(Sscanf4(CString(input))) + Records(rest)
  {
    assert ([input] + rest)[1..] == rest;
  }

  lemma {:induction false} RecordsAppend(a: seq<string>, b: seq<string>)
    ensures Records(a + b) == Records(a) + Records(b)
    decreases |a|
  {
    if a == [] {
      assert a + b == b;
    } else {
      assert a + b == [a[0]] + (a[1..] + b);
      RecordsCons(a[0], a[1..] + b);
      RecordsAppend(a[1..], b);
    }
  }

  /** One step of the scan loop: the first line's record, then the rest. */
  lemma ParseMountsStep(s: string)
    requires s != []
    ensures ParseMounts(s) == OptionToSeq(ScanMountLine(s)) + ParseMounts(RestAfterLine(s))
  {
    RecordsCons(s[..LineLength(s)], Lines(RestAfterLine(s)));
  }

  /** Every stored field is non-empty, free of whitespace, at most 63
      characters (127 for the flags). */
  lemma {:induction false} RecordsWellFormed(inputs: seq<string>)
    ensures forall k :: 0 <= k < |Records(inputs)| ==> WellFormed(Records(inputs)[k])
    decreases |inputs|
  {
    if inputs != [] {
      Sscanf4WellFormed(CString(inputs[0]));
      RecordsWellFormed(inputs[1..]);
    }
  }

  lemma {:induction false} LineLengthOf(line: string, rest: string)
    requires '\n' !in line
    ensures LineLength(line + "\n" + rest) == |line|
    decreases |line|
  {
    var s := line + "\n" + rest;
    if line != [] {
      assert s[1..] == line[1..] + "\n" + rest;
      LineLengthOf(line[1..], rest);
    }
  }

  lemma RestAfterLineOf(line: string, rest: string)
    requires '\n' !in line
    ensures LineLength(line + "\n" + rest) == |line|
    ensures RestAfterLine(line + "\n" + rest) == rest
  {
    LineLengthOf(line, rest);
    assert (line + "\n" + rest)[|line| + 1..] == rest;
  }

  lemma LinesCons(line: string, rest: string)
    requires '\n' !in line
    ensures Lines(line + "\n" + rest) == [line] + Lines(rest)
  {
    RestAfterLineOf(line, rest);
    assert (line + "\n" + rest)[..|line|] == line;
  }

  lemma SuffixesCons(line: string, rest: string)
    requires '\n' !in line
    ensures Suffixes(line + "\n" + rest) == [line + "\n" + rest] + Suffixes(rest)
  {
    RestAfterLineOf(line, rest);
  }

  /** Lines are independent: a line contributes its own record, or nothing
      when it has fewer than four fields, and the scan goes on with the next
      line either way. */
  lemma ParseMountsLine(line: string, rest: string)
    requires '\n' !in line
    ensures ParseMounts(line + "\n" + rest) == OptionToSeq(Sscanf4(CString(line))) + ParseMounts(rest)
  {
    LinesCons(line, rest);
    RecordsCons(line, Lines(rest));
  }

  /** A line with fewer than four fields adds no record and does not stop the scan. */
  lemma MalformedLineSkipped(line: string, rest: string)
    requires '\n' !in line && Sscanf4(CString(line)).None?
    ensures ParseMounts(line + "\n" + rest) == ParseMounts(rest)
  {
    ParseMountsLine(line, rest);
  }

  // ---------------------------------------------------------------------
  // The code as written (see README, Findings).

  /** Everything from each line start to the end of the buffer. */
  function Suffixes(s: string): (r: seq<string>)
    decreases |s|
  {
    if s == [] then [] else [s] + Suffixes(RestAfterLine(s))
  }

  /** As written, `sscanf` reads from `bufp` to the end of the buffer, and
      `%s` skips newlines like any other whitespace: a line with fewer than
      four fields takes its missing fields from the lines after it. */
  function ParseMountsAsWritten(s: string): seq<MountedVolume> {
    Records(Suffixes(s))
  }

  /** A line with two fields `a b` followed by any well-formed line: as
      written the short line yields the record (a, b, device, mount point)
      made with the next line's first two fields, and the next line is then
      scanned again on its own.  E.g. "x y\nrootfs / rootfs rw 0 0\n"
      gives (x, y, rootfs, /) and (rootfs, /, rootfs, rw). */
  lemma ShortLineBorrowsNextLine(a: string, b: string, next: MountedVolume, tail: string)
    requires IsToken(a, NAME_WIDTH) && IsToken(b, NAME_WIDTH) && WellFormed(next)
    requires tail == [] || IsSpace(tail[0])
    requires '\0' !in a && '\0' !in b && '\0' !in Render(next) && '\0' !in tail && '\n' !in tail
    ensures ParseMountsAsWritten(a + " " + b + "\n" + (Render(next) + tail) + "\n")
         == [MountedVolume(a, b, next.device, next.mountPoint), next]
  {
    var l1 := a + " " + b;
    var l2 := Render(next) + tail;
    assert '\0' !in l1 && '\0' !in l2;
    NextLineRecord(next, tail);
    TwoLinesAsWritten(l1, l2);
    NoNulJoin(l1, l2);
    BorrowedRecord(a, b, next, tail);
  }

  lemma NoNulJoin(l1: string, l2: string)
    requires '\0' !in l1 && '\0' !in l2
    ensures CString(l1 + "\n" + l2 + "\n") == l1 + "\n" + l2 + "\n"
  {
    CStringNoNul(l1 + "\n" + l2 + "\n");
  }

  /** The well-formed second line, scanned from its start to the end of the
      buffer, is read back exactly. */
  lemma NextLineRecord(next: MountedVolume, tail: string)
    requires WellFormed(next) && (tail == [] || IsSpace(tail[0]))
    requires '\0' !in Render(next) && '\0' !in tail && '\n' !in tail
    ensures '\n' !in Render(next) + tail
    ensures Sscanf4(CString(Render(next) + tail + "\n")) == Some(next)
  {
    var l2 := Render(next) + tail;
    RenderNoNewline(next);
    assert l2 + "\n" == Render(next) + (tail + "\n");
    Sscanf4Render(next, tail + "\n");
    CStringNoNul(l2 + "\n");
  }

  /** The same buffer read line by line: the short line adds nothing. */
  lemma ShortLineSkipped(a: string, b: string, next: MountedVolume, tail: string)
    requires IsToken(a, NAME_WIDTH) && IsToken(b, NAME_WIDTH) && WellFormed(next)
    requires tail == [] || IsSpace(tail[0])
    requires '\0' !in a && '\0' !in b && '\0' !in Render(next) && '\0' !in tail && '\n' !in tail
    ensures ParseMounts(a + " " + b + "\n" + (Render(next) + tail) + "\n") == [next]
  {
    var l1 := a + " " + b;
    var l2 := Render(next) + tail;
    assert '\n' !in l2 by { RenderNoNewline(next); }
    assert Sscanf4(CString(l1)).None? by {
      TwoFieldsNoRecord(a, b);
      CStringNoNul(l1);
    }
    assert Sscanf4(CString(l2)) == Some(next) by {
      Sscanf4Render(next, tail);
      CStringNoNul(l2);
    }
    TwoLinesCorrected(l1, l2);
  }

  /** A line with two fields is no record. */
  lemma TwoFieldsNoRecord(a: string, b: string)
    requires IsToken(a, NAME_WIDTH) && IsToken(b, NAME_WIDTH)
    ensures Sscanf4(a + " " + b).None?
  {
    ScanFieldWord([], a, " " + b, NAME_WIDTH);
    assert [] + (a + (" " + b)) == a + " " + b;
    ScanFieldWord(" ", b, [], NAME_WIDTH);
    assert " " + (b + []) == " " + b;
  }

  /** The short line's scan runs on into the next line's first two fields. */
  lemma BorrowedRecord(a: string, b: string, next: MountedVolume, tail: string)
    requires IsToken(a, NAME_WIDTH) && IsToken(b, NAME_WIDTH) && WellFormed(next)
    ensures Sscanf4(a + " " + b + "\n" + (Render(next) + tail) + "\n")
         == Some(MountedVolume(a, b, next.device, next.mountPoint))
  {
    var rest := [' '] + (next.filesystem + ([' '] + (next.flags + (tail + "\n"))));
    assert a + " " + b + "\n" + (Render(next) + tail) + "\n"
        == a + ([' '] + (b + (['\n'] + (next.device + ([' '] + (next.mountPoint + rest))))));
    Sscanf4Fields(MountedVolume(a, b, next.device, next.mountPoint), ' ', '\n', ' ', rest);
  }

  /** The line-bounded reading of a two-line buffer, in terms of its lines. */
  lemma TwoLinesCorrected(l1: string, l2: string)
    requires '\n' !in l1 && '\n' !in l2
    ensures ParseMounts(l1 + "\n" + l2 + "\n")
         == OptionToSeq(Sscanf4(CString(l1))) + OptionToSeq(Sscanf4(CString(l2)))
  {
    var r := l2 + "\n";
    assert l1 + "\n" + l2 + "\n" == l1 + "\n" + r;
    ParseMountsLine(l1, r);
    assert r == l2 + "\n" + "";
    ParseMountsLine(l2, "");
    assert ParseMounts("") == [];
  }

  /** The as-written reading of a two-line buffer: the first scan starts at
      the first line and runs to the end of the buffer. */
  lemma TwoLinesAsWritten(l1: string, l2: string)
    requires '\n' !in l1 && '\n' !in l2
    ensures ParseMountsAsWritten(l1 + "\n" + l2 + "\n")
         == OptionToSeq(Sscanf4(CString(l1 + "\n" + l2 + "\n"))) + OptionToSeq(Sscanf4(CString(l2 + "\n")))
  {
    var r := l2 + "\n";
    assert l1 + "\n" + l2 + "\n" == l1 + "\n" + r;
    SuffixesCons(l1, r);
    assert r == l2 + "\n" + "";
    SuffixesCons(l2, "");
    RecordsCons(l1 + "\n" + r, [r]);
    RecordsCons(r, []);
  }

  /** `n` copies of the same line. */
  function Repeat(line: string, n: nat): string {
    if n == 0 then [] else line + Repeat(line, n - 1)
  }

  lemma {:induction false} RepeatLength(line: string, n: nat)
    ensures |Repeat(line, n)| == n * |line|
    decreases n
  {
    if n > 0 {
      RepeatLength(line, n - 1);
    }
  }

  /** As written every line start is scanned to the end of the buffer, and
      a scan that starts at a well-formed line reads that line: `n` copies of
      a well-formed line yield `n` records, each stored by
      `volumes[volume_count++]` with no comparison against the slots. */
  lemma RepeatCountAsWritten(v: MountedVolume, n: nat)
    requires WellFormed(v) && '\0' !in Render(v)
    ensures |ParseMountsAsWritten(Repeat(Render(v) + "\n", n))| == n
  {
    forall k | 0 < k <= n
      ensures ReadsAsRecord(Repeat(Render(v) + "\n", k))
    {
      RepeatStartsWithRecord(v, k);
    }
    RenderNoNewline(v);
    RepeatCountAsWrittenOf(Render(v), n);
  }

  /** The scan of `s` to its end yields a record. */
  predicate ReadsAsRecord(s: string) {
    Sscanf4(CString(s)).Some?
  }

  lemma {:induction false} RepeatCountAsWrittenOf(line: string, n: nat)
    requires '\n' !in line
    requires forall k :: 0 < k <= n ==> ReadsAsRecord(Repeat(line + "\n", k))
    ensures |ParseMountsAsWritten(Repeat(line + "\n", n))| == n
    decreases n
  {
    if n > 0 {
      var r := Repeat(line + "\n", n - 1);
      assert Repeat(line + "\n", n) == line + "\n" + r;
      assert ReadsAsRecord(Repeat(line + "\n", n));
      RepeatCountAsWrittenOf(line, n - 1);
      AsWrittenLineRecord(line, r);
    } else {
      assert Suffixes(Repeat(line + "\n", n)) == [];
    }
  }

  /** As written, a line whose scan to the end of the buffer yields a record
      adds exactly one record before those of the following lines. */
  lemma AsWrittenLineRecord(line: string, rest: string)
    requires '\n' !in line && Sscanf4(CString(line + "\n" + rest)).Some?
    ensures |ParseMountsAsWritten(line + "\n" + rest)| == 1 + |ParseMountsAsWritten(rest)|
  {
    SuffixesCons(line, rest);
    RecordsCons(line + "\n" + rest, Suffixes(rest));
  }

  /** Scanned to the end of the buffer, `n > 0` copies of a well-formed line
      read as that line. */
  lemma RepeatStartsWithRecord(v: MountedVolume, n: nat)
    requires WellFormed(v) && '\0' !in Render(v) && n > 0
    ensures Sscanf4(CString(Repeat(Render(v) + "\n", n))) == Some(v)
  {
    var line := Render(v) + "\n";
    var r := Repeat(line, n - 1);
    assert Repeat(line, n) == line + r;
    NoNulNewline(Render(v));
    RepeatNoNul(line, n - 1);
    ScanFromLineStart(v, r);
  }

  lemma NoNulNewline(line: string)
    requires '\0' !in line
    ensures '\0' !in line + "\n"
  {
  }

  lemma {:induction false} RepeatNoNul(line: string, n: nat)
    requires '\0' !in line
    ensures '\0' !in Repeat(line, n)
    decreases n
  {
    if n > 0 {
      RepeatNoNul(line, n - 1);
    }
  }

  /** A scan that starts at a well-formed line reads that line, whatever
      follows it. */
  lemma ScanFromLineStart(v: MountedVolume, r: string)
    requires WellFormed(v) && '\0' !in Render(v) && '\0' !in r
    ensures '\0' !in Render(v) + "\n" + r
    ensures Sscanf4(CString(Render(v) + "\n" + r)) == Some(v)
  {
    var s := Render(v) + "\n" + r;
    assert s == Render(v) + ("\n" + r);
    Sscanf4Render(v, "\n" + r);
    CStringNoNul(s);
  }

  /** Any well-formed line repeated more than 32 times: as written the scan
      yields more records than the 32 slots allocated, so the 33rd is stored
      in slot 32.  With one-letter fields ("a b c d"), 33 lines take 264
      bytes, well within one read. */
  lemma UncheckedAppendOverflows(v: MountedVolume, n: nat, slots: nat)
    requires WellFormed(v) && '\0' !in Render(v) && slots == 32 && slots < n
    ensures var buf := Repeat(Render(v) + "\n", n);
      |buf| == n * (|Render(v)| + 1) && |ParseMountsAsWritten(buf)| > slots
  {
    RepeatCountAsWritten(v, n);
    RepeatLength(Render(v) + "\n", n);
  }
}
