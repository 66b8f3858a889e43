/** The argument parser of the updater's `set_metadata` built-ins
    (`ParsePermArgs`, updater/install.c): after the path, the arguments come
    in `key, value` pairs; each recognised key whose value parses records a
    setting, later pairs overriding earlier ones, and unknown keys are
    ignored with a warning, at most `MAX_WARNINGS` of them over the life of
    the process. */
module Perms {
  import opened Common

  const MAX_WARNINGS := 20
  const TWO_32 := 0x1_0000_0000
  const TWO_64 := 0x1_0000_0000_0000_0000

  // ------------------------------------------------------------ scanf

  /** The value of a hexadecimal, decimal or octal digit (16 for anything
      else, which is no digit in any of those bases). */
  function DigitVal(c: char): (d: nat)
    ensures d <= 16
  {
    if '0' <= c <= '9' then c as int - '0' as int
    else if 'a' <= c <= 'f' then c as int - 'a' as int + 10
    else if 'A' <= c <= 'F' then c as int - 'A' as int + 10
    else 16
  }

  /** Index just past the run of digits in `base` starting at `i`. */
  function RunIn(s: string, i: nat, base: nat): (j: nat)
    requires i <= |s|
    ensures i <= j <= |s|
    ensures forall k :: i <= k < j ==> DigitVal(s[k]) < base
    ensures j < |s| ==> DigitVal(s[j]) >= base
    decreases |s| - i
  {
    if i == |s| || DigitVal(s[i]) >= base then i else RunIn(s, i + 1, base)
  }

  /** The number a string of digits in `base` denotes. */
  function ValueIn(s: string, base: nat): nat
    requires forall k :: 0 <= k < |s| ==> DigitVal(s[k]) < base
  {
    if s == [] then 0 else ValueIn(s[..|s| - 1], base) * base + DigitVal(s[|s| - 1])
  }

  /** Where the digits start once leading whitespace and a sign are
      skipped, and whether the sign was '-'. */
  function SignEnd(s: string): (r: (bool, nat))
    ensures r.1 <= |s|
  {
    var i := SkipSpaces(s, 0);
    if i < |s| && (s[i] == '-' || s[i] == '+') then (s[i] == '-', i + 1) else (false, i)
  }

  function Signed(negative: bool, v: nat): int {
    if negative then -(v as int) else v
  }

  /** `sscanf(s, "%" SCNd64, &v) == 1`: optional whitespace, an optional
      sign and at least one decimal digit; None when no digit follows. */
  function ScanDecimal(s: string): Option<int> {
    var (negative, start) := SignEnd(s);
    var j := DigitRun(s, start);
    if j == start then None else Some(Signed(negative, DigitsValue(s[start..j])))
  }

  /** `sscanf(s, "%i", &v) == 1`, the base chosen as `strtol` with base 0
      chooses it: "0x" or "0X" starts hexadecimal, any other leading '0'
      octal, anything else decimal.  "0x" with no hex digit after it reads
      as the 0 before the 'x'. */
  function ScanInteger(s: string): Option<int> {
    var (negative, start) := SignEnd(s);
    if start < |s| && s[start] == '0' then
      if start + 1 < |s| && (s[start + 1] == 'x' || s[start + 1] == 'X') then
        var j := RunIn(s, start + 2, 16);
        Some(Signed(negative, ValueIn(s[start + 2..j], 16)))
      else
        var j := RunIn(s, start, 8);
        Some(Signed(negative, ValueIn(s[start..j], 8)))
    else
      var j := DigitRun(s, start);
      if j == start then None else Some(Signed(negative, DigitsValue(s[start..j])))
  }

  /** `%lld` reads back what `%d` prints. */
  lemma ScanDecimalIntToString(n: int)
    ensures ScanDecimal(IntToString(n)) == Some(n)
  {
    var s := IntToString(n);
    var digits := if n < 0 then NatToString(-n) else NatToString(n);
    var start := if n < 0 then 1 else 0;
    assert s[start..] == digits;
    assert !IsSpace(s[0]);
    assert SkipSpaces(s, 0) == 0;
    assert forall k :: start <= k < |s| ==> IsDigit(s[k]) by {
      forall k | start <= k < |s|
        ensures IsDigit(s[k])
      {
        assert s[k] == digits[k - start];
      }
    }
    assert DigitRun(s, start) == |s|;
    assert s[start..|s|] == digits;
    NatToStringValue(if n < 0 then -n else n);
  }

  /** `%i` reads a decimal number back too: `%d` never prints a leading
      zero except for 0 itself, which octal reads the same. */
  lemma ScanIntegerNatToString(n: nat)
    ensures ScanInteger(NatToString(n)) == Some(n)
  {
    var s := NatToString(n);
    assert !IsSpace(s[0]) && s[0] != '-' && s[0] != '+';
    assert SkipSpaces(s, 0) == 0;
    if n == 0 {
      assert s == "0";
      assert RunIn(s, 0, 8) == 1;
      assert s[0..1] == "0";
      assert ValueIn("0", 8) == ValueIn("", 8) * 8 + 0;
    } else {
      LeadingDigit(n);
      assert DigitRun(s, 0) == |s|;
      assert s[0..|s|] == s;
      NatToStringValue(n);
    }
  }

  /** A positive number prints without a leading zero. */
  lemma {:induction false} LeadingDigit(n: nat)
    requires n > 0
    ensures NatToString(n)[0] != '0'
    decreases n
  {
    if n >= 10 {
      LeadingDigit(n / 10);
      assert NatToString(n)[0] == NatToString(n / 10)[0];
    }
  }

  /** The octal and hexadecimal spellings of a mode are read as such. */
  lemma ScanOctalMode()
    ensures ScanInteger("0755") == Some(493)
  {
    var m := "0755";
    assert SkipSpaces(m, 0) == 0;
    assert SignEnd(m) == (false, 0);
    assert m[..3] == "075" && "075"[..2] == "07" && "07"[..1] == "0";
    assert RunIn(m, 0, 8) == 4;
    assert m[0..4] == m;
    assert ValueIn("07", 8) == 7;
    assert ValueIn("075", 8) == 61;
    assert ValueIn(m, 8) == 493;
  }

  lemma ScanHexMode()
    ensures ScanInteger("0x1ff") == Some(511)
  {
    var m := "0x1ff";
    assert SkipSpaces(m, 0) == 0;
    assert SignEnd(m) == (false, 0);
    assert RunIn(m, 2, 16) == 5;
    assert m[2..5] == "1ff" && "1ff"[..2] == "1f" && "1f"[..1] == "1";
    assert ValueIn("1", 16) == 1;
    assert ValueIn("1f", 16) == 31;
    assert ValueIn("1ff", 16) == 511;
  }

  /** A bare "0x" reads as 0; an empty string or one without a digit does
      not read at all. */
  lemma ScanIntegerEdges()
    ensures ScanInteger("0x") == Some(0)
    ensures ScanInteger("") == None && ScanInteger(" x1") == None
  {
    assert RunIn("0x", 2, 16) == 2 && "0x"[2..2] == "";
    assert SkipSpaces(" x1", 0) == 1;
  }

  // ------------------------------------------------------------ settings

  /** The recognised keys. */
  datatype Key = Uid | Gid | Mode | Dmode | Fmode | Capabilities | Selabel

  function KeyOf(name: string): (k: Option<Key>)
    ensures k.Some? <==> name in {"uid", "gid", "mode", "dmode", "fmode", "capabilities", "selabel"}
  {
    if name == "uid" then Some(Uid)
    else if name == "gid" then Some(Gid)
    else if name == "mode" then Some(Mode)
    else if name == "dmode" then Some(Dmode)
    else if name == "fmode" then Some(Fmode)
    else if name == "capabilities" then Some(Capabilities)
    else if name == "selabel" then Some(Selabel)
    else None
  }

  /** A recorded setting: a number as the struct field holds it, or the
      SELinux label. */
  datatype Setting = Num(n: nat) | Label(text: string)

  /** `struct perm_parsed_args`: each `has_*` flag with its value, as an
      Option.  `uid_t`, `gid_t` and `mode_t` are 32-bit unsigned,
      capabilities a 64-bit unsigned. */
  datatype PermArgs = PermArgs(
    uid: Option<nat>, gid: Option<nat>, mode: Option<nat>,
    fmode: Option<nat>, dmode: Option<nat>,
    selabel: Option<string>, capabilities: Option<nat>)

  /** What `memset(&parsed, 0, sizeof(parsed))` leaves: no flag set. */
  const NoPerms := PermArgs(None, None, None, None, None, None, None)

  /** The value of `key`'s pair, as the struct field receives it: uid and
      gid through `%lld` and a 32-bit cast, the modes through `%i` into an
      `int32_t` and then `mode_t`, capabilities through 64-bit `%i`, and
      a label only when it is not empty. */
  function ReadValue(key: Key, value: string): (r: Option<Setting>)
    ensures r.Some? ==> (r.value.Label? <==> key == Selabel)
    ensures r.Some? && r.value.Num? && key != Capabilities ==> r.value.n < TWO_32
    ensures r.Some? && r.value.Num? ==> r.value.n < TWO_64
  {
    match key
    case Uid | Gid =>
      var v := ScanDecimal(value);
      if v.Some? then Some(Num(v.value % TWO_32)) else None
    case Mode | Dmode | Fmode =>
      var v := ScanInteger(value);
      if v.Some? then Some(Num(v.value % TWO_32)) else None
    case Capabilities =>
      var v := ScanInteger(value);
      if v.Some? then Some(Num(v.value % TWO_64)) else None
    case Selabel =>
      if value != "" then Some(Label(value)) else None
  }

  /** The field `key` addresses, with its flag. */
  function Get(p: PermArgs, key: Key): Option<Setting> {
    match key
    case Uid => if p.uid.Some? then Some(Num(p.uid.value)) else None
    case Gid => if p.gid.Some? then Some(Num(p.gid.value)) else None
    case Mode => if p.mode.Some? then Some(Num(p.mode.value)) else None
    case Dmode => if p.dmode.Some? then Some(Num(p.dmode.value)) else None
    case Fmode => if p.fmode.Some? then Some(Num(p.fmode.value)) else None
    case Capabilities => if p.capabilities.Some? then Some(Num(p.capabilities.value)) else None
    case Selabel => if p.selabel.Some? then Some(Label(p.selabel.value)) else None
  }

  /** Store `x` in the field `key` addresses and set its flag. */
  function Set(p: PermArgs, key: Key, x: Setting): (q: PermArgs)
    requires x.Label? <==> key == Selabel
    ensures Get(q, key) == Some(x)
    ensures forall k :: k != key ==> Get(q, k) == Get(p, k)
  {
    match key
    case Uid => p.(uid := Some(x.n))
    case Gid => p.(gid := Some(x.n))
    case Mode => p.(mode := Some(x.n))
    case Dmode => p.(dmode := Some(x.n))
    case Fmode => p.(fmode := Some(x.n))
    case Capabilities => p.(capabilities := Some(x.n))
    case Selabel => p.(selabel := Some(x.text))
  }

  /** What one pair records, if anything: a recognised key whose value
      reads, with that value. */
  function Effect(name: string, value: string): (e: Option<(Key, Setting)>)
    ensures e.Some? ==> (e.value.1.Label? <==> e.value.0 == Selabel)
  {
    var key := KeyOf(name);
    if key.None? then None
    else
      var x := ReadValue(key.value, value);
      if x.None? then None else Some((key.value, x.value))
  }

  /** One pair applied: its effect recorded, or the struct as it was. */
  function Apply(p: PermArgs, name: string, value: string): PermArgs {
    var e := Effect(name, value);
    if e.None? then p else Set(p, e.value.0, e.value.1)
  }

  /** The pairs applied left to right. */
  function Fold(p: PermArgs, pairs: seq<string>): PermArgs
    requires |pairs| % 2 == 0
    decreases |pairs|
  {
    if pairs == [] then p else Fold(Apply(p, pairs[0], pairs[1]), pairs[2..])
  }

  /** The effect of each pair, in order. */
  function Effects(pairs: seq<string>): (es: seq<Option<(Key, Setting)>>)
    requires |pairs| % 2 == 0
    ensures |es| * 2 == |pairs|
    decreases |pairs|
  {
    if pairs == [] then [] else [Effect(pairs[0], pairs[1])] + Effects(pairs[2..])
  }

  /** Entry `i` of `Effects` is the effect of the `i`-th pair. */
  lemma {:induction false} EffectsAt(pairs: seq<string>, i: nat)
    requires |pairs| % 2 == 0 && i < |pairs| / 2
    ensures Effects(pairs)[i] == Effect(pairs[2 * i], pairs[2 * i + 1])
    decreases i
  {
    if i > 0 {
      EffectsAt(pairs[2..], i - 1);
      assert pairs[2..][2 * (i - 1)] == pairs[2 * i];
      assert pairs[2..][2 * (i - 1) + 1] == pairs[2 * i + 1];
    }
  }

  /** What `ParsePermArgs(argc, args)` returns: `args[0]` is the path, keys
      sit at the odd indices and each value at the index after its key. */
  function ParsedFrom(args: seq<string>): PermArgs
    requires |args| % 2 == 1
  {
    Fold(NoPerms, args[1..])
  }

  /** The unknown-key warning budget after the pairs: each unknown key
      costs one while any is left. */
  function WarningsAfter(w: int, pairs: seq<string>): int
    requires |pairs| % 2 == 0
    decreases |pairs|
  {
    if pairs == [] then w
    else WarningsAfter(if KeyOf(pairs[0]).None? && w != 0 then w - 1 else w, pairs[2..])
  }

  function UnknownKeys(pairs: seq<string>): nat
    requires |pairs| % 2 == 0
    decreases |pairs|
  {
    if pairs == [] then 0 else (if KeyOf(pairs[0]).None? then 1 else 0) + UnknownKeys(pairs[2..])
  }

  // ------------------------------------------------------------ properties

  /** Reference definition: the setting the last effect on `key` makes,
      found from the right. */
  function LastSetting(es: seq<Option<(Key, Setting)>>, key: Key): Option<Setting> {
    if es == [] then None
    else
      var later := LastSetting(es[1..], key);
      if later.Some? then later
      else if es[0].Some? && es[0].value.0 == key then Some(es[0].value.1)
      else None
  }

  /** The fold leaves in each field the last setting the pairs make for it,
      and the earlier value where they make none. */
  lemma {:induction false} FoldIsLastSetting(p: PermArgs, pairs: seq<string>, key: Key)
    requires |pairs| % 2 == 0
    ensures var last := LastSetting(Effects(pairs), key);
            Get(Fold(p, pairs), key) == if last.Some? then last else Get(p, key)
    decreases |pairs|
  {
    if pairs != [] {
      FoldIsLastSetting(Apply(p, pairs[0], pairs[1]), pairs[2..], key);
      assert Effects(pairs)[1..] == Effects(pairs[2..]);
    }
  }

  /** A field ends up set exactly when some effect sets it, and then to the
      value of the last such effect. */
  lemma {:induction false} LastSettingIsLast(es: seq<Option<(Key, Setting)>>, key: Key)
    ensures LastSetting(es, key).Some? <==>
              exists i :: 0 <= i < |es| && es[i].Some? && es[i].value.0 == key
    ensures LastSetting(es, key).Some? ==>
              exists i :: 0 <= i < |es| && es[i] == Some((key, LastSetting(es, key).value)) &&
                          forall j :: i < j < |es| ==> !(es[j].Some? && es[j].value.0 == key)
    decreases |es|
  {
    if es != [] {
      var rest := es[1..];
      LastSettingIsLast(rest, key);
      assert forall i :: 0 <= i < |rest| ==> rest[i] == es[i + 1];
      if LastSetting(rest, key).Some? {
        var i :| 0 <= i < |rest| && rest[i] == Some((key, LastSetting(rest, key).value)) &&
                 forall j :: i < j < |rest| ==> !(rest[j].Some? && rest[j].value.0 == key);
        assert es[i + 1] == rest[i];
        assert forall j :: i + 1 < j < |es| ==> es[j] == rest[j - 1];
      }
    }
  }

  /** A pair has an effect only when its key is recognised and its value
      reads; a label is never empty. */
  lemma EffectOf(name: string, value: string)
    ensures Effect(name, value).Some? <==>
              KeyOf(name).Some? && ReadValue(KeyOf(name).value, value).Some?
    ensures Effect(name, value).Some? && Effect(name, value).value.1.Label? ==>
              name == "selabel" && Effect(name, value).value.1 == Label(value) && value != ""
  {
  }

  /** An unknown pair anywhere in the list changes nothing. */
  lemma {:induction false} UnknownPairIgnored(p: PermArgs, before: seq<string>, name: string, value: string, after: seq<string>)
    requires |before| % 2 == 0 && |after| % 2 == 0
    requires KeyOf(name).None?
    ensures Fold(p, before + [name, value] + after) == Fold(p, before + after)
    decreases |before|
  {
    if before == [] {
      assert before + [name, value] + after == [name, value] + after;
      assert ([name, value] + after)[2..] == after;
      assert before + after == after;
    } else {
      var q := Apply(p, before[0], before[1]);
      assert (before + [name, value] + after)[2..] == before[2..] + [name, value] + after;
      assert (before + after)[2..] == before[2..] + after;
      UnknownPairIgnored(q, before[2..], name, value, after);
    }
  }

  /** The budget falls by one per unknown key and stops at zero. */
  lemma {:induction false} WarningsCountDown(w: int, pairs: seq<string>)
    requires |pairs| % 2 == 0 && w >= 0
    ensures WarningsAfter(w, pairs) == Max0(w - UnknownKeys(pairs))
    decreases |pairs|
  {
    if pairs != [] {
      WarningsCountDown(if KeyOf(pairs[0]).None? && w != 0 then w - 1 else w, pairs[2..]);
    }
  }

  function Max0(x: int): nat { if x < 0 then 0 else x }

  // ------------------------------------------------------------ the loop

  /** The process-wide state `ParsePermArgs` keeps: its `static int
      max_warnings`. */
  class PermParser {
    var maxWarnings: int

    constructor()
      ensures maxWarnings == MAX_WARNINGS
    {
      maxWarnings := MAX_WARNINGS;
    }

    /** `for (i = 1; i < argc; i += 2)` over the pairs, trying each key in
        turn; an unknown key spends one warning while any is left.  The
        caller has checked that `argc` is odd. */
    method ParsePermArgs(args: seq<string>) returns (parsed: PermArgs)
      requires |args| % 2 == 1
      modifies this
      ensures parsed == ParsedFrom(args)
      ensures maxWarnings == WarningsAfter(old(maxWarnings), args[1..])
    {
      parsed := NoPerms;
      var i := 1;
      while i < |args|
        invariant 1 <= i <= |args| && i % 2 == 1
        invariant Fold(parsed, args[i..]) == ParsedFrom(args)
        invariant WarningsAfter(maxWarnings, args[i..]) == WarningsAfter(old(maxWarnings), args[1..])
        decreases |args| - i
      {
        assert args[i..][2..] == args[i + 2..];
        ghost var before := parsed;
        var key := KeyOf(args[i]);
        if key.Some? {
          var x := ReadValue(key.value, args[i + 1]);
          if x.Some? {
            parsed := Set(parsed, key.value, x.value);
          }
        } else if maxWarnings != 0 {
          maxWarnings := maxWarnings - 1;
        }
        assert parsed == Apply(before, args[i], args[i + 1]);
        i := i + 2;
      }
      assert args[i..] == [];
    }
  }

  /** What the parse records for each key: the value of the last pair for
      it whose value reads, or nothing when there is none. */
  lemma ParsedFromSettings(args: seq<string>, key: Key)
    requires |args| % 2 == 1
    ensures Get(ParsedFrom(args), key) == LastSetting(Effects(args[1..]), key)
  {
    FoldIsLastSetting(NoPerms, args[1..], key);
  }
}
