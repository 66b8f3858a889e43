/** The line parser of the updater's `file_getprop(file, key)` built-in
    (updater/install.c): the file is a getprop-style list of `key=value`
    lines, with blank lines and `#` comments allowed, and the built-in
    answers the value of the first line whose key matches, or "" when no
    line does.  `Tokens`, `ClassifyLine` and `Lookup` say what the parser
    computes; `FindProp` and `ParseLine` walk the buffer as the C code does
    and are proved equal to them. */
module GetProp {
  import opened Common
  import opened Builtins

  const MAX_FILE_GETPROP_SIZE := 65536

  // ------------------------------------------------------------ strtok

  /** Index of the first '\n' of `s`, or `|s|`. */
  function TokenEnd(s: string): (e: nat)
    ensures e <= |s|
    ensures forall k :: 0 <= k < e ==> s[k] != '\n'
    ensures e < |s| ==> s[e] == '\n'
  {
    if s == [] || s[0] == '\n' then 0 else 1 + TokenEnd(s[1..])
  }

  /** `TokenEnd` is the only index with its three properties. */
  lemma {:induction false} TokenEndIs(s: string, e: nat)
    requires e <= |s|
    requires forall k :: 0 <= k < e ==> s[k] != '\n'
    requires e < |s| ==> s[e] == '\n'
    ensures TokenEnd(s) == e
    decreases e
  {
    if e > 0 {
      TokenEndIs(s[1..], e - 1);
    }
  }

  /** The tokens successive `strtok(…, "\n")` calls return: the maximal
      runs of characters other than '\n', in order (empty lines vanish). */
  function Tokens(s: string): (ts: seq<string>)
    ensures forall k :: 0 <= k < |ts| ==> ts[k] != [] && '\n' !in ts[k]
    decreases |s|
  {
    if s == [] then []
    else if s[0] == '\n' then Tokens(s[1..])
    else
      var e := TokenEnd(s);
      [s[..e]] + Tokens(s[e..])
  }

  /** Joining newline-free, non-empty lines with '\n' and tokenizing gives
      the lines back. */
  lemma {:induction false} TokensOfLines(lines: seq<string>)
    requires forall k :: 0 <= k < |lines| ==> lines[k] != [] && '\n' !in lines[k]
    ensures Tokens(JoinLines(lines)) == lines
    decreases |lines|
  {
    if lines != [] {
      var s := JoinLines(lines);
      var first := lines[0];
      assert s == first + "\n" + JoinLines(lines[1..]);
      assert forall k :: 0 <= k < |first| ==> s[k] == first[k];
      TokenEndIs(s, |first|);
      assert s[..|first|] == first;
      assert s[|first|..] == "\n" + JoinLines(lines[1..]);
      assert ("\n" + JoinLines(lines[1..]))[1..] == JoinLines(lines[1..]);
      TokensOfLines(lines[1..]);
    }
  }

  /** Each line followed by '\n'. */
  function JoinLines(lines: seq<string>): string {
    if lines == [] then "" else lines[0] + "\n" + JoinLines(lines[1..])
  }

  // ------------------------------------------------------------ one line

  /** Every character of `s` is whitespace. */
  predicate AllSpace(s: string) {
    forall k :: 0 <= k < |s| ==> IsSpace(s[k])
  }

  /** Index of the first `c` in `t` at or after `i` (or `|t|`): `strchr`. */
  function FindChar(t: string, i: nat, c: char): (j: nat)
    requires i <= |t|
    ensures i <= j <= |t|
    ensures forall k :: i <= k < j ==> t[k] != c
    ensures j < |t| ==> t[j] == c
    decreases |t| - i
  {
    if i == |t| || t[i] == c then i else FindChar(t, i + 1, c)
  }

  /** Where `t[lo..hi]` ends once trailing whitespace is cut off: the least
      `j` such that `t[j..hi]` is all whitespace, never below `lo`. */
  function TrimEnd(t: string, lo: nat, hi: nat): (j: nat)
    requires lo <= hi <= |t|
    ensures lo <= j <= hi
    ensures forall k :: j <= k < hi ==> IsSpace(t[k])
    ensures j > lo ==> !IsSpace(t[j - 1])
    decreases hi - lo
  {
    if hi == lo || !IsSpace(t[hi - 1]) then hi else TrimEnd(t, lo, hi - 1)
  }

  /** What the parser makes of one token. */
  datatype Line = Skip | NoEquals(line: string) | Entry(key: string, value: string)

  /** A line that is blank or starts with '#' once leading whitespace is
      skipped is passed over; a line without '=' is malformed (reported from
      its first non-space character on); otherwise the key is what precedes
      the first '=', without surrounding whitespace, and the value is what
      follows it, without surrounding whitespace. */
  function ClassifyLine(t: string): Line {
    var s := SkipSpaces(t, 0);
    if s == |t| || t[s] == '#' then Skip
    else
      var e := FindChar(t, s, '=');
      if e == |t| then NoEquals(t[s..]) else EntryAt(t, s, e)
  }

  /** The entry of a line whose text starts at `s` and whose first '=' is
      at `e`: the key runs from `s` to the '=', the value from the first
      non-space after it to the end, each without trailing whitespace. */
  function EntryAt(t: string, s: nat, e: nat): Line
    requires s <= e < |t|
  {
    var v := SkipSpaces(t, e + 1);
    Entry(t[s..TrimEnd(t, s, e)], t[v..TrimEnd(t, v, |t|)])
  }

  /** `SkipSpaces`, `FindChar` and `TrimEnd` are the only indices with
      their properties. */
  lemma SkipSpacesIs(t: string, i: nat, j: nat)
    requires i <= j <= |t|
    requires forall k :: i <= k < j ==> IsSpace(t[k])
    requires j < |t| ==> !IsSpace(t[j])
    ensures SkipSpaces(t, i) == j
  {
  }

  lemma FindCharIs(t: string, i: nat, c: char, j: nat)
    requires i <= j <= |t|
    requires forall k :: i <= k < j ==> t[k] != c
    requires j < |t| ==> t[j] == c
    ensures FindChar(t, i, c) == j
  {
  }

  lemma TrimEndIs(t: string, lo: nat, hi: nat, j: nat)
    requires lo <= j <= hi <= |t|
    requires forall k :: j <= k < hi ==> IsSpace(t[k])
    requires j > lo ==> !IsSpace(t[j - 1])
    ensures TrimEnd(t, lo, hi) == j
  {
  }

  /** Keys and values carry no surrounding whitespace, a key holds no '='
      (the first '=' ends it) and does not start with '#'. */
  lemma ClassifyLineTrimmed(t: string)
    ensures ClassifyLine(t).Entry? ==>
              var key, value := ClassifyLine(t).key, ClassifyLine(t).value;
              '=' !in key &&
              (key != [] ==> !IsSpace(key[0]) && !IsSpace(key[|key| - 1]) && key[0] != '#') &&
              (value != [] ==> !IsSpace(value[0]) && !IsSpace(value[|value| - 1]))
  {
    if ClassifyLine(t).Entry? {
      var s, e := EntryEquals(t);
      EntryTrimmed(t, s, e);
    }
  }

  /** `ClassifyLineTrimmed` on indices. */
  lemma EntryTrimmed(t: string, s: nat, e: nat)
    requires s == SkipSpaces(t, 0) && s < |t| && t[s] != '#'
    requires e == FindChar(t, s, '=') && e < |t|
    ensures var key, value := EntryAt(t, s, e).key, EntryAt(t, s, e).value;
            '=' !in key &&
            (key != [] ==> !IsSpace(key[0]) && !IsSpace(key[|key| - 1]) && key[0] != '#') &&
            (value != [] ==> !IsSpace(value[0]) && !IsSpace(value[|value| - 1]))
  {
    var ke := TrimEnd(t, s, e);
    var v := SkipSpaces(t, e + 1);
    var ve := TrimEnd(t, v, |t|);
    NoCharSlice(t, s, ke, '=');
    SliceEnds(t, s, ke);
    SliceEnds(t, v, ve);
  }

  lemma NoCharSlice(t: string, i: nat, j: nat, c: char)
    requires i <= j <= |t|
    requires forall k :: i <= k < j ==> t[k] != c
    ensures c !in t[i..j]
  {
    assert forall k :: 0 <= k < j - i ==> t[i..j][k] == t[i + k];
  }

  lemma SliceEnds(t: string, i: nat, j: nat)
    requires i <= j <= |t|
    ensures i < j ==> t[i..j][0] == t[i] && t[i..j][j - i - 1] == t[j - 1]
  {
  }

  /** A comment line or a blank line, whatever whitespace precedes it, is
      passed over. */
  lemma ClassifySkipped(pre: string, rest: string)
    requires AllSpace(pre)
    requires rest == [] || rest[0] == '#'
    ensures ClassifyLine(pre + rest) == Skip
  {
    var t := pre + rest;
    assert forall k :: 0 <= k < |pre| ==> t[k] == pre[k];
    SkipSpacesIs(t, 0, |pre|);
  }

  /** A line without '=' is reported as malformed from its first
      non-space character on. */
  lemma ClassifyMalformed(pre: string, l: string)
    requires AllSpace(pre)
    requires l != [] && !IsSpace(l[0]) && l[0] != '#' && '=' !in l
    ensures ClassifyLine(pre + l) == NoEquals(l)
  {
    var t := pre + l;
    assert forall k :: 0 <= k < |pre| ==> t[k] == pre[k];
    assert forall k :: |pre| <= k < |t| ==> t[k] == l[k - |pre|];
    SkipSpacesIs(t, 0, |pre|);
    FindCharIs(t, |pre|, '=', |t|);
    assert t[|pre|..] == l;
  }

  /** A well-formed `key=value` line is read back as that entry, whatever
      whitespace surrounds the key, the '=' and the value. */
  lemma ClassifyEntryRoundTrip(pre: string, key: string, mid1: string, mid2: string, value: string, post: string)
    requires AllSpace(pre) && AllSpace(mid1) && AllSpace(mid2) && AllSpace(post)
    requires key != [] && !IsSpace(key[0]) && !IsSpace(key[|key| - 1]) && key[0] != '#' && '=' !in key
    requires value == [] || (!IsSpace(value[0]) && !IsSpace(value[|value| - 1]))
    ensures ClassifyLine(pre + key + mid1 + "=" + mid2 + value + post) == Entry(key, value)
  {
    var t := pre + key + mid1 + "=" + mid2 + value + post;
    var s := |pre|;
    var ke := s + |key|;
    var e := ke + |mid1|;
    var v := e + 1 + |mid2|;
    var ve := v + |value|;
    assert forall k :: 0 <= k < s ==> t[k] == pre[k];
    assert forall k :: s <= k < ke ==> t[k] == key[k - s];
    assert forall k :: ke <= k < e ==> t[k] == mid1[k - ke];
    assert t[e] == '=';
    assert forall k :: e < k < v ==> t[k] == mid2[k - e - 1];
    assert forall k :: v <= k < ve ==> t[k] == value[k - v];
    assert forall k :: ve <= k < |t| ==> t[k] == post[k - ve];
    SliceIs(t, s, ke, key);
    SliceIs(t, v, ve, value);
    ClassifyEntryAt(t, s, ke, e, v, ve);
  }

  /** `ClassifyEntryRoundTrip` on indices: `t[s..ke]` is the key and
      `t[v..ve]` the value, whitespace lies between them and the '=' at
      `e`. */
  lemma ClassifyEntryAt(t: string, s: nat, ke: nat, e: nat, v: nat, ve: nat)
    requires s < ke <= e < v <= ve <= |t| && t[e] == '='
    requires forall k :: 0 <= k < s ==> IsSpace(t[k])
    requires !IsSpace(t[s]) && t[s] != '#' && !IsSpace(t[ke - 1])
    requires forall k :: s <= k < ke ==> t[k] != '='
    requires forall k :: ke <= k < e ==> IsSpace(t[k])
    requires forall k :: e < k < v ==> IsSpace(t[k])
    requires v < ve ==> !IsSpace(t[v]) && !IsSpace(t[ve - 1])
    requires forall k :: ve <= k < |t| ==> IsSpace(t[k])
    ensures ClassifyLine(t) == Entry(t[s..ke], t[v..ve])
  {
    SkipSpacesIs(t, 0, s);
    FindCharIs(t, s, '=', e);
    TrimEndIs(t, s, e, ke);
    EntryIs(t, s, e);
    ValueAt(t, e, v, ve);
  }

  /** The value after the '=' at `e` is `t[v..ve]` when whitespace lies
      around it. */
  lemma ValueAt(t: string, e: nat, v: nat, ve: nat)
    requires e < v <= ve <= |t|
    requires forall k :: e < k < v ==> IsSpace(t[k])
    requires v < ve ==> !IsSpace(t[v]) && !IsSpace(t[ve - 1])
    requires forall k :: ve <= k < |t| ==> IsSpace(t[k])
    ensures var v' := SkipSpaces(t, e + 1); t[v'..TrimEnd(t, v', |t|)] == t[v..ve]
  {
    if v == ve {
      SkipSpacesIs(t, e + 1, |t|);
      assert t[|t|..TrimEnd(t, |t|, |t|)] == [] == t[v..ve];
    } else {
      SkipSpacesIs(t, e + 1, v);
      TrimEndIs(t, v, |t|, ve);
    }
  }

  lemma SpacesAt(t: string, i: nat, j: nat, sp: string)
    requires i <= j <= |t| && t[i..j] == sp && AllSpace(sp)
    ensures forall k :: i <= k < j ==> IsSpace(t[k])
  {
    forall k | i <= k < j ensures IsSpace(t[k]) {
      assert t[k] == sp[k - i];
    }
  }

  lemma NoEqualsAt(t: string, i: nat, j: nat, w: string)
    requires i <= j <= |t| && t[i..j] == w && '=' !in w
    ensures forall k :: i <= k < j ==> t[k] != '='
  {
    forall k | i <= k < j ensures t[k] != '=' {
      assert t[k] == w[k - i];
    }
  }

  /** Conversely, every entry the parser reads comes from a line of that
      shape. */
  lemma ClassifyEntryShape(t: string) returns (pre: string, mid1: string, mid2: string, post: string)
    requires ClassifyLine(t).Entry?
    ensures AllSpace(pre) && AllSpace(mid1) && AllSpace(mid2) && AllSpace(post)
    ensures t == pre + ClassifyLine(t).key + mid1 + "=" + mid2 + ClassifyLine(t).value + post
  {
    var s, e := EntryEquals(t);
    pre, mid1, mid2, post := EntryPieces(t, s, e);
  }

  /** `ClassifyEntryShape` on indices: the pieces around the key that
      starts at `s` and the '=' at `e`. */
  lemma EntryPieces(t: string, s: nat, e: nat) returns (pre: string, mid1: string, mid2: string, post: string)
    requires s == SkipSpaces(t, 0) && s <= e == FindChar(t, s, '=') < |t|
    ensures AllSpace(pre) && AllSpace(mid1) && AllSpace(mid2) && AllSpace(post)
    ensures var v := SkipSpaces(t, e + 1);
            t == pre + t[s..TrimEnd(t, s, e)] + mid1 + "=" + mid2 + t[v..TrimEnd(t, v, |t|)] + post
  {
    var ke := TrimEnd(t, s, e);
    var v := SkipSpaces(t, e + 1);
    var ve := TrimEnd(t, v, |t|);
    pre, mid1, mid2, post := t[0..s], t[ke..e], t[e + 1..v], t[ve..|t|];
    SplitSeven(t, s, ke, e, v, ve);
    SpacesSlice(t, 0, s);
    SpacesSlice(t, ke, e);
    SpacesSlice(t, e + 1, v);
    SpacesSlice(t, ve, |t|);
  }

  /** Cutting `t` at five indices around the character at `e`. */
  lemma SplitSeven(t: string, s: nat, ke: nat, e: nat, v: nat, ve: nat)
    requires s <= ke <= e < v <= ve <= |t|
    ensures t == t[0..s] + t[s..ke] + t[ke..e] + [t[e]] + t[e + 1..v] + t[v..ve] + t[ve..|t|]
  {
    PrefixGrows(t, s, ke);
    PrefixGrows(t, ke, e);
    PrefixGrows(t, e, e + 1);
    assert t[e..e + 1] == [t[e]];
    PrefixGrows(t, e + 1, v);
    PrefixGrows(t, v, ve);
    PrefixGrows(t, ve, |t|);
    assert t[..|t|] == t;
    assert t[0..s] == t[..s] && t[ve..|t|] == t[ve..];
  }

  /** Where an entry line's text starts and where its '=' is. */
  lemma EntryEquals(t: string) returns (s: nat, e: nat)
    requires ClassifyLine(t).Entry?
    ensures s == SkipSpaces(t, 0) && s < |t| && t[s] != '#'
    ensures e == FindChar(t, s, '=') && e < |t|
    ensures ClassifyLine(t) == EntryAt(t, s, e)
  {
    s := SkipSpaces(t, 0);
    e := FindChar(t, s, '=');
  }

  /** The converse of `EntryEquals`: a line whose text does not start with
      '#' and holds an '=' is an entry. */
  lemma EntryIs(t: string, s: nat, e: nat)
    requires s == SkipSpaces(t, 0) && s < |t| && t[s] != '#'
    requires e == FindChar(t, s, '=') && e < |t|
    ensures ClassifyLine(t) == EntryAt(t, s, e)
  {
  }

  lemma SkippedIs(t: string, s: nat)
    requires s == SkipSpaces(t, 0) && (s == |t| || t[s] == '#')
    ensures ClassifyLine(t) == Skip
  {
  }

  lemma MalformedIs(t: string, s: nat)
    requires s == SkipSpaces(t, 0) && s < |t| && t[s] != '#'
    requires FindChar(t, s, '=') == |t|
    ensures ClassifyLine(t) == NoEquals(t[s..])
  {
  }

  lemma SpacesSlice(t: string, i: nat, j: nat)
    requires i <= j <= |t|
    requires forall k :: i <= k < j ==> IsSpace(t[k])
    ensures AllSpace(t[i..j])
  {
  }

  /** A slice that agrees with `w` at every position is `w`. */
  lemma SliceIs(t: string, i: nat, j: nat, w: string)
    requires i <= j <= |t| && |w| == j - i
    requires forall k :: i <= k < j ==> t[k] == w[k - i]
    ensures t[i..j] == w
  {
    assert forall k :: 0 <= k < |w| ==> t[i..j][k] == t[i + k];
  }

  lemma PrefixGrows(t: string, i: nat, j: nat)
    requires i <= j <= |t|
    ensures t[..i] + t[i..j] == t[..j]
  {
  }

  /** `ParseLine` walks one token as the C loop does: skip leading
      whitespace, look for '=', move the key's last character back over
      whitespace, skip whitespace after '=', and move the value's last
      character back over whitespace.  It reads the key and value out as
      slices where the C code writes NULs into the buffer. */
  method ParseLine(t: string) returns (r: Line)
    ensures r == ClassifyLine(t)
  {
    var s := SkipWhitespace(t, 0);
    if s == |t| || t[s] == '#' {
      SkippedIs(t, s);
      return Skip;
    }
    var equal := FindEquals(t, s);
    if equal == |t| {
      MalformedIs(t, s);
      return NoEquals(t[s..]);
    }
    EntryIs(t, s, equal);
    r := ParseEntry(t, s, equal);
  }

  /** The key and value of a line whose text starts at `s` and whose first
      '=' is at `equal`. */
  method ParseEntry(t: string, s: nat, equal: nat) returns (r: Line)
    requires s == SkipSpaces(t, 0) && s <= equal < |t|
    ensures r == EntryAt(t, s, equal)
  {
    var keyEnd := BackOverWhitespace(t, s, equal);
    var valStart := SkipWhitespace(t, equal + 1);
    var valEnd := BackOverWhitespace(t, valStart, |t|);
    r := Entry(t[s..keyEnd + 1], t[valStart..valEnd + 1]);
  }

  /** `while (*p && isspace(*p)) ++p;` from index `i`. */
  method SkipWhitespace(t: string, i: nat) returns (j: nat)
    requires i <= |t|
    ensures j == SkipSpaces(t, i)
  {
    j := i;
    while j < |t| && IsSpace(t[j])
      invariant i <= j <= |t|
      invariant SkipSpaces(t, j) == SkipSpaces(t, i)
    {
      j := j + 1;
    }
  }

  /** `strchr(p, '=')` from index `s`, with `|t|` for NULL. */
  method FindEquals(t: string, s: nat) returns (j: nat)
    requires s <= |t|
    ensures j == FindChar(t, s, '=')
  {
    j := s;
    while j < |t| && t[j] != '='
      invariant s <= j <= |t|
      invariant FindChar(t, j, '=') == FindChar(t, s, '=')
    {
      j := j + 1;
    }
  }

  /** `end = lo + len - 1; while (end > lo && isspace(*end)) --end;` over
      `t[lo..hi]`: `end + 1 == TrimEnd(t, lo, hi)`.  The loop never tests
      `t[lo]`, which is why it must not be whitespace. */
  method BackOverWhitespace(t: string, lo: nat, hi: nat) returns (end: int)
    requires lo <= hi <= |t|
    requires lo < hi ==> !IsSpace(t[lo])
    ensures end + 1 == TrimEnd(t, lo, hi)
  {
    end := hi - 1;
    while end > lo && IsSpace(t[end])
      invariant lo - 1 <= end < hi
      invariant TrimEnd(t, lo, end + 1) == TrimEnd(t, lo, hi)
    {
      end := end - 1;
    }
  }

  // ------------------------------------------------------------ the file

  /** Every token classified, in order. */
  function Classify(tokens: seq<string>): (ls: seq<Line>)
    ensures |ls| == |tokens|
    ensures forall i :: 0 <= i < |tokens| ==> ls[i] == ClassifyLine(tokens[i])
  {
    if tokens == [] then [] else [ClassifyLine(tokens[0])] + Classify(tokens[1..])
  }

  /** The outcome of looking a key up: its value, no such key, or the first
      malformed line met before it; `NullDeref` is what the parser as
      written does on a file with no line at all. */
  datatype PropResult = Found(value: string) | Absent | Malformed(line: string) | NullDeref

  /** Lines are read in order until the key is found or a malformed line
      stops the scan. */
  function Lookup(lines: seq<Line>, key: string): (r: PropResult)
    ensures !r.NullDeref?
  {
    if lines == [] then Absent
    else
      match lines[0]
      case Skip => Lookup(lines[1..], key)
      case NoEquals(l) => Malformed(l)
      case Entry(k, v) => if k == key then Found(v) else Lookup(lines[1..], key)
  }

  /** A line that leaves the scan going past it: skipped, or another key. */
  predicate PassesOver(line: Line, key: string) {
    line.Skip? || (line.Entry? && line.key != key)
  }

  /** The first matching line wins: the lookup finds `v` exactly when some
      line is an entry for `key` with value `v` and every line before it is
      skipped or holds another key. */
  lemma LookupFound(lines: seq<Line>, key: string, v: string)
    ensures Lookup(lines, key) == Found(v) <==>
              exists i :: 0 <= i < |lines| && lines[i] == Entry(key, v) &&
                          forall j :: 0 <= j < i ==> PassesOver(lines[j], key)
  {
    if Lookup(lines, key) == Found(v) {
      LookupFoundAt(lines, key, v);
    }
    if exists i :: 0 <= i < |lines| && lines[i] == Entry(key, v) &&
                   forall j :: 0 <= j < i ==> PassesOver(lines[j], key) {
      var i :| 0 <= i < |lines| && lines[i] == Entry(key, v) &&
               forall j :: 0 <= j < i ==> PassesOver(lines[j], key);
      FoundAtLookup(lines, key, v, i);
    }
  }

  lemma {:induction false} LookupFoundAt(lines: seq<Line>, key: string, v: string)
    requires Lookup(lines, key) == Found(v)
    ensures exists i :: 0 <= i < |lines| && lines[i] == Entry(key, v) &&
                        forall j :: 0 <= j < i ==> PassesOver(lines[j], key)
    decreases |lines|
  {
    if lines[0] != Entry(key, v) {
      LookupFoundAt(lines[1..], key, v);
      var i :| 0 <= i < |lines[1..]| && lines[1..][i] == Entry(key, v) &&
               forall j :: 0 <= j < i ==> PassesOver(lines[1..][j], key);
      assert lines[i + 1] == Entry(key, v);
      assert forall j :: 0 <= j < i + 1 ==> PassesOver(lines[j], key) by {
        forall j | 0 <= j < i + 1
          ensures PassesOver(lines[j], key)
        {
          if j > 0 {
            assert lines[j] == lines[1..][j - 1];
          }
        }
      }
    }
  }

  lemma {:induction false} FoundAtLookup(lines: seq<Line>, key: string, v: string, i: nat)
    requires i < |lines| && lines[i] == Entry(key, v)
    requires forall j :: 0 <= j < i ==> PassesOver(lines[j], key)
    ensures Lookup(lines, key) == Found(v)
    decreases i
  {
    if i > 0 {
      assert PassesOver(lines[0], key);
      assert lines[1..][i - 1] == lines[i];
      FoundAtLookup(lines[1..], key, v, i - 1);
    }
  }

  /** The key is absent exactly when every line is skipped or holds another
      key: a file without the key and without malformed lines answers "". */
  lemma {:induction false} LookupAbsent(lines: seq<Line>, key: string)
    ensures Lookup(lines, key) == Absent <==> forall j :: 0 <= j < |lines| ==> PassesOver(lines[j], key)
    decreases |lines|
  {
    if lines != [] {
      LookupAbsent(lines[1..], key);
      assert forall j :: 1 <= j < |lines| ==> lines[j] == lines[1..][j - 1];
    }
  }

  /** A malformed line stops the scan only when every line before it is
      skipped or holds another key. */
  lemma {:induction false} LookupMalformed(lines: seq<Line>, key: string, l: string)
    requires Lookup(lines, key) == Malformed(l)
    ensures exists i :: 0 <= i < |lines| && lines[i] == NoEquals(l) &&
                        forall j :: 0 <= j < i ==> PassesOver(lines[j], key)
    decreases |lines|
  {
    if lines[0] != NoEquals(l) {
      LookupMalformed(lines[1..], key, l);
      var i :| 0 <= i < |lines[1..]| && lines[1..][i] == NoEquals(l) &&
               forall j :: 0 <= j < i ==> PassesOver(lines[1..][j], key);
      assert lines[i + 1] == NoEquals(l);
      assert forall j :: 0 <= j < i + 1 ==> PassesOver(lines[j], key) by {
        forall j | 0 <= j < i + 1
          ensures PassesOver(lines[j], key)
        {
          if j > 0 {
            assert lines[j] == lines[1..][j - 1];
          }
        }
      }
    }
  }

  /** What the parser computes on a buffer. */
  function LookupIn(buf: string, key: string): PropResult {
    Lookup(Classify(Tokens(buf)), key)
  }

  /** The loop as written is a `do … while` over `strtok`: its first pass
      reads the first token without checking that there is one. */
  function LookupAsWritten(buf: string, key: string): PropResult {
    if Tokens(buf) == [] then NullDeref else LookupIn(buf, key)
  }

  /** An empty file, or one holding only newlines, is a file in which no key
      is defined, yet the parser as written dereferences the NULL `strtok`
      returns for it; the corrected lookup answers "no such key". */
  lemma EmptyFileAsWritten(key: string)
    ensures LookupAsWritten("", key) == NullDeref
    ensures LookupAsWritten("\n\n", key) == NullDeref
    ensures LookupIn("", key) == Absent && LookupIn("\n\n", key) == Absent
  {
    assert "\n\n"[1..] == "\n";
    assert "\n"[1..] == "";
  }

  /** The two agree on every file with at least one line. */
  lemma AsWrittenAgreesOnLines(buf: string, key: string)
    requires Tokens(buf) != []
    ensures LookupAsWritten(buf, key) == LookupIn(buf, key)
  {
  }

  lemma TokensSkipNewline(s: string, i: nat)
    requires i < |s| && s[i] == '\n'
    ensures Tokens(s[i..]) == Tokens(s[i + 1..])
  {
    assert s[i..][1..] == s[i + 1..];
  }

  lemma TokensSplit(s: string, i: nat, e: nat)
    requires i < e <= |s| && s[i] != '\n'
    requires forall k :: i <= k < e ==> s[k] != '\n'
    requires e < |s| ==> s[e] == '\n'
    ensures Tokens(s[i..]) == [s[i..e]] + Tokens(s[e..])
  {
    var t := s[i..];
    TokenEndIs(t, e - i);
    assert t[..e - i] == s[i..e];
    assert t[e - i..] == s[e..];
  }

  lemma ClassifyCons(t: string, rest: seq<string>)
    ensures Classify([t] + rest) == [ClassifyLine(t)] + Classify(rest)
  {
    assert ([t] + rest)[1..] == rest;
  }

  /** `FindProp` walks the buffer line by line as the `strtok` loop does,
      stopping at the first malformed line or matching key. */
  method FindProp(buf: string, key: string) returns (r: PropResult)
    ensures r == LookupIn(buf, key)
  {
    var i := 0;
    while i < |buf|
      invariant 0 <= i <= |buf|
      invariant LookupIn(buf[i..], key) == LookupIn(buf, key)
      decreases |buf| - i
    {
      if buf[i] == '\n' {
        TokensSkipNewline(buf, i);
        i := i + 1;
      } else {
        var e := i;
        while e < |buf| && buf[e] != '\n'
          invariant i <= e <= |buf|
          invariant forall k :: i <= k < e ==> buf[k] != '\n'
        {
          e := e + 1;
        }
        TokensSplit(buf, i, e);
        ghost var rest := Tokens(buf[e..]);
        ClassifyCons(buf[i..e], rest);
        ghost var lines := [ClassifyLine(buf[i..e])] + Classify(rest);
        assert lines[1..] == Classify(rest);
        var line := ParseLine(buf[i..e]);
        match line {
          case Skip =>
          case NoEquals(l) =>
            return Malformed(l);
          case Entry(k, v) =>
            if k == key {
              return Found(v);
            }
        }
        i := e;
      }
    }
    assert buf[i..] == [];
    r := Absent;
  }

  /** `file_getprop(file, key)` given the file's contents (None when it
      cannot be stat'ed, opened or read): a file over 64 KiB or a malformed
      line before the key aborts; the text is read up to its first NUL.
      Only the first two arguments are evaluated; any further ones are
      ignored. */
  function FileGetPropReply(args: seq<Option<string>>, file: Option<string>): Value
    requires |args| >= 2
  {
    if !AllEvaluated(args[..2]) then Null
    else if file.None? || |file.value| > MAX_FILE_GETPROP_SIZE then Aborted
    else
      match LookupIn(CString(file.value), args[1].value)
      case Found(v) => Str(v)
      case Absent => Str("")
      case Malformed(_) => Aborted
      case NullDeref => Aborted
  }

  /** `file_getprop` answers the value of the first entry for the key, ""
      when the file defines no such key, and aborts on an unreadable or
      oversized file or on a malformed line met first. */
  lemma FileGetPropProperties(args: seq<Option<string>>, file: Option<string>)
    requires |args| >= 2 && AllEvaluated(args[..2])
    ensures var r := FileGetPropReply(args, file);
            var key := args[1].value;
            (file.None? || |file.value| > MAX_FILE_GETPROP_SIZE ==> r == Aborted) &&
            (file.Some? && |file.value| <= MAX_FILE_GETPROP_SIZE ==>
               var lines := Classify(Tokens(CString(file.value)));
               (r.Str? <==> !Lookup(lines, key).Malformed?) &&
               (r == Str("") <==> Lookup(lines, key) == Absent || Lookup(lines, key) == Found("")) &&
               ((forall j :: 0 <= j < |lines| ==> PassesOver(lines[j], key)) ==> r == Str("")) &&
               (forall v :: r == Str(v) && v != "" ==> Lookup(lines, key) == Found(v)))
  {
    if file.Some? && |file.value| <= MAX_FILE_GETPROP_SIZE {
      LookupAbsent(Classify(Tokens(CString(file.value))), args[1].value);
    }
  }

  method FileGetPropFn(args: seq<Option<string>>, file: Option<string>) returns (v: Value)
    requires |args| >= 2
    ensures v == FileGetPropReply(args, file)
  {
    if !AllEvaluated(args[..2]) {
      return Null;
    }
    if file.None? || |file.value| > MAX_FILE_GETPROP_SIZE {
      return Aborted;
    }
    var r := FindProp(CString(file.value), args[1].value);
    match r {
      case Found(value) => v := Str(value);
      case Absent => v := Str("");
      case Malformed(_) => v := Aborted;
      case NullDeref => v := Aborted;
    }
  }
}
