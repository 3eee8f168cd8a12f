/** Helpers of flasher/util.py (and their verbatim copies in flasher.py):
    `pipe`, `all_eq`, `dev_name`, plus the string utilities the model needs
    to state a round trip for `dev_name` and to model `os.path.join`. */
module Util {

  datatype Option<T> = None | Some(value: T)

  // ---------------------------------------------------------------------------
  // pipe

  /** `pipe(ins)`: every line with exactly one newline appended, same order. */
  function Pipe(lines: seq<string>): (r: seq<string>)
    ensures |r| == |lines|
  {
    if lines == [] then [] else [lines[0] + "\n"] + Pipe(lines[1..])
  }

  /** Line `i` of the piped input is line `i` with one newline appended. */
  lemma {:induction false} PipeLines(lines: seq<string>)
    ensures forall i :: 0 <= i < |lines| ==> Pipe(lines)[i] == lines[i] + "\n"
    decreases |lines|
  {
    if lines != [] {
      PipeLines(lines[1..]);
      assert forall i :: 1 <= i < |lines| ==> Pipe(lines)[i] == Pipe(lines[1..])[i - 1];
    }
  }

  // ---------------------------------------------------------------------------
  // all_eq

  /** `all_eq(val, seq)`: scans left to right and answers false at the first
      element that differs from `val`; true when no element differs (so true
      for the empty sequence). */
  method AllEq<T(==)>(val: T, s: seq<T>) returns (r: bool)
    ensures r <==> forall i :: 0 <= i < |s| ==> s[i] == val
  {
    for i := 0 to |s|
      invariant forall j :: 0 <= j < i ==> s[j] == val
    {
      if s[i] != val {
        return false;
      }
    }
    return true;
  }

  // ---------------------------------------------------------------------------
  // hex / dev_name

  predicate IsHexDigit(c: char) {
    '0' <= c <= '9' || 'a' <= c <= 'f'
  }

  function HexDigit(d: nat): (c: char)
    requires d < 16
    ensures IsHexDigit(c)
  {
    if d < 10 then ('0' as int + d) as char else ('a' as int + d - 10) as char
  }

  lemma DigitValueOfHexDigit(d: nat)
    requires d < 16
    ensures DigitValue(HexDigit(d)) == Some(d)
  {
  }

  /** Value of a hexadecimal digit character (either case, as `int(s, 16)`). */
  function DigitValue(c: char): Option<nat> {
    if '0' <= c <= '9' then Some(c as nat - '0' as nat)
    else if 'a' <= c <= 'f' then Some(c as nat - 'a' as nat + 10)
    else if 'A' <= c <= 'F' then Some(c as nat - 'A' as nat + 10)
    else None
  }

  /** Lower-case hexadecimal digits of `n`, most significant first, without
      leading zeros (a single "0" for zero). */
  function HexDigits(n: nat): (r: string)
    ensures 1 <= |r|
  {
    if n < 16 then [HexDigit(n)] else HexDigits(n / 16) + [HexDigit(n % 16)]
  }

  /** The digits are hexadecimal digits, and only zero starts with '0'. */
  lemma {:induction false} HexDigitsShape(n: nat)
    ensures forall i :: 0 <= i < |HexDigits(n)| ==> IsHexDigit(HexDigits(n)[i])
    ensures HexDigits(n)[0] == '0' ==> n == 0
  {
    if n >= 16 {
      HexDigitsShape(n / 16);
      assert HexDigits(n)[0] == HexDigits(n / 16)[0];
    }
  }

  /** Python's `hex(n)`: "0x" followed by the digits, with a leading minus
      sign for a negative number. */
  function Hex(n: int): string {
    if n < 0 then "-0x" + HexDigits(-n) else "0x" + HexDigits(n)
  }

  /** Digits read most significant first; None on an empty string or on a
      character that is not a hexadecimal digit. */
  function ParseDigits(s: string): Option<nat>
    decreases |s|
  {
    if s == [] then None
    else
      match DigitValue(s[|s| - 1])
      case None => None
      case Some(d) =>
        if |s| == 1 then Some(d)
        else match ParseDigits(s[..|s| - 1])
          case None => None
          case Some(v) => Some(v * 16 + d)
  }

  /** Reads back the literals `hex` produces: an optional '-', then "0x",
      then at least one hexadecimal digit. */
  function ParseHex(s: string): Option<int> {
    if |s| >= 1 && s[0] == '-' then
      match ParseUnsignedHex(s[1..])
      case None => None
      case Some(v) => Some(0 - v)
    else ParseUnsignedHex(s)
  }

  function ParseUnsignedHex(s: string): Option<nat> {
    if |s| >= 2 && s[0] == '0' && s[1] == 'x' then ParseDigits(s[2..]) else None
  }

  lemma {:induction false} ParseHexDigits(n: nat)
    ensures ParseDigits(HexDigits(n)) == Some(n)
  {
    var s := HexDigits(n);
    if n < 16 {
      assert s == [HexDigit(n)];
      DigitValueOfHexDigit(n);
    } else {
      ParseHexDigits(n / 16);
      assert s[..|s| - 1] == HexDigits(n / 16);
      assert s[|s| - 1] == HexDigit(n % 16);
      DigitValueOfHexDigit(n % 16);
    }
  }

  /** Round trip of one field: `ParseHex(hex(n)) == n` for every integer. */
  lemma HexRoundTrip(n: int)
    ensures ParseHex(Hex(n)) == Some(n)
    ensures forall i :: 0 <= i < |Hex(n)| ==> Hex(n)[i] != '_'
  {
    if n < 0 {
      NegativeHexRoundTrip(n);
    } else {
      UnsignedHexRoundTrip(n);
    }
    HexNoUnderscore(n);
  }

  lemma NegativeHexRoundTrip(n: int)
    requires n < 0
    ensures ParseHex(Hex(n)) == Some(n)
  {
    var d := HexDigits(-n);
    var s := Hex(n);
    assert s == ['-'] + ("0x" + d);
    assert s[1..] == "0x" + d;
    UnsignedHexRoundTrip(-n);
    assert ParseUnsignedHex(s[1..]) == Some(-n);
  }

  lemma UnsignedHexRoundTrip(n: nat)
    ensures ParseUnsignedHex("0x" + HexDigits(n)) == Some(n)
    ensures ParseHex("0x" + HexDigits(n)) == Some(n)
  {
    var s := "0x" + HexDigits(n);
    assert s[0] == '0' && s[1] == 'x' && s[2..] == HexDigits(n);
    ParseHexDigits(n);
  }

  lemma HexNoUnderscore(n: int)
    ensures forall i :: 0 <= i < |Hex(n)| ==> Hex(n)[i] != '_'
  {
    var d := HexDigits(if n < 0 then -n else n);
    HexDigitsShape(if n < 0 then -n else n);
    var p := if n < 0 then "-0x" else "0x";
    assert Hex(n) == p + d;
    forall i | 0 <= i < |Hex(n)|
      ensures Hex(n)[i] != '_'
    {
      if i >= |p| {
        assert Hex(n)[i] == d[i - |p|];
      }
    }
  }

  /** `sep.join(parts)`. */
  function Join(parts: seq<string>, sep: char): string
    decreases |parts|
  {
    if parts == [] then ""
    else if |parts| == 1 then parts[0]
    else parts[0] + [sep] + Join(parts[1..], sep)
  }

  /** `s.split(sep)`: the pieces between separators; always at least one. */
  function Split(s: string, sep: char): (r: seq<string>)
    ensures 1 <= |r|
    decreases |s|
  {
    if s == [] then [""]
    else
      var tail := Split(s[1..], sep);
      if s[0] == sep then [""] + tail
      else [[s[0]] + tail[0]] + tail[1..]
  }

  /** Number of occurrences of `c` in `s`. */
  function Count(s: string, c: char): nat
    decreases |s|
  {
    if s == [] then 0 else (if s[0] == c then 1 else 0) + Count(s[1..], c)
  }

  function HexFields(t: seq<int>): (r: seq<string>)
    ensures |r| == |t|
  {
    if t == [] then [] else [Hex(t[0])] + HexFields(t[1..])
  }

  lemma {:induction false} HexFieldsAt(t: seq<int>)
    ensures forall i :: 0 <= i < |t| ==> HexFields(t)[i] == Hex(t[i])
    decreases |t|
  {
    if t != [] {
      HexFieldsAt(t[1..]);
      assert forall i :: 1 <= i < |t| ==> HexFields(t)[i] == HexFields(t[1..])[i - 1];
    }
  }

  /** `dev_name(tup)`: the fields of the tuple written with `hex` and joined
      by '_'. */
  function DevName(t: seq<int>): string {
    Join(HexFields(t), '_')
  }

  /** Inverse of `DevName`: split at '_' and read each field as a `hex`
      literal; None if some field is not one. */
  function ParseDevName(s: string): Option<seq<int>> {
    ParseFields(Split(s, '_'))
  }

  function ParseFields(fields: seq<string>): Option<seq<int>>
    decreases |fields|
  {
    if fields == [] then Some([])
    else match (ParseHex(fields[0]), ParseFields(fields[1..]))
      case (Some(v), Some(vs)) => Some([v] + vs)
      case _ => None
  }

  lemma {:induction false} SplitNoSep(p: string, sep: char)
    requires forall i :: 0 <= i < |p| ==> p[i] != sep
    ensures Split(p, sep) == [p]
    decreases |p|
  {
    if p != [] {
      SplitNoSep(p[1..], sep);
      assert [p[0]] + p[1..] == p;
    }
  }

  lemma {:induction false} SplitAfterField(p: string, sep: char, rest: string)
    requires forall i :: 0 <= i < |p| ==> p[i] != sep
    ensures Split(p + [sep] + rest, sep) == [p] + Split(rest, sep)
    decreases |p|
  {
    if p == [] {
      assert p + [sep] + rest == [sep] + rest;
      assert ([sep] + rest)[1..] == rest;
    } else {
      SplitAfterField(p[1..], sep, rest);
      var s := p + [sep] + rest;
      assert s[1..] == p[1..] + [sep] + rest;
      assert [p[0]] + p[1..] == p;
    }
  }

  /** Splitting a join of separator-free fields gives the fields back. */
  lemma {:induction false} SplitJoin(parts: seq<string>, sep: char)
    requires 1 <= |parts|
    requires forall k, i :: 0 <= k < |parts| && 0 <= i < |parts[k]| ==> parts[k][i] != sep
    ensures Split(Join(parts, sep), sep) == parts
    decreases |parts|
  {
    if |parts| == 1 {
      SplitNoSep(parts[0], sep);
    } else {
      SplitJoin(parts[1..], sep);
      SplitAfterField(parts[0], sep, Join(parts[1..], sep));
      assert [parts[0]] + parts[1..] == parts;
    }
  }

  lemma {:induction false} CountAppend(a: string, b: string, c: char)
    ensures Count(a + b, c) == Count(a, c) + Count(b, c)
    decreases |a|
  {
    if a != [] {
      CountAppend(a[1..], b, c);
      assert (a + b)[1..] == a[1..] + b;
    } else {
      assert a + b == b;
    }
  }

  lemma {:induction false} CountJoin(parts: seq<string>, sep: char)
    requires 1 <= |parts|
    requires forall k :: 0 <= k < |parts| ==> Count(parts[k], sep) == 0
    ensures Count(Join(parts, sep), sep) == |parts| - 1
    decreases |parts|
  {
    if |parts| > 1 {
      CountJoin(parts[1..], sep);
      CountAppend(parts[0] + [sep], Join(parts[1..], sep), sep);
      CountAppend(parts[0], [sep], sep);
    }
  }

  lemma {:induction false} CountAbsent(s: string, c: char)
    requires forall i :: 0 <= i < |s| ==> s[i] != c
    ensures Count(s, c) == 0
    decreases |s|
  {
    if s != [] {
      CountAbsent(s[1..], c);
    }
  }

  lemma {:induction false} ParseHexFields(t: seq<int>)
    ensures ParseFields(HexFields(t)) == Some(t)
    decreases |t|
  {
    if t != [] {
      HexRoundTrip(t[0]);
      ParseHexFields(t[1..]);
      assert HexFields(t)[1..] == HexFields(t[1..]);
      assert [t[0]] + t[1..] == t;
    }
  }

  /** `dev_name` of an n-tuple (n >= 1) holds exactly n - 1 underscores, and
      splitting it on '_' and reading each field as hex gives the tuple back. */
  lemma DevNameRoundTrip(t: seq<int>)
    requires 1 <= |t|
    ensures Count(DevName(t), '_') == |t| - 1
    ensures |Split(DevName(t), '_')| == |t|
    ensures ParseDevName(DevName(t)) == Some(t)
  {
    var fields := HexFields(t);
    HexFieldsAt(t);
    forall k | 0 <= k < |fields|
      ensures forall i :: 0 <= i < |fields[k]| ==> fields[k][i] != '_'
      ensures Count(fields[k], '_') == 0
    {
      HexRoundTrip(t[k]);
      CountAbsent(fields[k], '_');
    }
    SplitJoin(fields, '_');
    CountJoin(fields, '_');
    ParseHexFields(t);
  }

  lemma AppendAssoc<T>(a: seq<T>, b: seq<T>, c: seq<T>)
    ensures (a + b) + c == a + (b + c)
  {
  }

  // ---------------------------------------------------------------------------
  // os.path.join (two components)

  /** `os.path.join(a, b)`: an absolute `b` replaces `a`; otherwise a '/' is
      inserted unless `a` is empty or already ends in one. */
  function PathJoin(a: string, b: string): string {
    if |b| >= 1 && b[0] == '/' then b
    else if a == [] || a[|a| - 1] == '/' then a + b
    else a + "/" + b
  }

  /** An absolute second component is the result; otherwise the result
      starts with the first component and ends with the second, with at
      most one separator between them. */
  lemma PathJoinShape(a: string, b: string)
    ensures var r := PathJoin(a, b);
      && (|b| >= 1 && b[0] == '/' ==> r == b)
      && ((|b| == 0 || b[0] != '/') ==>
            && |a| + |b| <= |r| <= |a| + |b| + 1
            && r[..|a|] == a && r[|r| - |b|..] == b)
  {
  }
}
