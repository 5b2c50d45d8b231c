/**
 * The C string and number conventions the modem plugins rely on: g_strsplit,
 * g_string_replace, g_str_has_prefix, ModemManager's mm_strip_tag, atoi and
 * sscanf("%d"), and printf's "%d", "%u" and "%02x". Every parser and
 * command builder of the model is written in terms of these.
 */
module Text {
  import opened Wrappers

  /** A C `guint` / `guint32`. */
  type uint32 = x: int | 0 <= x < 0x1_0000_0000

  /** C `isspace` in the "C" locale. */
  predicate IsSpace(c: char) {
    c == ' ' || c == '\t' || c == '\n' || c == '\U{0B}' || c == '\U{0C}' || c == '\r'
  }

  predicate IsDigit(c: char) {
    '0' <= c <= '9'
  }

  predicate AllDigits(s: string) {
    forall i | 0 <= i < |s| :: IsDigit(s[i])
  }

  function DigitValue(c: char): nat
    requires IsDigit(c)
  {
    c as int - '0' as int
  }

  function DigitChar(d: nat): (c: char)
    requires d < 10
    ensures IsDigit(c) && DigitValue(c) == d
  {
    ('0' as int + d) as char
  }

  /** g_str_has_prefix */
  predicate HasPrefix(s: string, p: string) {
    |p| <= |s| && s[..|p|] == p
  }

  /** The text left after the leading C whitespace of `s`. */
  function SkipSpace(s: string): (r: string)
    ensures |r| <= |s| && r == s[|s| - |r|..]
    ensures r == [] || !IsSpace(r[0])
  {
    if s != [] && IsSpace(s[0]) then SkipSpace(s[1..]) else s
  }

  /** mm_strip_tag: drop `tag` when the text starts with it, then any leading whitespace. */
  function StripTag(s: string, tag: string): (r: string)
    ensures |r| <= |s| && r == s[|s| - |r|..]
  {
    if HasPrefix(s, tag) then SkipSpace(s[|tag|..]) else SkipSpace(s)
  }

  /** g_string_replace (s, c, "", -1): every `c` deleted. */
  function Without(s: string, c: char): (r: string)
    ensures c !in r
    ensures |r| <= |s|
  {
    if s == [] then []
    else if s[0] == c then Without(s[1..], c)
    else [s[0]] + Without(s[1..], c)
  }

  lemma {:induction false} WithoutPlain(s: string, c: char)
    requires c !in s
    ensures Without(s, c) == s
    decreases |s|
  {
    if s != [] {
      WithoutPlain(s[1..], c);
      assert [s[0]] + s[1..] == s;
    }
  }

  lemma {:induction false} WithoutConcat(a: string, b: string, c: char)
    ensures Without(a + b, c) == Without(a, c) + Without(b, c)
    decreases |a|
  {
    if a != [] {
      WithoutConcat(a[1..], b, c);
      assert (a + b)[1..] == a[1..] + b;
    } else {
      assert a + b == b;
    }
  }

  /** g_string_replace (s, c, d, -1) for one-character strings `c` and `d`. */
  function ReplaceChar(s: string, c: char, d: char): (r: string)
  {
    seq(|s|, i requires 0 <= i < |s| => if s[i] == c then d else s[i])
  }

  /** Number of occurrences of `c` in `s`. */
  function Occurrences(s: string, c: char): nat {
    if s == [] then 0 else (if s[0] == c then 1 else 0) + Occurrences(s[1..], c)
  }

  // ---------------------------------------------------------------------------
  // g_strsplit (s, sep, -1)

  /** Splitting a text that may be empty: one more field than separators. */
  function Fields(s: string, sep: char): (r: seq<string>)
    ensures |r| >= 1
  {
    if s == [] then [""]
    else if s[0] == sep then [""] + Fields(s[1..], sep)
    else
      var t := Fields(s[1..], sep);
      [[s[0]] + t[0]] + t[1..]
  }

  /** g_strsplit (s, [sep], -1): GLib yields no field at all for the empty string. */
  function Split(s: string, sep: char): (r: seq<string>)
    ensures s == [] <==> r == []
  {
    if s == [] then [] else Fields(s, sep)
  }

  /** The inverse of Fields: the parts glued back with `sep`. */
  function Join(parts: seq<string>, sep: char): string
  {
    if |parts| == 0 then []
    else if |parts| == 1 then parts[0]
    else parts[0] + [sep] + Join(parts[1..], sep)
  }

  /** Joining one more part appends a separator and the part. */
  lemma {:induction false} JoinSnoc(parts: seq<string>, sep: char, last: string)
    requires |parts| >= 1
    ensures Join(parts + [last], sep) == Join(parts, sep) + [sep] + last
    decreases |parts|
  {
    if |parts| > 1 {
      JoinSnoc(parts[1..], sep, last);
      assert (parts + [last])[1..] == parts[1..] + [last];
    }
  }

  /** Four fields joined: the three separators between them. */
  lemma JoinFour(parts: seq<string>, sep: char)
    requires |parts| == 4
    ensures Join(parts, sep) == parts[0] + [sep] + parts[1] + [sep] + parts[2] + [sep] + parts[3]
  {
    assert parts[1..][1..][1..] == [parts[3]];
    assert Join(parts[2..], sep) == parts[2] + [sep] + parts[3] by {
      assert parts[2..][1..] == [parts[3]];
    }
    assert parts[1..][1..] == parts[2..];
  }

  predicate NoneContains(parts: seq<string>, sep: char) {
    forall i | 0 <= i < |parts| :: sep !in parts[i]
  }

  /** Splitting loses nothing: the fields hold no separator and join back to the text. */
  lemma FieldsJoin(s: string, sep: char)
    ensures Join(Fields(s, sep), sep) == s
    ensures NoneContains(Fields(s, sep), sep)
  {
    FieldsRejoin(s, sep);
    FieldsSeparatorFree(s, sep);
  }

  lemma {:induction false} FieldsRejoin(s: string, sep: char)
    ensures Join(Fields(s, sep), sep) == s
    decreases |s|
  {
    if s == [] {
    } else if s[0] == sep {
      FieldsRejoin(s[1..], sep);
      assert s == [sep] + s[1..];
    } else {
      FieldsRejoin(s[1..], sep);
      var t := Fields(s[1..], sep);
      var r := Fields(s, sep);
      assert r == [[s[0]] + t[0]] + t[1..];
      if |t| == 1 {
        assert s == [s[0]] + s[1..];
      } else {
        assert r[1..] == t[1..];
        assert Join(t, sep) == t[0] + [sep] + Join(t[1..], sep);
        assert s == [s[0]] + s[1..];
      }
    }
  }

  lemma {:induction false} FieldsSeparatorFree(s: string, sep: char)
    ensures NoneContains(Fields(s, sep), sep)
    decreases |s|
  {
    if s != [] {
      FieldsSeparatorFree(s[1..], sep);
      var t := Fields(s[1..], sep);
      var r := Fields(s, sep);
      if s[0] == sep {
        assert r == [""] + t;
        forall i | 0 <= i < |r| ensures sep !in r[i] {
          if i > 0 { assert r[i] == t[i - 1]; }
        }
      } else {
        assert r == [[s[0]] + t[0]] + t[1..];
        forall i | 0 <= i < |r| ensures sep !in r[i] {
          if i > 0 { assert r[i] == t[i]; }
        }
      }
    }
  }

  /** The number of fields is one more than the number of separators. */
  lemma {:induction false} FieldsCount(s: string, sep: char)
    ensures |Fields(s, sep)| == Occurrences(s, sep) + 1
    decreases |s|
  {
    if s != [] {
      FieldsCount(s[1..], sep);
    }
  }

  lemma {:induction false} FieldsOfPlain(a: string, sep: char)
    requires sep !in a
    ensures Fields(a, sep) == [a]
    decreases |a|
  {
    if a != [] {
      FieldsOfPlain(a[1..], sep);
      assert [a[0]] + a[1..] == a;
    }
  }

  lemma {:induction false} FieldsAppend(a: string, sep: char, b: string)
    requires sep !in a
    ensures Fields(a + [sep] + b, sep) == [a] + Fields(b, sep)
    decreases |a|
  {
    var s := a + [sep] + b;
    if a == [] {
      assert s[1..] == b;
    } else {
      assert s[1..] == a[1..] + [sep] + b;
      FieldsAppend(a[1..], sep, b);
      assert [a[0]] + a[1..] == a;
    }
  }

  /** Splitting undoes joining, whenever no part holds the separator. */
  lemma {:induction false} FieldsOfJoin(parts: seq<string>, sep: char)
    requires |parts| >= 1
    requires NoneContains(parts, sep)
    ensures Fields(Join(parts, sep), sep) == parts
    decreases |parts|
  {
    if |parts| == 1 {
      FieldsOfPlain(parts[0], sep);
    } else {
      FieldsOfJoin(parts[1..], sep);
      FieldsAppend(parts[0], sep, Join(parts[1..], sep));
      assert [parts[0]] + parts[1..] == parts;
    }
  }

  // ---------------------------------------------------------------------------
  // Decimal numbers

  function DigitsValue(d: string): nat
    requires AllDigits(d)
  {
    if d == [] then 0 else DigitsValue(d[..|d| - 1]) * 10 + DigitValue(d[|d| - 1])
  }

  /** The longest prefix of `s` made of digits. */
  function LeadingDigits(s: string): (r: string)
    ensures AllDigits(r) && |r| <= |s| && r == s[..|r|]
    ensures |r| == |s| || !IsDigit(s[|r|])
  {
    if s != [] && IsDigit(s[0]) then [s[0]] + LeadingDigits(s[1..]) else []
  }

  /** printf "%u" (and "%d" of a non-negative value). */
  function NatToString(n: nat): (s: string)
    ensures s != [] && AllDigits(s)
  {
    if n < 10 then [DigitChar(n)] else NatToString(n / 10) + [DigitChar(n % 10)]
  }

  /** printf "%d" / "%i". */
  function IntToString(i: int): (s: string)
    ensures s != []
  {
    if i < 0 then "-" + NatToString(-i) else NatToString(i)
  }

  /** printf "%d" of a `guint`: values above G_MAXINT print as the negative int they read as. */
  function GuintAsInt(n: uint32): (s: string)
    ensures n < 0x8000_0000 ==> s == NatToString(n)
  {
    if n < 0x8000_0000 then NatToString(n) else IntToString(n - 0x1_0000_0000)
  }

  /** The integer conversion of sscanf "%d": whitespace, an optional sign, then at least one digit. */
  function ScanInt(s: string): Option<int>
  {
    ScanSigned(SkipSpace(s))
  }

  /** An optional sign and at least one digit at the very start of `t`. */
  function ScanSigned(t: string): Option<int>
  {
    if t != [] && (t[0] == '-' || t[0] == '+') then
      var d := LeadingDigits(t[1..]);
      if d == [] then None
      else if t[0] == '-' then Some(-(DigitsValue(d) as int))
      else Some(DigitsValue(d) as int)
    else
      var d := LeadingDigits(t);
      if d == [] then None else Some(DigitsValue(d) as int)
  }

  /** C atoi: as "%d", but 0 when no number is there. */
  function Atoi(s: string): int {
    ScanInt(s).GetOr(0)
  }

  lemma {:induction false} NatToStringValue(n: nat)
    ensures DigitsValue(NatToString(n)) == n
    decreases n
  {
    if n >= 10 {
      NatToStringValue(n / 10);
      var s := NatToString(n);
      assert s[..|s| - 1] == NatToString(n / 10);
    }
  }

  lemma {:induction false} LeadingDigitsOf(d: string, rest: string)
    requires AllDigits(d)
    requires rest == [] || !IsDigit(rest[0])
    ensures LeadingDigits(d + rest) == d
    decreases |d|
  {
    if d == [] {
    } else {
      assert (d + rest)[1..] == d[1..] + rest;
      LeadingDigitsOf(d[1..], rest);
      assert [d[0]] + d[1..] == d;
    }
  }

  /** Decimal printing and "%d" scanning are inverse: the number comes back, whatever non-digit follows it. */
  lemma ScanIntToString(i: int, rest: string)
    requires rest == [] || !IsDigit(rest[0])
    ensures ScanInt(IntToString(i) + rest) == Some(i)
    ensures Atoi(IntToString(i) + rest) == i
  {
    if i < 0 {
      var n: nat := -i;
      var d := NatToString(n);
      var s := ['-'] + (d + rest);
      assert IntToString(i) + rest == s;
      SkipSpaceNone(s);
      ScanDigits(n, rest);
      assert s[1..] == d + rest;
      NatToStringValue(n);
      assert ScanSigned(s) == Some(i);
    } else {
      var s := NatToString(i) + rest;
      SkipSpaceNone(s);
      ScanDigits(i, rest);
    }
  }

  /** The plain decimal text of a natural number reads back as that number. */
  lemma AtoiNatToString(n: nat)
    ensures ScanInt(NatToString(n)) == Some(n as int)
    ensures Atoi(NatToString(n)) == n
  {
    ScanIntToString(n, []);
    assert IntToString(n) + [] == NatToString(n);
  }

  /** atoi of a plain digit string is its decimal value. */
  lemma AtoiDigits(d: string)
    requires d != [] && AllDigits(d)
    ensures Atoi(d) == DigitsValue(d)
  {
    assert !IsSpace(d[0]) && d[0] != '-' && d[0] != '+' by { assert IsDigit(d[0]); }
    SkipSpaceNone(d);
    LeadingDigitsOf(d, []);
    assert d + [] == d;
    assert LeadingDigits(d) == d;
  }

  lemma SkipSpaceNone(s: string)
    requires s != [] && !IsSpace(s[0])
    ensures SkipSpace(s) == s
  {
  }

  lemma ScanDigits(n: nat, rest: string)
    requires rest == [] || !IsDigit(rest[0])
    ensures LeadingDigits(NatToString(n) + rest) == NatToString(n)
    ensures ScanSigned(NatToString(n) + rest) == Some(n)
  {
    NatToStringValue(n);
    LeadingDigitsOf(NatToString(n), rest);
  }

  /** A digit string that does not start with '0' (or is "0" itself), as printf writes numbers. */
  predicate Canonical(s: string) {
    s != [] && AllDigits(s) && (s[0] == '0' ==> |s| == 1)
  }

  lemma {:induction false} NatToStringCanonical(n: nat)
    ensures Canonical(NatToString(n))
    decreases n
  {
    if n >= 10 {
      NatToStringCanonical(n / 10);
    }
  }

  lemma {:induction false} DigitsValueUnique(s: string, n: nat)
    requires Canonical(s) && DigitsValue(s) == n
    ensures s == NatToString(n)
    decreases |s|
  {
    if |s| == 1 {
    } else {
      var p := s[..|s| - 1];
      assert p[0] == s[0];
      assert Canonical(p);
      DigitsValuePositive(p);
      DigitsValueUnique(p, n / 10);
      assert s == p + [s[|s| - 1]];
    }
  }

  lemma {:induction false} DigitsValuePositive(s: string)
    requires Canonical(s) && |s| >= 1 && s[0] != '0'
    ensures DigitsValue(s) >= 1
    decreases |s|
  {
    if |s| > 1 {
      DigitsValuePositive(s[..|s| - 1]);
    }
  }

  // ---------------------------------------------------------------------------
  // Hexadecimal

  function HexDigit(d: nat): char
    requires d < 16
  {
    if d < 10 then DigitChar(d) else ('a' as int + d - 10) as char
  }

  predicate IsHexDigit(c: char) {
    IsDigit(c) || 'a' <= c <= 'f'
  }

  /** printf "%x" of an unsigned value. */
  function HexString(n: nat): (s: string)
    ensures |s| >= 1
    ensures forall i | 0 <= i < |s| :: IsHexDigit(s[i])
  {
    if n < 16 then [HexDigit(n)] else HexString(n / 16) + [HexDigit(n % 16)]
  }

  /** printf "%02x" of a C int: read as 32-bit unsigned, lower-case hex, zero-padded to two digits. */
  function Hex02(v: int): (s: string)
    ensures |s| >= 2
    ensures forall i | 0 <= i < |s| :: IsHexDigit(s[i])
  {
    var h := HexString(v % 0x1_0000_0000);
    if |h| < 2 then "0" + h else h
  }

  /** A byte value prints as exactly two hex digits, high nibble first. */
  lemma Hex02Byte(v: int)
    requires 0 <= v < 256
    ensures Hex02(v) == [HexDigit(v / 16), HexDigit(v % 16)]
  {
    assert v % 0x1_0000_0000 == v;
    if v >= 16 {
      var hi := v / 16;
      assert hi < 16;
      assert HexString(hi) == [HexDigit(hi)];
      assert HexString(v) == HexString(hi) + [HexDigit(v % 16)];
    } else {
      assert HexString(v) == [HexDigit(v)];
      assert v / 16 == 0;
    }
  }
}
