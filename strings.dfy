// The pieces of Rust's String that the PPM writer relies on: the byte
// length `len`, `trim_end`, `ends_with`, `split` on a single character,
// and the decimal `to_string` of an unsigned integer.

module Strings {

  /** The number of bytes of a character in UTF-8, the unit `String::len`
      counts in. */
  function CharBytes(c: char): (n: nat)
    ensures 1 <= n <= 4
    ensures c as int < 0x80 ==> n == 1
  {
    if c as int < 0x80 then 1
    else if c as int < 0x800 then 2
    else if c as int < 0x1_0000 then 3
    else 4
  }

  /** `len`: the length in UTF-8 bytes, at least the number of characters. */
  function ByteLen(s: string): (n: nat)
    ensures |s| <= n <= 4 * |s|
  {
    if |s| == 0 then 0 else CharBytes(s[0]) + ByteLen(s[1..])
  }

  lemma {:induction false} ByteLenAppend(a: string, b: string)
    ensures ByteLen(a + b) == ByteLen(a) + ByteLen(b)
  {
    if |a| > 0 {
      assert (a + b)[1..] == a[1..] + b;
      ByteLenAppend(a[1..], b);
    } else {
      assert a + b == b;
    }
  }

  /** On ASCII text the byte length is the number of characters. */
  lemma {:induction false} ByteLenAscii(s: string)
    requires forall i :: 0 <= i < |s| ==> s[i] as int < 0x80
    ensures ByteLen(s) == |s|
  {
    if |s| > 0 {
      ByteLenAscii(s[1..]);
    }
  }

  /** `char::is_whitespace`: the characters with the Unicode White_Space
      property. */
  predicate IsWhitespace(c: char)
  {
    var k := c as int;
    (0x09 <= k <= 0x0D) || k == 0x20 || k == 0x85 || k == 0xA0 || k == 0x1680
    || (0x2000 <= k <= 0x200A) || k == 0x2028 || k == 0x2029 || k == 0x202F
    || k == 0x205F || k == 0x3000
  }

  /** `trim_end`: the longest prefix that does not end in whitespace; all
      that is cut off is whitespace. */
  function TrimEnd(s: string): (r: string)
    ensures |r| <= |s| && r == s[..|r|]
    ensures |r| == 0 || !IsWhitespace(r[|r| - 1])
    ensures forall i :: |r| <= i < |s| ==> IsWhitespace(s[i])
  {
    if |s| > 0 && IsWhitespace(s[|s| - 1]) then TrimEnd(s[..|s| - 1]) else s
  }

  /** Trimming never lengthens, in bytes either. */
  lemma TrimEndByteLen(s: string)
    ensures ByteLen(TrimEnd(s)) <= ByteLen(s)
  {
    var r := TrimEnd(s);
    assert s == r + s[|r|..];
    ByteLenAppend(r, s[|r|..]);
  }

  /** Trimming a string that ends in a space trims the string without it. */
  lemma TrimEndSpace(s: string)
    requires |s| > 0 && s[|s| - 1] == ' '
    ensures TrimEnd(s) == TrimEnd(s[..|s| - 1])
  {
  }

  /** `trim_end` is idempotent. */
  lemma TrimEndIdempotent(s: string)
    ensures TrimEnd(TrimEnd(s)) == TrimEnd(s)
  {
  }

  /** `ends_with`. */
  predicate EndsWith(s: string, suffix: string)
  {
    |suffix| <= |s| && s[|s| - |suffix|..] == suffix
  }

  /** `split` on a single character: the pieces between the separators, in
      order; a string without separators is one piece, and a separator at
      either end gives an empty piece there. */
  function Split(s: string, sep: char): (pieces: seq<string>)
    ensures |pieces| >= 1
    ensures forall k, i :: 0 <= k < |pieces| && 0 <= i < |pieces[k]| ==> pieces[k][i] != sep
  {
    if |s| == 0 then [""]
    else
      var rest := Split(s[1..], sep);
      if s[0] == sep then [""] + rest
      else [[s[0]] + rest[0]] + rest[1..]
  }

  /** The pieces put back together with the separator between them. */
  function Join(pieces: seq<string>, sep: char): string
  {
    if |pieces| == 0 then ""
    else if |pieces| == 1 then pieces[0]
    else pieces[0] + [sep] + Join(pieces[1..], sep)
  }

  /** Splitting loses nothing: joining the pieces gives back the string. */
  lemma {:induction false} SplitJoin(s: string, sep: char)
    ensures Join(Split(s, sep), sep) == s
  {
    if |s| > 0 {
      var rest := Split(s[1..], sep);
      SplitJoin(s[1..], sep);
      if s[0] == sep {
        assert Split(s, sep) == [""] + rest;
        assert ([""] + rest)[1..] == rest;
        assert s == "" + [sep] + s[1..];
      } else {
        var p := [[s[0]] + rest[0]] + rest[1..];
        assert Split(s, sep) == p;
        if |rest| == 1 {
          assert s == [s[0]] + s[1..];
        } else {
          assert p[1..] == rest[1..];
          assert Join(rest, sep) == rest[0] + [sep] + Join(rest[1..], sep);
          assert s == [s[0]] + s[1..];
        }
      }
    }
  }

  /** The characters of the string that are not whitespace, in order. */
  function Visible(s: string): (v: string)
    ensures |v| <= |s|
  {
    if |s| == 0 then ""
    else if IsWhitespace(s[0]) then Visible(s[1..])
    else [s[0]] + Visible(s[1..])
  }

  lemma {:induction false} VisibleAppend(a: string, b: string)
    ensures Visible(a + b) == Visible(a) + Visible(b)
  {
    if |a| > 0 {
      assert (a + b)[1..] == a[1..] + b;
      VisibleAppend(a[1..], b);
    } else {
      assert a + b == b;
    }
  }

  /** A space adds nothing visible. */
  lemma VisibleSpace(s: string)
    ensures Visible(s + " ") == Visible(s)
  {
    VisibleAppend(s, " ");
  }

  /** Trimming only removes whitespace. */
  lemma VisibleTrimEnd(s: string)
    ensures Visible(TrimEnd(s)) == Visible(s)
  {
    var r := TrimEnd(s);
    assert s == r + s[|r|..];
    VisibleAppend(r, s[|r|..]);
    AllWhitespace(s[|r|..]);
  }

  lemma {:induction false} AllWhitespace(s: string)
    requires forall i :: 0 <= i < |s| ==> IsWhitespace(s[i])
    ensures Visible(s) == ""
  {
    if |s| > 0 {
      AllWhitespace(s[1..]);
    }
  }

  /** Joining with a whitespace separator adds only whitespace. */
  lemma {:induction false} VisibleJoin(pieces: seq<string>, sep: char)
    requires IsWhitespace(sep)
    ensures Visible(Join(pieces, sep)) == VisibleConcat(pieces)
  {
    if |pieces| > 1 {
      VisibleJoin(pieces[1..], sep);
      VisibleAppend(pieces[0] + [sep], Join(pieces[1..], sep));
      VisibleAppend(pieces[0], [sep]);
    }
  }

  /** The visible characters of a sequence of strings, in order. */
  function VisibleConcat(pieces: seq<string>): string
  {
    if |pieces| == 0 then "" else Visible(pieces[0]) + VisibleConcat(pieces[1..])
  }

  /** The lines, each followed by a newline. */
  function Unlines(lines: seq<string>): (s: string)
    ensures |lines| > 0 ==> |s| > 0 && s[|s| - 1] == '\n'
  {
    if |lines| == 0 then "" else lines[0] + "\n" + Unlines(lines[1..])
  }

  lemma {:induction false} UnlinesAppend(a: seq<string>, b: seq<string>)
    ensures Unlines(a + b) == Unlines(a) + Unlines(b)
  {
    if |a| > 0 {
      assert (a + b)[1..] == a[1..] + b;
      UnlinesAppend(a[1..], b);
    } else {
      assert a + b == b;
    }
  }

  /** A decimal digit. */
  function DigitChar(d: nat): (c: char)
    requires d < 10
    ensures '0' <= c <= '9' && c as int - '0' as int == d
  {
    ('0' as int + d) as char
  }

  /** `to_string` of an unsigned integer: its decimal digits, without
      leading zeros. */
  function NatToString(n: nat): (s: string)
    ensures |s| >= 1
    ensures forall i :: 0 <= i < |s| ==> '0' <= s[i] <= '9'
    ensures |s| > 1 ==> s[0] != '0'
  {
    if n < 10 then [DigitChar(n)] else NatToString(n / 10) + [DigitChar(n % 10)]
  }

  /** The value of a string of decimal digits. */
  function DigitsValue(s: string): nat
    requires forall i :: 0 <= i < |s| ==> '0' <= s[i] <= '9'
  {
    if |s| == 0 then 0 else 10 * DigitsValue(s[..|s| - 1]) + (s[|s| - 1] as int - '0' as int)
  }

  /** Reading the digits back gives the number. */
  lemma {:induction false} NatToStringValue(n: nat)
    ensures DigitsValue(NatToString(n)) == n
  {
    if n >= 10 {
      NatToStringValue(n / 10);
      var s := NatToString(n);
      assert s[..|s| - 1] == NatToString(n / 10);
      assert s[|s| - 1] as int - '0' as int == n % 10;
    }
  }

  /** Two different numbers print differently. */
  lemma NatToStringInjective(m: nat, n: nat)
    requires NatToString(m) == NatToString(n)
    ensures m == n
  {
    NatToStringValue(m);
    NatToStringValue(n);
  }

  /** The decimal numbers of the PPM examples. */
  lemma NatToStringExamples()
    ensures NatToString(0) == "0" && NatToString(3) == "3" && NatToString(5) == "5"
    ensures NatToString(255) == "255" && NatToString(128) == "128"
    ensures NatToString(204) == "204" && NatToString(153) == "153"
  {
  }
}
