// The canvas: a grid of colours written pixel by pixel, and its rendering
// as plain-text PPM (P3) with pixel rows wrapped at 70 bytes.

module Canvases {
  import opened Util
  import opened Colours
  import opened Strings

  /** The longest pixel line, in bytes, that `to_ppm` writes unwrapped. */
  const LINE_LIMIT: nat := 70

  /** `height` rows of `width` pixels each. */
  predicate Grid(pixels: seq<seq<Colour>>, width: nat, height: nat)
  {
    |pixels| == height && forall y :: 0 <= y < |pixels| ==> |pixels[y]| == width
  }

  /** The pixels of a new canvas: every one BLACK. */
  function Blank(width: nat, height: nat): (p: seq<seq<Colour>>)
    ensures Grid(p, width, height)
    ensures forall y, x :: 0 <= y < height && 0 <= x < width ==> p[y][x] == Black
  {
    seq(height, _ => seq(width, _ => Black))
  }

  /** The pixels with the one in column `x` of row `y` replaced: that pixel
      reads `c` afterwards and every other pixel is unchanged. */
  function WithPixel(pixels: seq<seq<Colour>>, x: nat, y: nat, c: Colour): (p: seq<seq<Colour>>)
    requires y < |pixels| && x < |pixels[y]|
    ensures |p| == |pixels| && forall j :: 0 <= j < |p| ==> |p[j]| == |pixels[j]|
    ensures p[y][x] == c
    ensures forall j, i :: 0 <= j < |p| && 0 <= i < |p[j]| && (j, i) != (y, x) ==> p[j][i] == pixels[j][i]
  {
    pixels[y := pixels[y][x := c]]
  }

  class Canvas {
    var width: u32
    var height: u32
    var pixels: seq<seq<Colour>>

    /** `pixels` holds `height` rows of `width` pixels. */
    ghost predicate Valid()
      reads this
    {
      Grid(pixels, width as nat, height as nat)
    }

    /** `canvas`: the given dimensions, every pixel BLACK. */
    constructor(width: u32, height: u32)
      ensures Valid()
      ensures this.width == width && this.height == height
      ensures pixels == Blank(width as nat, height as nat)
    {
      this.width := width;
      this.height := height;
      pixels := Blank(width as nat, height as nat);
    }

    /** `write_pixel`: sets row `y`, column `x`. Out-of-range coordinates
        panic on the index, so they are excluded. */
    method WritePixel(x: u32, y: u32, colour: Colour)
      requires Valid() && x < width && y < height
      modifies this
      ensures Valid()
      ensures width == old(width) && height == old(height)
      ensures pixels == WithPixel(old(pixels), x as nat, y as nat, colour)
    {
      pixels := pixels[y as nat := pixels[y as nat][x as nat := colour]];
    }

    /** `to_ppm`: the header, then each row's pixel text wrapped into lines,
        each line followed by a newline. The text of a pixel comes from
        Colour's `to_string`, which is given as `pixelText`. */
    method ToPpm(pixelText: Colour -> string) returns (ppm: string)
      requires Valid()
      ensures ppm == Ppm(width as nat, height as nat, pixels, pixelText)
    {
      ppm := "";
      ppm := ppm + "P3\n";
      ppm := ppm + NatToString(width as nat);
      ppm := ppm + " ";
      ppm := ppm + NatToString(height as nat);
      ppm := ppm + "\n";
      ppm := ppm + "255\n";
      assert ppm == Header(width as nat, height as nat);
      var lineContents := "";
      for h := 0 to height as nat
        invariant ppm == Header(width as nat, height as nat) + Body(pixels[..h], pixelText)
      {
        lineContents := "";
        for w := 0 to width as nat
          invariant lineContents == RowText(pixels[h][..w], pixelText)
        {
          assert pixels[h][..w + 1] == pixels[h][..w] + [pixels[h][w]];
          lineContents := lineContents + pixelText(pixels[h][w]);
        }
        assert pixels[h][..width as nat] == pixels[h];
        ppm := WriteRow(ppm, lineContents);
        BodyStep(pixels, h, pixelText);
        calc {
          ppm;
        ==
          Header(width as nat, height as nat) + Body(pixels[..h], pixelText) + Unlines(RowLines(lineContents));
        == { AppendAssociative(Header(width as nat, height as nat), Body(pixels[..h], pixelText), Unlines(RowLines(lineContents))); }
          Header(width as nat, height as nat) + (Body(pixels[..h], pixelText) + Unlines(RowLines(lineContents)));
        ==
          Header(width as nat, height as nat) + Body(pixels[..h + 1], pixelText);
        }
      }
      assert pixels[..height as nat] == pixels;
    }
  }

  /** The row step of `to_ppm`: appends the lines of one row's pixel text,
      each followed by a newline. A text longer than the limit is split on
      spaces and the pieces are wrapped greedily; a shorter one is written
      whole, trimmed when it ends in a space. */
  method WriteRow(ppm: string, lineContents: string) returns (out: string)
    ensures out == ppm + Unlines(RowLines(lineContents))
  {
    out := ppm;
    if ByteLen(lineContents) > LINE_LIMIT {
      var line := "";
      var nums := Split(lineContents, ' ');
      for k := 0 to |nums|
        invariant out + Unlines(Wrap(line, nums[k..])) == ppm + Unlines(RowLines(lineContents))
      {
        WrapUnfold(line, nums, k);
        var num := nums[k];
        if ByteLen(line) + ByteLen(num) > LINE_LIMIT {
          LineWritten(out, TrimEnd(line), Wrap(num + " ", nums[k + 1..]));
          out := out + TrimEnd(line);
          out := out + "\n";
          line := num;
          line := line + " ";
        } else {
          line := line + num;
          line := line + " ";
        }
      }
      assert nums[|nums|..] == [];
      LineWritten(out, TrimEnd(line), []);
      out := out + TrimEnd(line);
      out := out + "\n";
    } else {
      var text := lineContents;
      if EndsWith(text, " ") {
        text := TrimEnd(text);
      }
      assert RowLines(lineContents) == [text];
      LineWritten(out, text, []);
      out := out + text;
      out := out + "\n";
    }
  }

  // ---------------------------------------------------------------------
  // The text `to_ppm` writes

  /** The three header lines: the magic number, the dimensions and the
      largest channel value. */
  function Header(width: nat, height: nat): (h: string)
    ensures |h| >= 9 && h[..3] == "P3\n" && h[|h| - 4..] == "255\n"
  {
    "P3\n" + NatToString(width) + " " + NatToString(height) + "\n" + "255\n"
  }

  /** The pixel texts of a row, concatenated in order. */
  function RowText(row: seq<Colour>, pixelText: Colour -> string): string
  {
    if |row| == 0 then "" else RowText(row[..|row| - 1], pixelText) + pixelText(row[|row| - 1])
  }

  /** The greedy wrap of the pieces of a long row: `line` is the line being
      built, each piece followed by a space. A piece joins the line when the
      line's length plus the piece's stays within the limit; otherwise the
      line is written, trimmed, and the piece starts the next one. The last
      line is written when the pieces run out. */
  function Wrap(line: string, nums: seq<string>): (lines: seq<string>)
    ensures |lines| >= 1
    decreases |nums|
  {
    if |nums| == 0 then [TrimEnd(line)]
    else if ByteLen(line) + ByteLen(nums[0]) > LINE_LIMIT then [TrimEnd(line)] + Wrap(nums[0] + " ", nums[1..])
    else Wrap(line + nums[0] + " ", nums[1..])
  }

  /** The lines of one pixel row: a row longer than the limit is split on
      spaces and wrapped; a shorter one is written whole, trimmed when it
      ends in a space. */
  function RowLines(text: string): (lines: seq<string>)
    ensures |lines| >= 1
  {
    if ByteLen(text) > LINE_LIMIT then Wrap("", Split(text, ' '))
    else [if EndsWith(text, " ") then TrimEnd(text) else text]
  }

  /** The lines of all rows, row by row, each line followed by a newline. */
  function Body(rows: seq<seq<Colour>>, pixelText: Colour -> string): string
  {
    if |rows| == 0 then ""
    else Body(rows[..|rows| - 1], pixelText) + Unlines(RowLines(RowText(rows[|rows| - 1], pixelText)))
  }

  /** The whole PPM text: the header, then the body. */
  function Ppm(width: nat, height: nat, pixels: seq<seq<Colour>>, pixelText: Colour -> string): (ppm: string)
    ensures Header(width, height) <= ppm
  {
    Header(width, height) + Body(pixels, pixelText)
  }

  /** One step of the wrap loop: the rest of the wrap from piece `k`. */
  lemma WrapUnfold(line: string, nums: seq<string>, k: nat)
    requires k < |nums|
    ensures Wrap(line, nums[k..]) ==
      if ByteLen(line) + ByteLen(nums[k]) > LINE_LIMIT then [TrimEnd(line)] + Wrap(nums[k] + " ", nums[k + 1..])
      else Wrap(line + nums[k] + " ", nums[k + 1..])
  {
    assert nums[k..][0] == nums[k];
    assert nums[k..][1..] == nums[k + 1..];
  }

  /** Writing a line and its newline writes the first of the lines. */
  lemma LineWritten(ppm: string, line: string, rest: seq<string>)
    ensures ppm + line + "\n" + Unlines(rest) == ppm + Unlines([line] + rest)
  {
    assert ([line] + rest)[1..] == rest;
  }

  lemma AppendAssociative(a: string, b: string, c: string)
    ensures a + b + c == a + (b + c)
  {
  }

  /** The body of one more row is the body so far followed by that row's
      lines. */
  lemma BodyStep(pixels: seq<seq<Colour>>, h: nat, pixelText: Colour -> string)
    requires h < |pixels|
    ensures Body(pixels[..h + 1], pixelText) == Body(pixels[..h], pixelText) + Unlines(RowLines(RowText(pixels[h], pixelText)))
  {
    assert pixels[..h + 1][..h] == pixels[..h];
  }

  // ---------------------------------------------------------------------
  // Properties of the PPM text

  /** The PPM text always ends with a newline. */
  lemma PpmEndsWithNewline(width: nat, height: nat, pixels: seq<seq<Colour>>, pixelText: Colour -> string)
    ensures var s := Ppm(width, height, pixels, pixelText); |s| > 0 && s[|s| - 1] == '\n'
  {
    var h := Header(width, height);
    assert h[|h| - 1] == '\n';
    if |pixels| > 0 {
      var last := Unlines(RowLines(RowText(pixels[|pixels| - 1], pixelText)));
      assert Ppm(width, height, pixels, pixelText) == h + Body(pixels[..|pixels| - 1], pixelText) + last;
    }
  }

  /** The wrap keeps the text: the visible characters of the lines are those
      of the line begun and of the pieces, in order. */
  lemma {:induction false} WrapKeepsText(line: string, nums: seq<string>)
    ensures VisibleConcat(Wrap(line, nums)) == Visible(line) + VisibleConcat(nums)
    decreases |nums|
  {
    VisibleTrimEnd(line);
    if |nums| > 0 {
      var rest := nums[1..];
      if ByteLen(line) + ByteLen(nums[0]) > LINE_LIMIT {
        var next := nums[0] + " ";
        calc {
          VisibleConcat(Wrap(line, nums));
        ==
          VisibleConcat([TrimEnd(line)] + Wrap(next, rest));
        == { VisibleConcatCons(TrimEnd(line), Wrap(next, rest)); }
          Visible(TrimEnd(line)) + VisibleConcat(Wrap(next, rest));
        == { WrapKeepsText(next, rest); }
          Visible(line) + (Visible(next) + VisibleConcat(rest));
        == { VisibleSpace(nums[0]); }
          Visible(line) + (Visible(nums[0]) + VisibleConcat(rest));
        }
      } else {
        var next := line + nums[0] + " ";
        calc {
          VisibleConcat(Wrap(line, nums));
        ==
          VisibleConcat(Wrap(next, rest));
        == { WrapKeepsText(next, rest); }
          Visible(next) + VisibleConcat(rest);
        == { VisibleSpace(line + nums[0]); VisibleAppend(line, nums[0]); }
          Visible(line) + Visible(nums[0]) + VisibleConcat(rest);
        }
      }
    }
  }

  lemma VisibleConcatCons(x: string, ys: seq<string>)
    ensures VisibleConcat([x] + ys) == Visible(x) + VisibleConcat(ys)
  {
    assert ([x] + ys)[1..] == ys;
  }

  /** A pixel row's lines hold exactly the row's visible text, in order:
      wrapping and trimming only move and drop spaces. */
  lemma RowLinesKeepText(text: string)
    ensures VisibleConcat(RowLines(text)) == Visible(text)
  {
    if ByteLen(text) > LINE_LIMIT {
      var nums := Split(text, ' ');
      WrapKeepsText("", nums);
      VisibleJoin(nums, ' ');
      SplitJoin(text, ' ');
    } else {
      VisibleTrimEnd(text);
    }
  }

  /** The line being built is empty, or ends in a space and is at most one
      byte over the limit. */
  predicate OpenLine(line: string)
  {
    line == "" || (line[|line| - 1] == ' ' && ByteLen(line) <= LINE_LIMIT + 1)
  }

  /** Trimming an open line brings it within the limit. */
  lemma OpenLineFits(line: string)
    requires OpenLine(line)
    ensures ByteLen(TrimEnd(line)) <= LINE_LIMIT
  {
    if line != "" {
      var body := line[..|line| - 1];
      assert line == body + " ";
      ByteLenAppend(body, " ");
      TrimEndSpace(line);
      TrimEndByteLen(body);
    }
  }

  /** When no piece is longer than the limit, no wrapped line is either. */
  lemma {:induction false} WrapFits(line: string, nums: seq<string>)
    requires OpenLine(line)
    requires forall k :: 0 <= k < |nums| ==> ByteLen(nums[k]) <= LINE_LIMIT
    ensures forall k :: 0 <= k < |Wrap(line, nums)| ==> ByteLen(Wrap(line, nums)[k]) <= LINE_LIMIT
    decreases |nums|
  {
    OpenLineFits(line);
    if |nums| > 0 {
      if ByteLen(line) + ByteLen(nums[0]) > LINE_LIMIT {
        ByteLenAppend(nums[0], " ");
        WrapFits(nums[0] + " ", nums[1..]);
      } else {
        ByteLenAppend(line + nums[0], " ");
        ByteLenAppend(line, nums[0]);
        WrapFits(line + nums[0] + " ", nums[1..]);
      }
    }
  }

  /** Every line of a pixel row fits within 70 bytes, provided no single
      channel text between spaces is longer than that. */
  lemma RowLinesFit(text: string)
    requires forall k :: 0 <= k < |Split(text, ' ')| ==> ByteLen(Split(text, ' ')[k]) <= LINE_LIMIT
    ensures forall k :: 0 <= k < |RowLines(text)| ==> ByteLen(RowLines(text)[k]) <= LINE_LIMIT
  {
    if ByteLen(text) > LINE_LIMIT {
      WrapFits("", Split(text, ' '));
    } else {
      TrimEndByteLen(text);
    }
  }

  /** No line of a pixel row ends in a space. */
  lemma RowLinesNoTrailingSpace(text: string)
    ensures forall k :: 0 <= k < |RowLines(text)| ==> var l := RowLines(text)[k]; |l| == 0 || l[|l| - 1] != ' '
  {
    if ByteLen(text) > LINE_LIMIT {
      WrapTrimmed("", Split(text, ' '));
    }
  }

  lemma {:induction false} WrapTrimmed(line: string, nums: seq<string>)
    ensures forall k :: 0 <= k < |Wrap(line, nums)| ==> var l := Wrap(line, nums)[k]; |l| == 0 || !IsWhitespace(l[|l| - 1])
    decreases |nums|
  {
    if |nums| > 0 {
      if ByteLen(line) + ByteLen(nums[0]) > LINE_LIMIT {
        WrapTrimmed(nums[0] + " ", nums[1..]);
      } else {
        WrapTrimmed(line + nums[0] + " ", nums[1..]);
      }
    }
  }

  /** The header of the PPM examples, and the PPM text of a canvas with no
      rows. */
  lemma HeaderExample(pixelText: Colour -> string)
    ensures Header(5, 3) == "P3\n5 3\n255\n"
    ensures Ppm(5, 0, [], pixelText) == "P3\n5 0\n255\n"
  {
    NatToStringExamples();
  }

  // ---------------------------------------------------------------------
  // A pixel text consistent with the PPM examples

  /** A channel as a PPM value: clamped to 0..255 after scaling by 255 and
      rounding half up. Colour's `to_string` is not part of this model; this
      is the behaviour the PPM examples expect of it. */
  function Channel(v: real): (n: nat)
    ensures n <= 255
    ensures v <= 0.0 ==> n == 0
    ensures v >= 1.0 ==> n == 255
  {
    if v <= 0.0 then 0
    else if v >= 1.0 then 255
    else (v * 255.0 + 0.5).Floor
  }

  /** The three channels, each followed by a space. */
  function PixelText(c: Colour): string
  {
    NatToString(Channel(c.red)) + " " + NatToString(Channel(c.green)) + " " + NatToString(Channel(c.blue)) + " "
  }

  /** The channel values of the PPM examples. */
  lemma ChannelExamples()
    ensures Channel(1.5) == 255 && Channel(-0.5) == 0 && Channel(0.5) == 128
    ensures Channel(0.8) == 204 && Channel(0.6) == 153 && Channel(0.0) == 0
  {
  }

  /** The pixel texts of the PPM examples. */
  lemma PixelTextExamples()
    ensures PixelText(ColourOf(1.5, 0.0, 0.0)) == "255 0 0 "
    ensures PixelText(ColourOf(0.0, 0.5, 0.0)) == "0 128 0 "
    ensures PixelText(ColourOf(-0.5, 0.0, 1.0)) == "0 0 255 "
  {
    ChannelExamples();
    NatToStringExamples();
  }

  /** The pixel texts of the blank and the long-row PPM examples. */
  lemma PixelTextMoreExamples()
    ensures PixelText(Black) == "0 0 0 "
    ensures PixelText(ColourOf(1.0, 0.8, 0.6)) == "255 204 153 "
  {
    ChannelExamples();
    NatToStringExamples();
  }

  /** The pieces, each followed by a space: the text of a row whose pixel
      texts end in a space. */
  function Spaced(ws: seq<string>): string
  {
    if |ws| == 0 then "" else ws[0] + " " + Spaced(ws[1..])
  }

  lemma {:induction false} SpacedAppend(a: seq<string>, b: seq<string>)
    ensures Spaced(a + b) == Spaced(a) + Spaced(b)
  {
    if |a| > 0 {
      assert (a + b)[1..] == a[1..] + b;
      SpacedAppend(a[1..], b);
    } else {
      assert a + b == b;
    }
  }

  /** A piece without spaces, then a space, splits off first. */
  lemma {:induction false} SplitWord(w: string, rest: string)
    requires forall i :: 0 <= i < |w| ==> w[i] != ' '
    ensures Split(w + " " + rest, ' ') == [w] + Split(rest, ' ')
  {
    if |w| > 0 {
      SplitWord(w[1..], rest);
      assert (w + " " + rest)[1..] == w[1..] + " " + rest;
      assert [w[0]] + w[1..] == w;
    } else {
      assert w + " " + rest == " " + rest;
      assert (" " + rest)[1..] == rest;
    }
  }

  /** Spaced pieces split back into the pieces and a final empty one. */
  lemma {:induction false} SplitSpaced(ws: seq<string>)
    requires forall k, i :: 0 <= k < |ws| && 0 <= i < |ws[k]| ==> ws[k][i] != ' '
    ensures Split(Spaced(ws), ' ') == ws + [""]
  {
    if |ws| > 0 {
      SplitSpaced(ws[1..]);
      SplitWord(ws[0], Spaced(ws[1..]));
      assert [ws[0]] + (ws[1..] + [""]) == ws + [""];
    }
  }

  /** Pieces that fit on the line all join it. */
  lemma {:induction false} WrapGroup(line: string, group: seq<string>, rest: seq<string>)
    requires ByteLen(line) + ByteLen(Spaced(group)) <= LINE_LIMIT + 1
    ensures Wrap(line, group + rest) == Wrap(line + Spaced(group), rest)
    decreases |group|
  {
    if |group| == 0 {
      assert group + rest == rest;
      assert line + Spaced(group) == line;
    } else {
      var next := line + group[0] + " ";
      SpacedBytes(line, group);
      assert (group + rest)[1..] == group[1..] + rest;
      WrapJoin(line, group + rest);
      WrapGroup(next, group[1..], rest);
      var g, more := group[0], Spaced(group[1..]);
      assert Spaced(group) == g + " " + more;
      AppendAssociative(line, g, " ");
      AppendAssociative(line, g + " ", more);
    }
  }

  /** A piece that fits joins the line. */
  lemma WrapJoin(line: string, nums: seq<string>)
    requires |nums| > 0 && ByteLen(line) + ByteLen(nums[0]) <= LINE_LIMIT
    ensures Wrap(line, nums) == Wrap(line + nums[0] + " ", nums[1..])
  {
  }

  /** The bytes of spaced pieces: the first piece, its space, and the rest. */
  lemma SpacedBytes(line: string, group: seq<string>)
    requires |group| > 0
    ensures ByteLen(Spaced(group)) == ByteLen(group[0]) + 1 + ByteLen(Spaced(group[1..]))
    ensures ByteLen(line + group[0] + " ") == ByteLen(line) + ByteLen(group[0]) + 1
  {
    ByteLenAppend(group[0] + " ", Spaced(group[1..]));
    ByteLenAppend(group[0], " ");
    ByteLenAppend(line + group[0], " ");
    ByteLenAppend(line, group[0]);
  }

  /** Three-digit pieces take four bytes each once spaced. */
  lemma {:induction false} SpacedThreeDigits(ws: seq<string>)
    requires ExampleNumbers(ws)
    ensures ByteLen(Spaced(ws)) == 4 * |ws|
    ensures forall k, i :: 0 <= k < |ws| && 0 <= i < |ws[k]| ==> ws[k][i] != ' '
  {
    if |ws| > 0 {
      ThreeDigits(ws[0]);
      SpacedThreeDigits(ws[1..]);
      ByteLenAppend(ws[0] + " ", Spaced(ws[1..]));
      ByteLenAppend(ws[0], " ");
    }
  }

  /** A row within the limit that ends in one space is written without it. */
  lemma ShortRow(text: string, line: string)
    requires text == line + " " && ByteLen(text) <= LINE_LIMIT
    requires |line| > 0 && !IsWhitespace(line[|line| - 1])
    ensures RowLines(text) == [line]
  {
    assert EndsWith(text, " ");
    TrimEndSpace(text);
    assert text[..|text| - 1] == line;
  }

  /** The first pixel row of the PPM example fits and loses its last space. */
  lemma ShortRowExample(text: string, line: string)
    requires line == "255 0 0 0 0 0 0 0 0 0 0 0 0 0 0"
    requires text == line + " "
    ensures RowLines(text) == [line]
  {
    ByteLenAscii(text);
    ShortRow(text, line);
  }

  /** Three-digit numbers: the first 17 fill 68 bytes, and the 18th
      would overflow, so it starts the second line, where the rest fit. */
  lemma WrapTwoLines(t1: seq<string>, t2: seq<string>)
    requires ExampleNumbers(t1) && ExampleNumbers(t2)
    requires |t1| == 17 && 1 <= |t2| <= 17
    ensures RowLines(Spaced(t1 + t2)) == [TrimEnd(Spaced(t1)), TrimEnd(Spaced(t2) + " ")]
  {
    var text := Spaced(t1 + t2);
    assert ExampleNumbers(t1 + t2);
    SpacedThreeDigits(t1);
    SpacedThreeDigits(t1 + t2);
    SplitSpaced(t1 + t2);
    assert (t2 + [""])[0] == t2[0] && (t2 + [""])[1..] == t2[1..] + [""];
    assert t1 + t2 + [""] == t1 + (t2 + [""]);
    ThreeDigits(t2[0]);
    calc {
      RowLines(text);
    ==
      Wrap("", t1 + (t2 + [""]));
    == { WrapGroup("", t1, t2 + [""]); assert "" + Spaced(t1) == Spaced(t1); }
      Wrap(Spaced(t1), t2 + [""]);
    == { WrapFlush(Spaced(t1), t2 + [""]); }
      [TrimEnd(Spaced(t1))] + Wrap(t2[0] + " ", t2[1..] + [""]);
    == { WrapLastLine(t2); }
      [TrimEnd(Spaced(t1))] + [TrimEnd(Spaced(t2) + " ")];
    }
  }

  /** The second line: up to 17 three-digit numbers fit on one line. */
  lemma WrapLastLine(t2: seq<string>)
    requires ExampleNumbers(t2) && 1 <= |t2| <= 17
    ensures Wrap(t2[0] + " ", t2[1..] + [""]) == [TrimEnd(Spaced(t2) + " ")]
  {
    var first, tail := t2[0], t2[1..] + [""];
    ThreeDigits(first);
    SpacedThreeDigits(t2[1..]);
    SpacedAppend(t2[1..], [""]);
    assert Spaced([""]) == " ";
    ByteLenAppend(Spaced(t2[1..]), " ");
    ByteLenAppend(first, " ");
    WrapGroup(first + " ", tail, []);
    assert tail + [] == tail;
    assert Spaced(t2) == first + " " + Spaced(t2[1..]);
    AppendAssociative(first + " ", Spaced(t2[1..]), " ");
  }

  /** Trailing spaces after a last character that is not whitespace are
      all trimmed. */
  lemma {:induction false} TrimSpaces(line: string, n: nat)
    requires |line| > 0 && !IsWhitespace(line[|line| - 1])
    ensures TrimEnd(line + seq(n, _ => ' ')) == line
  {
    if n > 0 {
      var s := line + seq(n, _ => ' ');
      assert s[..|s| - 1] == line + seq(n - 1, _ => ' ');
      TrimSpaces(line, n - 1);
    } else {
      assert line + seq(n, _ => ' ') == line;
    }
  }

  /** The channel values of the long-row example. */
  predicate ExampleNumber(w: string)
  {
    w == "255" || w == "204" || w == "153"
  }

  predicate ExampleNumbers(ws: seq<string>)
  {
    forall k :: 0 <= k < |ws| ==> ExampleNumber(ws[k])
  }

  /** One of the three-digit numbers: three bytes, no space. */
  lemma ThreeDigits(w: string)
    requires ExampleNumber(w)
    ensures ByteLen(w) == 3 && forall i :: 0 <= i < |w| ==> w[i] != ' '
    ensures !IsWhitespace(w[2])
  {
    assert |w| == 3 && '0' <= w[0] <= '9' && '0' <= w[1] <= '9' && '0' <= w[2] <= '9';
    ByteLenAscii(w);
  }

  /** The same two lines, as the numbers joined by single spaces. */
  lemma WrapTwoLinesJoined(t1: seq<string>, t2: seq<string>)
    requires ExampleNumbers(t1) && ExampleNumbers(t2)
    requires |t1| == 17 && 1 <= |t2| <= 17
    ensures RowLines(Spaced(t1 + t2)) == [Join(t1, ' '), Join(t2, ' ')]
  {
    WrapTwoLines(t1, t2);
    TrimmedJoin(t1, "");
    assert Spaced(t1) + "" == Spaced(t1);
    TrimmedJoin(t2, " ");
  }

  /** Spaced three-digit numbers, and at most one more space, trim to the
      numbers joined by single spaces. */
  lemma TrimmedJoin(ws: seq<string>, extra: string)
    requires ExampleNumbers(ws) && |ws| > 0
    requires extra == "" || extra == " "
    ensures TrimEnd(Spaced(ws) + extra) == Join(ws, ' ')
  {
    var j := Join(ws, ' ');
    SpacedJoin(ws);
    ThreeDigits(ws[|ws| - 1]);
    JoinLast(ws, ' ');
    TrimSpaces(j, 1 + |extra|);
    assert Spaced(ws) + extra == j + seq(1 + |extra|, _ => ' ');
  }

  /** Writing the line when the next piece does not fit. */
  lemma WrapFlush(line: string, nums: seq<string>)
    requires |nums| > 0 && ByteLen(line) + ByteLen(nums[0]) > LINE_LIMIT
    ensures Wrap(line, nums) == [TrimEnd(line)] + Wrap(nums[0] + " ", nums[1..])
  {
  }

  /** The pixel row of the long-line PPM example: ten pixels (1, 0.8, 0.6)
      give the text "255 204 153 " ten times. */
  lemma LongRowText(row: seq<Colour>, w: seq<string>)
    requires row == seq(10, _ => ColourOf(1.0, 0.8, 0.6)) && w == ["255", "204", "153"]
    ensures RowText(row, PixelText) == Spaced(Repeat(w, 10))
  {
    PixelTextMoreExamples();
    assert Spaced(["255", "204", "153"]) == "255 204 153 ";
    RowTextRepeat(ColourOf(1.0, 0.8, 0.6), 10, w);
  }

  /** The pieces of that text, split where the example's lines break. */
  lemma LongRowPieces(w: seq<string>, t1: seq<string>, t2: seq<string>)
    requires w == ["255", "204", "153"]
    requires t1 == ["255", "204", "153", "255", "204", "153", "255", "204", "153",
                    "255", "204", "153", "255", "204", "153", "255", "204"]
    requires t2 == ["153", "255", "204", "153", "255", "204", "153", "255", "204", "153", "255", "204", "153"]
    ensures Repeat(w, 10) == t1 + t2
  {
    var u := ["255", "204", "153"];
    assert Repeat(["255", "204", "153"], 5) == u + u + u + u + u;
    assert Repeat(["255", "204", "153"], 10) == Repeat(["255", "204", "153"], 5) + u + u + u + u + u;
  }

  /** That text is too long for one line and wraps after the seventeenth
      number, giving the two lines the example expects: the first 17
      numbers and the last 13, each joined by single spaces. */
  lemma LongRowExample(row: seq<Colour>, t1: seq<string>, t2: seq<string>)
    requires row == seq(10, _ => ColourOf(1.0, 0.8, 0.6))
    requires t1 == ["255", "204", "153", "255", "204", "153", "255", "204", "153",
                    "255", "204", "153", "255", "204", "153", "255", "204"]
    requires t2 == ["153", "255", "204", "153", "255", "204", "153", "255", "204", "153", "255", "204", "153"]
    ensures RowLines(RowText(row, PixelText)) == [Join(t1, ' '), Join(t2, ' ')]
  {
    var w := ["255", "204", "153"];
    LongRowText(row, w);
    LongRowPieces(w, t1, t2);
    WrapTwoLinesJoined(t1, t2);
  }

  /** `n` copies of the pieces, one after the other. */
  function Repeat(w: seq<string>, n: nat): (r: seq<string>)
    ensures |r| == n * |w|
  {
    if n == 0 then [] else Repeat(w, n - 1) + w
  }

  /** A row of `n` equal pixels is the pixel's pieces `n` times over. */
  lemma {:induction false} RowTextRepeat(c: Colour, n: nat, w: seq<string>)
    requires PixelText(c) == Spaced(w)
    ensures RowText(seq(n, _ => c), PixelText) == Spaced(Repeat(w, n))
  {
    if n > 0 {
      var row := seq(n, _ => c);
      assert row[..n - 1] == seq(n - 1, _ => c);
      RowTextRepeat(c, n - 1, w);
      SpacedAppend(Repeat(w, n - 1), w);
    }
  }

  /** Spaced pieces are the pieces joined by spaces, and one more. */
  lemma {:induction false} SpacedJoin(ws: seq<string>)
    requires |ws| > 0
    ensures Spaced(ws) == Join(ws, ' ') + " "
  {
    if |ws| > 1 {
      SpacedJoin(ws[1..]);
    }
  }

  /** The joined text ends as the last piece does. */
  lemma {:induction false} JoinLast(ws: seq<string>, sep: char)
    requires |ws| > 0 && |ws[|ws| - 1]| > 0
    ensures var j := Join(ws, sep); |j| > 0 && j[|j| - 1] == ws[|ws| - 1][|ws[|ws| - 1]| - 1]
  {
    if |ws| > 1 {
      JoinLast(ws[1..], sep);
    }
  }

  /** The canvas tests: a new canvas is all BLACK; writing at x = 2, y = 3
      sets row 3, column 2, and leaves row 2, column 3 as it was. The test
      reads row 2, column 3, which is still BLACK, and passes only because
      the lenient colour `eq` finds BLACK equal to red. */
  lemma CanvasExamples(red: Colour)
    requires red == ColourOf(1.0, 0.0, 0.0)
    ensures forall y, x :: 0 <= y < 20 && 0 <= x < 10 ==> Blank(10, 20)[y][x] == Black
    ensures WithPixel(Blank(10, 20), 2, 3, red)[3][2] == red
    ensures WithPixel(Blank(10, 20), 2, 3, red)[2][3] == Black != red
    ensures Eq(WithPixel(Blank(10, 20), 2, 3, red)[2][3], red)
  {
  }
}
