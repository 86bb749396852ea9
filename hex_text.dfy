/**
 * The text form of a frame used in the controller's log messages: every byte
 * as two upper-case hexadecimal digits, bytes separated by single blanks.
 *
 * The Qt string operations the source chains together are modelled one by
 * one (QString::number in base 16, toUpper, rightJustified, trimmed), and
 * Render is the independent definition of the intended text.
 */
module HexText {
  import opened Wrappers

  /** One lower-case digit, as QString::number(v, 16) writes it. */
  function LowerDigit(n: int): (c: char)
    requires 0 <= n < 16
  {
    if n < 10 then ('0' as int + n) as char else ('a' as int + n - 10) as char
  }

  /** QString::number(v, 16) for an unsigned byte: no leading zero. */
  function NumberBase16(v: bv8): (s: string)
    ensures 1 <= |s| <= 2
  {
    var n := v as int;
    if n < 16 then [LowerDigit(n)] else [LowerDigit(n / 16), LowerDigit(n % 16)]
  }

  function UpperChar(c: char): char {
    if 'a' <= c <= 'z' then (c as int - 32) as char else c
  }

  /** QString::toUpper, restricted to ASCII. */
  function ToUpper(s: string): (r: string)
    ensures |r| == |s|
    ensures forall i :: 0 <= i < |s| ==> r[i] == UpperChar(s[i])
  {
    seq(|s|, i requires 0 <= i < |s| => UpperChar(s[i]))
  }

  /** QString::rightJustified(width, fill): pad on the left up to width. */
  function RightJustified(s: string, width: nat, fill: char): (r: string)
    ensures |s| < width ==> |r| == width && r[width - |s|..] == s
    ensures |s| < width ==> forall i :: 0 <= i < width - |s| ==> r[i] == fill
    ensures |s| >= width ==> r == s
  {
    if |s| < width then seq(width - |s|, _ => fill) + s else s
  }

  predicate IsUpperHexDigit(c: char) {
    '0' <= c <= '9' || 'A' <= c <= 'F'
  }

  function DigitValue(c: char): (n: int)
    requires IsUpperHexDigit(c)
    ensures 0 <= n < 16
  {
    if c <= '9' then c as int - '0' as int else c as int - 'A' as int + 10
  }

  /** An upper-case digit. */
  function UpperDigit(n: int): (c: char)
    requires 0 <= n < 16
    ensures IsUpperHexDigit(c) && DigitValue(c) == n
  {
    if n < 10 then ('0' as int + n) as char else ('A' as int + n - 10) as char
  }

  /**
   * The text of one byte: two upper-case digits whose value is the byte,
   * high digit first.
   */
  function HexPair(b: bv8): (r: string)
    ensures |r| == 2
  {
    [UpperDigit(b as int / 16), UpperDigit(b as int % 16)]
  }

  lemma HexPairDigits(b: bv8)
    ensures var h := HexPair(b); IsUpperHexDigit(h[0]) && IsUpperHexDigit(h[1])
    ensures var h := HexPair(b); DigitValue(h[0]) * 16 + DigitValue(h[1]) == b as int
  {
  }

  /** QString::number(b, 16).toUpper().rightJustified(2, '0'), the text the source makes of a byte. */
  function ByteText(b: bv8): string {
    RightJustified(ToUpper(NumberBase16(b)), 2, '0')
  }

  lemma UpperOfLower(n: int)
    requires 0 <= n < 16
    ensures UpperChar(LowerDigit(n)) == UpperDigit(n)
  {
  }

  /** The chain of Qt string operations gives exactly the two-digit pair. */
  lemma QtHexPair(b: bv8)
    ensures ByteText(b) == HexPair(b)
  {
    var n := b as int;
    if n < 16 {
      assert NumberBase16(b) == [LowerDigit(n)];
      UpperOfLower(n);
      assert ToUpper(NumberBase16(b)) == [UpperDigit(n)];
      assert ByteText(b) == ['0'] + [UpperDigit(n)];
      assert n / 16 == 0 && n % 16 == n;
    } else {
      assert NumberBase16(b) == [LowerDigit(n / 16), LowerDigit(n % 16)];
      UpperOfLower(n / 16);
      UpperOfLower(n % 16);
      assert ToUpper(NumberBase16(b)) == [UpperDigit(n / 16), UpperDigit(n % 16)];
    }
  }

  /** The intended text: byte pairs joined by single blanks. */
  function Render(cmd: seq<bv8>): (r: string)
    ensures |r| == if |cmd| == 0 then 0 else 3 * |cmd| - 1
  {
    if |cmd| == 0 then ""
    else if |cmd| == 1 then HexPair(cmd[0])
    else HexPair(cmd[0]) + " " + Render(cmd[1..])
  }

  /** Where each byte and each blank sits in the text. */
  lemma {:induction false} RenderLayout(cmd: seq<bv8>, i: nat)
    requires i < |cmd|
    ensures Render(cmd)[3 * i] == HexPair(cmd[i])[0]
    ensures Render(cmd)[3 * i + 1] == HexPair(cmd[i])[1]
    ensures i + 1 < |cmd| ==> Render(cmd)[3 * i + 2] == ' '
  {
    if i > 0 {
      var h, t := HexPair(cmd[0]) + " ", Render(cmd[1..]);
      RenderLayout(cmd[1..], i - 1);
      assert cmd[1..][i - 1] == cmd[i];
      assert Render(cmd) == h + t;
      AfterPrefix(h, t, 3 * (i - 1));
      AfterPrefix(h, t, 3 * (i - 1) + 1);
      if i + 1 < |cmd| {
        AfterPrefix(h, t, 3 * (i - 1) + 2);
      }
    }
  }

  lemma AfterPrefix(h: string, t: string, j: nat)
    requires |h| == 3 && j < |t|
    ensures (h + t)[3 + j] == t[j]
  {
  }

  /** Appending a byte appends a blank and its pair. */
  lemma {:induction false} RenderSnoc(cmd: seq<bv8>, b: bv8)
    requires |cmd| > 0
    ensures Render(cmd + [b]) == Render(cmd) + " " + HexPair(b)
  {
    if |cmd| > 1 {
      RenderSnoc(cmd[1..], b);
      assert (cmd + [b])[1..] == cmd[1..] + [b];
    } else {
      assert (cmd + [b])[1..] == [b];
    }
  }

  /** Reads back the blank-separated byte pairs; anything else is rejected. */
  function Parse(s: string): (r: Option<seq<bv8>>)
    decreases |s|
  {
    if |s| == 0 then Some([])
    else if |s| < 2 || !IsUpperHexDigit(s[0]) || !IsUpperHexDigit(s[1]) then None
    else
      var b := (DigitValue(s[0]) * 16 + DigitValue(s[1])) as bv8;
      if |s| == 2 then Some([b])
      else if |s| == 3 || s[2] != ' ' then None
      else match Parse(s[3..])
        case None => None
        case Some(rest) => Some([b] + rest)
  }

  lemma PairByte(b: bv8)
    ensures var h := HexPair(b); IsUpperHexDigit(h[0]) && IsUpperHexDigit(h[1])
    ensures var h := HexPair(b); (DigitValue(h[0]) * 16 + DigitValue(h[1])) as bv8 == b
  {
    HexPairDigits(b);
    assert (b as int) as bv8 == b;
  }

  lemma ParseLastPair(b: bv8)
    ensures Parse(HexPair(b)) == Some([b])
  {
    PairByte(b);
  }

  lemma ParseFirstPair(b: bv8, t: string)
    requires |t| > 0
    ensures Parse(HexPair(b) + " " + t) ==
            match Parse(t)
            case None => None
            case Some(rest) => Some([b] + rest)
  {
    var h := HexPair(b);
    var s := h + " " + t;
    PairByte(b);
    assert s[0] == h[0] && s[1] == h[1] && s[2] == ' ';
    assert s[3..] == t;
  }

  /** Parsing the text gives back the bytes. */
  lemma {:induction false} ParseRender(cmd: seq<bv8>)
    ensures Parse(Render(cmd)) == Some(cmd)
  {
    if |cmd| == 1 {
      ParseLastPair(cmd[0]);
      assert cmd == [cmd[0]];
    } else if |cmd| > 1 {
      ParseRender(cmd[1..]);
      ParseFirstPair(cmd[0], Render(cmd[1..]));
      assert cmd == [cmd[0]] + cmd[1..];
    }
  }

  /** The characters QString::trimmed strips (the ASCII white space). */
  predicate IsSpace(c: char) {
    c == ' ' || '\t' <= c <= '\r'
  }

  function TrimStart(s: string): (r: string)
    decreases |s|
  {
    if |s| > 0 && IsSpace(s[0]) then TrimStart(s[1..]) else s
  }

  function TrimEnd(s: string): (r: string)
    decreases |s|
  {
    if |s| > 0 && IsSpace(s[|s| - 1]) then TrimEnd(s[..|s| - 1]) else s
  }

  /** QString::trimmed: white space removed from both ends. */
  function Trimmed(s: string): string
  {
    TrimEnd(TrimStart(s))
  }

  /** The text before trimming: every pair followed by a blank. */
  function Padded(cmd: seq<bv8>): string {
    if |cmd| == 0 then "" else Render(cmd) + " "
  }

  /** The loop step of the source: one more byte appends its text and a blank. */
  lemma PaddedStep(prefix: seq<bv8>, b: bv8)
    ensures Padded(prefix + [b]) == Padded(prefix) + ByteText(b) + " "
  {
    QtHexPair(b);
    if |prefix| > 0 {
      RenderSnoc(prefix, b);
    } else {
      assert prefix + [b] == [b];
    }
  }

  /** The first and the last character of a non-empty text are digits. */
  lemma RenderEnds(cmd: seq<bv8>)
    requires |cmd| > 0
    ensures IsUpperHexDigit(Render(cmd)[0])
    ensures IsUpperHexDigit(Render(cmd)[|Render(cmd)| - 1])
  {
    RenderLayout(cmd, 0);
    RenderLayout(cmd, |cmd| - 1);
    HexPairDigits(cmd[0]);
    HexPairDigits(cmd[|cmd| - 1]);
  }

  lemma TrimStartKeeps(s: string)
    requires |s| > 0 && !IsSpace(s[0])
    ensures TrimStart(s) == s
  {
  }

  lemma TrimEndDropsBlank(t: string)
    requires |t| > 0 && !IsSpace(t[|t| - 1])
    ensures TrimEnd(t + " ") == t
  {
    var p := t + " ";
    assert p[..|p| - 1] == t;
  }

  /** Trimming the padded text drops exactly the final blank. */
  lemma TrimmedPadded(cmd: seq<bv8>)
    ensures Trimmed(Padded(cmd)) == Render(cmd)
  {
    if |cmd| > 0 {
      var t := Render(cmd);
      RenderEnds(cmd);
      TrimStartKeeps(t + " ");
      TrimEndDropsBlank(t);
    }
  }
}
