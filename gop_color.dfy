/**
 * Terminal colours of the pretty printer (lib/gop/color.go): a colour is
 * an SGR code, and `ColorStr` wraps a string in that code and the reset
 * code `ESC[0m`.
 */
module GopColor {
  import opened Strings

  /** `Color`: an SGR colour code, or `None`. */
  type Color = int

  const Red: Color := 31
  const Green: Color := 32
  const Yellow: Color := 33
  const Blue: Color := 34
  const Magenta: Color := 35
  const Cyan: Color := 36
  const None: Color := -1

  /** The escape character that starts every SGR code. */
  const Esc: char := '\U{1b}'

  /** The SGR code `ESC[<n>m` for a colour. */
  function Code(c: Color): (r: string)
    ensures |r| == DecimalWidth(c) + 3 && r[0] == Esc && r[1] == '[' && r[|r| - 1] == 'm'
  {
    [Esc, '['] + IntToString(c) + "m"
  }

  /** The reset code `ESC[0m`. */
  const Reset: string := [Esc, '[', '0', 'm']

  /** `ColorStr`: `s` unchanged for `None`, otherwise `s` between the colour's code and the reset code. */
  function ColorStr(c: Color, s: string): (r: string)
    ensures c == None ==> r == s
  {
    if c == -1 then s else Code(c) + s + Reset
  }

  /**
   * A coloured string is the colour's code, then `s` itself, then the
   * reset code: `s` sits unchanged at offset `DecimalWidth(c) + 3`, and
   * the result is 7 plus the digit count of `c` longer than `s`.
   */
  lemma {:induction false} ColorStrLayout(c: Color, s: string)
    requires c != None
    ensures |ColorStr(c, s)| == |s| + 7 + DecimalWidth(c)
    ensures ColorStr(c, s)[..DecimalWidth(c) + 3] == Code(c)
    ensures ColorStr(c, s)[DecimalWidth(c) + 3..DecimalWidth(c) + 3 + |s|] == s
    ensures ColorStr(c, s)[DecimalWidth(c) + 3 + |s|..] == Reset
  {
    var r := ColorStr(c, s);
    assert r == Code(c) + s + Reset;
    var w := DecimalWidth(c) + 3;
    assert r[..w] == Code(c);
    assert r[w..w + |s|] == s;
    assert r[w + |s|..] == Reset;
  }

  /** Red is code 31, so red text is `ESC[31m` text `ESC[0m`. */
  lemma {:induction false} RedText()
    ensures ColorStr(Red, "x") == [Esc, '[', '3', '1', 'm', 'x', Esc, '[', '0', 'm']
  {
    assert NatToString(31) == NatToString(3) + [DigitChar(1)];
  }
}
