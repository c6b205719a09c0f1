/**
 * Approximate horizontal centring of a text line on the display. Each font
 * is given one fixed glyph width, so a text of `n` characters is taken to be
 * `n * w` pixels wide and is drawn at half the display width minus half that.
 * The division is Python's true division, so offsets are exact reals.
 */
module Layout {

  /** The display is 128 by 64 pixels. */
  const DisplayWidth: int := 128
  const DisplayHeight: int := 64

  /** Assumed glyph widths: the 12 pt header font, the uptime header, the 18 pt value font. */
  const HeaderGlyph: nat := 8
  const UptimeHeaderGlyph: nat := 7
  const ValueGlyph: nat := 10

  /** The header of each page. */
  const MetricsHeader := "CURRENT METRICS"
  const UptimeHeader := "TIME SINCE BOOT"
  const ClockHeader := "CURRENT TIME"
  const AddressHeader := "IP ADDRESS"

  /**
   * The x offset of a centred text: the assumed text span has equal margins
   * on both sides, and starts inside the display exactly when it fits.
   */
  function CentredX(width: int, textLen: nat, glyphWidth: nat): (x: real)
    ensures x == width as real - (x + (textLen * glyphWidth) as real)
    ensures x >= 0.0 <==> textLen * glyphWidth <= width
  {
    width as real / 2.0 - (textLen * glyphWidth) as real / 2.0
  }

  /** The four fixed headers start at 4, 11.5, 16 and 24 on the 128-pixel display. */
  lemma HeaderOffsets()
    ensures CentredX(DisplayWidth, |MetricsHeader|, HeaderGlyph) == 4.0
    ensures CentredX(DisplayWidth, |UptimeHeader|, UptimeHeaderGlyph) == 11.5
    ensures CentredX(DisplayWidth, |ClockHeader|, HeaderGlyph) == 16.0
    ensures CentredX(DisplayWidth, |AddressHeader|, HeaderGlyph) == 24.0
  {
  }

  /**
   * In the value font a text stays on screen up to 12 characters: a date in
   * month-day-year form (10 characters) starts at 14, a 12-hour time with
   * seconds and AM/PM (11 characters) at 9.
   */
  lemma ValueOffsets(text: string)
    ensures CentredX(DisplayWidth, |text|, ValueGlyph) >= 0.0 <==> |text| <= 12
    ensures |text| == 10 ==> CentredX(DisplayWidth, |text|, ValueGlyph) == 14.0
    ensures |text| == 11 ==> CentredX(DisplayWidth, |text|, ValueGlyph) == 9.0
  {
  }
}
