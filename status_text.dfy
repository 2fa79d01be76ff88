/**
 * The notification text shown while boosting or cooling down: a header line
 * and a bracketed progress bar 40 columns wide.
 */
module StatusText {

  const ProgressBarWidth: int := 40
  /** The separator AppendLine writes (the platform newline of the Windows host). */
  const NewLine: string := "\r\n"

  const EngagedHeader: string := "<<<          BOOSTERS ENGAGED          >>>"
  const CooldownHeader: string := "<<<          BOOSTERS COOLDOWN         >>>"
  const OverheatHeader: string := "<<<          BOOSTERS OVERHEAT         >>>"

  /** Length of every header line. */
  const HeaderWidth: int := 42
  /** Index of the opening bracket: header plus newline. */
  const BarStart: int := HeaderWidth + 2

  /** Math.Ceiling followed by the integer cast: the least integer not below x. */
  function Ceiling(x: real): (c: int)
    ensures c as real - 1.0 < x <= c as real
  {
    -((-x).Floor)
  }

  /** Number of '#' columns the source computes for a progress percentage. */
  function Fill(progress: real): int {
    Ceiling(progress * (ProgressBarWidth as real) / 100.0)
  }

  function Header(hasOverheat: bool, boostersEngaged: bool): string {
    if !hasOverheat then
      if boostersEngaged then EngagedHeader else CooldownHeader
    else
      OverheatHeader
  }

  /** n copies of c (none when n is not positive). */
  function Repeat(c: char, n: int): (s: string)
    ensures |s| == if n < 0 then 0 else n
    ensures forall k :: 0 <= k < |s| ==> s[k] == c
  {
    if n <= 0 then [] else Repeat(c, n - 1) + [c]
  }

  /** The bracketed bar for a fill count: '#' for the filled columns, '_' up to column 40. */
  function Bar(fill: int): string {
    var hashes := if fill < 0 then 0 else fill;
    "[" + Repeat('#', hashes) + Repeat('_', ProgressBarWidth - hashes) + "]"
  }

  /**
   * The text RenderMessage builds: the header, the newline, '[', the
   * hashes, the underscores up to column 40, ']'.
   */
  function Message(progress: real, hasOverheat: bool, boostersEngaged: bool): (m: string)
    ensures |m| >= BarStart + 2
  {
    Header(hasOverheat, boostersEngaged) + NewLine + Bar(Fill(progress))
  }

  /**
   * The layout of a message: the header chosen by overheat first, then by
   * whether boosters are engaged; the newline; '[', ceil(progress*40/100)
   * copies of '#', '_' up to column 40, ']'. A percentage in [0, 100] fills
   * between 0 and 40 columns, so the bar is always 40 wide.
   */
  lemma MessageLayout(progress: real, hasOverheat: bool, boostersEngaged: bool)
    ensures var m := Message(progress, hasOverheat, boostersEngaged);
            && m[..HeaderWidth] ==
               (if hasOverheat then OverheatHeader
                else if boostersEngaged then EngagedHeader
                else CooldownHeader)
            && m[HeaderWidth..BarStart] == NewLine
            && m[BarStart] == '[' && m[|m| - 1] == ']'
            && (forall k :: BarStart < k < |m| - 1 ==>
                  m[k] == if k - BarStart - 1 < Fill(progress) then '#' else '_')
            && |m| - BarStart - 2 == (if Fill(progress) > ProgressBarWidth then Fill(progress) else ProgressBarWidth)
            && (0.0 <= progress <= 100.0 ==>
                  0 <= Fill(progress) <= ProgressBarWidth && |m| == BarStart + ProgressBarWidth + 2)
  {
  }

  /** The source's loop-based rendering into a cleared buffer. */
  method RenderMessage(progress: real, hasOverheat: bool, boostersEngaged: bool) returns (s: string)
    ensures s == Message(progress, hasOverheat, boostersEngaged)
  {
    var fill := Ceiling(progress * (ProgressBarWidth as real) / 100.0);

    var sb: string := [];
    if !hasOverheat {
      if boostersEngaged {
        sb := sb + EngagedHeader + NewLine;
      } else {
        sb := sb + CooldownHeader + NewLine;
      }
    } else {
      sb := sb + OverheatHeader + NewLine;
    }
    assert sb == Header(hasOverheat, boostersEngaged) + NewLine;
    s := AppendBar(sb, fill);
  }

  /** The two loops that write the bar after the header. */
  method AppendBar(sb0: string, fill: int) returns (sb: string)
    ensures sb == sb0 + Bar(fill)
  {
    ghost var hashes := if fill < 0 then 0 else fill;
    sb := sb0 + "[";
    var i := 0;
    while i < fill
      invariant 0 <= i <= hashes
      invariant sb == sb0 + "[" + Repeat('#', i)
    {
      sb := sb + ['#'];
      i := i + 1;
    }
    while i < ProgressBarWidth
      invariant hashes <= i && (hashes < ProgressBarWidth ==> i <= ProgressBarWidth) && (hashes >= ProgressBarWidth ==> i == hashes)
      invariant sb == sb0 + "[" + Repeat('#', hashes) + Repeat('_', i - hashes)
    {
      sb := sb + ['_'];
      i := i + 1;
    }
    assert Repeat('_', i - hashes) == Repeat('_', ProgressBarWidth - hashes);
    sb := sb + "]";
  }
}
