/** The radial score indicator (src/components/CircularProgress.tsx): three colour
    rules that band a score at 70 and 50, and the score printed in the middle.
    The SVG geometry (radius, circumference, dash offset) is not part of this model. */
module CircularProgress {

  /** The three colour bands: green, amber and red. */
  datatype Band = Favorable | Caution | Unfavorable

  /** The banding rule the three colour choices share. */
  function BandOf(score: int): (b: Band)
    ensures b == Favorable <==> score >= 70
    ensures b == Caution <==> 50 <= score < 70
    ensures b == Unfavorable <==> score < 50
  {
    if score >= 70 then Favorable
    else if score >= 50 then Caution
    else Unfavorable
  }

  /** How good a band is: a higher rank is a better band. */
  function Rank(b: Band): nat
  {
    match b
    case Favorable => 2
    case Caution => 1
    case Unfavorable => 0
  }

  function StrokeClass(b: Band): string
  {
    match b
    case Favorable => "stroke-neon-green"
    case Caution => "stroke-neon-amber"
    case Unfavorable => "stroke-neon-red"
  }

  function TextClass(b: Band): string
  {
    match b
    case Favorable => "neon-text-green"
    case Caution => "neon-text-amber"
    case Unfavorable => "neon-text-red"
  }

  function GlowClass(b: Band): string
  {
    match b
    case Favorable => "hsl(151 100% 50% / 0.5)"
    case Caution => "hsl(45 100% 50% / 0.5)"
    case Unfavorable => "hsl(0 100% 65% / 0.5)"
  }

  /** `getScoreColor`: the stroke class of the progress arc. */
  function ScoreColor(score: int): (c: string)
    ensures c == StrokeClass(BandOf(score))
  {
    if score >= 70 then "stroke-neon-green"
    else if score >= 50 then "stroke-neon-amber"
    else "stroke-neon-red"
  }

  /** `getScoreTextColor`: the class of the printed number. */
  function ScoreTextColor(score: int): (c: string)
    ensures c == TextClass(BandOf(score))
  {
    if score >= 70 then "neon-text-green"
    else if score >= 50 then "neon-text-amber"
    else "neon-text-red"
  }

  /** The colour of the arc's drop-shadow glow. */
  function GlowColor(score: int): (c: string)
    ensures c == GlowClass(BandOf(score))
  {
    if score >= 70 then "hsl(151 100% 50% / 0.5)"
    else if score >= 50 then "hsl(45 100% 50% / 0.5)"
    else "hsl(0 100% 65% / 0.5)"
  }

  /** What the indicator shows: arc colour, text colour, glow and the number. */
  datatype Indicator = Indicator(stroke: string, text: string, glow: string, number: int)

  function Render(score: int): (v: Indicator)
    ensures v.number == score
    ensures v.stroke == StrokeClass(BandOf(score))
    ensures v.text == TextClass(BandOf(score))
    ensures v.glow == GlowClass(BandOf(score))
  {
    Indicator(ScoreColor(score), ScoreTextColor(score), GlowColor(score), score)
  }

  /** The three colours never disagree: two scores get the same arc colour exactly
      when they get the same text colour, and exactly when they get the same glow. */
  lemma ColoursAgree(s: int, t: int)
    ensures ScoreColor(s) == ScoreColor(t) <==> BandOf(s) == BandOf(t)
    ensures ScoreTextColor(s) == ScoreTextColor(t) <==> BandOf(s) == BandOf(t)
    ensures GlowColor(s) == GlowColor(t) <==> BandOf(s) == BandOf(t)
  {
  }

  /** A higher score never gets a worse band. */
  lemma BandMonotone(s: int, t: int)
    requires s <= t
    ensures Rank(BandOf(s)) <= Rank(BandOf(t))
  {
  }
}
