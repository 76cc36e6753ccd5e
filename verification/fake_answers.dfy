/**
 * The rules of the synthetic answer-sheet generator that do not depend on
 * its random texture: the secondary choice of a double mark, the placement
 * box of a pencil fill, and the multiply blend that writes it into one
 * channel of the image. Random draws enter as parameters.
 */
module FakeAnswers {
  import opened Numeric

  const Choices: seq<char> := ['A', 'B', 'C', 'D']
  const PillRx: int := 13
  const PillRy: int := 8
  const GraphiteGain: real := 1.35

  /** `[c for c in choices if c != primary]`, order kept. */
  function Others(choices: seq<char>, primary: char): (r: seq<char>)
    ensures |r| <= |choices|
    ensures forall c :: c in r <==> c in choices && c != primary
  {
    if |choices| == 0 then []
    else
      var t := Others(choices[1..], primary);
      assert choices == [choices[0]] + choices[1..];
      if choices[0] != primary then [choices[0]] + t else t
  }

  /** The secondary mark `random.choice(others)`, the draw given as an index: it is one of the
      four choices and never the primary one. */
  function Secondary(primary: char, pick: nat): (c: char)
    requires primary in Choices && pick < 3
    ensures c in Choices && c != primary
  {
    var others := Others(Choices, primary);
    assert |others| == 3 by {
      OthersOfChoices(primary);
    }
    assert others[pick] in others;
    others[pick]
  }

  lemma {:induction false} OthersOfChoices(primary: char)
    requires primary in Choices
    ensures |Others(Choices, primary)| == 3
  {
    if primary == 'A' {
      assert Others(Choices, primary) == ['B', 'C', 'D'];
    } else if primary == 'B' {
      assert Others(Choices, primary) == ['A', 'C', 'D'];
    } else if primary == 'C' {
      assert Others(Choices, primary) == ['A', 'B', 'D'];
    } else {
      assert Others(Choices, primary) == ['A', 'B', 'C'];
    }
  }

  /** Each of the three draws reaches a different choice, so every non-primary choice can be the
      secondary one. */
  lemma {:induction false} SecondaryOnto(primary: char, c: char)
    requires primary in Choices && c in Choices && c != primary
    ensures exists pick :: 0 <= pick < 3 && Secondary(primary, pick) == c
  {
    OthersOfChoices(primary);
    var others := Others(Choices, primary);
    assert c in others;
    var k :| 0 <= k < |others| && others[k] == c;
    assert Secondary(primary, k) == c;
  }

  /** The pasted pill's box `[x1, x2) x [y1, y2)`. */
  datatype Box = Box(x1: int, y1: int, x2: int, y2: int)

  /** The placement box for a fill centred at the jittered (cx, cy) at size factor `scale`:
      `target_w = int(13 * scale)`, `target_h = int(8 * scale)`, `x1 = int(cx - target_w // 2)`. */
  function Placement(cx: real, cy: real, scale: real): (b: Box)
    requires scale >= 0.0
    ensures b.x2 - b.x1 == Trunc(PillRx as real * scale) && b.y2 - b.y1 == Trunc(PillRy as real * scale)
    ensures b.x2 >= b.x1 && b.y2 >= b.y1
  {
    var tw := Trunc(PillRx as real * scale);
    var th := Trunc(PillRy as real * scale);
    var x1 := Trunc(cx - (tw / 2) as real);
    var y1 := Trunc(cy - (th / 2) as real);
    Box(x1, y1, x1 + tw, y1 + th)
  }

  /** At the generator's size factors 6 to 7 the pill is 78 to 91 pixels wide and 48 to 56 high. */
  lemma {:induction false} PlacementSize(cx: real, cy: real, scale: real)
    requires 6.0 <= scale <= 7.0
    ensures 78 <= Placement(cx, cy, scale).x2 - Placement(cx, cy, scale).x1 <= 91
    ensures 48 <= Placement(cx, cy, scale).y2 - Placement(cx, cy, scale).y1 <= 56
  {
    TruncMonotone(78.0, 13.0 * scale);
    TruncMonotone(13.0 * scale, 91.0);
    TruncMonotone(48.0, 8.0 * scale);
    TruncMonotone(8.0 * scale, 56.0);
  }

  function InsideImage(b: Box, w: nat, h: nat): bool
  {
    !(b.x1 < 0 || b.y1 < 0 || b.x2 > w || b.y2 > h)
  }

  function InBox(b: Box, y: int, x: int): bool
  {
    b.y1 <= y < b.y2 && b.x1 <= x < b.x2
  }

  /** `np.clip(v, 0, 1)`. */
  function Clip01(v: real): (r: real)
    ensures 0.0 <= r <= 1.0
    ensures 0.0 <= v <= 1.0 ==> r == v
  {
    if v < 0.0 then 0.0 else if v > 1.0 then 1.0 else v
  }

  /** One 8-bit channel value after the multiply blend `(p / 255 * (1 - g)) * 255` and the
      truncating cast to uint8, with g the clipped graphite strength. */
  function Blend(p: nat, g: real): (r: int)
    requires p <= 255 && 0.0 <= g <= 1.0
    ensures 0 <= r <= p
    ensures g == 0.0 ==> r == p
    ensures g == 1.0 ==> r == 0
  {
    var keep := 1.0 - g;
    var v := p as real * keep;
    MulUnitInterval(p as real, keep);
    MulUnitEnds(p as real, keep);
    TruncMonotone(v, p as real);
    Trunc(v)
  }

  predicate Channel(img: seq<seq<int>>, w: nat, h: nat)
  {
    |img| == h && forall y :: 0 <= y < h ==> |img[y]| == w && forall x :: 0 <= x < w ==> 0 <= img[y][x] <= 255
  }

  /** The graphite strength at offset (dy, dx) of the box: `clip(texture * 1.35 * intensity, 0, 1)`. */
  function Strength(texture: (int, int) -> real, intensity: real, dy: int, dx: int): (g: real)
    ensures 0.0 <= g <= 1.0
  {
    Clip01(texture(dy, dx) * GraphiteGain * intensity)
  }

  /** One channel value after the fill: blended inside the box, kept outside it. */
  function FillPixel(p: int, y: int, x: int, b: Box, texture: (int, int) -> real, intensity: real): (r: int)
    requires 0 <= p <= 255
    ensures 0 <= r <= p
    ensures !InBox(b, y, x) ==> r == p
    ensures InBox(b, y, x) ==> r == Blend(p, Strength(texture, intensity, y - b.y1, x - b.x1))
  {
    if InBox(b, y, x) then Blend(p, Strength(texture, intensity, y - b.y1, x - b.x1)) else p
  }

  /** `simulate_pencil_fill` on one channel, the resized texture given as a function of the
      position inside the box: nothing is drawn when the box leaves the image; otherwise every
      pixel of the box is blended with its graphite strength and every other pixel is kept, so
      the fill only ever darkens. */
  function PencilFill(img: seq<seq<int>>, w: nat, h: nat, b: Box, texture: (int, int) -> real, intensity: real)
    : (r: seq<seq<int>>)
    requires Channel(img, w, h)
    ensures Channel(r, w, h)
    ensures !InsideImage(b, w, h) ==> r == img
    ensures forall y, x :: 0 <= y < h && 0 <= x < w && !InBox(b, y, x) ==> r[y][x] == img[y][x]
    ensures forall y, x :: 0 <= y < h && 0 <= x < w ==> r[y][x] <= img[y][x]
    ensures InsideImage(b, w, h) ==> forall y, x :: 0 <= y < h && 0 <= x < w && InBox(b, y, x) ==>
      r[y][x] == Blend(img[y][x], Strength(texture, intensity, y - b.y1, x - b.x1))
  {
    if !InsideImage(b, w, h) then img
    else seq(h, y requires 0 <= y < h => FillRow(img[y], w, y, b, texture, intensity))
  }

  function FillRow(row: seq<int>, w: nat, y: int, b: Box, texture: (int, int) -> real, intensity: real)
    : (r: seq<int>)
    requires |row| == w && forall x :: 0 <= x < w ==> 0 <= row[x] <= 255
    ensures |r| == w
    ensures forall x :: 0 <= x < w ==> r[x] == FillPixel(row[x], y, x, b, texture, intensity)
  {
    seq(w, x requires 0 <= x < w => FillPixel(row[x], y, x, b, texture, intensity))
  }
}
