/**
 * The three procedural 256x256 textures built by the FillCollection
 * constructor: a checkerboard for the atoms and floor, a ceiling panel and a
 * wall brick pattern. Each pixel is a function of its column i and row j
 * only; the buffers are filled row by row with nested loops.
 */
module Textures {
  import opened CppInt

  newtype byte = x: int | 0 <= x < 256

  /** An RGBA colour, one byte per channel. */
  datatype Color = Color(r: byte, g: byte, b: byte, a: byte)

  /** An opaque grey with all three colour channels at v. */
  function Grey(v: byte): Color
  {
    Color(v, v, v, 255)
  }

  /** The textures this code synthesises (Tex_None and the Tex_Count sentinel carry no pixels). */
  datatype BuiltinTexture = Checker | Block | Panel

  /** Width and height of every builtin texture, in pixels. */
  const Side: nat := 256

  /** Position of pixel (i, j) in a row-major buffer: `j*256+i`. */
  function PixelIndex(i: nat, j: nat): (k: nat)
    requires i < Side && j < Side
    ensures k < Side * Side
    ensures k % Side == i && k / Side == j
  {
    ModUnique(j * Side + i, Side, j, i);
    j * Side + i
  }

  /** Every buffer position is the index of exactly the pixel its remainder and quotient name. */
  lemma PixelIndexOnto(k: nat)
    requires k < Side * Side
    ensures k % Side < Side && k / Side < Side
    ensures PixelIndex(k % Side, k / Side) == k
  {
  }

  /** Checker pixel: `((i/4 >> 5) ^ (j/4 >> 5)) & 1` selects light grey 180, otherwise dark grey 80. */
  function CheckerTexel(i: nat, j: nat): (r: Color)
    ensures r == Grey(80) || r == Grey(180)
  {
    if BitAnd(BitXor(ShiftRight(i / 4, 5), ShiftRight(j / 4, 5)), 1) != 0 then Grey(180) else Grey(80)
  }

  /** Panel pixel: dark grey 80 when `i/4 == 0 || j/4 == 0`, otherwise light grey 180. */
  function PanelTexel(i: nat, j: nat): (r: Color)
    ensures r == Grey(80) || r == Grey(180)
  {
    if i / 4 == 0 || j / 4 == 0 then Grey(80) else Grey(180)
  }

  /** Brick pixel: mortar grey 60 on the C++ bit test over (i/4, j/4), otherwise brick face 180. */
  function BlockTexel(i: nat, j: nat): (r: Color)
    ensures r == Grey(60) || r == Grey(180)
  {
    var u, v := i / 4, j / 4;
    var vertical := BitXor(if BitAnd(u, 31) == 0 then 1 else 0, BitAnd(ShiftRight(v, 4), 1)) == 0;
    if BitAnd(v, 15) == 0 || (BitAnd(u, 15) == 0 && vertical) then Grey(60) else Grey(180)
  }

  /** The pixel (i, j) of texture t. */
  function Texel(t: BuiltinTexture, i: nat, j: nat): Color
  {
    match t
    case Checker => CheckerTexel(i, j)
    case Block => BlockTexel(i, j)
    case Panel => PanelTexel(i, j)
  }

  /**
   * Checker quadrants: a pixel is light exactly when its column and row lie in
   * different 128-pixel halves, so the texture is four 128x128 squares.
   */
  lemma CheckerQuadrants(i: nat, j: nat)
    requires i < Side && j < Side
    ensures CheckerTexel(i, j) == (if i / 128 != j / 128 then Grey(180) else Grey(80))
  {
    var u, v := ShiftRight(i / 4, 5), ShiftRight(j / 4, 5);
    assert u == i / 128 && v == j / 128;
    XorLowBit(u, v);
  }

  /** Pixels (0,0) and (128,128) are dark; (0,128) and (128,0) are light. */
  lemma CheckerCorners()
    ensures CheckerTexel(0, 0) == Grey(80)
    ensures CheckerTexel(128, 128) == Grey(80)
    ensures CheckerTexel(0, 128) == Grey(180) && CheckerTexel(128, 0) == Grey(180)
  {
    CheckerQuadrants(0, 0);
    CheckerQuadrants(128, 128);
    CheckerQuadrants(0, 128);
    CheckerQuadrants(128, 0);
  }

  /** Panel border: dark exactly on the first four columns and the first four rows. */
  lemma PanelBorder(i: nat, j: nat)
    ensures PanelTexel(i, j) == Grey(80) <==> i < 4 || j < 4
    ensures PanelTexel(i, j) != Grey(80) ==> PanelTexel(i, j) == Grey(180)
  {
  }

  /**
   * Where the brick texture has mortar, in block coordinates u = i/4, v = j/4:
   * a horizontal joint every 16 blocks, and vertical joints at u mod 32 == 16
   * in even courses (v/16 even) and at u mod 32 == 0 in odd courses.
   */
  predicate Mortar(u: nat, v: nat)
  {
    v % 16 == 0
    || (v / 16 % 2 == 0 && u % 32 == 16)
    || (v / 16 % 2 == 1 && u % 32 == 0)
  }

  /** The brick bit test means Mortar, and only the two colours 60 and 180 occur. */
  lemma BlockJoints(i: nat, j: nat)
    ensures BlockTexel(i, j) == (if Mortar(i / 4, j / 4) then Grey(60) else Grey(180))
  {
    var u, v := i / 4, j / 4;
    assert Pow2(4) == 16 && Pow2(5) == 32;
    BitAndLowMask(u, 4);
    BitAndLowMask(u, 5);
    BitAndLowMask(v, 4);
    assert BitAnd(v, 15) == v % 16 && BitAnd(u, 15) == u % 16 && BitAnd(u, 31) == u % 32;
    var course := BitAnd(ShiftRight(v, 4), 1);
    BitAndOne(ShiftRight(v, 4));
    assert course == v / 16 % 2;
    var w := if u % 32 == 0 then 1 else 0;
    XorEqual(w, course);
    ModOfMod(u);
  }

  /** Reducing mod 32 first does not change the remainder mod 16. */
  lemma ModOfMod(u: nat)
    ensures u % 16 == (u % 32) % 16
    ensures u % 16 == 0 && u % 32 != 0 <==> u % 32 == 16
  {
    var r := u % 32;
    assert u == 16 * (2 * (u / 32) + r / 16) + r % 16;
    ModUnique(u, 16, 2 * (u / 32) + r / 16, r % 16);
  }

  /** On single bits, `a ^ b == 0` exactly when a and b are equal. */
  lemma XorEqual(a: nat, b: nat)
    requires a <= 1 && b <= 1
    ensures BitXor(a, b) == 0 <==> a == b
  {
  }

  /** Each aligned 4x4 block of the brick texture has a single colour. */
  lemma BlockUniform(i: nat, j: nat, i': nat, j': nat)
    requires i / 4 == i' / 4 && j / 4 == j' / 4
    ensures BlockTexel(i, j) == BlockTexel(i', j')
  {
  }

  /**
   * Fills a fresh 256x256 buffer for texture t, row j by row, column i within
   * the row, storing pixel (i, j) at `j*256+i`; every position of the buffer
   * ends up holding the texel of the pixel it indexes.
   */
  method Synthesize(t: BuiltinTexture) returns (pixels: array<Color>)
    ensures fresh(pixels) && pixels.Length == Side * Side
    ensures forall k :: 0 <= k < pixels.Length ==> pixels[k] == Texel(t, k % Side, k / Side)
  {
    pixels := new Color[Side * Side];
    var j := 0;
    while j < Side
      invariant 0 <= j <= Side
      invariant forall k :: 0 <= k < j * Side ==> pixels[k] == Texel(t, k % Side, k / Side)
    {
      var i := 0;
      while i < Side
        invariant 0 <= i <= Side
        invariant forall k :: 0 <= k < j * Side + i ==> pixels[k] == Texel(t, k % Side, k / Side)
      {
        var k := PixelIndex(i, j);
        pixels[k] := Texel(t, i, j);
        i := i + 1;
      }
      j := j + 1;
    }
  }

  /** The builtin textures created once per scene population. */
  class FillCollection {
    var checker: array<Color>
    var block: array<Color>
    var panel: array<Color>

    constructor ()
      ensures fresh(checker) && fresh(block) && fresh(panel)
      ensures checker.Length == Side * Side && block.Length == Side * Side && panel.Length == Side * Side
      ensures forall k :: 0 <= k < Side * Side ==> checker[k] == CheckerTexel(k % Side, k / Side)
      ensures forall k :: 0 <= k < Side * Side ==> panel[k] == PanelTexel(k % Side, k / Side)
      ensures forall k :: 0 <= k < Side * Side ==> block[k] == BlockTexel(k % Side, k / Side)
    {
      var c := Synthesize(Checker);
      var p := Synthesize(Panel);
      var b := Synthesize(Block);
      checker, panel, block := c, p, b;
    }
  }
}
