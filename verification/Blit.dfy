/** Unsigned 32-bit arithmetic on integers. */
module Words {
  const WORD: int := 0x1_0000_0000

  type Word = w: int | 0 <= w < WORD

  /** Bitwise and. */
  function And(a: nat, b: nat): (r: nat)
    ensures r <= a && r <= b
  {
    if a == 0 || b == 0 then 0 else 2 * And(a / 2, b / 2) + (if a % 2 == 1 && b % 2 == 1 then 1 else 0)
  }

  /** Bitwise or: what is in either, less what was counted twice. */
  function Or(a: nat, b: nat): (r: nat) {
    a + b - And(a, b)
  }

  function Power2(k: nat): (p: nat)
    ensures p > 0
  {
    if k == 0 then 1 else 2 * Power2(k - 1)
  }

  lemma AndStep(a: nat, b: nat, x: nat, y: nat)
    requires x < 2 && y < 2
    ensures And(2 * a + x, 2 * b + y) == 2 * And(a, b) + (if x == y == 1 then 1 else 0)
  {
    assert (2 * a + x) / 2 == a && (2 * b + y) / 2 == b;
  }

  function BitAt(a: nat, k: nat): bool {
    if k == 0 then a % 2 == 1 else BitAt(a / 2, k - 1)
  }

  lemma OrStep(a: nat, b: nat)
    ensures Or(a, b) % 2 == 1 <==> a % 2 == 1 || b % 2 == 1
    ensures Or(a, b) / 2 == Or(a / 2, b / 2)
  {
    hide And;
    AndHalves(a, b);
  }

  /** And and or work bit by bit. */
  lemma {:induction false} BitsOfAndOr(a: nat, b: nat, k: nat)
    ensures BitAt(And(a, b), k) <==> BitAt(a, k) && BitAt(b, k)
    ensures BitAt(Or(a, b), k) <==> BitAt(a, k) || BitAt(b, k)
  {
    hide And, Or;
    AndHalves(a, b);
    OrStep(a, b);
    if k > 0 { BitsOfAndOr(a / 2, b / 2, k - 1); }
  }

  lemma AndHalves(a: nat, b: nat)
    ensures And(a, b) % 2 == 1 <==> a % 2 == 1 && b % 2 == 1
    ensures And(a, b) / 2 == And(a / 2, b / 2)
  {
    AndNone(0);
  }

  lemma Twice(p: int, a: int)
    ensures (2 * p) * a == 2 * (p * a)
  {}

  /** And works on the high and the low parts of its operands separately. */
  lemma {:induction false} AndSplit(a: nat, x: nat, b: nat, y: nat, k: nat)
    requires x < Power2(k) && y < Power2(k)
    ensures And(Power2(k) * a + x, Power2(k) * b + y) == Power2(k) * And(a, b) + And(x, y)
    decreases k
  {
    hide And;
    if k > 0 {
      var p := Power2(k - 1);
      Twice(p, a);
      Twice(p, b);
      Twice(p, And(a, b));
      AndSplit(a, x / 2, b, y / 2, k - 1);
      AndStep(p * a + x / 2, p * b + y / 2, x % 2, y % 2);
      AndStep(x / 2, y / 2, x % 2, y % 2);
    } else {
      AndNone(0);
      assert Power2(0) * a + x == a && Power2(0) * b + y == b;
    }
  }

  lemma {:induction false} AndOnes(x: nat, k: nat)
    requires x < Power2(k)
    ensures And(x, Power2(k) - 1) == x
    decreases k
  {
    if k > 0 {
      AndOnes(x / 2, k - 1);
      AndStep(x / 2, Power2(k - 1) - 1, x % 2, 1);
    }
  }

  lemma AndByte(a: nat, x: nat, b: nat, y: nat)
    requires x < 256 && y < 256
    ensures And(256 * a + x, 256 * b + y) == 256 * And(a, b) + And(x, y)
    ensures And(x, 255) == x && And(x, 0) == 0
  {
    hide And;
    assert Power2(8) == 256 by { assert Power2(4) == 16; }
    AndSplit(a, x, b, y, 8);
    AndOnes(x, 8);
    AndNone(x);
  }

  lemma AndNone(x: nat)
    ensures And(x, 0) == 0
  {}
}

/** Packed pixels, and what multiplying a whole pixel does to its bytes. */
module Pixels {
  import opened Words

  function Low(c: Word): (b: int)
    ensures 0 <= b < 256
  {
    c % 256
  }

  function Mid(c: Word): (b: int)
    ensures 0 <= b < 256
  {
    c / 0x100 % 256
  }

  function High(c: Word): (b: int)
    ensures 0 <= b < 256
  {
    c / 0x10000 % 256
  }

  function Alpha(c: Word): (b: int)
    ensures 0 <= b < 256
  {
    c / 0x1000000
  }

  function Pack(alpha: int, high: int, mid: int, low: int): int {
    0x1000000 * alpha + 0x10000 * high + 0x100 * mid + low
  }

  lemma Nested(c: int)
    ensures c / 0x10000 == c / 0x100 / 256 && c / 0x1000000 == c / 0x100 / 256 / 256
  {}

  lemma Unpack(c: Word)
    ensures c == Pack(Alpha(c), High(c), Mid(c), Low(c))
  {
    Nested(c);
  }

  lemma Step256(t: int, b: int)
    requires 0 <= b < 256
    ensures (256 * t + b) / 256 == t && (256 * t + b) % 256 == b
  {}

  lemma BytesOfPacked(alpha: int, high: int, mid: int, low: int)
    requires 0 <= alpha < 256 && 0 <= high < 256 && 0 <= mid < 256 && 0 <= low < 256
    ensures var c := Pack(alpha, high, mid, low);
            0 <= c < WORD && Alpha(c) == alpha && High(c) == high && Mid(c) == mid && Low(c) == low
  {
    var c := Pack(alpha, high, mid, low);
    var u := 256 * alpha + high;
    var t := 256 * u + mid;
    assert c == 256 * t + low;
    Nested(c);
    Step256(t, low);
    Step256(u, mid);
    Step256(alpha, high);
  }

  /** The masks 0x00ff00ff, 0x0000ff00 and 0x00ffffff pick out bytes. */
  lemma Masks(c: Word)
    ensures And(c, 0x00ff00ff) == Pack(0, High(c), 0, Low(c))
    ensures And(c, 0x0000ff00) == Pack(0, 0, Mid(c), 0)
    ensures And(c, 0x00ffffff) == Pack(0, High(c), Mid(c), Low(c))
  {
    hide And;
    Unpack(c);
    MaskBytes(Alpha(c), High(c), Mid(c), Low(c), 0, 255, 0, 255);
    MaskBytes(Alpha(c), High(c), Mid(c), Low(c), 0, 0, 255, 0);
    MaskBytes(Alpha(c), High(c), Mid(c), Low(c), 0, 255, 255, 255);
  }

  lemma PackNested(a: int, h: int, m: int, l: int)
    ensures Pack(a, h, m, l) == Cat(Cat(Cat(a, h), m), l)
  {}

  /** A value with one more byte behind it. */
  function Cat(high: int, low: int): (c: int)
    ensures high >= 0 && low >= 0 ==> c >= 0
  {
    256 * high + low
  }

  /** And works byte by byte. */
  lemma MaskBytes(a: int, h: int, m: int, l: int, a1: int, h1: int, m1: int, l1: int)
    requires 0 <= a < 256 && 0 <= h < 256 && 0 <= m < 256 && 0 <= l < 256
    requires 0 <= a1 < 256 && 0 <= h1 < 256 && 0 <= m1 < 256 && 0 <= l1 < 256
    ensures And(Pack(a, h, m, l), Pack(a1, h1, m1, l1)) == Pack(And(a, a1), And(h, h1), And(m, m1), And(l, l1))
    ensures forall x | 0 <= x < 256 :: And(x, 255) == x && And(x, 0) == 0
  {
    hide And, Pack, Cat;
    PackNested(a, h, m, l);
    PackNested(a1, h1, m1, l1);
    PackNested(And(a, a1), And(h, h1), And(m, m1), And(l, l1));
    AndCat(Cat(Cat(a, h), m), l, Cat(Cat(a1, h1), m1), l1);
    AndCat(Cat(a, h), m, Cat(a1, h1), m1);
    AndCat(a, h, a1, h1);
    ByteMasks();
  }

  lemma AndCat(a: nat, x: nat, b: nat, y: nat)
    requires x < 256 && y < 256
    ensures And(Cat(a, x), Cat(b, y)) == Cat(And(a, b), And(x, y))
  {
    hide And;
    AndByte(a, x, b, y);
  }

  lemma ByteMasks()
    ensures forall x | 0 <= x < 256 :: And(x, 255) == x && And(x, 0) == 0
  {
    hide And;
    forall x | 0 <= x < 256 ensures And(x, 255) == x && And(x, 0) == 0 { AndByte(0, x, 0, 0); }
  }

  /** The product, named so that a proof can leave it folded. */
  function Mul(x: int, m: int): int {
    x * m
  }

  /** x scaled by m / 256, rounded down. */
  function Share(x: int, m: int): int {
    Mul(x, m) / 256
  }

  /** c & mask, scaled by m / 256 and masked again, in 32-bit arithmetic. */
  function Scaled(c: Word, mask: Word, m: int): Word
    requires 0 <= m < 256
  {
    ByteProductPositive(And(c, mask), m);
    And(Mul(And(c, mask), m) % WORD / 256, mask)
  }

  lemma ByteProductPositive(x: nat, m: nat)
    ensures Mul(x, m) >= 0
  {}

  lemma Quotient(p: int, q: int)
    requires 0 <= p <= 65025 && 0 <= q <= 65025
    ensures (0x10000 * p + q) / 256 == Pack(0, p / 256, p % 256, q / 256)
    ensures p / 256 <= 254 && q / 256 <= 254
  {}

  lemma ByteProduct(x: int, m: int)
    requires 0 <= x < 256 && 0 <= m < 256
    ensures 0 <= Mul(x, m) <= 255 * m
    ensures 0 <= Share(x, m) < 256
  {
    assert x * m <= 255 * m by { assert (255 - x) * m >= 0; }
  }

  lemma MulPacked(high: int, mid: int, low: int, m: int)
    ensures Mul(Pack(0, high, 0, low), m) == 0x10000 * Mul(high, m) + Mul(low, m)
    ensures Mul(Pack(0, 0, mid, 0), m) == 0x100 * Mul(mid, m)
  {}

  /** Scaling two bytes in one multiplication scales each by itself. */
  lemma {:induction false} ScaledBytes(c: Word, m: int)
    requires 0 <= m < 256
    ensures Scaled(c, 0x00ff00ff, m) == Pack(0, Share(High(c), m), 0, Share(Low(c), m))
    ensures Scaled(c, 0x0000ff00, m) == Pack(0, 0, Share(Mid(c), m), 0)
  {
    hide And, High, Mid, Low, Mul, Pack;
    Masks(c);
    ByteProduct(High(c), m);
    ByteProduct(Mid(c), m);
    ByteProduct(Low(c), m);
    MulPacked(High(c), Mid(c), Low(c), m);
    OuterScaled(Mul(High(c), m), Mul(Low(c), m));
    MiddleScaled(Mul(Mid(c), m));
  }

  lemma NoWrap(v: int)
    requires 0 <= v < WORD
    ensures v % WORD == v
  {}

  lemma OuterScaled(h: int, l: int)
    requires 0 <= h <= 65025 && 0 <= l <= 65025
    ensures And((0x10000 * h + l) % WORD / 256, 0x00ff00ff) == Pack(0, h / 256, 0, l / 256)
  {
    hide And, Pack, High, Mid, Low, Alpha;
    NoWrap(0x10000 * h + l);
    Quotient(h, l);
    BytesOfPacked(0, h / 256, h % 256, l / 256);
    Masks(Pack(0, h / 256, h % 256, l / 256));
  }

  lemma MiddleScaled(g: int)
    requires 0 <= g <= 65025
    ensures And(0x100 * g % WORD / 256, 0x0000ff00) == Pack(0, 0, g / 256, 0)
  {
    hide And;
    assert 0x100 * g % WORD / 256 == g && g / 256 % 256 == g / 256;
    Masks(g);
  }
}

/** blit.c: colours, and rectangles of them in the frame buffer. */
module Blit {
  import opened Words
  import opened Pixels

  /** adjust_alpha: the colour scaled by its transparency, once and for all. */
  function AdjustAlpha(col: Word): Word {
    var alpha := Alpha(col);
    if alpha == 0 || alpha == 0xff then col
    else
      var mul := 255 - alpha;
      ScaledFits(col, mul);
      Or(Or(alpha * 0x1000000 % WORD, Scaled(col, 0x00ff00ff, mul)), Scaled(col, 0x0000ff00, mul))
  }

  /** What blit_square makes of a pixel; color has been through adjust_alpha. */
  function Blend(color: Word, was: Word): Word {
    var alpha := Alpha(color);
    if alpha == 0 then color
    else if alpha == 0xff then was
    else
      (And(color, 0x00ffffff) + Scaled(was, 0x00ff00ff, alpha) + Scaled(was, 0x0000ff00, alpha)) % WORD
  }

  /** Or of bytes in different places puts them together. */
  lemma OrBytes(a: int, h: int, m: int, l: int)
    requires 0 <= a < 256 && 0 <= h < 256 && 0 <= m < 256 && 0 <= l < 256
    ensures Or(Or(0x1000000 * a, Pack(0, h, 0, l)), Pack(0, 0, m, 0)) == Pack(a, h, m, l)
  {
    hide And;
    MaskBytes(a, 0, 0, 0, 0, h, 0, l);
    MaskBytes(a, h, 0, l, 0, 0, m, 0);
    AndZero(h);
    AndZero(l);
    AndZero(m);
  }

  lemma AndZero(x: nat)
    ensures And(0, x) == 0 && And(x, 0) == 0
  {}

  lemma ScaledFits(col: Word, mul: int)
    requires mul == 255 - Alpha(col)
    ensures var c := Or(Or(Alpha(col) * 0x1000000 % WORD, Scaled(col, 0x00ff00ff, mul)), Scaled(col, 0x0000ff00, mul));
            0 <= c < WORD && c == Pack(Alpha(col), Share(High(col), mul), Share(Mid(col), mul), Share(Low(col), mul))
  {
    hide And, Scaled, Or, Alpha, High, Mid, Low, Share;
    ScaledBytes(col, mul);
    ByteProduct(High(col), mul);
    ByteProduct(Mid(col), mul);
    ByteProduct(Low(col), mul);
    OrBytes(Alpha(col), Share(High(col), mul), Share(Mid(col), mul), Share(Low(col), mul));
    BytesOfPacked(Alpha(col), Share(High(col), mul), Share(Mid(col), mul), Share(Low(col), mul));
  }

  /** The shares of two bytes in a mix never overflow a byte. */
  lemma SharesFit(x: int, y: int, alpha: int)
    requires 0 <= x < 256 && 0 <= y < 256 && 0 < alpha < 255
    ensures 0 <= Share(x, 255 - alpha) && 0 <= Share(y, alpha)
    ensures Share(x, 255 - alpha) + Share(y, alpha) <= 254
  {
    hide Mul;
    ByteProduct(x, 255 - alpha);
    ByteProduct(y, alpha);
  }

  /** A translucent colour mixes byte by byte, in the proportions its alpha gives, with no carry
      from one byte into the next and nothing above 254; the result has no alpha. */
  lemma {:induction false} BlendMixesBytes(col: Word, was: Word)
    requires 0 < Alpha(col) < 0xff
    ensures var a := Alpha(col);
            var r := Blend(AdjustAlpha(col), was);
            && Low(r) == Low(col) * (255 - a) / 256 + Low(was) * a / 256 <= 254
            && Mid(r) == Mid(col) * (255 - a) / 256 + Mid(was) * a / 256 <= 254
            && High(r) == High(col) * (255 - a) / 256 + High(was) * a / 256 <= 254
            && Alpha(r) == 0
  {
    hide And, Or, Scaled, Alpha, High, Mid, Low;
    BlendShares(col, was);
  }

  lemma AddPacked(h: int, g: int, l: int, h1: int, g1: int, l1: int)
    ensures Pack(0, h, g, l) + Pack(0, h1, 0, l1) + Pack(0, 0, g1, 0) == Pack(0, h + h1, g + g1, l + l1)
  {}

  lemma BlendShares(col: Word, was: Word)
    requires 0 < Alpha(col) < 0xff
    ensures var a := Alpha(col);
            var r := Blend(AdjustAlpha(col), was);
            && Low(r) == Share(Low(col), 255 - a) + Share(Low(was), a) <= 254
            && Mid(r) == Share(Mid(col), 255 - a) + Share(Mid(was), a) <= 254
            && High(r) == Share(High(col), 255 - a) + Share(High(was), a) <= 254
            && Alpha(r) == 0
  {
    hide And, Or, Scaled, Alpha, High, Mid, Low, Share, Pack;
    var a := Alpha(col);
    SharesFit(High(col), High(was), a);
    SharesFit(Mid(col), Mid(was), a);
    SharesFit(Low(col), Low(was), a);
    var h, g, l := Share(High(col), 255 - a), Share(Mid(col), 255 - a), Share(Low(col), 255 - a);
    var h1, g1, l1 := Share(High(was), a), Share(Mid(was), a), Share(Low(was), a);
    ScaledFits(col, 255 - a);
    BytesOfPacked(a, h, g, l);
    Masks(Pack(a, h, g, l));
    ScaledBytes(was, a);
    AddPacked(h, g, l, h1, g1, l1);
    BytesOfPacked(0, h + h1, g + g1, l + l1);
  }

  /** A clear colour replaces the pixel and an opaque one, against its name, leaves it. */
  lemma {:induction false} BlendExtremes(col: Word, was: Word)
    ensures Alpha(col) == 0 ==> Blend(AdjustAlpha(col), was) == col
    ensures Alpha(col) == 0xff ==> Blend(AdjustAlpha(col), was) == was
  {}

  datatype Rect = Rect(x: int, y: int, width: int, height: int)

  /** The pixel at column and row of a buffer with rows of pitch pixels. */
  function Offset(col: int, row: int, pitch: int): int {
    col + row * pitch
  }

  /** Offset o lies in the rectangle. */
  predicate Covers(r: Rect, pitch: int, o: int)
    requires pitch > 0
  {
    r.x <= o % pitch < r.x + r.width && r.y <= o / pitch < r.y + r.height
  }

  /** The rectangle stays within its rows and the buffer. */
  predicate Fits(r: Rect, pitch: int, size: int) {
    r.width > 0 && r.height > 0 ==>
      0 <= r.x && r.x + r.width <= pitch && 0 <= r.y &&
      Offset(r.x + r.width - 1, r.y + r.height - 1, pitch) < size
  }

  /** Offsets of one row after another do not overlap. */
  lemma {:induction false} OffsetsApart(col: int, row: int, pitch: int)
    requires 0 <= col < pitch
    ensures Offset(col, row, pitch) % pitch == col && Offset(col, row, pitch) / pitch == row
  {
    var o := Offset(col, row, pitch);
    assert o == pitch * (o / pitch) + o % pitch;
    if o / pitch > row {
      assert pitch * (o / pitch) >= pitch * (row + 1) by { Monotone(row + 1, o / pitch, pitch); }
    } else if o / pitch < row {
      assert pitch * (o / pitch + 1) <= pitch * row by { Monotone(o / pitch + 1, row, pitch); }
    }
  }

  lemma Monotone(a: int, b: int, p: int)
    requires a <= b && p > 0
    ensures p * a <= p * b
  {}

  lemma InBuffer(r: Rect, pitch: int, size: int, x: int, y: int)
    requires Fits(r, pitch, size) && 0 <= x < r.width && 0 <= y < r.height
    ensures 0 <= Offset(r.x + x, r.y + y, pitch) < size
  {
    Monotone(r.y + y, r.y + r.height - 1, pitch);
    Monotone(0, r.y + y, pitch);
  }

  /** The columns before x, and of column x the pixels before y, as blit_square visits them. */
  predicate Visited(r: Rect, pitch: int, x: int, y: int, o: int)
    requires pitch > 0
  {
    Covers(r, pitch, o) && (o % pitch < r.x + x || (o % pitch == r.x + x && o / pitch < r.y + y))
  }

  /** The next pixel is new, and the only one that joins those visited. */
  lemma VisitNext(r: Rect, pitch: int, size: int, x: int, y: int, o: int)
    requires Fits(r, pitch, size) && 0 <= x < r.width && 0 <= y < r.height
    ensures !Visited(r, pitch, x, y, Offset(r.x + x, r.y + y, pitch))
    ensures Visited(r, pitch, x, y + 1, o) <==>
            Visited(r, pitch, x, y, o) || o == Offset(r.x + x, r.y + y, pitch)
  {
    OffsetsApart(r.x + x, r.y + y, pitch);
    OffsetsApart(o % pitch, o / pitch, pitch);
    assert Offset(o % pitch, o / pitch, pitch) == o;
  }

  /** The body of blit_square's loops. */
  method Plot(vram: array<Word>, offset: int, color: Word)
    requires 0 <= offset < vram.Length
    modifies vram
    ensures vram[offset] == Blend(color, old(vram[offset]))
    ensures forall o | 0 <= o < vram.Length && o != offset :: vram[o] == old(vram[o])
  {
    hide And, Scaled;
    var alpha := Alpha(color);
    if alpha == 0 {
      vram[offset] := color;
    } else if alpha != 0xff {
      var c := vram[offset];
      var c1 := Scaled(c, 0x00ff00ff, alpha);
      var c2 := Scaled(c, 0x0000ff00, alpha);
      vram[offset] := (And(color, 0x00ffffff) + c1 + c2) % WORD;
    }
  }

  /** blit_square: every covered pixel is blended once, from what it was, and no other changes. */
  method BlitSquare(vram: array<Word>, pitch: int, bgcolor: Word, r: Rect)
    requires pitch > 0 && Fits(r, pitch, vram.Length)
    modifies vram
    ensures forall o | 0 <= o < vram.Length ::
              vram[o] == if Covers(r, pitch, o) then Blend(AdjustAlpha(bgcolor), old(vram[o])) else old(vram[o])
  {
    hide Blend, AdjustAlpha, Visited, Offset;
    var color := AdjustAlpha(bgcolor);
    var x := 0;
    VisitEnds(r, pitch);
    while x < r.width
      invariant 0 <= x && (x <= r.width || x == 0)
      invariant forall o | 0 <= o < vram.Length ::
                  vram[o] == if Visited(r, pitch, x, 0, o) then Blend(color, old(vram[o])) else old(vram[o])
    {
      var y := 0;
      while y < r.height
        invariant 0 <= y && (y <= r.height || y == 0)
        invariant forall o | 0 <= o < vram.Length ::
                    vram[o] == if Visited(r, pitch, x, y, o) then Blend(color, old(vram[o])) else old(vram[o])
      {
        var offset := Offset(r.x + x, r.y + y, pitch);
        InBuffer(r, pitch, vram.Length, x, y);
        VisitNext(r, pitch, vram.Length, x, y, offset);
        Plot(vram, offset, color);
        forall o | 0 <= o < vram.Length
          ensures vram[o] == if Visited(r, pitch, x, y + 1, o) then Blend(color, old(vram[o])) else old(vram[o])
        {
          VisitNext(r, pitch, vram.Length, x, y, o);
        }
        y := y + 1;
      }
      NextColumn(r, pitch, x, y);
      x := x + 1;
    }
  }

  lemma NextColumn(r: Rect, pitch: int, x: int, y: int)
    requires pitch > 0 && y >= 0 && y >= r.height
    ensures forall o :: Visited(r, pitch, x, y, o) <==> Visited(r, pitch, x + 1, 0, o)
  {}

  lemma VisitEnds(r: Rect, pitch: int)
    requires pitch > 0
    ensures forall o :: !Visited(r, pitch, 0, 0, o)
    ensures forall o, x | x >= r.width :: Visited(r, pitch, x, 0, o) <==> Covers(r, pitch, o)
  {}
}
