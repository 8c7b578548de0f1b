// How the atlas texture grows.
module AtlasSizes {
  import opened Skyline

  predicate PowerOfTwo(v: int)
    decreases v
  {
    v == 1 || (v > 1 && v % 2 == 0 && PowerOfTwo(v / 2))
  }

  // The least power of two that is not below v.
  function UpperPowerOfTwo(v: int): (p: int)
    ensures v > 0 ==> v <= p < 2 * v && PowerOfTwo(p)
    ensures v <= 0 ==> p == 0
  {
    if v <= 0 then 0 else if v == 1 then 1 else 2 * UpperPowerOfTwo((v + 1) / 2)
  }

  function Clamp(v: int, lo: int, hi: int): int { if v < lo then lo else if v > hi then hi else v }

  datatype Bounds = Bounds(minW: int, maxW: int, minH: int, maxH: int)

  predicate IsBounds(b: Bounds) {
    && 2 <= b.minW <= b.maxW <= 0x1_0000 && 1 <= b.minH <= b.maxH <= 0x1_0000
    && PowerOfTwo(b.minW) && PowerOfTwo(b.maxW) && PowerOfTwo(b.minH) && PowerOfTwo(b.maxH)
  }

  predicate IsSize(b: Bounds, w: int, h: int) {
    b.minW <= w <= b.maxW && b.minH <= h <= b.maxH && PowerOfTwo(w) && PowerOfTwo(h)
  }

  // The next size after w by h: twice as high if it is not higher than wide, else twice as wide,
  // and with room for a needW by needH rectangle, within the bounds.
  function Grown(b: Bounds, w: int, h: int, needW: int, needH: int): (int, int) {
    var w1 := if h <= w then w else w * 2;
    var h1 := if h <= w then h * 2 else h;
    (Clamp(Max(w1, UpperPowerOfTwo(needW)), b.minW, b.maxW), Clamp(Max(h1, UpperPowerOfTwo(needH)), b.minH, b.maxH))
  }

  // Growing keeps to powers of two and never shrinks.
  lemma GrownIsSize(b: Bounds, w: int, h: int, needW: int, needH: int)
    requires IsBounds(b) && IsSize(b, w, h)
    ensures var (w', h') := Grown(b, w, h, needW, needH); IsSize(b, w', h') && w <= w' && h <= h'
  {
    hide UpperPowerOfTwo;
    DoublePower(w);
    DoublePower(h);
    UpperPower(needW);
    UpperPower(needH);
  }

  // Is w' by h' a size with the shorter side, or the height of a square, twice as long as in w by h
  // and with room for a needW by needH rectangle, or else at the bounds?
  predicate Enough(b: Bounds, w: int, h: int, needW: int, needH: int, w': int, h': int) {
    && IsSize(b, w', h') && w <= w' && h <= h'
    && (if h <= w then h' >= 2 * h || h' == b.maxH else w' >= 2 * w || w' == b.maxW)
    && (w' >= needW || w' == b.maxW) && (h' >= needH || h' == b.maxH)
  }

  // The next size is the least such size.
  lemma GrownIsLeast(b: Bounds, w: int, h: int, needW: int, needH: int)
    requires IsBounds(b) && IsSize(b, w, h)
    ensures var (gw, gh) := Grown(b, w, h, needW, needH);
      && Enough(b, w, h, needW, needH, gw, gh)
      && forall w', h' :: Enough(b, w, h, needW, needH, w', h') ==> gw <= w' && gh <= h'
  {
    hide PowerOfTwo, UpperPowerOfTwo;
    GrownIsSize(b, w, h, needW, needH);
    NeedMet(needW);
    NeedMet(needH);
    forall w', h' | Enough(b, w, h, needW, needH, w', h')
      ensures UpperPowerOfTwo(needW) <= w' || w' == b.maxW
      ensures UpperPowerOfTwo(needH) <= h' || h' == b.maxH
    {
      PowerFits(needW, w');
      PowerFits(needH, h');
    }
  }

  lemma NeedMet(v: int)
    ensures v <= UpperPowerOfTwo(v)
  {
  }

  lemma SizeRange(b: Bounds, w: int, h: int)
    requires IsBounds(b) && IsSize(b, w, h)
    ensures 2 <= w <= b.maxW <= 0x1_0000 && 1 <= h <= b.maxH <= 0x1_0000
  {
    hide PowerOfTwo;
  }

  lemma DoublePower(v: int)
    requires PowerOfTwo(v)
    ensures PowerOfTwo(v * 2) && v >= 1
  {
  }

  lemma UpperPower(v: int)
    ensures UpperPowerOfTwo(v) == 0 || PowerOfTwo(UpperPowerOfTwo(v))
  {
  }

  // Powers of two are equal or at least a factor of two apart.
  lemma {:induction false} PowersApart(p: int, q: int)
    requires PowerOfTwo(p) && PowerOfTwo(q) && p < q
    ensures 2 * p <= q
    decreases p
  {
    if p > 1 { PowersApart(p / 2, q / 2); }
  }

  // Growth ends exactly when the shorter side, or the height of a square, is at its bound and
  // the other is at its bound or has room for the largest rectangle.
  lemma GrowthEndsIff(b: Bounds, w: int, h: int, needW: int, needH: int)
    requires IsBounds(b) && IsSize(b, w, h)
    ensures Grown(b, w, h, needW, needH) == (w, h) <==>
      if h <= w then h == b.maxH && (w == b.maxW || needW <= w) else w == b.maxW && (h == b.maxH || needH <= h)
  {
    hide UpperPowerOfTwo, PowerOfTwo;
    PowerFits(needW, w);
    PowerFits(needH, h);
    if h < b.maxH { PowersApart(h, b.maxH); }
    if w < b.maxW { PowersApart(w, b.maxW); }
    assert w >= 1 && h >= 1;
  }

  lemma PowerFits(v: int, p: int)
    requires PowerOfTwo(p)
    ensures UpperPowerOfTwo(v) <= p <==> v <= p
  {
    var u := UpperPowerOfTwo(v);
    if v > 0 && v <= p < u { PowersApart(p, u); }
  }

  // With square bounds growth ends only at full size; with a wider bound it can end earlier.
  lemma GrowthReachesBounds(b: Bounds, w: int, h: int, needW: int, needH: int)
    requires IsBounds(b) && b.maxW == b.maxH && IsSize(b, w, h) && Grown(b, w, h, needW, needH) == (w, h)
    ensures w == b.maxW && h == b.maxH
  {
    GrowthEndsIff(b, w, h, needW, needH);
  }

  lemma GrowthEndsEarly()
    ensures var b := Bounds(2, 8, 1, 4); IsBounds(b) && IsSize(b, 4, 4) && Grown(b, 4, 4, 3, 3) == (4, 4)
  {
    var b := Bounds(2, 8, 1, 4);
    assert PowerOfTwo(2) && PowerOfTwo(4) && PowerOfTwo(8);
    GrowthEndsIff(b, 4, 4, 3, 3);
  }
}
